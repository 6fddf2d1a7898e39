/** What each signal makes of a turn: who a turn is attributed to, how it ended, and when the clock ends it;
    over every run. */
module TurnOutcomes {
  import opened Records
  import opened TurnEngineSpec
  import opened TurnObservations
  import opened TurnHistory
  import opened TurnTheorems

  // ---- runs and their last event -----------------------------------------------------------

  lemma {:induction false} PlayAppend(t: Trace, events: seq<Event>, last: Event)
    ensures Play(t, events + [last]) == After(Play(t, events), last)
    decreases |events|
  {
    if events == [] {
      assert events + [last] == [last] && [last][1..] == [];
    } else {
      assert (events + [last])[1..] == events[1..] + [last];
      PlayAppend(After(t, events[0]), events[1..], last);
    }
  }

  /** The run up to and including event `k`. */
  lemma RunNext(events: seq<Event>, k: nat)
    requires k < |events|
    ensures Run(events[..k + 1]) == After(Run(events[..k]), events[k])
  {
    assert events[..k + 1] == events[..k] + [events[k]];
    PlayAppend(Beginning, events[..k], events[k]);
  }

  // ---- stops ----------------------------------------------------------------------------------

  /** The turns an event newly returns. */
  function NewlyReturned(t: Trace, ev: Event): (r: seq<ClosedTurn>)
    requires |After(t, ev).returned| >= |t.returned|
  {
    After(t, ev).returned[|t.returned|..]
  }

  lemma ReturnedGrows(t: Trace, ev: Event)
    ensures |After(t, ev).returned| >= |t.returned| && t.returned <= After(t, ev).returned
  {}

  function FirstOf<T>(a: Option<T>, b: Option<T>): Option<T> {
    if a.Some? then a else b
  }

  /** A turn that a stop makes: rich, whole, and of the tool that sent the stop. */
  predicate OfTheStop(c: ClosedTurn, stop: Event)
    requires stop.Stop?
  {
    c.rich && !c.truncated && c.tool == Some(stop.tool)
  }

  /** What was open, ended on its own terms. */
  predicate EndedItself(open: OpenTurn, c: ClosedTurn) {
    && c.id == open.id && c.merges == []
    && c.tool == open.tool && c.prompt == open.prompt && c.session == open.session
    && (open.source == Bracket ==> c.boundary == Timeout && c.truncated && c.rich)
    && (open.source == Quiet ==> c.boundary == QuietWindow && !c.rich)
    && (open.source == Git ==> c.boundary == GitSettle && c.rich)
  }

  /** What a stop returns, by what was open: the bracket of the same tool, with its own prompt and session
      before those of the stop; the unattributed turn of the last fifteen minutes, as the stop's own; or
      else what was open, ended on its own terms and not the stop's, and then a new turn of the stop's. */
  predicate StopAnswer(open: Option<OpenTurn>, nextId: TurnId, stop: Event, xs: seq<ClosedTurn>)
    requires stop.Stop?
  {
    && xs != []
    && var c := xs[|xs| - 1];
       && OfTheStop(c, stop)
       && if open.Some? && open.value.source == Bracket && open.value.tool == Some(stop.tool) then
            && |xs| == 1 && c.id == open.value.id && c.boundary == BracketStop
            && c.prompt == FirstOf(open.value.prompt, stop.prompt)
            && c.session == FirstOf(open.value.session, stop.session)
          else
            && c.boundary == StopOnly && c.prompt == stop.prompt && c.session == stop.session
            && if open.Some? && open.value.source == Quiet && stop.now <= open.value.openedAt + 15 * 60 * 1000 then
                 |xs| == 1 && c.id == open.value.id
               else
                 && |xs| == (if open.Some? then 2 else 1) && c.id == nextId
                 && (open.Some? ==> EndedItself(open.value, xs[0]))
  }

  lemma FoldKeepsTerms(bares: seq<ClosedTurn>, turn: ClosedTurn, at: nat)
    ensures var c := Fold(bares, turn, at);
            && c.id == turn.id && c.rich == turn.rich && c.boundary == turn.boundary && c.truncated == turn.truncated
            && c.tool == turn.tool && c.prompt == turn.prompt && c.session == turn.session
  {}

  lemma StopAnswers(e: Engine, stop: Event)
    requires stop.Stop?
    ensures StopAnswer(e.open, e.nextId, stop, ObserveStop(e, stop.now, stop.tool, stop.prompt, stop.session).returned)
  {
    var turn := if StopsBracket(e.open, stop.tool) || StopConverts(e.open, stop.now)
                then StoppedTurn(e.open.value, stop.now, stop.tool, stop.prompt, stop.session)
                else EmptyRich(e.nextId, stop.now, stop.tool, stop.prompt, stop.session);
    FoldKeepsTerms(e.recentBare, turn, e.lastRichClosedAt);
  }

  /** A stop answers so from any state. */
  lemma StopReturnsExactly(t: Trace, stop: Event)
    requires stop.Stop?
    ensures |After(t, stop).returned| > |t.returned|
    ensures StopAnswer(t.engine.open, t.engine.nextId, stop, NewlyReturned(t, stop))
  {
    var step := ObserveStop(t.engine, stop.now, stop.tool, stop.prompt, stop.session);
    assert After(t, stop).returned == t.returned + step.returned;
    assert NewlyReturned(t, stop) == step.returned;
    StopAnswers(t.engine, stop);
  }

  /** Over every run: the last turn that a stop returns is rich and of the stop's tool. */
  lemma StopIsAttributed(events: seq<Event>, k: nat)
    requires k < |events| && events[k].Stop?
    ensures var t, u := Run(events[..k]), Run(events[..k + 1]);
            && |u.returned| > |t.returned|
            && OfTheStop(u.returned[|u.returned| - 1], events[k])
  {
    RunNext(events, k);
    RunInv(events[..k]);
    StopReturnsExactly(Run(events[..k]), events[k]);
  }

  // ---- brackets -------------------------------------------------------------------------------------

  /** Event `i` is the start that opened turn `id`. */
  predicate StartedAt(events: seq<Event>, i: nat, id: TurnId) {
    i < |events| && events[i].Start? && Run(events[..i]).engine.nextId == id
  }

  /** The attribution that the start of turn `id` gave it. */
  predicate NamedBy(start: Event, tool: Option<string>, prompt: Option<string>, session: Option<string>)
    requires start.Start?
  {
    tool == Some(start.tool) && prompt == start.prompt && session == start.session
  }

  /** `c` was ended at event `j` by a stop of the tool its start named; prompt and session are the start's
      where it gave them, and otherwise that stop's. */
  predicate StoppedAt(events: seq<Event>, i: nat, j: nat, c: ClosedTurn)
    requires i < |events| && events[i].Start?
  {
    && i < j < |events| && events[j].Stop? && events[j].tool == events[i].tool
    && c.tool == Some(events[i].tool) && !c.truncated
    && c.prompt == FirstOf(events[i].prompt, events[j].prompt)
    && c.session == FirstOf(events[i].session, events[j].session)
    && c in Run(events[..j + 1]).returned && c !in Run(events[..j]).returned
  }

  ghost predicate BracketStopped(events: seq<Event>, c: ClosedTurn) {
    exists i: nat, j: nat :: StartedAt(events, i, c.id) && StoppedAt(events, i, j, c)
  }

  ghost predicate BracketAbandoned(events: seq<Event>, c: ClosedTurn) {
    && c.truncated && c.rich && c.merges == []
    && exists i: nat :: StartedAt(events, i, c.id) && NamedBy(events[i], c.tool, c.prompt, c.session)
  }

  ghost predicate BracketBegun(events: seq<Event>, o: OpenTurn) {
    exists i: nat :: StartedAt(events, i, o.id) && NamedBy(events[i], o.tool, o.prompt, o.session)
  }

  /** How a closed turn came to be closed. */
  ghost predicate EndOk(events: seq<Event>, t: Trace, c: ClosedTurn) {
    && (c.rich <==> c.boundary != QuietWindow) && (c.truncated <==> c.boundary == Timeout)
    && c.openedAt <= c.closedAt
    && (c.id in t.starts <==> c.boundary == BracketStop || c.boundary == Timeout)
    && (c.boundary == BracketStop ==> BracketStopped(events, c))
    && (c.boundary == Timeout ==> BracketAbandoned(events, c))
    && (c.boundary == GitSettle ==> c.tool == Some("git") && c.prompt.None? && c.session.None? && c.merges == [])
    && (c.boundary == StopOnly ==> c.tool.Some?)
  }

  ghost predicate OpenEndOk(events: seq<Event>, t: Trace) {
    && (forall id :: id in t.starts ==> id < t.engine.nextId)
    && (t.engine.open.Some? ==>
          var o := t.engine.open.value;
          && (o.id in t.starts <==> o.source == Bracket)
          && (o.source == Bracket ==> BracketBegun(events, o))
          && (o.source == Git ==> o.tool == Some("git") && o.prompt.None? && o.session.None?))
  }

  ghost predicate EndsOk(events: seq<Event>, t: Trace) {
    OpenEndOk(events, t) && forall c :: c in Closed(t) ==> EndOk(events, t, c)
  }

  lemma MoreEventsStarted(events: seq<Event>, last: Event, i: nat, id: TurnId)
    requires StartedAt(events, i, id)
    ensures StartedAt(events + [last], i, id) && (events + [last])[i] == events[i]
  {
    assert (events + [last])[..i] == events[..i];
  }

  lemma MoreEventsStopped(events: seq<Event>, last: Event, c: ClosedTurn)
    requires BracketStopped(events, c)
    ensures BracketStopped(events + [last], c)
  {
    var i: nat, j: nat :| StartedAt(events, i, c.id) && StoppedAt(events, i, j, c);
    var more := events + [last];
    MoreEventsStarted(events, last, i, c.id);
    assert more[..j] == events[..j] && more[..j + 1] == events[..j + 1] && more[j] == events[j];
    assert StoppedAt(more, i, j, c);
  }

  lemma MoreEventsBegun(events: seq<Event>, last: Event, id: TurnId, tool: Option<string>, prompt: Option<string>, session: Option<string>)
    requires exists i: nat :: StartedAt(events, i, id) && NamedBy(events[i], tool, prompt, session)
    ensures exists i: nat :: StartedAt(events + [last], i, id) && NamedBy((events + [last])[i], tool, prompt, session)
  {
    var i: nat :| StartedAt(events, i, id) && NamedBy(events[i], tool, prompt, session);
    MoreEventsStarted(events, last, i, id);
  }

  /** What was so of a closed turn stays so. */
  lemma EndStays(events: seq<Event>, last: Event, t: Trace, u: Trace, c: ClosedTurn)
    requires EndOk(events, t, c) && (c.id in t.starts <==> c.id in u.starts)
    ensures EndOk(events + [last], u, c)
  {
    if c.boundary == BracketStop {
      MoreEventsStopped(events, last, c);
    }
    if c.boundary == Timeout {
      MoreEventsBegun(events, last, c.id, c.tool, c.prompt, c.session);
    }
  }

  /** The open turn, ended on its own terms. */
  lemma OwnTermsEndOk(events: seq<Event>, last: Event, t: Trace, u: Trace, now: nat)
    requires OpenEndOk(events, t) && OpenOk(t) && t.engine.open.Some?
    requires t.engine.open.value.id in t.starts <==> t.engine.open.value.id in u.starts
    ensures EndOk(events + [last], u, CloseOnItsTerms(t.engine.open.value, now))
  {
    var o := t.engine.open.value;
    if o.source == Bracket {
      MoreEventsBegun(events, last, o.id, o.tool, o.prompt, o.session);
    }
  }

  lemma ChangesEnd(events: seq<Event>, t: Trace, last: Event)
    requires Inv(t) && EndsOk(events, t) && last.Changes?
    ensures EndsOk(events + [last], After(t, last))
  {
    var u := After(t, last);
    assert Closed(u) == Closed(t);
    forall c | c in Closed(u) ensures EndOk(events + [last], u, c) {
      EndStays(events, last, t, u, c);
    }
    OpenStays(events, last, t, u);
  }

  /** The open turn's start is still its start. */
  lemma OpenStays(events: seq<Event>, last: Event, t: Trace, u: Trace)
    requires OpenEndOk(events, t) && t.engine.open.Some? && t.engine.open.value.source == Bracket
             ==> u.engine.open.Some? && u.engine.open.value.(files := []) == t.engine.open.value.(files := [])
    ensures OpenEndOk(events, t) && t.engine.open.Some? && t.engine.open.value.source == Bracket ==>
              BracketBegun(events + [last], u.engine.open.value)
  {
    if OpenEndOk(events, t) && t.engine.open.Some? && t.engine.open.value.source == Bracket {
      var o := t.engine.open.value;
      MoreEventsBegun(events, last, o.id, o.tool, o.prompt, o.session);
    }
  }

  lemma GitChangeEnds(events: seq<Event>, t: Trace, last: Event)
    requires Inv(t) && EndsOk(events, t) && last.GitChange?
    ensures EndsOk(events + [last], After(t, last))
  {
    var u := After(t, last);
    forall c | c in Closed(u) ensures EndOk(events + [last], u, c) {
      if c in Closed(t) {
        EndStays(events, last, t, u, c);
      }
    }
    if t.engine.open.Some? && t.engine.open.value.source == Bracket {
      OpenStays(events, last, t, u);
    }
  }

  /** A start, a tick and a shutdown close nothing but the open turn, on its own terms. */
  lemma OwnTermsEnd(events: seq<Event>, t: Trace, last: Event, c: ClosedTurn)
    requires Inv(t) && EndsOk(events, t) && (last.Start? || last.Ticked? || last.Shutdown?)
    requires c in Closed(After(t, last))
    ensures EndOk(events + [last], After(t, last), c)
  {
    var u := After(t, last);
    if c in Closed(t) {
      ClosedIsNotOpen(t, c);
      EndStays(events, last, t, u, c);
    } else {
      NewIsOnItsTerms(t, last, c);
      var o := t.engine.open.value;
      var now: nat :| c == CloseOnItsTerms(o, now);
      OwnTermsEndOk(events, last, t, u, now);
    }
  }

  lemma NewIsOnItsTerms(t: Trace, ev: Event, c: ClosedTurn)
    requires (ev.Start? || ev.Ticked? || ev.Shutdown?) && c in Closed(After(t, ev)) && c !in Closed(t)
    ensures t.engine.open.Some? && exists now: nat :: c == CloseOnItsTerms(t.engine.open.value, now)
  {
    match ev
    case Start(now, _, _, _) =>
      assert c == CloseOnItsTerms(t.engine.open.value, now);
    case Shutdown(now) =>
      assert c == CloseOnItsTerms(t.engine.open.value, now);
    case Ticked(now) =>
      var o := t.engine.open.value;
      var lastChange := if t.engine.lastChangeAt.Some? then t.engine.lastChangeAt.value else o.openedAt;
      assert c == CloseOnItsTerms(o, if o.source == Bracket then lastChange else now);
  }

  lemma StartOpens(events: seq<Event>, t: Trace, last: Event)
    requires t == Run(events) && OpenEndOk(events, t) && last.Start?
    ensures OpenEndOk(events + [last], After(t, last))
  {
    var more := events + [last];
    assert more[..|events|] == events && more[|events|] == last;
    assert StartedAt(more, |events|, t.engine.nextId);
  }

  lemma TickOpens(events: seq<Event>, t: Trace, last: Event)
    requires OpenEndOk(events, t) && (last.Ticked? || last.Shutdown?)
    ensures OpenEndOk(events + [last], After(t, last))
  {
    var u := After(t, last);
    if u.engine.open.Some? && t.engine.open.value.source == Bracket {
      OpenStays(events, last, t, u);
    }
  }

  /** The turn of the stop's own, before it merges fragments, and what is closed before it. */
  function OwnOfStop(t: Trace, stop: Event): ClosedTurn
    requires stop.Stop?
  {
    if StopsBracket(t.engine.open, stop.tool) || StopConverts(t.engine.open, stop.now)
    then StoppedTurn(t.engine.open.value, stop.now, stop.tool, stop.prompt, stop.session)
    else EmptyRich(t.engine.nextId, stop.now, stop.tool, stop.prompt, stop.session)
  }

  function ClosedByStop(t: Trace, stop: Event): seq<ClosedTurn>
    requires stop.Stop?
  {
    if StopsBracket(t.engine.open, stop.tool) || StopConverts(t.engine.open, stop.now) || t.engine.open.None? then []
    else [CloseOnItsTerms(t.engine.open.value, stop.now)]
  }

  lemma StopMakes(t: Trace, stop: Event)
    requires stop.Stop?
    ensures var u := After(t, stop);
            var c := Fold(t.engine.recentBare, OwnOfStop(t, stop), t.engine.lastRichClosedAt);
            && u.returned == t.returned + ClosedByStop(t, stop) + [c]
            && u.engine.pending == t.engine.pending && u.starts == t.starts
            && u.engine.open.None? && t.engine.nextId <= u.engine.nextId
  {
    var c := Fold(t.engine.recentBare, OwnOfStop(t, stop), t.engine.lastRichClosedAt);
    assert t.returned + (ClosedByStop(t, stop) + [c]) == t.returned + ClosedByStop(t, stop) + [c];
  }

  /** A merge changes the opening, the files and the list of merged turns, and nothing else. */
  lemma FoldKeeps(bares: seq<ClosedTurn>, turn: ClosedTurn, lastRich: nat)
    ensures var c := Fold(bares, turn, lastRich);
            && c == turn.(openedAt := c.openedAt, files := c.files, merges := c.merges)
            && c.openedAt <= turn.openedAt
  {
    EarliestIsEarlier(turn.openedAt, SortByOpened(Eligible(bares, turn, lastRich)));
  }

  lemma StoppedEnds(events: seq<Event>, t: Trace, stop: Event)
    requires t == Run(events) && Inv(t) && OpenEndOk(events, t) && stop.Stop?
    ensures EndOk(events + [stop], After(t, stop), Fold(t.engine.recentBare, OwnOfStop(t, stop), t.engine.lastRichClosedAt))
  {
    var own := OwnOfStop(t, stop);
    var c := Fold(t.engine.recentBare, own, t.engine.lastRichClosedAt);
    StopMakes(t, stop);
    FoldKeeps(t.engine.recentBare, own, t.engine.lastRichClosedAt);
    if StopsBracket(t.engine.open, stop.tool) {
      BracketStops(events, t, stop, c);
    }
  }

  lemma BracketStops(events: seq<Event>, t: Trace, stop: Event, c: ClosedTurn)
    requires t == Run(events) && Inv(t) && OpenEndOk(events, t) && stop.Stop? && StopsBracket(t.engine.open, stop.tool)
    requires var own := OwnOfStop(t, stop);
             && c.id == own.id && c.tool == own.tool && c.prompt == own.prompt && c.session == own.session
             && c.truncated == own.truncated && c in After(t, stop).returned
    ensures BracketStopped(events + [stop], c)
  {
    var o, more := t.engine.open.value, events + [stop];
    var i: nat :| StartedAt(events, i, o.id) && NamedBy(events[i], o.tool, o.prompt, o.session);
    MoreEventsStarted(events, stop, i, o.id);
    assert more[..|events|] == events && more[..|events| + 1] == more && more[|events|] == stop;
    PlayAppend(Beginning, events, stop);
    if c in t.returned {
      ClosedIsNotOpen(t, c);
    }
    assert StoppedAt(more, i, |events|, c);
  }

  lemma StopEnds(events: seq<Event>, t: Trace, stop: Event)
    requires t == Run(events) && Inv(t) && EndsOk(events, t) && stop.Stop?
    ensures EndsOk(events + [stop], After(t, stop))
  {
    var u := After(t, stop);
    StopMakes(t, stop);
    StoppedEnds(events, t, stop);
    forall c | c in Closed(u) ensures EndOk(events + [stop], u, c) {
      if c in Closed(t) {
        EndStays(events, stop, t, u, c);
      } else if c in ClosedByStop(t, stop) {
        OwnTermsEndOk(events, stop, t, u, stop.now);
      }
    }
  }

  lemma EventEnds(events: seq<Event>, t: Trace, last: Event)
    requires t == Run(events) && Inv(t) && EndsOk(events, t)
    ensures EndsOk(events + [last], After(t, last))
  {
    if last.Changes? {
      ChangesEnd(events, t, last);
    } else if last.GitChange? {
      GitChangeEnds(events, t, last);
    } else if last.Stop? {
      StopEnds(events, t, last);
    } else {
      forall c | c in Closed(After(t, last)) ensures EndOk(events + [last], After(t, last), c) {
        OwnTermsEnd(events, t, last, c);
      }
      if last.Start? {
        StartOpens(events, t, last);
      } else {
        TickOpens(events, t, last);
      }
    }
  }

  lemma {:induction false} RunEnds(events: seq<Event>)
    ensures EndsOk(events, Run(events))
    decreases |events|
  {
    if events != [] {
      var n := |events| - 1;
      assert events == events[..n] + [events[n]];
      RunEnds(events[..n]);
      RunInv(events[..n]);
      EventEnds(events[..n], Run(events[..n]), events[n]);
      PlayAppend(Beginning, events[..n], events[n]);
    }
  }

  lemma {:induction false} EarliestIsEarlier(at: nat, fragments: seq<ClosedTurn>)
    ensures EarliestOpened(at, fragments) <= at
    decreases |fragments|
  {
    if fragments != [] {
      EarliestIsEarlier(if fragments[0].openedAt < at then fragments[0].openedAt else at, fragments[1..]);
    }
  }

  // ---- over every run ------------------------------------------------------------------------------

  /** A bracket that a stop ended was ended by a stop of the tool that its start named; its prompt and its
      session are those of the start where the start gave them, and otherwise those of that stop. */
  lemma BracketIsOfItsTool(events: seq<Event>, c: ClosedTurn)
    requires c in Closed(Run(events)) && c.boundary == BracketStop
    ensures exists i: nat, j: nat :: StartedAt(events, i, c.id) && StoppedAt(events, i, j, c)
  {
    RunEnds(events);
    assert EndOk(events, Run(events), c);
  }

  /** A turn that a start opened and that closed in any other way is a timeout, is marked truncated, merged
      nothing, and is attributed as its start said. */
  lemma AbandonedBracketIsTruncated(events: seq<Event>, c: ClosedTurn, i: nat)
    requires c in Closed(Run(events)) && StartedAt(events, i, c.id) && c.boundary != BracketStop
    ensures c.boundary == Timeout && c.truncated && c.rich && c.merges == []
    ensures NamedBy(events[i], c.tool, c.prompt, c.session)
  {
    RunEnds(events);
    assert EndOk(events, Run(events), c);
    StartsAreKept(events, i, c.id);
    var k: nat :| StartedAt(events, k, c.id) && NamedBy(events[k], c.tool, c.prompt, c.session);
    OneStart(events, i, k, c.id);
  }

  /** And how each closed turn ended is said by the turn: bare exactly after a quiet window, truncated exactly
      when a bracket was abandoned, a git turn of no prompt and no session. */
  lemma EndIsSaid(events: seq<Event>, c: ClosedTurn)
    requires c in Closed(Run(events))
    ensures (c.rich <==> c.boundary != QuietWindow) && (c.truncated <==> c.boundary == Timeout)
    ensures c.boundary == GitSettle ==> c.tool == Some("git") && c.prompt.None? && c.session.None? && c.merges == []
    ensures c.openedAt <= c.closedAt
  {
    RunEnds(events);
    assert EndOk(events, Run(events), c);
  }

  lemma EventMints(t: Trace, ev: Event)
    ensures After(t, ev).engine.nextId >= t.engine.nextId
    ensures ev.Start? ==> After(t, ev).engine.nextId == t.engine.nextId + 1
    ensures forall id :: id in t.starts ==> id in After(t, ev).starts
    ensures ev.Start? ==> t.engine.nextId in After(t, ev).starts
  {}

  lemma LastEvent(events: seq<Event>)
    requires events != []
    ensures var n := |events| - 1; Run(events) == After(Run(events[..n]), events[n])
  {
    var n := |events| - 1;
    RunNext(events, n);
    assert events[..n + 1] == events;
  }

  lemma {:induction false} StartsAreKept(events: seq<Event>, i: nat, id: TurnId)
    requires StartedAt(events, i, id)
    ensures id in Run(events).starts && id < Run(events).engine.nextId
    decreases |events|
  {
    var n := |events| - 1;
    LastEvent(events);
    EventMints(Run(events[..n]), events[n]);
    if i < n {
      assert events[..n][..i] == events[..i] && events[..n][i] == events[i];
      assert StartedAt(events[..n], i, id);
      StartsAreKept(events[..n], i, id);
    }
  }

  /** A turn has one start. */
  lemma OneStart(events: seq<Event>, i: nat, k: nat, id: TurnId)
    requires StartedAt(events, i, id) && StartedAt(events, k, id)
    ensures i == k
  {
    if i < k {
      assert events[..k][..i] == events[..i];
      StartsAreKept(events[..k], i, id);
    } else if k < i {
      assert events[..i][..k] == events[..k];
      StartsAreKept(events[..i], k, id);
    }
  }

  // ---- the clock --------------------------------------------------------------------------------------

  /** The last time the open turn showed any life: its last change, or its opening. */
  function LastLife(e: Engine): nat
    requires e.open.Some?
  {
    if e.lastChangeAt.Some? then e.lastChangeAt.value else e.open.value.openedAt
  }

  /** The open turn may stay open at `now`: ten seconds after its last change, two for a git turn, and two
      hours after its start for a bracket, however quiet. */
  predicate MayStayOpen(e: Engine, now: nat)
    requires e.open.Some?
  {
    match e.open.value.source
    case Quiet => now <= LastLife(e) + 10_000
    case Git => now <= LastLife(e) + 2_000
    case Bracket => now <= e.open.value.openedAt + 7_200_000
  }

  /** `c` is the open turn `o`, ended when `at` was: everything but the way it ended is as it was. */
  predicate Ends(o: OpenTurn, at: nat, c: ClosedTurn) {
    && c.id == o.id && c.files == o.files && c.merges == []
    && c.tool == o.tool && c.prompt == o.prompt && c.session == o.session
    && c.openedAt == o.openedAt && c.closedAt == (if at < o.openedAt then o.openedAt else at)
    && c.boundary == (match o.source case Quiet => QuietWindow case Git => GitSettle case Bracket => Timeout)
    && (c.rich <==> o.source != Quiet) && (c.truncated <==> o.source == Bracket)
  }

  /** What a tick does: every queued turn is returned, fragments that closed more than fifteen minutes ago are
      forgotten, and the open turn ends exactly when its window has passed; a bracket ends as of its last
      change, and only a quiet turn becomes a fragment. */
  lemma TickEndsExactly(t: Trace, now: nat)
    ensures var e, u := t.engine, After(t, Ticked(now));
            var n := |t.returned + e.pending|;
            && u.engine.pending == [] && n <= |u.returned| <= n + 1 && u.returned[..n] == t.returned + e.pending
            && (|u.returned| == n + 1 <==> e.open.Some? && !MayStayOpen(e, now))
            && (|u.returned| == n ==> u.engine.open == e.open)
            && (|u.returned| == n + 1 ==>
                  && u.engine.open.None?
                  && Ends(e.open.value, if e.open.value.source == Bracket then LastLife(e) else now, u.returned[n]))
            && forall b :: b in u.engine.recentBare <==>
                 || (b in e.recentBare && now <= b.closedAt + 900_000)
                 || (|u.returned| == n + 1 && e.open.value.source == Quiet && b == u.returned[n])
  {
    var e, u := t.engine, After(t, Ticked(now));
    RetainedExactly(e.recentBare, now);
    var step := Tick(e, now);
    if e.open.Some? && !MayStayOpen(e, now) {
      var c := CloseOnItsTerms(e.open.value, if e.open.value.source == Bracket then LastLife(e) else now);
      assert step.returned == e.pending + [c];
      assert t.returned + (e.pending + [c]) == t.returned + e.pending + [c];
    } else {
      assert step.returned == e.pending;
    }
  }

  lemma {:induction false} RetainedExactly(bares: seq<ClosedTurn>, now: nat)
    ensures forall b :: b in Retain(bares, now) <==> b in bares && now <= b.closedAt + 900_000
    decreases |bares|
  {
    if bares != [] {
      RetainedExactly(bares[1..], now);
      assert bares == [bares[0]] + bares[1..];
    }
  }

  /** What a git change does: it takes over an unattributed turn that is at most twelve seconds old; an older
      one ends at its last change, as a fragment that the next tick returns; anything else stays. */
  lemma GitChangeExactly(t: Trace, now: nat)
    ensures var e, u := t.engine, After(t, GitChange(now));
            if e.open.None? || e.open.value.source != Quiet then
              u.engine.open == e.open && u.engine.pending == e.pending && u.engine.recentBare == e.recentBare
            else if now <= e.open.value.openedAt + 12_000 then
              && u.engine.open == Some(e.open.value.(source := Git, tool := Some("git")))
              && u.engine.pending == e.pending && u.engine.recentBare == e.recentBare
            else
              && u.engine.open.None? && |u.engine.pending| == |e.pending| + 1
              && var c := u.engine.pending[|e.pending|];
                 && Ends(e.open.value, LastLife(e), c)
                 && u.engine.pending == e.pending + [c] && u.engine.recentBare == e.recentBare + [c]
  {}

  /** The turn that a shutdown returns. */
  lemma ShutdownExactly(t: Trace, now: nat)
    ensures var e, u := t.engine, After(t, Shutdown(now));
            && u.engine.open.None? && u.engine.pending == e.pending
            && |u.returned| == |t.returned| + (if e.open.Some? then 1 else 0) && t.returned <= u.returned
            && (e.open.Some? ==> Ends(e.open.value, now, u.returned[|t.returned|]))
  {}

  /** What a start does: whatever was open ends on its own terms, and a bracket with the start's attribution
      opens. */
  lemma StartExactly(t: Trace, start: Event)
    requires start.Start?
    ensures var e, u := t.engine, After(t, start);
            && u.engine.open.Some? && u.engine.pending == e.pending && u.engine.recentBare == e.recentBare
            && (var o := u.engine.open.value;
                o.source == Bracket && o.id == e.nextId && o.openedAt == start.now && o.files == []
                && NamedBy(start, o.tool, o.prompt, o.session))
            && |u.returned| == |t.returned| + (if e.open.Some? then 1 else 0) && t.returned <= u.returned
            && (e.open.Some? ==> Ends(e.open.value, start.now, u.returned[|t.returned|]))
  {}

  /** Over every run, the git window ends two seconds after the last git change, and the last rich completion
      was that of the last stop. */
  lemma {:induction false} WindowsAre(events: seq<Event>)
    ensures var t := Run(events);
            && t.engine.gitWindowUntil == (if t.gits == [] then 0 else t.gits[|t.gits| - 1] + 2_000)
            && t.engine.lastRichClosedAt == LastStop(events)
    decreases |events|
  {
    if events != [] {
      var n := |events| - 1;
      WindowsAre(events[..n]);
      RunNext(events, n);
      assert events[..n + 1] == events;
      EventWindows(Run(events[..n]), events[n]);
    }
  }

  /** When the last stop came. */
  function LastStop(events: seq<Event>): nat {
    if events == [] then 0
    else if events[|events| - 1].Stop? then events[|events| - 1].now
    else LastStop(events[..|events| - 1])
  }

  lemma EventWindows(t: Trace, ev: Event)
    ensures var u := After(t, ev);
            && (if ev.GitChange? then u.gits == t.gits + [ev.now] && u.engine.gitWindowUntil == ev.now + 2_000
                else u.gits == t.gits && u.engine.gitWindowUntil == t.engine.gitWindowUntil)
            && u.engine.lastRichClosedAt == (if ev.Stop? then ev.now else t.engine.lastRichClosedAt)
  {}

  /** Over every run, changes with nothing open begin a turn of their own: a git turn exactly when the last git
      change was at most two seconds ago, and otherwise an unattributed one. */
  lemma ChangesBegin(events: seq<Event>, now: nat, changes: seq<ChangeObs>)
    requires changes != [] && Run(events).engine.open.None?
    ensures var t := Run(events);
            var u := After(t, Changes(now, changes));
            && u.engine.open.Some? && u.engine.lastChangeAt == Some(now)
            && var o := u.engine.open.value;
               && o.id == t.engine.nextId && o.openedAt == now && o.prompt.None? && o.session.None?
               && (o.source == Git <==> t.gits != [] && now <= t.gits[|t.gits| - 1] + 2_000)
               && (o.source == Git ==> o.tool == Some("git"))
               && (o.source != Git ==> o.source == Quiet && o.tool.None?)
  {
    WindowsAre(events);
  }

  // ---- merges ----------------------------------------------------------------------------------------------

  /** May fragment `b` be merged into a turn with this end that a stop just completed? */
  predicate Takes(c: ClosedTurn, begun: nat, lastStop: nat, b: ClosedTurn) {
    && c.closedAt <= b.closedAt + 900_000 && c.closedAt <= b.openedAt + 900_000
    && lastStop <= b.closedAt
    && (c.boundary == BracketStop ==> begun <= b.closedAt)
  }

  lemma {:induction false} EligibleExactly(bares: seq<ClosedTurn>, turn: ClosedTurn, lastRich: nat)
    ensures forall b :: b in Eligible(bares, turn, lastRich) <==> b in bares && Takes(turn, turn.openedAt, lastRich, b)
    decreases |bares|
  {
    if bares != [] {
      EligibleExactly(bares[1..], turn, lastRich);
      assert bares == [bares[0]] + bares[1..];
      assert Foldable(bares[0], turn, lastRich) <==> Takes(turn, turn.openedAt, lastRich, bares[0]);
    }
  }

  lemma {:induction false} EarliestIsOne(at: nat, fragments: seq<ClosedTurn>)
    ensures var first := EarliestOpened(at, fragments);
            && first <= at && (forall b :: b in fragments ==> first <= b.openedAt)
            && (first == at || exists b :: b in fragments && b.openedAt == first)
    decreases |fragments|
  {
    if fragments != [] {
      EarliestIsOne(if fragments[0].openedAt < at then fragments[0].openedAt else at, fragments[1..]);
      assert fragments == [fragments[0]] + fragments[1..];
    }
  }

  lemma FragmentsExactly(bares: seq<ClosedTurn>, turn: ClosedTurn, lastRich: nat)
    ensures forall b :: b in SortByOpened(Eligible(bares, turn, lastRich)) <==>
              b in bares && Takes(turn, turn.openedAt, lastRich, b)
  {
    var eligible := Eligible(bares, turn, lastRich);
    EligibleExactly(bares, turn, lastRich);
    forall b ensures b in SortByOpened(eligible) <==> b in eligible {
      assert b in multiset(SortByOpened(eligible)) <==> b in multiset(eligible);
    }
  }

  lemma IdsAre(turns: seq<ClosedTurn>)
    ensures forall m :: m in Ids(turns) <==> exists b :: b in turns && b.id == m
  {
    forall m | m in Ids(turns) ensures exists b :: b in turns && b.id == m {
      var i :| 0 <= i < |turns| && Ids(turns)[i] == m;
      assert turns[i] in turns;
    }
    forall b | b in turns ensures b.id in Ids(turns) {
      var i :| 0 <= i < |turns| && turns[i] == b;
      assert Ids(turns)[i] == b.id;
    }
  }

  /** `c`, which began at `begun`, merged exactly the waiting fragments it may take, and opens with the earliest. */
  ghost predicate TookExactly(bares: seq<ClosedTurn>, c: ClosedTurn, begun: nat, lastStop: nat) {
    && (forall m :: m in c.merges <==> exists b :: b in bares && b.id == m && Takes(c, begun, lastStop, b))
    && c.openedAt <= begun
    && (forall b :: b in bares && Takes(c, begun, lastStop, b) ==> c.openedAt <= b.openedAt)
    && (c.openedAt == begun || exists b :: b in bares && Takes(c, begun, lastStop, b) && b.openedAt == c.openedAt)
  }

  lemma TookFragments(bares: seq<ClosedTurn>, frags: seq<ClosedTurn>, c: ClosedTurn, begun: nat, lastStop: nat)
    requires forall b :: b in frags <==> b in bares && Takes(c, begun, lastStop, b)
    requires c.merges == Ids(frags) && c.openedAt == EarliestOpened(begun, frags)
    ensures TookExactly(bares, c, begun, lastStop)
  {
    IdsAre(frags);
    EarliestIsOne(begun, frags);
  }

  lemma FoldTakesExactly(bares: seq<ClosedTurn>, turn: ClosedTurn, lastRich: nat)
    requires turn.merges == []
    ensures TookExactly(bares, Fold(bares, turn, lastRich), turn.openedAt, lastRich)
  {
    var frags := SortByOpened(Eligible(bares, turn, lastRich));
    var c := Fold(bares, turn, lastRich);
    FragmentsExactly(bares, turn, lastRich);
    FoldKeeps(bares, turn, lastRich);
    assert c.merges == Ids(frags);
    TookFragments(bares, frags, c, turn.openedAt, lastRich);
  }

  /** When the turn that a stop completed began: its own start if it was open, and otherwise the stop. */
  function Begun(t: Trace, stop: Event, c: ClosedTurn): nat {
    if t.engine.open.Some? && c.id == t.engine.open.value.id then t.engine.open.value.openedAt else stop.now
  }

  lemma OwnBegins(t: Trace, stop: Event)
    requires stop.Stop? && OpenOk(t)
    ensures OwnOfStop(t, stop).merges == []
    ensures OwnOfStop(t, stop).openedAt == Begun(t, stop, OwnOfStop(t, stop))
  {}

  /** Over every run, the turn that a stop completes merges exactly the waiting fragments that lie within
      fifteen minutes of its end, closed no earlier than the last stop and, for a bracket, than its start; it
      opens with the earliest of them, and none of them waits any longer. */
  lemma StopMergesExactly(events: seq<Event>, k: nat)
    requires k < |events| && events[k].Stop?
    ensures var t, u := Run(events[..k]), Run(events[..k + 1]);
            && u.returned != [] && u.engine.recentBare == []
            && var c := u.returned[|u.returned| - 1];
               TookExactly(t.engine.recentBare, c, Begun(t, events[k], c), LastStop(events[..k]))
  {
    var t, stop := Run(events[..k]), events[k];
    RunNext(events, k);
    RunInv(events[..k]);
    WindowsAre(events[..k]);
    StopMakes(t, stop);
    OwnBegins(t, stop);
    FoldTakesExactly(t.engine.recentBare, OwnOfStop(t, stop), t.engine.lastRichClosedAt);
    FoldKeeps(t.engine.recentBare, OwnOfStop(t, stop), t.engine.lastRichClosedAt);
    StopForgets(t, stop);
  }

  lemma StopForgets(t: Trace, stop: Event)
    requires stop.Stop?
    ensures After(t, stop).engine.recentBare == []
  {}
}
