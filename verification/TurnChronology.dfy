/** Runs of the turn engine under a clock that never runs backwards: fragments come one after the other,
    so a merge keeps the true originals, and every git turn opened near a git change. */
module TurnChronology {
  import opened Records
  import opened TurnEngineSpec
  import opened TurnObservations
  import opened TurnHistory
  import opened TurnTheorems

  /** Opened within `[g - (settle + quiet), g + settle]` of some git change `g`. */
  ghost predicate Near(gits: seq<nat>, at: nat) {
    exists g :: g in gits && g <= at + GIT_SETTLE_MS + QUIET_MS && at <= g + GIT_SETTLE_MS
  }

  ghost predicate ClockOk(t: Trace) {
    var e := t.engine;
    && InSequence(e.recentBare)
    && (forall b :: b in e.recentBare ==> b.closedAt <= t.clock)
    && (e.open.Some? ==>
          && e.open.value.openedAt <= t.clock
          && (e.lastChangeAt.Some? ==> e.open.value.openedAt <= e.lastChangeAt.value <= t.clock)
          && forall b :: b in e.recentBare ==> b.closedAt <= e.open.value.openedAt)
  }

  ghost predicate GitsOk(t: Trace) {
    var e := t.engine;
    && (forall g :: g in t.gits ==> g <= t.clock)
    && (e.gitWindowUntil > 0 ==> exists g :: g in t.gits && e.gitWindowUntil == g + GIT_SETTLE_MS)
    && (e.open.Some? && e.open.value.source == Git ==> Near(t.gits, e.open.value.openedAt))
    && (forall c :: c in Closed(t) && c.boundary == GitSettle ==> Near(t.gits, c.openedAt))
  }

  ghost predicate OriginalsOk(t: Trace) {
    forall c :: c in Closed(t) ==> Originals(t.hist, Covered(c.id, c.merges), c.files)
  }

  ghost predicate MergedInOrder(t: Trace) {
    forall c :: c in Closed(t) ==> Increasing(c.merges)
  }

  ghost predicate Chronological(t: Trace) {
    ClockOk(t) && GitsOk(t) && OriginalsOk(t) && MergedInOrder(t)
  }

  // ---- the clock ------------------------------------------------------------------------

  lemma InSequenceAppend(bares: seq<ClosedTurn>, c: ClosedTurn)
    requires InSequence(bares) && c.openedAt <= c.closedAt
    requires forall b :: b in bares ==> b.closedAt <= c.openedAt
    ensures InSequence(bares + [c])
  {}

  lemma TickKeepsClock(t: Trace, now: nat)
    requires ClockOk(t) && t.clock <= now
    ensures ClockOk(After(t, Ticked(now)))
  {
    var e, u := t.engine, After(t, Ticked(now));
    var kept := Retain(e.recentBare, now);
    RetainPart(e.recentBare, now);
    if e.open.Some? && e.open.value.source == Quiet && u.engine.open.None? {
      var c := CloseOnItsTerms(e.open.value, now);
      assert u.engine.recentBare == kept + [c];
      InSequenceAppend(kept, c);
    } else {
      assert u.engine.recentBare == kept;
    }
  }

  lemma GitKeepsClock(t: Trace, now: nat)
    requires ClockOk(t) && t.clock <= now
    ensures ClockOk(After(t, GitChange(now)))
  {
    var e, u := t.engine, After(t, GitChange(now));
    if e.open.Some? && u.engine.open.None? {
      var c := Finish(e.open.value, if e.lastChangeAt.Some? then e.lastChangeAt.value else e.open.value.openedAt,
                      QuietWindow, false, false);
      assert u.engine.recentBare == e.recentBare + [c];
      InSequenceAppend(e.recentBare, c);
    }
  }

  lemma EventKeepsClock(t: Trace, ev: Event)
    requires OpenOk(t) && ClockOk(t) && t.clock <= ev.now
    ensures ClockOk(After(t, ev))
  {
    match ev
    case Ticked(now) => TickKeepsClock(t, now);
    case GitChange(now) => GitKeepsClock(t, now);
    case _ =>
  }

  // ---- git turns ---------------------------------------------------------------------------

  lemma MoreGits(gits: seq<nat>, g: nat, at: nat)
    requires Near(gits, at)
    ensures Near(gits + [g], at)
  {
    var near :| near in gits && near <= at + GIT_SETTLE_MS + QUIET_MS && at <= near + GIT_SETTLE_MS;
    assert near in gits + [g];
  }

  lemma GitChangeKeepsGits(t: Trace, now: nat)
    requires ClockOk(t) && GitsOk(t) && t.clock <= now
    ensures GitsOk(After(t, GitChange(now)))
  {
    var u := After(t, GitChange(now));
    assert now in u.gits;
    forall c | c in Closed(u) && c.boundary == GitSettle ensures Near(u.gits, c.openedAt) {
      assert c in Closed(t);
      MoreGits(t.gits, now, c.openedAt);
    }
    if t.engine.open.Some? && t.engine.open.value.source == Git {
      MoreGits(t.gits, now, t.engine.open.value.openedAt);
    }
  }

  lemma ChangesKeepGits(t: Trace, now: nat, changes: seq<ChangeObs>)
    requires ClockOk(t) && GitsOk(t) && t.clock <= now
    ensures GitsOk(After(t, Changes(now, changes)))
  {
    var u := After(t, Changes(now, changes));
    assert Closed(u) == Closed(t);
    if t.engine.open.None? && t.engine.gitWindowUntil > 0 {
      var g :| g in t.gits && t.engine.gitWindowUntil == g + GIT_SETTLE_MS;
      assert now <= t.engine.gitWindowUntil ==> Near(t.gits, now);
    }
  }

  /** The turns an event newly returns: the pending ones, the open one on its own terms, or a rich turn
      that is not a git turn. */
  lemma EventReturns(t: Trace, ev: Event, c: ClosedTurn)
    requires c in Closed(After(t, ev)) && c !in Closed(t) && c.boundary == GitSettle
    ensures t.engine.open.Some? && t.engine.open.value.source == Git && c.openedAt == t.engine.open.value.openedAt
  {
    if ev.Stop? {
      StopReturns(t, ev, c);
    }
  }

  lemma StopReturns(t: Trace, ev: Event, c: ClosedTurn)
    requires ev.Stop? && c in Closed(After(t, ev)) && c !in Closed(t) && c.boundary == GitSettle
    ensures t.engine.open.Some? && t.engine.open.value.source == Git && c.openedAt == t.engine.open.value.openedAt
  {
    var step := ObserveStop(t.engine, ev.now, ev.tool, ev.prompt, ev.session);
    assert c in step.returned;
  }

  lemma EventKeepsGits(t: Trace, ev: Event)
    requires ClockOk(t) && GitsOk(t) && t.clock <= ev.now
    ensures GitsOk(After(t, ev))
  {
    var u := After(t, ev);
    if ev.GitChange? {
      GitChangeKeepsGits(t, ev.now);
    } else if ev.Changes? {
      ChangesKeepGits(t, ev.now, ev.changes);
    } else {
      forall c | c in Closed(u) && c.boundary == GitSettle ensures Near(u.gits, c.openedAt) {
        if c !in Closed(t) {
          EventReturns(t, ev, c);
        }
      }
    }
  }

  // ---- originals ----------------------------------------------------------------------------

  ghost predicate OpenedInOrder(bares: seq<ClosedTurn>) {
    forall i, j :: 0 <= i < j < |bares| ==> bares[i].openedAt <= bares[j].openedAt
  }

  lemma SortStep(bares: seq<ClosedTurn>, last: ClosedTurn)
    ensures SortByOpened(bares + [last]) == InsertByOpened(SortByOpened(bares), last)
  {
    assert (bares + [last])[..|bares|] == bares;
  }

  lemma {:induction false} SortedAlready(bares: seq<ClosedTurn>)
    requires OpenedInOrder(bares)
    ensures SortByOpened(bares) == bares
    decreases |bares|
  {
    if bares != [] {
      var front, last := bares[..|bares| - 1], bares[|bares| - 1];
      assert bares == front + [last];
      SortedAlready(front);
      SortStep(front, last);
      InsertedLast(front, last);
    }
  }

  lemma InsertedLast(sorted: seq<ClosedTurn>, b: ClosedTurn)
    requires sorted != [] ==> sorted[|sorted| - 1].openedAt <= b.openedAt
    ensures InsertByOpened(sorted, b) == sorted + [b]
  {}

  lemma InSequenceInOrder(bares: seq<ClosedTurn>)
    requires InSequence(bares)
    ensures OpenedInOrder(bares)
  {
    forall i, j | 0 <= i < j < |bares| ensures bares[i].openedAt <= bares[j].openedAt {
      assert bares[i].openedAt <= bares[i].closedAt;
    }
  }

  /** Under a clock that never runs backwards, sorting the eligible fragments by opening time leaves them
      in the order in which they closed. */
  lemma FragmentsInTurnOrder(e: Engine, turn: ClosedTurn)
    requires InSequence(e.recentBare) && IncreasingIds(e.recentBare)
    ensures IncreasingIds(Fragments(e, turn))
  {
    var eligible := Eligible(e.recentBare, turn, e.lastRichClosedAt);
    EligiblePart(e.recentBare, turn, e.lastRichClosedAt);
    InSequenceInOrder(eligible);
    SortedAlready(eligible);
  }

  lemma FragmentsOk(t: Trace, turn: ClosedTurn)
    requires Inv(t) && turn.id == OpenId(t.engine)
    ensures forall b :: b in Fragments(t.engine, turn) ==> TurnOk(t.hist, b.id, b.files) && b.id < turn.id
  {
    var e := t.engine;
    FragmentsAreRecent(e, turn);
    forall b | b in Fragments(e, turn) ensures TurnOk(t.hist, b.id, b.files) && b.id < turn.id {
      assert b in Closed(t);
      assert ClosedOk(t.hist, b);
      RecentIsOlder(t, b);
    }
  }

  /** A merge keeps, for each path, the original of the earliest observation among all it merged. */
  lemma MergedFragmentsKeepOriginals(hist: seq<Seen>, turn: ClosedTurn, frags: seq<ClosedTurn>)
    requires InTurnOrder(hist) && TurnOk(hist, turn.id, turn.files) && turn.merges == [] && IncreasingIds(frags)
    requires forall b :: b in frags ==> TurnOk(hist, b.id, b.files) && b.id < turn.id
    ensures var c := MergeInto(turn, frags); Originals(hist, Covered(c.id, c.merges), c.files)
  {
    UnmergedOk(hist, turn.id, turn.files);
    FoldFragmentsOk(hist, turn.id, [], Merge(turn.files, {}), frags);
    FoldFragmentsOriginals(hist, turn.id, [], Merge(turn.files, {}), frags);
    assert [] + Ids(frags) == Ids(frags);
    MergedOriginals(hist, turn.id, Ids(frags), FoldFragments(Merge(turn.files, {}), frags));
  }

  lemma FoldKeepsOriginals(t: Trace, turn: ClosedTurn)
    requires Inv(t) && ReadyToFold(t, turn) && InSequence(t.engine.recentBare)
    ensures var c := Fold(t.engine.recentBare, turn, t.engine.lastRichClosedAt);
            Originals(t.hist, Covered(c.id, c.merges), c.files)
  {
    FragmentsInTurnOrder(t.engine, turn);
    FragmentsOk(t, turn);
    MergedFragmentsKeepOriginals(t.hist, turn, Fragments(t.engine, turn));
  }

  lemma UnmergedOriginals(hist: seq<Seen>, c: ClosedTurn)
    requires ClosedOk(hist, c) && c.merges == []
    ensures Originals(hist, Covered(c.id, c.merges), c.files)
  {
    assert Covered(c.id, []) == {c.id};
  }

  lemma ChangesKeepOriginals(t: Trace, now: nat, changes: seq<ChangeObs>)
    requires Inv(t) && OriginalsOk(t)
    ensures OriginalsOk(After(t, Changes(now, changes)))
  {
    var u := After(t, Changes(now, changes));
    assert Closed(u) == Closed(t);
    forall c | c in Closed(u) ensures Originals(u.hist, Covered(c.id, c.merges), c.files) {
      CoveredIsPast(t, c);
      assert ClosedOk(t.hist, c);
      MoreSeenElsewhere(t.hist, Tagged(OpenId(t.engine), changes), c);
    }
  }

  /** Completing a rich turn adds the merged turn and nothing else that merges. */
  lemma CompletedKeepsOriginals(t: Trace, u: Trace, turn: ClosedTurn)
    requires Inv(t) && Completed(t, u, turn) && ReadyToFold(t, turn)
    requires OriginalsOk(t) && InSequence(t.engine.recentBare)
    ensures OriginalsOk(u)
  {
    FoldKeepsOriginals(t, turn);
    forall c | c in Closed(u) ensures Originals(u.hist, Covered(c.id, c.merges), c.files) {
      assert c in Closed(t) || c == Fold(t.engine.recentBare, turn, t.engine.lastRichClosedAt);
    }
  }

  lemma QuietedKeepsOriginals(t: Trace, now: nat)
    requires Inv(t) && OriginalsOk(t)
    ensures OriginalsOk(Quieted(t, now))
  {
    QuietKeepsInv(t, now);
    var q := Quieted(t, now);
    forall c | c in Closed(q) ensures Originals(q.hist, Covered(c.id, c.merges), c.files) {
      assert ClosedOk(q.hist, c);
      if c !in Closed(t) {
        UnmergedOriginals(q.hist, c);
      }
    }
  }

  lemma StopKeepsOriginals(t: Trace, now: nat, tool: string, prompt: Option<string>, session: Option<string>)
    requires Inv(t) && OriginalsOk(t) && InSequence(t.engine.recentBare)
    ensures OriginalsOk(After(t, Stop(now, tool, prompt, session)))
  {
    var u := After(t, Stop(now, tool, prompt, session));
    if StopsBracket(t.engine.open, tool) || StopConverts(t.engine.open, now) {
      StopClosesShape(t, now, tool, prompt, session);
      StoppedTurnIsReady(t, now, tool, prompt, session);
      CompletedKeepsOriginals(t, u, StoppedTurn(t.engine.open.value, now, tool, prompt, session));
    } else {
      var q := Quieted(t, now);
      QuietKeepsInv(t, now);
      QuietedKeepsOriginals(t, now);
      StopMintsShape(t, now, tool, prompt, session);
      OpeningTurnOk(q);
      CompletedKeepsOriginals(q, u, EmptyRich(q.engine.nextId, now, tool, prompt, session));
    }
  }

  lemma OthersMergeNothing(t: Trace, ev: Event, c: ClosedTurn)
    requires !ev.Changes? && !ev.Stop? && c in Closed(After(t, ev)) && c !in Closed(t)
    ensures c.merges == []
  {}

  lemma EventKeepsOriginals(t: Trace, ev: Event)
    requires Inv(t) && Inv(After(t, ev)) && OriginalsOk(t) && ClockOk(t)
    ensures OriginalsOk(After(t, ev))
  {
    if ev.Changes? {
      ChangesKeepOriginals(t, ev.now, ev.changes);
    } else if ev.Stop? {
      StopKeepsOriginals(t, ev.now, ev.tool, ev.prompt, ev.session);
    } else {
      NewTurnsKeepOriginals(t, ev);
    }
  }

  lemma NewTurnsKeepOriginals(t: Trace, ev: Event)
    requires !ev.Changes? && !ev.Stop? && AllClosedOk(After(t, ev)) && OriginalsOk(t)
    ensures OriginalsOk(After(t, ev))
  {
    var u := After(t, ev);
    assert u.hist == t.hist;
    forall c | c in Closed(u) ensures Originals(u.hist, Covered(c.id, c.merges), c.files) {
      assert ClosedOk(u.hist, c);
      if c !in Closed(t) {
        OthersMergeNothing(t, ev, c);
        UnmergedOriginals(u.hist, c);
      }
    }
  }

  // ---- the order of merges ---------------------------------------------------------------------

  lemma IdsIncrease(turns: seq<ClosedTurn>)
    requires IncreasingIds(turns)
    ensures Increasing(Ids(turns))
  {}

  lemma FoldMerges(e: Engine, turn: ClosedTurn)
    requires turn.merges == []
    ensures Fold(e.recentBare, turn, e.lastRichClosedAt).merges == Ids(Fragments(e, turn))
  {
    assert [] + Ids(Fragments(e, turn)) == Ids(Fragments(e, turn));
  }

  lemma FoldInOrder(e: Engine, turn: ClosedTurn)
    requires InSequence(e.recentBare) && IncreasingIds(e.recentBare) && turn.merges == []
    ensures Increasing(Fold(e.recentBare, turn, e.lastRichClosedAt).merges)
  {
    FragmentsInTurnOrder(e, turn);
    IdsIncrease(Fragments(e, turn));
    FoldMerges(e, turn);
  }

  lemma CompletedInOrder(t: Trace, u: Trace, turn: ClosedTurn)
    requires RecentOk(t) && Completed(t, u, turn) && turn.merges == []
    requires MergedInOrder(t) && InSequence(t.engine.recentBare)
    ensures MergedInOrder(u)
  {
    FoldInOrder(t.engine, turn);
    forall x | x in Closed(u) ensures Increasing(x.merges) {
      assert x in Closed(t) || x == Fold(t.engine.recentBare, turn, t.engine.lastRichClosedAt);
    }
  }

  lemma StopKeepsOrder(t: Trace, now: nat, tool: string, prompt: Option<string>, session: Option<string>)
    requires Inv(t) && MergedInOrder(t) && InSequence(t.engine.recentBare)
    ensures MergedInOrder(After(t, Stop(now, tool, prompt, session)))
  {
    var u := After(t, Stop(now, tool, prompt, session));
    if StopsBracket(t.engine.open, tool) || StopConverts(t.engine.open, now) {
      StopClosesShape(t, now, tool, prompt, session);
      CompletedInOrder(t, u, StoppedTurn(t.engine.open.value, now, tool, prompt, session));
    } else {
      var q := Quieted(t, now);
      QuietKeepsInv(t, now);
      StopMintsShape(t, now, tool, prompt, session);
      CompletedInOrder(q, u, EmptyRich(q.engine.nextId, now, tool, prompt, session));
    }
  }

  lemma EventKeepsOrder(t: Trace, ev: Event)
    requires Inv(t) && ClockOk(t) && MergedInOrder(t)
    ensures MergedInOrder(After(t, ev))
  {
    if ev.Stop? {
      StopKeepsOrder(t, ev.now, ev.tool, ev.prompt, ev.session);
    } else if !ev.Changes? {
      forall c | c in Closed(After(t, ev)) ensures Increasing(c.merges) {
        if c !in Closed(t) {
          OthersMergeNothing(t, ev, c);
        }
      }
    }
  }

  // ---- every run --------------------------------------------------------------------------

  lemma {:induction false} PlayIsChronological(t: Trace, events: seq<Event>)
    requires Inv(t) && Chronological(t) && Monotone(t.clock, events)
    ensures Chronological(Play(t, events))
    decreases |events|
  {
    if events != [] {
      var u := After(t, events[0]);
      EventKeepsInv(t, events[0]);
      EventKeepsClock(t, events[0]);
      EventKeepsGits(t, events[0]);
      EventKeepsOriginals(t, events[0]);
      EventKeepsOrder(t, events[0]);
      assert u.clock == events[0].now;
      PlayIsChronological(u, events[1..]);
    }
  }

  lemma RunIsChronological(events: seq<Event>)
    requires Monotone(0, events)
    ensures Inv(Run(events)) && Chronological(Run(events))
  {
    BeginningInv();
    RunInv(events);
    PlayIsChronological(Beginning, events);
  }

  /** For every path of every closed turn, merged or not, `before` and the unknown-baseline flag are those
      of the earliest observation of that path in any of the turns the record stands for. */
  lemma MergeKeepsTheTrueOriginal(events: seq<Event>, c: ClosedTurn, i: nat)
    requires Monotone(0, events) && c in Closed(Run(events)) && i < |c.files|
    ensures var o := Origin(Run(events).hist, Covered(c.id, c.merges), c.files[i].path);
            o.Some? && c.files[i].beforeHash == o.value.beforeHash && c.files[i].baselineUnknown == o.value.baselineUnknown
  {
    var t := Run(events);
    RunIsChronological(events);
    assert ClosedOk(t.hist, c);
    var p := c.files[i].path;
    assert Originals(t.hist, Covered(c.id, c.merges), c.files);
    assert SameOriginal(Lookup(c.files, p), Origin(t.hist, Covered(c.id, c.merges), p));
    assert FindPath(c.files, p) == i;
  }

  /** "The latest observation wins", exactly: the terminal flags of a path in a closed turn are those of its
      latest observation in any of the turns the record stands for if and only if the turn itself observed
      it, at most one merged fragment did, or the first and the last fragment that did agree on them. */
  lemma LatestFlagsExactly(events: seq<Event>, c: ClosedTurn, p: Path)
    requires Monotone(0, events) && c in Closed(Run(events))
    ensures var hist := Run(events).hist;
            SameFlags(Lookup(c.files, p), Latest(hist, Covered(c.id, c.merges), p))
            <==> LatestWins(hist, c.id, c.merges, p)
  {
    var t := Run(events);
    RunIsChronological(events);
    assert ClosedOk(t.hist, c) && MergedPath(t.hist, c.id, c.merges, c.files, p);
    forall m | m in c.merges ensures m < c.id {
      AllTurnsOk(t, c);
      assert MergeOk(t, c, m);
    }
    FlagsExactly(t.hist, c.id, c.merges, c.files, p);
  }

  /** A file is deleted, a quiet window passes, it is written again, another passes, and a stop without a
      start claims both fragments. */
  function DeletedAndRestored(path: Path, was: Hash): seq<Event> {
    [Changes(0, [Deleted(path, was)]), Ticked(QUIET_MS + 1),
     Changes(QUIET_MS + 2, [Restored(path)]), Ticked(2 * QUIET_MS + 3),
     Stop(2 * QUIET_MS + 4, "agent", None, None)]
  }

  function Deleted(path: Path, was: Hash): ChangeObs {
    ChangeObs(path, Some(was), true, false, false, true, None)
  }

  function Restored(path: Path): ChangeObs {
    ChangeObs(path, None, true, false, false, false, None)
  }

  /** The two fragments, and the turn that merges them. */
  function FirstFragment(path: Path, was: Hash): ClosedTurn {
    ClosedTurn(0, false, QuietWindow, false, None, None, None, 0, QUIET_MS + 1, [Deleted(path, was)], [])
  }

  function SecondFragment(path: Path): ClosedTurn {
    ClosedTurn(1, false, QuietWindow, false, None, None, None, QUIET_MS + 2, 2 * QUIET_MS + 3, [Restored(path)], [])
  }

  function StaleTurn(path: Path, was: Hash): ClosedTurn {
    ClosedTurn(2, true, StopOnly, false, Some("agent"), None, None, 0, 2 * QUIET_MS + 4, [Deleted(path, was)], [0, 1])
  }

  lemma StaleMerge(path: Path, was: Hash)
    ensures FoldFragments(Merge([], {}), [FirstFragment(path, was), SecondFragment(path)])
         == Merge([Deleted(path, was)], {path})
  {
    var b0, b1 := FirstFragment(path, was), SecondFragment(path);
    var m := Merge([Deleted(path, was)], {path});
    assert FoldFiles(Merge([], {}), b0.files) == m && FoldFiles(m, b1.files) == m;
    assert [b1][1..] == [] && FoldFragments(m, [b1]) == m;
    assert [b0, b1][1..] == [b1];
  }

  lemma StaleEligible(path: Path, was: Hash, turn: ClosedTurn)
    requires turn.closedAt == 2 * QUIET_MS + 4 && turn.boundary == StopOnly
    ensures var bares := [FirstFragment(path, was), SecondFragment(path)];
            SortByOpened(Eligible(bares, turn, 0)) == bares
  {
    var b0, b1 := FirstFragment(path, was), SecondFragment(path);
    assert Eligible([b1], turn, 0) == [b1];
    assert [b0, b1][1..] == [b1];
    assert Eligible([b0, b1], turn, 0) == [b0, b1];
    SortedAlready([b0, b1]);
  }

  lemma StaleFold(path: Path, was: Hash)
    ensures var bares := [FirstFragment(path, was), SecondFragment(path)];
            Fold(bares, EmptyRich(2, 2 * QUIET_MS + 4, "agent", None, None), 0) == StaleTurn(path, was)
  {
    var b0, b1 := FirstFragment(path, was), SecondFragment(path);
    var turn := EmptyRich(2, 2 * QUIET_MS + 4, "agent", None, None);
    StaleEligible(path, was, turn);
    StaleMerge(path, was);
    EarliestOfTwo(turn.openedAt, b0, b1);
    TwoMerged(turn, b0, b1);
  }

  lemma EarliestOfTwo(at: nat, b0: ClosedTurn, b1: ClosedTurn)
    requires b0.openedAt == 0
    ensures EarliestOpened(at, [b0, b1]) == 0
  {
    assert [b0, b1][1..] == [b1] && EarliestOpened(0, [b1]) == 0;
  }

  lemma TwoMerged(turn: ClosedTurn, b0: ClosedTurn, b1: ClosedTurn)
    requires turn.merges == []
    ensures MergeInto(turn, [b0, b1])
         == turn.(merges := [b0.id, b1.id], openedAt := EarliestOpened(turn.openedAt, [b0, b1]),
                  files := FoldFragments(Merge(turn.files, {}), [b0, b1]).files)
  {
    assert [] + Ids([b0, b1]) == [b0.id, b1.id];
  }

  /** One quiet turn from its change to its end, when nothing else is going on. */
  lemma OneFragment(t: Trace, change: ChangeObs, now: nat, b: ClosedTurn)
    requires t.engine == Engine(None, None, 0, t.returned, 0, [], t.engine.nextId)
    requires b == ClosedTurn(t.engine.nextId, false, QuietWindow, false, None, None, None, now, now + QUIET_MS + 1, [change], [])
    requires Retain(t.returned, now + QUIET_MS + 1) == t.returned
    ensures After(After(t, Changes(now, [change])), Ticked(now + QUIET_MS + 1))
         == Trace(Engine(None, None, 0, t.returned + [b], 0, [], b.id + 1), t.returned + [b],
                  t.hist + [Seen(b.id, change)], t.gits, t.starts, now + QUIET_MS + 1)
  {
    assert Absorb([], change) == [change];
    assert AbsorbAll([], [change]) == [change];
    var u := After(t, Changes(now, [change]));
    assert u.engine == t.engine.(open := Some(OpenTurn(Quiet, None, None, None, now, [change], b.id)),
                                 lastChangeAt := Some(now), nextId := b.id + 1);
    assert Tagged(b.id, [change]) == [Seen(b.id, change)];
    assert [] + [b] == [b];
  }

  lemma PlayOne(t: Trace, e: Event, rest: seq<Event>)
    ensures Play(t, [e] + rest) == Play(After(t, e), rest)
    ensures Play(t, [e]) == After(t, e)
  {
    assert ([e] + rest)[1..] == rest;
  }

  lemma PlayTwo(t: Trace, a: Event, b: Event, rest: seq<Event>)
    ensures Play(t, [a, b] + rest) == Play(After(After(t, a), b), rest)
  {
    PlayOne(t, a, [b] + rest);
    assert [a] + ([b] + rest) == [a, b] + rest;
    PlayOne(After(t, a), b, rest);
  }

  lemma PlayFive(t: Trace, a: Event, b: Event, c: Event, d: Event, e: Event)
    ensures Play(t, [a, b, c, d, e]) == After(After(After(After(After(t, a), b), c), d), e)
  {
    var u := After(After(t, a), b);
    PlayTwo(t, a, b, [c, d, e]);
    assert [a, b] + [c, d, e] == [a, b, c, d, e];
    PlayTwo(u, c, d, [e]);
    assert [c, d] + [e] == [c, d, e];
    PlayOne(After(After(u, c), d), e, []);
  }

  /** Before the stop, both fragments are closed and wait to be merged. */
  lemma TwoFragments(path: Path, was: Hash)
    ensures var events := DeletedAndRestored(path, was);
            var bares := [FirstFragment(path, was), SecondFragment(path)];
            After(After(After(After(Beginning, events[0]), events[1]), events[2]), events[3])
            == Trace(Engine(None, None, 0, bares, 0, [], 2), bares,
                     [Seen(0, Deleted(path, was)), Seen(1, Restored(path))], [], map[], 2 * QUIET_MS + 3)
  {
    var events := DeletedAndRestored(path, was);
    var b0, b1 := FirstFragment(path, was), SecondFragment(path);
    OneFragment(Beginning, Deleted(path, was), 0, b0);
    var t := After(After(Beginning, events[0]), events[1]);
    assert t == Trace(Engine(None, None, 0, [b0], 0, [], 1), [b0], [Seen(0, Deleted(path, was))], [], map[], QUIET_MS + 1);
    assert Retain([b0], 2 * QUIET_MS + 3) == [b0];
    OneFragment(t, Restored(path), QUIET_MS + 2, b1);
  }

  lemma StaleStop(t: Trace, path: Path, was: Hash)
    requires t.engine == Engine(None, None, 0, [FirstFragment(path, was), SecondFragment(path)], 0, [], 2)
    ensures var u := After(t, Stop(2 * QUIET_MS + 4, "agent", None, None));
            StaleTurn(path, was) in u.returned && u.hist == t.hist
  {
    StaleFold(path, was);
  }

  lemma StaleRun(path: Path, was: Hash)
    ensures var t := Run(DeletedAndRestored(path, was));
            StaleTurn(path, was) in t.returned && t.hist == [Seen(0, Deleted(path, was)), Seen(1, Restored(path))]
  {
    var events := DeletedAndRestored(path, was);
    var a, b, c, d, e := events[0], events[1], events[2], events[3], events[4];
    var t := After(After(After(After(Beginning, a), b), c), d);
    TwoFragments(path, was);
    StaleStop(t, path, was);
    PlayFive(Beginning, a, b, c, d, e);
    assert events == [a, b, c, d, e];
  }

  lemma MonotoneFive(a: Event, b: Event, c: Event, d: Event, e: Event)
    requires a.now <= b.now <= c.now <= d.now <= e.now
    ensures Monotone(0, [a, b, c, d, e])
  {
    assert [d, e][1..] == [e] && Monotone(c.now, [d, e]);
    assert [c, d, e][1..] == [d, e] && Monotone(b.now, [c, d, e]);
    assert [b, c, d, e][1..] == [c, d, e] && [a, b, c, d, e][1..] == [b, c, d, e];
  }

  lemma StaleLatest(path: Path, was: Hash)
    ensures var c := StaleTurn(path, was);
            && Lookup(c.files, path) == Some(Deleted(path, was))
            && Latest([Seen(0, Deleted(path, was)), Seen(1, Restored(path))], Covered(c.id, c.merges), path)
               == Some(Restored(path))
  {
    assert Concerns(Seen(1, Restored(path)), Covered(2, [0, 1]), path);
  }

  /** The merged record says that the file is gone; the latest observation says that it is there. */
  lemma LatestDoesNotAlwaysWin(path: Path, was: Hash)
    ensures var events := DeletedAndRestored(path, was);
            var c := StaleTurn(path, was);
            && Monotone(0, events) && c in Run(events).returned
            && Lookup(c.files, path) == Some(Deleted(path, was))
            && Latest(Run(events).hist, Covered(c.id, c.merges), path) == Some(Restored(path))
  {
    var events := DeletedAndRestored(path, was);
    StaleRun(path, was);
    StaleLatest(path, was);
    MonotoneFive(events[0], events[1], events[2], events[3], events[4]);
  }

  /** Every git turn opened close to a git change that really happened. */
  lemma GitTurnsAreNearAGitChange(events: seq<Event>, c: ClosedTurn)
    requires Monotone(0, events) && c in Closed(Run(events)) && c.boundary == GitSettle
    ensures exists g :: g in Run(events).gits && g <= c.openedAt + GIT_SETTLE_MS + QUIET_MS && c.openedAt <= g + GIT_SETTLE_MS
  {
    RunIsChronological(events);
    assert Near(Run(events).gits, c.openedAt);
  }

  /** The fragments waiting to be merged do not overlap, and all of them ended before the open turn began. */
  lemma FragmentsDoNotOverlap(events: seq<Event>, i: nat, j: nat)
    requires Monotone(0, events) && i < j < |Run(events).engine.recentBare|
    ensures var e := Run(events).engine;
            && e.recentBare[i].closedAt <= e.recentBare[j].openedAt
            && (e.open.Some? ==> e.recentBare[j].closedAt <= e.open.value.openedAt)
  {
    RunIsChronological(events);
  }
}
