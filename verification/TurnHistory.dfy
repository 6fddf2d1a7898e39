/** Every run of the turn engine: no history is lost or doubled, a merge keeps the true original, and
    attribution is never fabricated. */
module TurnHistory {
  import opened Records
  import opened Orders
  import opened TurnEngineSpec
  import opened TurnObservations

  datatype Event =
    | Changes(now: nat, changes: seq<ChangeObs>)
    | GitChange(now: nat)
    | Start(now: nat, tool: string, prompt: Option<string>, session: Option<string>)
    | Stop(now: nat, tool: string, prompt: Option<string>, session: Option<string>)
    | Ticked(now: nat)
    | Shutdown(now: nat)

  /** The engine with its history: everything it returned, every observation with the turn open at the
      time, every git change, the start time of every bracket, and the last event's time. */
  datatype Trace = Trace(
    engine: Engine,
    returned: seq<ClosedTurn>,
    hist: seq<Seen>,
    gits: seq<nat>,
    starts: map<TurnId, nat>,
    clock: nat)

  function OpenId(e: Engine): TurnId {
    if e.open.Some? then e.open.value.id else e.nextId
  }

  function Took(t: Trace, step: Step, now: nat): Trace {
    t.(engine := step.engine, returned := t.returned + step.returned, clock := now)
  }

  function After(t: Trace, ev: Event): Trace {
    match ev
    case Changes(now, changes) =>
      t.(engine := ObserveChanges(t.engine, now, changes),
         hist := t.hist + Tagged(OpenId(t.engine), changes), clock := now)
    case GitChange(now) =>
      t.(engine := ObserveGitChange(t.engine, now), gits := t.gits + [now], clock := now)
    case Start(now, tool, prompt, session) =>
      Took(t, ObserveStart(t.engine, now, tool, prompt, session), now)
        .(starts := t.starts[t.engine.nextId := now])
    case Stop(now, tool, prompt, session) => Took(t, ObserveStop(t.engine, now, tool, prompt, session), now)
    case Ticked(now) => Took(t, Tick(t.engine, now), now)
    case Shutdown(now) => Took(t, ForceClose(t.engine, now), now)
  }

  const NewEngine := Engine(None, None, 0, [], 0, [], 0)

  const Beginning := Trace(NewEngine, [], [], [], map[], 0)

  function Play(t: Trace, events: seq<Event>): Trace
    decreases |events|
  {
    if events == [] then t else Play(After(t, events[0]), events[1..])
  }

  /** The clock never runs backwards. */
  predicate Monotone(from: nat, events: seq<Event>)
    decreases |events|
  {
    events == [] || (from <= events[0].now && Monotone(events[0].now, events[1..]))
  }

  /** Every turn that was closed: returned, or waiting for the next tick. */
  function Closed(t: Trace): seq<ClosedTurn> {
    t.returned + t.engine.pending
  }

  // ---- the invariant of every run ----------------------------------------------

  function UpTo(n: nat): multiset<TurnId> {
    if n == 0 then multiset{} else UpTo(n - 1) + multiset{n - 1}
  }

  lemma {:induction false} UpToCounts(n: nat, id: TurnId)
    ensures UpTo(n)[id] == if id < n then 1 else 0
  {
    if n > 0 {
      UpToCounts(n - 1, id);
    }
  }

  function OpenIds(e: Engine): multiset<TurnId> {
    if e.open.Some? then multiset{e.open.value.id} else multiset{}
  }

  /** Each minted id has exactly one home: returned, pending or open. */
  ghost predicate Accounted(t: Trace) {
    multiset(Ids(t.returned)) + multiset(Ids(t.engine.pending)) + OpenIds(t.engine) == UpTo(t.engine.nextId)
  }

  predicate Unattributed(c: ClosedTurn) {
    !c.rich ==> c.tool.None? && c.prompt.None? && c.session.None? && c.merges == []
  }

  predicate SpanOk(c: ClosedTurn) {
    c.boundary == StopOnly ==> c.closedAt - c.openedAt <= FOLD_WINDOW_MS
  }

  ghost predicate ClosedOk(hist: seq<Seen>, c: ClosedTurn) {
    && MergedOk(hist, c.id, c.merges, c.files)
    && (c.merges == [] ==> TurnOk(hist, c.id, c.files))
    && Unattributed(c)
    && SpanOk(c)
  }

  ghost predicate AllClosedOk(t: Trace) {
    forall c :: c in Closed(t) ==> ClosedOk(t.hist, c)
  }

  ghost predicate OpenOk(t: Trace) {
    var e := t.engine;
    && (e.open.None? ==> e.lastChangeAt.None?)
    && (e.open.Some? ==>
          var o := e.open.value;
          && o.id + 1 == e.nextId
          && TurnOk(t.hist, o.id, o.files)
          && (o.source == Quiet ==> o.tool.None? && o.prompt.None? && o.session.None?)
          && (o.source == Bracket ==> o.id in t.starts && t.starts[o.id] == o.openedAt))
  }

  ghost predicate HistOk(t: Trace) {
    && InTurnOrder(t.hist)
    && forall h :: h in t.hist ==> h.turn < t.engine.nextId
  }

  ghost predicate RecentOk(t: Trace) {
    && IncreasingIds(t.engine.recentBare)
    && (forall b :: b in t.engine.recentBare ==> b in Closed(t) && !b.rich)
    && (forall c :: c in t.engine.pending ==> !c.rich)
  }

  function AllMerges(turns: seq<ClosedTurn>): multiset<TurnId> {
    if turns == [] then multiset{} else AllMerges(turns[..|turns| - 1]) + multiset(turns[|turns| - 1].merges)
  }

  /** `m` was merged into `r`: `m` is a closed bare turn, and a bracket took nothing that closed before
      its start. */
  ghost predicate MergeOk(t: Trace, r: ClosedTurn, m: TurnId) {
    && m < r.id
    && exists c :: c in Closed(t) && c.id == m && !c.rich
         && (r.boundary == BracketStop ==> r.id in t.starts && c.closedAt >= t.starts[r.id])
  }

  ghost predicate MergesOk(t: Trace) {
    && (forall id :: (AllMerges(t.returned) + multiset(Ids(t.engine.recentBare)))[id] <= 1)
    && (forall r, m :: r in t.returned && m in r.merges ==> MergeOk(t, r, m))
  }

  ghost predicate Inv(t: Trace) {
    Accounted(t) && AllClosedOk(t) && OpenOk(t) && HistOk(t) && RecentOk(t) && MergesOk(t)
  }

  // ---- helpers -------------------------------------------------------------------

  lemma IdsAppend(a: seq<ClosedTurn>, b: seq<ClosedTurn>)
    ensures Ids(a + b) == Ids(a) + Ids(b)
  {}

  lemma MergesAppend(a: seq<ClosedTurn>, c: ClosedTurn)
    ensures AllMerges(a + [c]) == AllMerges(a) + multiset(c.merges)
  {
    assert (a + [c])[..|a|] == a;
  }

  lemma IdCounts(turns: seq<ClosedTurn>, c: ClosedTurn)
    requires c in turns
    ensures multiset(Ids(turns))[c.id] >= 1
  {
    var i :| 0 <= i < |turns| && turns[i] == c;
    assert Ids(turns)[i] in Ids(turns);
  }

  /** A closed turn's id is minted and is not the open one. */
  lemma ClosedIsNotOpen(t: Trace, c: ClosedTurn)
    requires Accounted(t) && c in Closed(t)
    ensures c.id < t.engine.nextId
    ensures t.engine.open.Some? ==> c.id != t.engine.open.value.id
  {
    UpToCounts(t.engine.nextId, c.id);
    if c in t.returned {
      IdCounts(t.returned, c);
    } else {
      IdCounts(t.engine.pending, c);
    }
  }

  lemma FinishedOk(hist: seq<Seen>, c: ClosedTurn)
    requires TurnOk(hist, c.id, c.files) && c.merges == [] && Unattributed(c) && SpanOk(c)
    ensures ClosedOk(hist, c)
  {
    UnmergedOk(hist, c.id, c.files);
  }

  lemma OwnTermsOk(t: Trace, now: nat)
    requires OpenOk(t) && t.engine.open.Some?
    ensures ClosedOk(t.hist, CloseOnItsTerms(t.engine.open.value, now))
  {
    FinishedOk(t.hist, CloseOnItsTerms(t.engine.open.value, now));
  }

  // ---- observations -----------------------------------------------------------------

  lemma MoreSeenElsewhere(hist: seq<Seen>, more: seq<Seen>, c: ClosedTurn)
    requires ClosedOk(hist, c)
    requires forall h :: h in more ==> h.turn !in Covered(c.id, c.merges)
    ensures ClosedOk(hist + more, c)
    ensures Originals(hist, Covered(c.id, c.merges), c.files) ==>
              Originals(hist + more, Covered(c.id, c.merges), c.files)
  {
    var all := hist + more;
    forall p
      ensures MergedPath(all, c.id, c.merges, c.files, p)
      ensures Origin(all, {c.id}, p) == Origin(hist, {c.id}, p)
      ensures Latest(all, {c.id}, p) == Latest(hist, {c.id}, p)
      ensures Origin(all, Covered(c.id, c.merges), p) == Origin(hist, Covered(c.id, c.merges), p)
    {
      assert MergedPath(hist, c.id, c.merges, c.files, p);
      OtherTurnsUnaffected(hist, more, Covered(c.id, c.merges), p);
      OtherTurnsUnaffected(hist, more, {c.id}, p);
      HolderUnaffected(hist, more, c.id, c.merges, p);
      var holder := Holder(hist, c.id, c.merges, p);
      HolderIsCovered(hist, c.id, c.merges, p);
      OtherTurnsUnaffected(hist, more, {holder}, p);
    }
  }

  lemma {:induction false} FirstHoldingUnaffected(hist: seq<Seen>, more: seq<Seen>, merges: seq<TurnId>, p: Path)
    requires forall h :: h in more ==> h.turn !in merges
    ensures FirstHolding(hist + more, merges, p) == FirstHolding(hist, merges, p)
    ensures FirstHolding(hist, merges, p).Some? ==> FirstHolding(hist, merges, p).value in merges
  {
    if merges != [] {
      var n := |merges| - 1;
      assert merges == merges[..n] + [merges[n]];
      FirstHoldingUnaffected(hist, more, merges[..n], p);
      OtherTurnsUnaffected(hist, more, {merges[n]}, p);
    }
  }

  lemma HolderUnaffected(hist: seq<Seen>, more: seq<Seen>, id: TurnId, merges: seq<TurnId>, p: Path)
    requires forall h :: h in more ==> h.turn !in Covered(id, merges)
    ensures Holder(hist + more, id, merges, p) == Holder(hist, id, merges, p)
  {
    OtherTurnsUnaffected(hist, more, {id}, p);
    assert forall h :: h in more ==> h.turn !in merges;
    FirstHoldingUnaffected(hist, more, merges, p);
  }

  lemma HolderIsCovered(hist: seq<Seen>, id: TurnId, merges: seq<TurnId>, p: Path)
    ensures Holder(hist, id, merges, p) in Covered(id, merges)
  {
    FirstHoldingUnaffected(hist, [], merges, p);
  }

  /** Nothing a closed turn covers is observed again. */
  lemma CoveredIsPast(t: Trace, c: ClosedTurn)
    requires Accounted(t) && RecentOk(t) && MergesOk(t) && AllClosedOk(t) && OpenOk(t) && c in Closed(t)
    ensures OpenId(t.engine) !in Covered(c.id, c.merges)
  {
    ClosedIsNotOpen(t, c);
    assert ClosedOk(t.hist, c);
    if c in t.returned {
      forall m | m in c.merges ensures m != OpenId(t.engine) {
        assert MergeOk(t, c, m);
        var b :| b in Closed(t) && b.id == m;
        ClosedIsNotOpen(t, b);
      }
    }
  }

  lemma OpeningTurnOk(t: Trace)
    requires Inv(t)
    ensures t.engine.open.None? ==> TurnOk(t.hist, t.engine.nextId, [])
  {
    FreshTurnOk(t.hist, t.engine.nextId);
  }

  lemma ChangesKeepClosed(t: Trace, now: nat, changes: seq<ChangeObs>)
    requires Inv(t)
    ensures AllClosedOk(After(t, Changes(now, changes)))
  {
    var u := After(t, Changes(now, changes));
    var more := Tagged(OpenId(t.engine), changes);
    assert Closed(u) == Closed(t);
    forall c | c in Closed(u) ensures ClosedOk(u.hist, c) {
      CoveredIsPast(t, c);
      MoreSeenElsewhere(t.hist, more, c);
    }
  }

  lemma ChangesKeepOpen(t: Trace, now: nat, changes: seq<ChangeObs>)
    requires Inv(t)
    ensures var u := After(t, Changes(now, changes)); OpenOk(u) && HistOk(u)
  {
    var id := OpenId(t.engine);
    var more := Tagged(id, changes);
    if changes == [] {
      assert t.hist + more == t.hist;
    } else {
      OpeningTurnOk(t);
      AbsorbAllKeepsTurnOk(t.hist, id, if t.engine.open.Some? then t.engine.open.value.files else [], changes);
      var u := After(t, Changes(now, changes));
      forall i, j | 0 <= i < j < |u.hist| ensures u.hist[i].turn <= u.hist[j].turn {
        if i < |t.hist| {
          assert t.hist[i] in t.hist;
        }
      }
    }
  }

  /** What only depends on the closed turns survives when they and their ids do. */
  lemma SameClosedKeepsMerges(t: Trace, u: Trace)
    requires MergesOk(t) && u.returned == t.returned && Closed(u) == Closed(t) && u.starts == t.starts
    requires u.engine.recentBare == t.engine.recentBare
    ensures MergesOk(u)
  {
    forall r, m | r in u.returned && m in r.merges ensures MergeOk(u, r, m) {
      assert MergeOk(t, r, m);
    }
  }

  lemma ChangesKeepInv(t: Trace, now: nat, changes: seq<ChangeObs>)
    requires Inv(t)
    ensures Inv(After(t, Changes(now, changes)))
  {
    var u := After(t, Changes(now, changes));
    ChangesKeepClosed(t, now, changes);
    ChangesKeepOpen(t, now, changes);
    SameClosedKeepsMerges(t, u);
    ChangesKeepAccounts(t, now, changes);
  }

  lemma ChangesKeepAccounts(t: Trace, now: nat, changes: seq<ChangeObs>)
    requires Accounted(t)
    ensures Accounted(After(t, Changes(now, changes)))
  {
    if changes != [] && t.engine.open.None? {
      assert UpTo(t.engine.nextId + 1) == UpTo(t.engine.nextId) + multiset{t.engine.nextId};
    }
  }

  // ---- closing ---------------------------------------------------------------------

  lemma MoreClosedKeepsMerge(t: Trace, u: Trace, r: ClosedTurn, m: TurnId)
    requires MergeOk(t, r, m)
    requires forall c :: c in Closed(t) ==> c in Closed(u)
    requires r.id in t.starts ==> r.id in u.starts && u.starts[r.id] == t.starts[r.id]
    ensures MergeOk(u, r, m)
  {}

  /** Closing the open turn, merging nothing: nothing is merged or offered twice. */
  lemma ReturnMergesOnce(t: Trace, u: Trace, id: TurnId)
    requires Inv(t) && t.engine.open.Some? && id == t.engine.open.value.id
    requires AllMerges(u.returned) == AllMerges(t.returned)
    requires multiset(Ids(u.engine.recentBare)) <= multiset(Ids(t.engine.recentBare)) + multiset{id}
    ensures forall k :: (AllMerges(u.returned) + multiset(Ids(u.engine.recentBare)))[k] <= 1
  {
    OpenIsUnmerged(t);
    var was := AllMerges(t.returned) + multiset(Ids(t.engine.recentBare));
    forall k ensures (AllMerges(u.returned) + multiset(Ids(u.engine.recentBare)))[k] <= 1 {
      assert was[k] <= 1;
      assert multiset(Ids(u.engine.recentBare))[k] <= (multiset(Ids(t.engine.recentBare)) + multiset{id})[k];
    }
  }

  /** What was merged stays merged into the same turn, when turns are only added. */
  lemma OldMergesStay(t: Trace, u: Trace)
    requires Inv(t)
    requires forall x :: x in Closed(t) ==> x in Closed(u)
    requires forall k :: k in t.starts && k < t.engine.nextId ==> k in u.starts && u.starts[k] == t.starts[k]
    requires forall r :: r in u.returned && r.merges != [] ==> r in t.returned
    ensures forall r, m :: r in u.returned && m in r.merges ==> MergeOk(u, r, m)
  {
    forall r, m | r in u.returned && m in r.merges ensures MergeOk(u, r, m) {
      assert r in Closed(t);
      ClosedIsNotOpen(t, r);
      MoreClosedKeepsMerge(t, u, r, m);
    }
  }

  lemma {:induction false} NoMerges(turns: seq<ClosedTurn>, more: seq<ClosedTurn>)
    requires forall c :: c in more ==> c.merges == []
    ensures AllMerges(turns + more) == AllMerges(turns)
    decreases |more|
  {
    if more == [] {
      assert turns + more == turns;
    } else {
      var n := |more| - 1;
      NoMerges(turns, more[..n]);
      MergesAppend(turns + more[..n], more[n]);
      assert turns + more == turns + more[..n] + [more[n]];
    }
  }

  lemma PendingMergesNothing(t: Trace)
    requires AllClosedOk(t) && RecentOk(t)
    ensures forall c :: c in t.engine.pending ==> c.merges == []
    ensures AllMerges(t.returned + t.engine.pending) == AllMerges(t.returned)
  {
    forall c | c in t.engine.pending ensures c.merges == [] {
      assert ClosedOk(t.hist, c);
    }
    NoMerges(t.returned, t.engine.pending);
  }

  lemma {:induction false} MergedSomewhere(turns: seq<ClosedTurn>, m: TurnId)
    ensures AllMerges(turns)[m] > 0 ==> exists r :: r in turns && m in r.merges
  {
    if turns != [] {
      var n := |turns| - 1;
      MergedSomewhere(turns[..n], m);
      assert turns == turns[..n] + [turns[n]];
    }
  }

  /** The id of the open turn (or the next to be minted) has not been merged or offered. */
  lemma OpenIsUnmerged(t: Trace)
    requires Inv(t)
    ensures (AllMerges(t.returned) + multiset(Ids(t.engine.recentBare)))[OpenId(t.engine)] == 0
  {
    var id := OpenId(t.engine);
    MergedSomewhere(t.returned, id);
    if AllMerges(t.returned)[id] > 0 {
      var r :| r in t.returned && id in r.merges;
      CoveredIsPast(t, r);
    }
    forall b | b in t.engine.recentBare ensures b.id != id {
      ClosedIsNotOpen(t, b);
    }
  }

  /** One more closed turn, merging nothing, and possibly offered for a later merge. */
  lemma ClosedOnItsOwn(t: Trace, u: Trace, c: ClosedTurn)
    requires Inv(t) && t.engine.open.Some? && c.id == t.engine.open.value.id
    requires ClosedOk(t.hist, c) && c.merges == [] && u.hist == t.hist
    requires multiset(u.returned) + multiset(u.engine.pending)
          == multiset(t.returned) + multiset(t.engine.pending) + multiset{c}
    requires AllMerges(u.returned) == AllMerges(t.returned)
    requires forall k :: k in t.starts && k < t.engine.nextId ==> k in u.starts && u.starts[k] == t.starts[k]
    requires multiset(Ids(u.engine.recentBare)) <= multiset(Ids(t.engine.recentBare)) + multiset{c.id}
    requires forall r :: r in u.returned && r.merges != [] ==> r in t.returned
    ensures AllClosedOk(u) && MergesOk(u)
    ensures forall x :: x in Closed(t) || x == c <==> x in Closed(u)
  {
    forall x ensures x in Closed(t) || x == c <==> x in Closed(u) {
      assert x in Closed(u) <==> x in multiset(u.returned) + multiset(u.engine.pending);
      assert x in Closed(t) <==> x in multiset(t.returned) + multiset(t.engine.pending);
    }
    ReturnMergesOnce(t, u, c.id);
    OldMergesStay(t, u);
  }

  /** The trace after a git change closes the open quiet turn out of band, as `c`. */
  function ClosedByGit(t: Trace, c: ClosedTurn, now: nat): Trace {
    t.(engine := t.engine.(open := None, lastChangeAt := None, gitWindowUntil := now + GIT_SETTLE_MS,
                           recentBare := t.engine.recentBare + [c], pending := t.engine.pending + [c]),
       gits := t.gits + [now], clock := now)
  }

  lemma ClosedByGitKeepsInv(t: Trace, c: ClosedTurn, now: nat)
    requires Inv(t) && t.engine.open.Some? && c.id == t.engine.open.value.id
    requires ClosedOk(t.hist, c) && c.merges == [] && !c.rich
    ensures Inv(ClosedByGit(t, c, now))
  {
    var u := ClosedByGit(t, c, now);
    IdsAppend(t.engine.pending, [c]);
    ReturnedIds(t, c);
    assert Ids([c]) == [c.id];
    ClosedOnItsOwn(t, u, c);
    OfferKeepsRecent(t, u, t.engine.recentBare, c);
  }

  lemma GitKeepsInv(t: Trace, now: nat)
    requires Inv(t)
    ensures Inv(After(t, GitChange(now)))
  {
    var u := After(t, GitChange(now));
    if t.engine.open.Some? && u.engine.open.None? {
      var c := u.engine.pending[|t.engine.pending|];
      FinishedOk(t.hist, c);
      ClosedByGitKeepsInv(t, c, now);
    } else {
      assert Closed(u) == Closed(t);
      SameClosedKeepsMerges(t, u);
    }
  }

  /** A bare turn that just closed joins the fragments after all that are there. */
  lemma OfferKeepsRecent(t: Trace, u: Trace, bares: seq<ClosedTurn>, c: ClosedTurn)
    requires Inv(t) && t.engine.open.Some? && c.id == t.engine.open.value.id && !c.rich
    requires u.engine.recentBare == bares + [c] && Part(bares, t.engine.recentBare)
    requires forall x :: x in Closed(t) || x == c ==> x in Closed(u)
    requires forall p :: p in u.engine.pending ==> p in t.engine.pending || p == c
    ensures RecentOk(u)
  {
    forall b | b in bares ensures b.id < c.id {
      ClosedIsNotOpen(t, b);
    }
  }

  /** Fragments one after the other: each closed before the next opened. */
  ghost predicate InSequence(bares: seq<ClosedTurn>) {
    && (forall i, j :: 0 <= i < j < |bares| ==> bares[i].closedAt <= bares[j].openedAt)
    && (forall i :: 0 <= i < |bares| ==> bares[i].openedAt <= bares[i].closedAt)
  }

  /** `kept` is what some filter leaves of `bares`. */
  ghost predicate Part(kept: seq<ClosedTurn>, bares: seq<ClosedTurn>) {
    && (forall k :: k in kept ==> k in bares)
    && multiset(Ids(kept)) <= multiset(Ids(bares))
    && (IncreasingIds(bares) ==> IncreasingIds(kept))
    && (InSequence(bares) ==> InSequence(kept))
  }

  lemma PartIds(first: ClosedTurn, kept: seq<ClosedTurn>, rest: seq<ClosedTurn>)
    requires multiset(Ids(kept)) <= multiset(Ids(rest))
    ensures multiset(Ids([first] + kept)) <= multiset(Ids([first] + rest))
    ensures multiset(Ids(kept)) <= multiset(Ids([first] + rest))
  {
    assert Ids([first] + kept) == [first.id] + Ids(kept);
    assert Ids([first] + rest) == [first.id] + Ids(rest);
  }

  lemma IncreasingTail(first: ClosedTurn, rest: seq<ClosedTurn>)
    requires IncreasingIds([first] + rest)
    ensures IncreasingIds(rest) && forall b :: b in rest ==> first.id < b.id
  {
    var all := [first] + rest;
    forall i, j | 0 <= i < j < |rest| ensures rest[i].id < rest[j].id {
      assert all[i + 1] == rest[i] && all[j + 1] == rest[j];
    }
    forall b | b in rest ensures first.id < b.id {
      var i :| 0 <= i < |rest| && rest[i] == b;
      assert all[0] == first && all[i + 1] == b;
    }
  }

  lemma IncreasingCons(first: ClosedTurn, rest: seq<ClosedTurn>)
    requires IncreasingIds(rest) && forall b :: b in rest ==> first.id < b.id
    ensures IncreasingIds([first] + rest)
  {
    var all := [first] + rest;
    forall i, j | 0 <= i < j < |all| ensures all[i].id < all[j].id {
      assert all[j] == rest[j - 1] && rest[j - 1] in rest;
    }
  }

  lemma PartIncreasing(first: ClosedTurn, kept: seq<ClosedTurn>, rest: seq<ClosedTurn>)
    requires Part(kept, rest) && IncreasingIds([first] + rest)
    ensures IncreasingIds(kept) && IncreasingIds([first] + kept)
  {
    IncreasingTail(first, rest);
    IncreasingCons(first, kept);
  }

  lemma SequenceTail(first: ClosedTurn, rest: seq<ClosedTurn>)
    requires InSequence([first] + rest)
    ensures InSequence(rest) && first.openedAt <= first.closedAt && forall b :: b in rest ==> first.closedAt <= b.openedAt
  {
    var all := [first] + rest;
    forall i | 0 <= i < |rest| ensures rest[i].openedAt <= rest[i].closedAt && first.closedAt <= rest[i].openedAt {
      assert all[0] == first && all[i + 1] == rest[i];
    }
    forall i, j | 0 <= i < j < |rest| ensures rest[i].closedAt <= rest[j].openedAt {
      assert all[i + 1] == rest[i] && all[j + 1] == rest[j];
    }
    assert all[0] == first;
  }

  lemma SequenceCons(first: ClosedTurn, rest: seq<ClosedTurn>)
    requires InSequence(rest) && first.openedAt <= first.closedAt
    requires forall b :: b in rest ==> first.closedAt <= b.openedAt
    ensures InSequence([first] + rest)
  {
    var all := [first] + rest;
    forall i, j | 0 <= i < j < |all| ensures all[i].closedAt <= all[j].openedAt {
      assert all[j] == rest[j - 1] && rest[j - 1] in rest;
    }
  }

  lemma PartSequence(first: ClosedTurn, kept: seq<ClosedTurn>, rest: seq<ClosedTurn>)
    requires Part(kept, rest) && InSequence([first] + rest)
    ensures InSequence(kept) && InSequence([first] + kept)
  {
    SequenceTail(first, rest);
    SequenceCons(first, kept);
  }

  lemma PartOrder(first: ClosedTurn, kept: seq<ClosedTurn>, rest: seq<ClosedTurn>)
    requires Part(kept, rest)
    ensures IncreasingIds([first] + rest) ==> IncreasingIds(kept) && IncreasingIds([first] + kept)
    ensures InSequence([first] + rest) ==> InSequence(kept) && InSequence([first] + kept)
  {
    if IncreasingIds([first] + rest) {
      PartIncreasing(first, kept, rest);
    }
    if InSequence([first] + rest) {
      PartSequence(first, kept, rest);
    }
  }

  /** A filter may keep the first element or drop it. */
  lemma PartNext(first: ClosedTurn, kept: seq<ClosedTurn>, rest: seq<ClosedTurn>)
    requires Part(kept, rest)
    ensures Part(kept, [first] + rest) && Part([first] + kept, [first] + rest)
  {
    PartIds(first, kept, rest);
    PartOrder(first, kept, rest);
  }

  lemma {:induction false} RetainPart(bares: seq<ClosedTurn>, now: nat)
    ensures Part(Retain(bares, now), bares)
    decreases |bares|
  {
    if bares != [] {
      var kept := Retain(bares[1..], now);
      RetainPart(bares[1..], now);
      PartNext(bares[0], kept, bares[1..]);
      assert bares == [bares[0]] + bares[1..];
      assert [] + kept == kept;
    }
  }

  lemma {:induction false} EligiblePart(bares: seq<ClosedTurn>, turn: ClosedTurn, lastRich: nat)
    ensures Part(Eligible(bares, turn, lastRich), bares)
    decreases |bares|
  {
    if bares != [] {
      var kept := Eligible(bares[1..], turn, lastRich);
      EligiblePart(bares[1..], turn, lastRich);
      PartNext(bares[0], kept, bares[1..]);
      assert bares == [bares[0]] + bares[1..];
      assert [] + kept == kept;
    }
  }

  // ---- ticks, starts and shutdowns ---------------------------------------------------

  /** The tick drains the pending turns and drops fragments that are too old. */
  lemma DrainKeepsInv(t: Trace, now: nat)
    requires Inv(t)
    ensures Inv(Took(t, Step(t.engine.(recentBare := Retain(t.engine.recentBare, now), pending := []),
                             t.engine.pending), now))
  {
    var u := Took(t, Step(t.engine.(recentBare := Retain(t.engine.recentBare, now), pending := []),
                          t.engine.pending), now);
    assert Closed(u) == Closed(t);
    IdsAppend(t.returned, t.engine.pending);
    assert Ids([]) == [];
    RetainPart(t.engine.recentBare, now);
    PendingMergesNothing(t);
    forall k ensures (AllMerges(u.returned) + multiset(Ids(u.engine.recentBare)))[k] <= 1 {
      assert (AllMerges(t.returned) + multiset(Ids(t.engine.recentBare)))[k] <= 1;
      assert multiset(Ids(u.engine.recentBare))[k] <= multiset(Ids(t.engine.recentBare))[k];
    }
    OldMergesStay(t, u);
  }

  /** The trace after the open turn is closed and returned as `c`. */
  function ReturnedOpen(t: Trace, c: ClosedTurn, now: nat): Trace {
    Took(t, Step(t.engine.(open := None, lastChangeAt := None), [c]), now)
  }

  /** As `ReturnedOpen`, with `c` also offered for a later merge. */
  function ReturnedAndOffered(t: Trace, c: ClosedTurn, now: nat): Trace {
    Took(t, Step(t.engine.(open := None, lastChangeAt := None, recentBare := t.engine.recentBare + [c]), [c]), now)
  }

  lemma ReturnedIds(t: Trace, c: ClosedTurn)
    ensures Ids(t.returned + [c]) == Ids(t.returned) + [c.id]
    ensures Ids(t.engine.recentBare + [c]) == Ids(t.engine.recentBare) + [c.id]
  {}

  /** Returning the open turn, closed on its own terms. */
  lemma ReturnKeepsInv(t: Trace, c: ClosedTurn, now: nat)
    requires Inv(t) && t.engine.open.Some? && c.id == t.engine.open.value.id
    requires ClosedOk(t.hist, c) && c.merges == []
    ensures Inv(ReturnedOpen(t, c, now))
  {
    var u := ReturnedOpen(t, c, now);
    MergesAppend(t.returned, c);
    ClosedOnItsOwn(t, u, c);
    ReturnAccounts(t, c, now);
    assert RecentOk(u);
  }

  lemma ReturnAccounts(t: Trace, c: ClosedTurn, now: nat)
    requires Accounted(t) && t.engine.open.Some? && c.id == t.engine.open.value.id
    ensures Accounted(ReturnedOpen(t, c, now))
  {
    ReturnedIds(t, c);
  }

  lemma OfferKeepsInv(t: Trace, c: ClosedTurn, now: nat)
    requires Inv(t) && t.engine.open.Some? && c.id == t.engine.open.value.id
    requires ClosedOk(t.hist, c) && c.merges == [] && !c.rich
    ensures Inv(ReturnedAndOffered(t, c, now))
  {
    var v := ReturnedAndOffered(t, c, now);
    MergesAppend(t.returned, c);
    ReturnedIds(t, c);
    ClosedOnItsOwn(t, v, c);
    OfferKeepsRecent(t, v, t.engine.recentBare, c);
  }

  lemma TickKeepsInv(t: Trace, now: nat)
    requires Inv(t)
    ensures Inv(After(t, Ticked(now)))
  {
    DrainKeepsInv(t, now);
    var d := Took(t, Step(t.engine.(recentBare := Retain(t.engine.recentBare, now), pending := []),
                          t.engine.pending), now);
    var step := Tick(t.engine, now);
    if t.engine.open.Some? && step.engine.open.None? {
      var n := |t.engine.pending|;
      var c := step.returned[n];
      assert step.returned == t.engine.pending + [c];
      assert t.returned + (t.engine.pending + [c]) == d.returned + [c];
      OwnTermsOk(d, if t.engine.open.value.source == Bracket
                    then (if t.engine.lastChangeAt.Some? then t.engine.lastChangeAt.value
                          else t.engine.open.value.openedAt)
                    else now);
      if t.engine.open.value.source == Quiet {
        OfferKeepsInv(d, c, now);
      } else {
        ReturnKeepsInv(d, c, now);
      }
    }
  }

  lemma ShutdownKeepsInv(t: Trace, now: nat)
    requires Inv(t)
    ensures Inv(After(t, Shutdown(now)))
  {
    if t.engine.open.Some? {
      OwnTermsOk(t, now);
      ReturnKeepsInv(t, CloseOnItsTerms(t.engine.open.value, now), now);
    } else {
      assert t.returned + [] == t.returned;
      ClockKeepsInv(t, now);
    }
  }

  lemma ClockKeepsInv(t: Trace, now: nat)
    requires Inv(t)
    ensures Inv(t.(clock := now))
  {
    assert Closed(t.(clock := now)) == Closed(t);
    SameClosedKeepsMerges(t, t.(clock := now));
  }

  /** Whatever is open, closed on its own terms. */
  function Quieted(t: Trace, now: nat): Trace {
    if t.engine.open.Some? then ReturnedOpen(t, CloseOnItsTerms(t.engine.open.value, now), now)
    else t.(clock := now)
  }

  lemma QuietKeepsInv(t: Trace, now: nat)
    requires Inv(t)
    ensures var q := Quieted(t, now);
            Inv(q) && q.engine.open.None? && q.engine.nextId == t.engine.nextId && q.starts == t.starts
  {
    if t.engine.open.Some? {
      OwnTermsOk(t, now);
      ReturnKeepsInv(t, CloseOnItsTerms(t.engine.open.value, now), now);
    } else {
      ClockKeepsInv(t, now);
    }
  }

  function WithBracket(t: Trace, o: OpenTurn): Trace {
    t.(engine := t.engine.(open := Some(o), nextId := t.engine.nextId + 1), starts := t.starts[o.id := o.openedAt])
  }

  /** Opening a bracket when nothing is open. */
  lemma OpenBracketKeepsInv(t: Trace, o: OpenTurn)
    requires Inv(t) && t.engine.open.None? && o.source == Bracket && o.files == [] && o.id == t.engine.nextId
    ensures Inv(WithBracket(t, o))
  {
    var u := WithBracket(t, o);
    assert Closed(u) == Closed(t);
    OpeningTurnOk(t);
    OldMergesStay(t, u);
    assert UpTo(t.engine.nextId + 1) == UpTo(t.engine.nextId) + multiset{t.engine.nextId};
  }

  lemma StartIsOpening(t: Trace, now: nat, tool: string, prompt: Option<string>, session: Option<string>)
    requires OpenOk(t)
    ensures After(t, Start(now, tool, prompt, session))
         == WithBracket(Quieted(t, now), OpenTurn(Bracket, Some(tool), prompt, session, now, [], t.engine.nextId))
  {
    assert t.returned + [] == t.returned;
  }

  lemma StartKeepsInv(t: Trace, now: nat, tool: string, prompt: Option<string>, session: Option<string>)
    requires Inv(t)
    ensures Inv(After(t, Start(now, tool, prompt, session)))
  {
    QuietKeepsInv(t, now);
    StartIsOpening(t, now, tool, prompt, session);
    OpenBracketKeepsInv(Quieted(t, now), OpenTurn(Bracket, Some(tool), prompt, session, now, [], t.engine.nextId));
  }

  // ---- merges ----------------------------------------------------------------------------

  /** The fragments a completed rich turn takes in, oldest first. */
  function Fragments(e: Engine, turn: ClosedTurn): seq<ClosedTurn> {
    SortByOpened(Eligible(e.recentBare, turn, e.lastRichClosedAt))
  }

  lemma IdsOfPermutation(a: seq<ClosedTurn>, b: seq<ClosedTurn>)
    requires multiset(a) == multiset(b)
    ensures multiset(Ids(a)) == multiset(Ids(b))
  {
    var f := (c: ClosedTurn) => c.id;
    MapOfPermutation(f, a, b);
    assert Mapped(f, a) == Ids(a) && Mapped(f, b) == Ids(b);
  }

  lemma FragmentsAreRecent(e: Engine, turn: ClosedTurn)
    ensures var frags := Fragments(e, turn);
            && (forall b :: b in frags ==> b in e.recentBare && Foldable(b, turn, e.lastRichClosedAt))
            && multiset(Ids(frags)) <= multiset(Ids(e.recentBare))
  {
    var eligible := Eligible(e.recentBare, turn, e.lastRichClosedAt);
    EligiblePart(e.recentBare, turn, e.lastRichClosedAt);
    IdsOfPermutation(SortByOpened(eligible), eligible);
    forall b | b in Fragments(e, turn) ensures b in eligible {
      assert b in multiset(Fragments(e, turn));
    }
  }

  lemma {:induction false} EarliestInWindow(at: nat, frags: seq<ClosedTurn>, cutoff: nat)
    requires at >= cutoff && forall b :: b in frags ==> b.openedAt >= cutoff
    ensures cutoff <= EarliestOpened(at, frags) <= at
    decreases |frags|
  {
    if frags != [] {
      EarliestInWindow(if frags[0].openedAt < at then frags[0].openedAt else at, frags[1..], cutoff);
    }
  }

  /** A completed rich turn: it names what it and its fragments observed, once each, and a stop-only
      one stays inside the fold window. */
  lemma FoldedOk(t: Trace, turn: ClosedTurn)
    requires Inv(t) && turn.rich && turn.merges == [] && TurnOk(t.hist, turn.id, turn.files) && SpanOk(turn)
    requires turn.openedAt <= turn.closedAt
    ensures ClosedOk(t.hist, Fold(t.engine.recentBare, turn, t.engine.lastRichClosedAt))
  {
    var e := t.engine;
    var frags := Fragments(e, turn);
    var c := Fold(e.recentBare, turn, e.lastRichClosedAt);
    FragmentsAreRecent(e, turn);
    forall b | b in frags ensures TurnOk(t.hist, b.id, b.files) {
      assert b in Closed(t);
      assert ClosedOk(t.hist, b);
    }
    UnmergedOk(t.hist, turn.id, turn.files);
    FoldFragmentsOk(t.hist, turn.id, [], Merge(turn.files, {}), frags);
    assert [] + Ids(frags) == Ids(frags);
    if turn.boundary == StopOnly {
      EarliestInWindow(turn.openedAt, frags, SaturatingSub(turn.closedAt, FOLD_WINDOW_MS));
    }
    if c.merges == [] {
      assert frags == [] by { assert |Ids(frags)| == 0; }
    }
  }

  /** What completing a rich turn does to the trace. */
  ghost predicate Completed(t: Trace, u: Trace, turn: ClosedTurn) {
    && u.hist == t.hist && u.starts == t.starts
    && u.engine.pending == t.engine.pending && u.engine.recentBare == []
    && u.engine.open.None? && u.engine.lastChangeAt.None? && t.engine.nextId <= u.engine.nextId
    && u.returned == t.returned + [Fold(t.engine.recentBare, turn, t.engine.lastRichClosedAt)]
  }

  lemma CompletedMergesOnce(t: Trace, u: Trace, turn: ClosedTurn)
    requires Inv(t) && Completed(t, u, turn) && turn.merges == []
    ensures forall k :: (AllMerges(u.returned) + multiset(Ids(u.engine.recentBare)))[k] <= 1
  {
    var e := t.engine;
    var frags := Fragments(e, turn);
    var c := Fold(e.recentBare, turn, e.lastRichClosedAt);
    FragmentsAreRecent(e, turn);
    assert c.merges == Ids(frags);
    MergesAppend(t.returned, c);
    assert Ids(u.engine.recentBare) == [];
    forall k ensures (AllMerges(u.returned) + multiset(Ids(u.engine.recentBare)))[k] <= 1 {
      assert (AllMerges(t.returned) + multiset(Ids(e.recentBare)))[k] <= 1;
      assert multiset(Ids(frags))[k] <= multiset(Ids(e.recentBare))[k];
    }
  }

  /** Each merged id of the completed turn is a closed bare fragment, and a bracket takes none that
      closed before its start. */
  lemma FragmentMergeOk(t: Trace, u: Trace, turn: ClosedTurn, m: TurnId)
    requires Inv(t) && Completed(t, u, turn) && turn.merges == [] && turn.id == OpenId(t.engine)
    requires turn.boundary == BracketStop ==> turn.id in t.starts && t.starts[turn.id] == turn.openedAt
    requires m in Ids(Fragments(t.engine, turn))
    ensures MergeOk(u, Fold(t.engine.recentBare, turn, t.engine.lastRichClosedAt), m)
  {
    var frags := Fragments(t.engine, turn);
    FragmentsAreRecent(t.engine, turn);
    var i :| 0 <= i < |frags| && Ids(frags)[i] == m;
    var b := frags[i];
    assert b in t.engine.recentBare && b in Closed(t) && b in Closed(u);
    RecentIsOlder(t, b);
  }

  lemma CompletedMerges(t: Trace, u: Trace, turn: ClosedTurn)
    requires Inv(t) && Completed(t, u, turn) && turn.merges == [] && turn.id == OpenId(t.engine)
    requires turn.boundary == BracketStop ==> turn.id in t.starts && t.starts[turn.id] == turn.openedAt
    ensures MergesOk(u)
  {
    CompletedMergesOnce(t, u, turn);
    forall r, m | r in u.returned && m in r.merges ensures MergeOk(u, r, m) {
      if r in t.returned {
        MoreClosedKeepsMerge(t, u, r, m);
      } else {
        FragmentMergeOk(t, u, turn, m);
      }
    }
  }

  lemma RecentIsOlder(t: Trace, b: ClosedTurn)
    requires Inv(t) && b in Closed(t)
    ensures b.id < OpenId(t.engine)
  {
    ClosedIsNotOpen(t, b);
  }

  lemma CompletedKeepsInv(t: Trace, u: Trace, turn: ClosedTurn)
    requires Inv(t) && Completed(t, u, turn) && Accounted(u) && ReadyToFold(t, turn)
    ensures Inv(u)
  {
    CompletedMerges(t, u, turn);
    FoldedOk(t, turn);
    forall c | c in Closed(u) ensures ClosedOk(u.hist, c) {
      assert c in Closed(t) || c == Fold(t.engine.recentBare, turn, t.engine.lastRichClosedAt);
    }
  }

  lemma StopClosesShape(t: Trace, now: nat, tool: string, prompt: Option<string>, session: Option<string>)
    requires OpenOk(t) && (StopsBracket(t.engine.open, tool) || StopConverts(t.engine.open, now))
    ensures Completed(t, After(t, Stop(now, tool, prompt, session)),
                      StoppedTurn(t.engine.open.value, now, tool, prompt, session))
  {
    var turn := StoppedTurn(t.engine.open.value, now, tool, prompt, session);
    var c := Fold(t.engine.recentBare, turn, t.engine.lastRichClosedAt);
    assert [] + [c] == [c];
  }

  lemma CompletedAccounted(t: Trace, u: Trace, turn: ClosedTurn)
    requires Accounted(t) && Completed(t, u, turn) && turn.id == OpenId(t.engine)
    requires u.engine.nextId == if t.engine.open.Some? then t.engine.nextId else t.engine.nextId + 1
    ensures Accounted(u)
  {
    var c := Fold(t.engine.recentBare, turn, t.engine.lastRichClosedAt);
    ReturnedIds(t, c);
    OneMoreAccounted(t, u, turn.id);
  }

  /** One more returned turn, with the id of the open turn or a newly minted one. */
  lemma OneMoreAccounted(t: Trace, u: Trace, id: TurnId)
    requires Accounted(t) && id == OpenId(t.engine) && Ids(u.returned) == Ids(t.returned) + [id]
    requires u.engine.pending == t.engine.pending && u.engine.open.None?
    requires u.engine.nextId == if t.engine.open.Some? then t.engine.nextId else t.engine.nextId + 1
    ensures Accounted(u)
  {
    assert multiset(Ids(t.returned) + [id]) == multiset(Ids(t.returned)) + multiset{id};
    if t.engine.open.Some? {
      assert OpenIds(t.engine) == multiset{id};
    } else {
      assert UpTo(t.engine.nextId + 1) == UpTo(t.engine.nextId) + multiset{id};
    }
  }

  /** A rich turn that is ready for its fragments. */
  ghost predicate ReadyToFold(t: Trace, turn: ClosedTurn) {
    && turn.rich && turn.merges == [] && turn.id == OpenId(t.engine) && turn.openedAt <= turn.closedAt
    && TurnOk(t.hist, turn.id, turn.files) && SpanOk(turn)
    && (turn.boundary == BracketStop ==> turn.id in t.starts && t.starts[turn.id] == turn.openedAt)
  }

  lemma StoppedTurnIsReady(t: Trace, now: nat, tool: string, prompt: Option<string>, session: Option<string>)
    requires OpenOk(t) && (StopsBracket(t.engine.open, tool) || StopConverts(t.engine.open, now))
    ensures ReadyToFold(t, StoppedTurn(t.engine.open.value, now, tool, prompt, session))
  {}

  lemma StopClosesKeepsInv(t: Trace, now: nat, tool: string, prompt: Option<string>, session: Option<string>)
    requires Inv(t) && (StopsBracket(t.engine.open, tool) || StopConverts(t.engine.open, now))
    ensures Inv(After(t, Stop(now, tool, prompt, session)))
  {
    var turn := StoppedTurn(t.engine.open.value, now, tool, prompt, session);
    var u := After(t, Stop(now, tool, prompt, session));
    StopClosesShape(t, now, tool, prompt, session);
    StoppedTurnIsReady(t, now, tool, prompt, session);
    assert u.engine.nextId == t.engine.nextId;
    CompletedAccounted(t, u, turn);
    CompletedKeepsInv(t, u, turn);
  }

  lemma StopMintsShape(t: Trace, now: nat, tool: string, prompt: Option<string>, session: Option<string>)
    requires OpenOk(t) && !(StopsBracket(t.engine.open, tool) || StopConverts(t.engine.open, now))
    ensures var q := Quieted(t, now);
            var u := After(t, Stop(now, tool, prompt, session));
            && Completed(q, u, EmptyRich(q.engine.nextId, now, tool, prompt, session))
            && u.engine.nextId == q.engine.nextId + 1
  {
    var q := Quieted(t, now);
    var c := Fold(q.engine.recentBare, EmptyRich(q.engine.nextId, now, tool, prompt, session),
                  q.engine.lastRichClosedAt);
    assert q.engine.recentBare == t.engine.recentBare && q.engine.lastRichClosedAt == t.engine.lastRichClosedAt;
    var before := if t.engine.open.Some? then [CloseOnItsTerms(t.engine.open.value, now)] else [];
    assert t.returned + (before + [c]) == q.returned + [c];
  }

  lemma StopMintsKeepsInv(t: Trace, now: nat, tool: string, prompt: Option<string>, session: Option<string>)
    requires Inv(t) && !(StopsBracket(t.engine.open, tool) || StopConverts(t.engine.open, now))
    ensures Inv(After(t, Stop(now, tool, prompt, session)))
  {
    var q := Quieted(t, now);
    QuietKeepsInv(t, now);
    StopMintsShape(t, now, tool, prompt, session);
    CompletedAccounted(q, After(t, Stop(now, tool, prompt, session)),
                       EmptyRich(q.engine.nextId, now, tool, prompt, session));
    OpeningTurnOk(q);
    CompletedKeepsInv(q, After(t, Stop(now, tool, prompt, session)),
                      EmptyRich(q.engine.nextId, now, tool, prompt, session));
  }

  lemma EventKeepsInv(t: Trace, ev: Event)
    requires Inv(t)
    ensures Inv(After(t, ev))
  {
    match ev
    case Changes(now, changes) => ChangesKeepInv(t, now, changes);
    case GitChange(now) => GitKeepsInv(t, now);
    case Start(now, tool, prompt, session) => StartKeepsInv(t, now, tool, prompt, session);
    case Stop(now, tool, prompt, session) =>
      if StopsBracket(t.engine.open, tool) || StopConverts(t.engine.open, now) {
        StopClosesKeepsInv(t, now, tool, prompt, session);
      } else {
        StopMintsKeepsInv(t, now, tool, prompt, session);
      }
    case Ticked(now) => TickKeepsInv(t, now);
    case Shutdown(now) => ShutdownKeepsInv(t, now);
  }

  lemma BeginningInv()
    ensures Inv(Beginning)
  {
    assert Ids([]) == [];
  }

  lemma {:induction false} PlayKeepsInv(t: Trace, events: seq<Event>)
    requires Inv(t)
    ensures Inv(Play(t, events))
    decreases |events|
  {
    if events != [] {
      EventKeepsInv(t, events[0]);
      PlayKeepsInv(After(t, events[0]), events[1..]);
    }
  }
}
