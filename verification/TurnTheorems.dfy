/** What every run of the turn engine, from its start, guarantees about the turns it leaves behind. */
module TurnTheorems {
  import opened Records
  import opened TurnEngineSpec
  import opened TurnObservations
  import opened TurnHistory

  /** Every turn there is: returned, pending, and the open one as a shutdown would close it. */
  function Turns(t: Trace): seq<ClosedTurn> {
    Closed(t) + if t.engine.open.Some? then [CloseOnItsTerms(t.engine.open.value, t.clock)] else []
  }

  predicate Superseded(t: Trace, id: TurnId) {
    exists r :: r in t.returned && id in r.merges
  }

  /** `c` still stands, and stands for the turn that `h` was observed in. */
  predicate Carries(t: Trace, c: ClosedTurn, h: Seen) {
    !Superseded(t, c.id) && h.turn in Covered(c.id, c.merges)
  }

  ghost predicate NamedOnce(files: seq<ChangeObs>, p: Path) {
    exists i :: 0 <= i < |files| && files[i].path == p && forall j :: 0 <= j < |files| && files[j].path == p ==> j == i
  }

  // ---- helpers ------------------------------------------------------------------------

  lemma TurnIds(t: Trace)
    requires Accounted(t)
    ensures multiset(Ids(Turns(t))) == UpTo(t.engine.nextId)
  {
    IdsAppend(t.returned, t.engine.pending);
    if t.engine.open.Some? {
      var last := [CloseOnItsTerms(t.engine.open.value, t.clock)];
      IdsAppend(Closed(t), last);
      assert Ids(last) == [t.engine.open.value.id];
    } else {
      assert Turns(t) == Closed(t);
    }
  }

  lemma TwiceInASequence(ids: seq<TurnId>, i: nat, j: nat)
    requires i < j < |ids| && ids[i] == ids[j]
    ensures multiset(ids)[ids[i]] >= 2
  {
    assert ids == ids[..j] + ids[j..];
    assert ids[i] in ids[..j] && ids[j] in ids[j..];
  }

  lemma SameIdSameTurn(t: Trace, i: nat, j: nat)
    requires Accounted(t) && i < |Turns(t)| && j < |Turns(t)| && Turns(t)[i].id == Turns(t)[j].id
    ensures i == j
  {
    TurnIds(t);
    UpToCounts(t.engine.nextId, Turns(t)[i].id);
    if i < j {
      TwiceInASequence(Ids(Turns(t)), i, j);
    } else if j < i {
      TwiceInASequence(Ids(Turns(t)), j, i);
    }
  }

  lemma {:induction false} MergedCounts(turns: seq<ClosedTurn>, i: nat, m: TurnId)
    requires i < |turns| && m in turns[i].merges
    ensures AllMerges(turns)[m] >= multiset(turns[i].merges)[m] >= 1
  {
    var n := |turns| - 1;
    if i < n {
      MergedCounts(turns[..n], i, m);
    }
  }

  lemma {:induction false} MergedTwiceCounts(turns: seq<ClosedTurn>, i: nat, j: nat, m: TurnId)
    requires i < j < |turns| && m in turns[i].merges && m in turns[j].merges
    ensures AllMerges(turns)[m] >= 2
  {
    var n := |turns| - 1;
    if j < n {
      MergedTwiceCounts(turns[..n], i, j, m);
    } else {
      MergedCounts(turns[..n], i, m);
    }
  }

  lemma AllTurnsOk(t: Trace, c: ClosedTurn)
    requires Inv(t) && c in Turns(t)
    ensures ClosedOk(t.hist, c)
    ensures c.merges != [] ==> c in t.returned && c.rich
  {
    if c in Closed(t) {
      assert ClosedOk(t.hist, c);
    } else {
      OwnTermsOk(t, t.clock);
    }
  }

  lemma DistinctIsOnce(files: seq<ChangeObs>, p: Path)
    requires DistinctPaths(files) && Lookup(files, p).Some?
    ensures NamedOnce(files, p)
  {
    var i := FindPath(files, p);
    assert files[i].path == p;
  }

  /** A turn that carries an observation names its path exactly once. */
  lemma CarrierNames(t: Trace, c: ClosedTurn, h: Seen)
    requires Inv(t) && c in Turns(t) && Carries(t, c, h) && h in t.hist
    ensures NamedOnce(c.files, h.change.path)
  {
    AllTurnsOk(t, c);
    OriginAndLatest(t.hist, Covered(c.id, c.merges), h.change.path);
    assert Concerns(h, Covered(c.id, c.merges), h.change.path);
    assert MergedPath(t.hist, c.id, c.merges, c.files, h.change.path);
    DistinctIsOnce(c.files, h.change.path);
  }

  lemma MergedIntoOne(t: Trace, i: nat, j: nat, m: TurnId)
    requires MergesOk(t) && i < |t.returned| && j < |t.returned|
    requires m in t.returned[i].merges && m in t.returned[j].merges
    ensures i == j
  {
    assert (AllMerges(t.returned) + multiset(Ids(t.engine.recentBare)))[m] <= 1;
    if i < j {
      MergedTwiceCounts(t.returned, i, j, m);
    } else if j < i {
      MergedTwiceCounts(t.returned, j, i, m);
    }
  }

  /** What was merged was bare, so a turn that merges is never superseded itself. */
  lemma MergerStands(t: Trace, c: ClosedTurn)
    requires Inv(t) && c in Closed(t)
    ensures Superseded(t, c.id) ==> !c.rich
  {
    if Superseded(t, c.id) {
      var r :| r in t.returned && c.id in r.merges;
      assert MergeOk(t, r, c.id);
      var b :| b in Closed(t) && b.id == c.id && !b.rich;
      var i :| 0 <= i < |Closed(t)| && Closed(t)[i] == c;
      var j :| 0 <= j < |Closed(t)| && Closed(t)[j] == b;
      assert Turns(t)[i] == c && Turns(t)[j] == b;
      SameIdSameTurn(t, i, j);
    }
  }

  lemma CarrierIsUnique(t: Trace, h: Seen, i: nat, j: nat)
    requires Inv(t) && i < |Turns(t)| && j < |Turns(t)|
    requires Carries(t, Turns(t)[i], h) && Carries(t, Turns(t)[j], h)
    ensures i == j
  {
    var c, d := Turns(t)[i], Turns(t)[j];
    AllTurnsOk(t, c);
    AllTurnsOk(t, d);
    if c.id == h.turn && d.id == h.turn {
      SameIdSameTurn(t, i, j);
    } else if c.id != h.turn && d.id != h.turn {
      var x :| 0 <= x < |t.returned| && t.returned[x] == c;
      var y :| 0 <= y < |t.returned| && t.returned[y] == d;
      MergedIntoOne(t, x, y, h.turn);
      SameIdSameTurn(t, i, j);
    }
  }

  lemma IdIsSomewhere(t: Trace, id: TurnId)
    requires Accounted(t) && id < t.engine.nextId
    ensures exists i :: 0 <= i < |Turns(t)| && Turns(t)[i].id == id
  {
    TurnIds(t);
    UpToCounts(t.engine.nextId, id);
    assert id in multiset(Ids(Turns(t)));
    assert id in Ids(Turns(t));
    var i :| 0 <= i < |Ids(Turns(t))| && Ids(Turns(t))[i] == id;
    assert Turns(t)[i].id == id;
  }

  lemma CarrierExists(t: Trace, h: Seen)
    requires Inv(t) && h in t.hist
    ensures exists i :: 0 <= i < |Turns(t)| && Carries(t, Turns(t)[i], h)
  {
    if Superseded(t, h.turn) {
      var r :| r in t.returned && h.turn in r.merges;
      AllTurnsOk(t, r);
      MergerStands(t, r);
      var i :| 0 <= i < |t.returned| && t.returned[i] == r;
      assert Turns(t)[i] == r && Carries(t, r, h);
    } else {
      IdIsSomewhere(t, h.turn);
      var i :| 0 <= i < |Turns(t)| && Turns(t)[i].id == h.turn;
      assert Carries(t, Turns(t)[i], h);
    }
  }

  // ---- theorems over every run ---------------------------------------------------------

  function Run(events: seq<Event>): Trace {
    Play(Beginning, events)
  }

  lemma RunInv(events: seq<Event>)
    ensures Inv(Run(events))
  {
    BeginningInv();
    PlayKeepsInv(Beginning, events);
  }

  /** Each minted id belongs to exactly one turn: returned, pending or open. */
  lemma EachIdHasOneHome(events: seq<Event>, id: TurnId)
    ensures var t := Run(events);
            && (id < t.engine.nextId <==> exists i :: 0 <= i < |Turns(t)| && Turns(t)[i].id == id)
            && forall i, j :: 0 <= i < |Turns(t)| && 0 <= j < |Turns(t)| && Turns(t)[i].id == Turns(t)[j].id ==> i == j
  {
    var t := Run(events);
    RunInv(events);
    if id < t.engine.nextId {
      IdIsSomewhere(t, id);
    }
    forall i | 0 <= i < |Turns(t)| ensures Turns(t)[i].id < t.engine.nextId {
      TurnIds(t);
      UpToCounts(t.engine.nextId, Turns(t)[i].id);
      IdCounts(Turns(t), Turns(t)[i]);
    }
    forall i, j | 0 <= i < |Turns(t)| && 0 <= j < |Turns(t)| && Turns(t)[i].id == Turns(t)[j].id ensures i == j {
      SameIdSameTurn(t, i, j);
    }
  }

  /** A merge takes only closed bare turns, each at most once over the whole run, and what it merged can
      no longer be merged by anything else. */
  lemma MergedAtMostOnce(events: seq<Event>, i: nat, m: TurnId)
    requires i < |Run(events).returned| && m in Run(events).returned[i].merges
    ensures var t := Run(events);
            && multiset(t.returned[i].merges)[m] == 1
            && (forall j :: 0 <= j < |t.returned| && m in t.returned[j].merges ==> j == i)
            && m !in Ids(t.engine.recentBare)
            && (exists c :: c in Closed(t) && c.id == m && !c.rich)
            && m < t.returned[i].id
  {
    var t := Run(events);
    RunInv(events);
    assert MergeOk(t, t.returned[i], m);
    assert (AllMerges(t.returned) + multiset(Ids(t.engine.recentBare)))[m] <= 1;
    MergedCounts(t.returned, i, m);
    forall j | 0 <= j < |t.returned| && m in t.returned[j].merges ensures j == i {
      MergedIntoOne(t, i, j, m);
    }
    assert m in Ids(t.engine.recentBare) <==> multiset(Ids(t.engine.recentBare))[m] >= 1;
  }

  /** No observation is lost or doubled: after dropping superseded turns, each one is carried by exactly
      one turn, and that turn's file list names its path exactly once. */
  lemma NoHistoryLostOrDoubled(events: seq<Event>, h: Seen)
    requires h in Run(events).hist
    ensures var t := Run(events);
            exists i :: 0 <= i < |Turns(t)| && Carries(t, Turns(t)[i], h)
              && NamedOnce(Turns(t)[i].files, h.change.path)
              && forall j :: 0 <= j < |Turns(t)| && Carries(t, Turns(t)[j], h) ==> j == i
  {
    var t := Run(events);
    RunInv(events);
    CarrierExists(t, h);
    var i :| 0 <= i < |Turns(t)| && Carries(t, Turns(t)[i], h);
    CarrierNames(t, Turns(t)[i], h);
    forall j | 0 <= j < |Turns(t)| && Carries(t, Turns(t)[j], h) ensures j == i {
      CarrierIsUnique(t, h, i, j);
    }
  }

  /** Conversely, no turn names a path that was not observed in a turn it stands for. */
  lemma NoHistoryInvented(events: seq<Event>, c: ClosedTurn, p: Path)
    requires c in Turns(Run(events)) && HasPath(c.files, p)
    ensures exists h :: h in Run(events).hist && h.turn in Covered(c.id, c.merges) && h.change.path == p
  {
    var t := Run(events);
    RunInv(events);
    AllTurnsOk(t, c);
    OriginAndLatest(t.hist, Covered(c.id, c.merges), p);
    assert FindPath(c.files, p) < |c.files|;
    assert Lookup(c.files, p).Some? && MergedPath(t.hist, c.id, c.merges, c.files, p);
    assert exists h :: h in t.hist && Concerns(h, Covered(c.id, c.merges), p);
  }

  /** A bare turn claims nothing: no tool, no prompt, no session, no merged turns; and a stop without a
      start never claims more than the fold window. */
  lemma BareTurnsClaimNothing(events: seq<Event>, c: ClosedTurn)
    requires c in Turns(Run(events))
    ensures !c.rich ==> c.tool.None? && c.prompt.None? && c.session.None? && c.merges == []
    ensures c.boundary == StopOnly ==> c.closedAt - c.openedAt <= FOLD_WINDOW_MS
  {
    RunInv(events);
    AllTurnsOk(Run(events), c);
  }

  /** A bracket absorbs no fragment that closed before the bracket's start signal. */
  lemma BracketAbsorbsNothingEarlier(events: seq<Event>, r: ClosedTurn, m: TurnId)
    requires r in Run(events).returned && r.boundary == BracketStop && m in r.merges
    ensures var t := Run(events);
            && r.id in t.starts
            && forall c :: c in Closed(t) && c.id == m ==> c.closedAt >= t.starts[r.id]
  {
    var t := Run(events);
    RunInv(events);
    assert MergeOk(t, r, m);
    var b :| b in Closed(t) && b.id == m && b.closedAt >= t.starts[r.id];
    forall c | c in Closed(t) && c.id == m ensures c == b {
      var i :| 0 <= i < |Closed(t)| && Closed(t)[i] == c;
      var j :| 0 <= j < |Closed(t)| && Closed(t)[j] == b;
      assert Turns(t)[i] == c && Turns(t)[j] == b;
      SameIdSameTurn(t, i, j);
    }
  }
}
