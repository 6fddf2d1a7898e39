/** What a turn's file list says about the observations behind it: the first observation of a path
    fixes its original, and a merge of fragments keeps the earliest. */
module TurnObservations {
  import opened Records
  import opened TurnEngineSpec

  /** One observed change, with the turn that was open when it was observed. */
  datatype Seen = Seen(turn: TurnId, change: ChangeObs)

  predicate Concerns(h: Seen, turns: set<TurnId>, path: Path) {
    h.turn in turns && h.change.path == path
  }

  /** The first observation of `path` in any of `turns`. */
  function Origin(hist: seq<Seen>, turns: set<TurnId>, path: Path): Option<ChangeObs> {
    if hist == [] then None
    else
      var n := |hist| - 1;
      var earlier := Origin(hist[..n], turns, path);
      if earlier.Some? then earlier
      else if Concerns(hist[n], turns, path) then Some(hist[n].change) else None
  }

  /** The last observation of `path` in any of `turns`. */
  function Latest(hist: seq<Seen>, turns: set<TurnId>, path: Path): Option<ChangeObs> {
    if hist == [] then None
    else
      var n := |hist| - 1;
      if Concerns(hist[n], turns, path) then Some(hist[n].change) else Latest(hist[..n], turns, path)
  }

  function Lookup(files: seq<ChangeObs>, path: Path): Option<ChangeObs> {
    var i := FindPath(files, path);
    if i < |files| then Some(files[i]) else None
  }

  ghost predicate DistinctPaths(files: seq<ChangeObs>) {
    forall i, j :: 0 <= i < j < |files| ==> files[i].path != files[j].path
  }

  /** The entry (if any) carries the original that `o` observed. */
  predicate SameOriginal(entry: Option<ChangeObs>, o: Option<ChangeObs>) {
    && (entry.Some? <==> o.Some?)
    && (entry.Some? ==> entry.value.beforeHash == o.value.beforeHash
                        && entry.value.baselineUnknown == o.value.baselineUnknown)
  }

  /** The entry (if any) carries the terminal state that `l` observed and the skip cause of `o`. */
  predicate SameTerminal(entry: Option<ChangeObs>, o: Option<ChangeObs>, l: Option<ChangeObs>) {
    && (entry.Some? <==> l.Some?) && (entry.Some? <==> o.Some?)
    && (entry.Some? ==> entry.value.deleted == l.value.deleted
                        && entry.value.snapshotted == l.value.snapshotted
                        && entry.value.withheld == l.value.withheld
                        && entry.value.skipReason == o.value.skipReason)
  }

  /** The files of a turn that merged nothing: every path it observed, once, with the original of its
      first observation and the terminal state of its last. */
  ghost predicate TurnOk(hist: seq<Seen>, id: TurnId, files: seq<ChangeObs>) {
    && DistinctPaths(files)
    && forall p ::
         && SameOriginal(Lookup(files, p), Origin(hist, {id}, p))
         && SameTerminal(Lookup(files, p), Origin(hist, {id}, p), Latest(hist, {id}, p))
  }

  // ---- file lists ------------------------------------------------------------

  lemma LookupAppend(files: seq<ChangeObs>, c: ChangeObs, p: Path)
    requires DistinctPaths(files) && Lookup(files, c.path).None?
    ensures DistinctPaths(files + [c])
    ensures Lookup(files + [c], p) == if p == c.path then Some(c) else Lookup(files, p)
  {
    var i := FindPath(files + [c], p);
    var j := FindPath(files, p);
    assert j < |files| ==> (files + [c])[j].path == p;
    assert i < |files| ==> files[i].path == p;
    assert (files + [c])[|files|] == c;
  }

  lemma LookupUpdate(files: seq<ChangeObs>, i: nat, c: ChangeObs, p: Path)
    requires DistinctPaths(files) && i < |files| && files[i].path == c.path
    ensures DistinctPaths(files[i := c])
    ensures Lookup(files[i := c], p) == if p == c.path then Some(c) else Lookup(files, p)
  {
    var k := FindPath(files[i := c], p);
    var j := FindPath(files, p);
    assert j < |files| ==> files[i := c][j].path == p;
    assert k < |files| ==> files[k].path == p;
  }

  // ---- observations ------------------------------------------------------------

  lemma AppendSeen(hist: seq<Seen>, h: Seen, turns: set<TurnId>, p: Path)
    ensures Origin(hist + [h], turns, p) ==
            if Origin(hist, turns, p).Some? then Origin(hist, turns, p)
            else if Concerns(h, turns, p) then Some(h.change) else None
    ensures Latest(hist + [h], turns, p) ==
            if Concerns(h, turns, p) then Some(h.change) else Latest(hist, turns, p)
  {
    assert (hist + [h])[..|hist|] == hist;
  }

  lemma {:induction false} OriginAndLatest(hist: seq<Seen>, turns: set<TurnId>, p: Path)
    ensures Origin(hist, turns, p).Some? <==> Latest(hist, turns, p).Some?
    ensures Origin(hist, turns, p).Some? <==> exists h :: h in hist && Concerns(h, turns, p)
  {
    if hist != [] {
      var n := |hist| - 1;
      OriginAndLatest(hist[..n], turns, p);
      assert hist == hist[..n] + [hist[n]];
    }
  }

  /** A turn with no observation yet has no files. */
  lemma FreshTurnOk(hist: seq<Seen>, id: TurnId)
    requires forall h :: h in hist ==> h.turn != id
    ensures TurnOk(hist, id, [])
  {
    forall p ensures Origin(hist, {id}, p).None? && Latest(hist, {id}, p).None? {
      OriginAndLatest(hist, {id}, p);
    }
  }

  lemma AbsorbKeepsTurnOk(hist: seq<Seen>, id: TurnId, files: seq<ChangeObs>, c: ChangeObs)
    requires TurnOk(hist, id, files)
    ensures TurnOk(hist + [Seen(id, c)], id, Absorb(files, c))
  {
    var i := FindPath(files, c.path);
    var next := Absorb(files, c);
    var longer := hist + [Seen(id, c)];
    assert Lookup(files, c.path) == if i == |files| then None else Some(files[i]);
    assert DistinctPaths(next) by {
      if i == |files| {
        LookupAppend(files, c, c.path);
      } else {
        LookupUpdate(files, i, next[i], c.path);
      }
    }
    forall p
      ensures SameOriginal(Lookup(next, p), Origin(longer, {id}, p))
      ensures SameTerminal(Lookup(next, p), Origin(longer, {id}, p), Latest(longer, {id}, p))
    {
      AppendSeen(hist, Seen(id, c), {id}, p);
      assert SameOriginal(Lookup(files, p), Origin(hist, {id}, p));
      if i == |files| {
        LookupAppend(files, c, p);
      } else {
        LookupUpdate(files, i, next[i], p);
      }
    }
  }

  function Tagged(id: TurnId, changes: seq<ChangeObs>): seq<Seen> {
    seq(|changes|, i requires 0 <= i < |changes| => Seen(id, changes[i]))
  }

  lemma {:induction false} AbsorbAllKeepsTurnOk(hist: seq<Seen>, id: TurnId, files: seq<ChangeObs>, changes: seq<ChangeObs>)
    requires TurnOk(hist, id, files)
    ensures TurnOk(hist + Tagged(id, changes), id, AbsorbAll(files, changes))
    decreases |changes|
  {
    if changes == [] {
      assert hist + Tagged(id, changes) == hist;
    } else {
      AbsorbKeepsTurnOk(hist, id, files, changes[0]);
      AbsorbAllKeepsTurnOk(hist + [Seen(id, changes[0])], id, Absorb(files, changes[0]), changes[1..]);
      assert hist + Tagged(id, changes) == hist + [Seen(id, changes[0])] + Tagged(id, changes[1..]);
    }
  }

  /** Observations of other turns change nothing. */
  lemma {:induction false} OtherTurnsUnaffected(hist: seq<Seen>, more: seq<Seen>, turns: set<TurnId>, p: Path)
    requires forall h :: h in more ==> h.turn !in turns
    ensures Origin(hist + more, turns, p) == Origin(hist, turns, p)
    ensures Latest(hist + more, turns, p) == Latest(hist, turns, p)
    decreases |more|
  {
    if more == [] {
      assert hist + more == hist;
    } else {
      var n := |more| - 1;
      OtherTurnsUnaffected(hist, more[..n], turns, p);
      AppendSeen(hist + more[..n], more[n], turns, p);
      assert hist + more == hist + more[..n] + [more[n]];
    }
  }

  /** Observations come in turn order: a later one belongs to the same turn or to a later one. */
  ghost predicate InTurnOrder(hist: seq<Seen>) {
    forall i, j :: 0 <= i < j < |hist| ==> hist[i].turn <= hist[j].turn
  }

  /** When every turn of `a` precedes every turn of `b`, the earliest observation is that of `a`. */
  lemma {:induction false} OriginOfUnion(hist: seq<Seen>, a: set<TurnId>, b: set<TurnId>, p: Path)
    requires InTurnOrder(hist)
    requires forall x, y :: x in a && y in b ==> x < y
    ensures Origin(hist, a + b, p) ==
            if Origin(hist, a, p).Some? then Origin(hist, a, p) else Origin(hist, b, p)
  {
    if hist != [] {
      var n := |hist| - 1;
      var front := hist[..n];
      OriginOfUnion(front, a, b, p);
      if Concerns(hist[n], a, p) && Origin(front, a, p).None? {
        OriginAndLatest(front, b, p);
        forall h | h in front ensures h.turn !in b {
          var i :| 0 <= i < |front| && front[i] == h;
          assert hist[i].turn <= hist[n].turn;
        }
      }
    }
  }

  // ---- merging ------------------------------------------------------------------

  /** Folding one fragment's files, path by path: a path an earlier fragment claimed stays as it is,
      a new path is taken over whole, and any other path takes over only the original. */
  function FoldedEntry(m: Merge, files: seq<ChangeObs>, p: Path): Option<ChangeObs> {
    var own, theirs := Lookup(m.files, p), Lookup(files, p);
    if p in m.claimed || theirs.None? then own
    else if own.None? then theirs
    else Some(own.value.(beforeHash := theirs.value.beforeHash, baselineUnknown := theirs.value.baselineUnknown))
  }

  ghost predicate ClaimedIn(m: Merge) {
    forall p :: p in m.claimed ==> Lookup(m.files, p).Some?
  }

  lemma FoldFileEntries(m: Merge, file: ChangeObs, p: Path)
    requires DistinctPaths(m.files) && ClaimedIn(m)
    ensures var r := FoldFile(m, file);
            && DistinctPaths(r.files) && ClaimedIn(r)
            && r.claimed == m.claimed + {file.path}
            && Lookup(r.files, p) == FoldedEntry(m, [file], p)
  {
    var r := FoldFile(m, file);
    var i := FindPath(m.files, file.path);
    forall q
      ensures DistinctPaths(r.files)
      ensures Lookup(r.files, q) == FoldedEntry(m, [file], q)
    {
      assert FindPath([file], q) == if file.path == q then 0 else 1;
      if file.path !in m.claimed {
        if i == |m.files| {
          LookupAppend(m.files, file, q);
        } else {
          LookupUpdate(m.files, i, r.files[i], q);
        }
      }
    }
  }

  lemma {:induction false} FoldFilesEntries(m: Merge, files: seq<ChangeObs>, p: Path)
    requires DistinctPaths(m.files) && ClaimedIn(m) && DistinctPaths(files)
    ensures var r := FoldFiles(m, files);
            && DistinctPaths(r.files) && ClaimedIn(r)
            && (p in r.claimed <==> p in m.claimed || Lookup(files, p).Some?)
            && Lookup(r.files, p) == FoldedEntry(m, files, p)
    decreases |files|
  {
    if files != [] {
      var file, rest := files[0], files[1..];
      FoldFileEntries(m, file, p);
      var next := FoldFile(m, file);
      FoldFilesEntries(next, rest, p);
      assert FindPath([file], p) == if file.path == p then 0 else 1;
      assert FindPath(files, p) == if file.path == p then 0 else 1 + FindPath(rest, p);
      forall k | 0 <= k < |rest| ensures rest[k].path != file.path {
        assert rest[k] == files[k + 1];
      }
    }
  }

  /** The fragment of `merges` whose files a merged entry was taken from: the turn itself if it observed
      the path, and otherwise the first fragment that did. */
  function FirstHolding(hist: seq<Seen>, merges: seq<TurnId>, p: Path): Option<TurnId> {
    if merges == [] then None
    else
      var n := |merges| - 1;
      var earlier := FirstHolding(hist, merges[..n], p);
      if earlier.Some? then earlier
      else if Origin(hist, {merges[n]}, p).Some? then Some(merges[n]) else None
  }

  function Holder(hist: seq<Seen>, id: TurnId, merges: seq<TurnId>, p: Path): TurnId {
    if Origin(hist, {id}, p).Some? then id
    else
      var first := FirstHolding(hist, merges, p);
      if first.Some? then first.value else id
  }

  lemma {:induction false} HoldsSome(hist: seq<Seen>, merges: seq<TurnId>, p: Path)
    ensures FirstHolding(hist, merges, p).Some? <==> Origin(hist, Elements(merges), p).Some?
  {
    if merges == [] {
      OriginAndLatest(hist, Elements(merges), p);
    } else {
      var n := |merges| - 1;
      HoldsSome(hist, merges[..n], p);
      assert merges == merges[..n] + [merges[n]];
      assert Elements(merges) == Elements(merges[..n]) + {merges[n]};
      UnionSeen(hist, Elements(merges[..n]), {merges[n]}, p);
    }
  }

  /** Every turn a merged record stands for. */
  function Covered(id: TurnId, merges: seq<TurnId>): set<TurnId> {
    Elements(merges) + {id}
  }

  /** The entry of one path after merging `merges` into turn `id`: there if any of the covered turns
      observed it, with the terminal state of the turn it was taken from. */
  predicate MergedPath(hist: seq<Seen>, id: TurnId, merges: seq<TurnId>, files: seq<ChangeObs>, p: Path) {
    && (Lookup(files, p).Some? <==> Origin(hist, Covered(id, merges), p).Some?)
    && var from := {Holder(hist, id, merges, p)};
       SameTerminal(Lookup(files, p), Origin(hist, from, p), Latest(hist, from, p))
  }

  /** Files after merging `merges` into turn `id`: each path that any of the covered turns observed, once. */
  ghost predicate MergedOk(hist: seq<Seen>, id: TurnId, merges: seq<TurnId>, files: seq<ChangeObs>) {
    && DistinctPaths(files)
    && forall p :: MergedPath(hist, id, merges, files, p)
  }

  /** Every path has the original that the earliest observation among the covered turns recorded. */
  ghost predicate Originals(hist: seq<Seen>, turns: set<TurnId>, files: seq<ChangeObs>) {
    forall p :: SameOriginal(Lookup(files, p), Origin(hist, turns, p))
  }

  /** A merge in progress over the fragments `done`. */
  ghost predicate MergingOk(hist: seq<Seen>, id: TurnId, done: seq<TurnId>, m: Merge) {
    && MergedOk(hist, id, done, m.files)
    && (forall p :: p in m.claimed <==> Origin(hist, Elements(done), p).Some?)
  }

  /** Originals of a merge in progress: claimed paths have the fragments' original, others their own. */
  ghost predicate MergingOriginals(hist: seq<Seen>, id: TurnId, done: seq<TurnId>, m: Merge) {
    forall p :: SameOriginal(Lookup(m.files, p),
                             if p in m.claimed then Origin(hist, Elements(done), p) else Origin(hist, {id}, p))
  }

  lemma {:induction false} UnionSeen(hist: seq<Seen>, a: set<TurnId>, b: set<TurnId>, p: Path)
    ensures Origin(hist, a + b, p).Some? <==> Origin(hist, a, p).Some? || Origin(hist, b, p).Some?
  {
    OriginAndLatest(hist, a, p);
    OriginAndLatest(hist, b, p);
    OriginAndLatest(hist, a + b, p);
    assert forall h :: Concerns(h, a + b, p) <==> Concerns(h, a, p) || Concerns(h, b, p);
  }

  lemma NothingSeenOfNone(hist: seq<Seen>, p: Path)
    ensures Origin(hist, Elements<TurnId>([]), p).None?
  {
    OriginAndLatest(hist, Elements<TurnId>([]), p);
  }

  lemma UnmergedHolder(hist: seq<Seen>, id: TurnId, p: Path)
    ensures Holder(hist, id, [], p) == id
  {}

  lemma UnmergedIsMerged(hist: seq<Seen>, id: TurnId, files: seq<ChangeObs>)
    requires TurnOk(hist, id, files)
    ensures MergedOk(hist, id, [], files)
  {
    assert Covered(id, []) == {id};
    forall p ensures MergedPath(hist, id, [], files, p) {
      UnmergedHolder(hist, id, p);
      assert SameTerminal(Lookup(files, p), Origin(hist, {id}, p), Latest(hist, {id}, p));
    }
  }

  lemma UnmergedOk(hist: seq<Seen>, id: TurnId, files: seq<ChangeObs>)
    requires TurnOk(hist, id, files)
    ensures MergingOk(hist, id, [], Merge(files, {})) && MergingOriginals(hist, id, [], Merge(files, {}))
  {
    UnmergedIsMerged(hist, id, files);
    forall p
      ensures Origin(hist, Elements<TurnId>([]), p).None?
      ensures SameOriginal(Lookup(files, p), Origin(hist, {id}, p))
    {
      NothingSeenOfNone(hist, p);
    }
  }

  lemma ClaimsAreMerged(hist: seq<Seen>, id: TurnId, done: seq<TurnId>, m: Merge)
    requires MergingOk(hist, id, done, m)
    ensures ClaimedIn(m)
  {
    forall p | p in m.claimed ensures Lookup(m.files, p).Some? {
      UnionSeen(hist, Elements(done), {id}, p);
      assert MergedPath(hist, id, done, m.files, p);
    }
  }

  /** One path after folding one more fragment. */
  lemma FoldFragmentPath(hist: seq<Seen>, id: TurnId, done: seq<TurnId>, m: Merge, b: ClosedTurn, p: Path)
    requires MergingOk(hist, id, done, m) && TurnOk(hist, b.id, b.files)
    ensures var r := FoldFiles(m, b.files);
            && DistinctPaths(r.files)
            && (p in r.claimed <==> Origin(hist, Elements(done + [b.id]), p).Some?)
            && MergedPath(hist, id, done + [b.id], r.files, p)
  {
    var next := done + [b.id];
    assert Elements(next) == Elements(done) + {b.id};
    assert Covered(id, next) == Covered(id, done) + {b.id};
    ClaimsAreMerged(hist, id, done, m);
    FoldFilesEntries(m, b.files, p);
    UnionSeen(hist, Elements(done), {b.id}, p);
    UnionSeen(hist, Covered(id, done), {b.id}, p);
    UnionSeen(hist, Elements(done), {id}, p);
    HoldsSome(hist, done, p);
    assert next[..|done|] == done;
    assert MergedPath(hist, id, done, m.files, p);
    assert SameOriginal(Lookup(b.files, p), Origin(hist, {b.id}, p));
    assert SameTerminal(Lookup(b.files, p), Origin(hist, {b.id}, p), Latest(hist, {b.id}, p));
  }

  lemma FoldFragmentOk(hist: seq<Seen>, id: TurnId, done: seq<TurnId>, m: Merge, b: ClosedTurn)
    requires MergingOk(hist, id, done, m) && TurnOk(hist, b.id, b.files)
    ensures MergingOk(hist, id, done + [b.id], FoldFiles(m, b.files))
  {
    var r := FoldFiles(m, b.files);
    FoldFragmentPath(hist, id, done, m, b, "");
    forall p
      ensures p in r.claimed <==> Origin(hist, Elements(done + [b.id]), p).Some?
      ensures MergedPath(hist, id, done + [b.id], r.files, p)
    {
      FoldFragmentPath(hist, id, done, m, b, p);
    }
  }

  lemma FoldFragmentOriginals(hist: seq<Seen>, id: TurnId, done: seq<TurnId>, m: Merge, b: ClosedTurn)
    requires InTurnOrder(hist)
    requires MergingOk(hist, id, done, m) && MergingOriginals(hist, id, done, m) && TurnOk(hist, b.id, b.files)
    requires forall x :: x in done ==> x < b.id
    ensures MergingOriginals(hist, id, done + [b.id], FoldFiles(m, b.files))
  {
    var r := FoldFiles(m, b.files);
    var next := done + [b.id];
    assert Elements(next) == Elements(done) + {b.id};
    ClaimsAreMerged(hist, id, done, m);
    forall p
      ensures SameOriginal(Lookup(r.files, p),
                           if p in r.claimed then Origin(hist, Elements(next), p) else Origin(hist, {id}, p))
    {
      FoldFilesEntries(m, b.files, p);
      OriginOfUnion(hist, Elements(done), {b.id}, p);
      assert SameOriginal(Lookup(b.files, p), Origin(hist, {b.id}, p));
      assert SameOriginal(Lookup(m.files, p),
                          if p in m.claimed then Origin(hist, Elements(done), p) else Origin(hist, {id}, p));
    }
  }

  /** Merging any fragments, in any order, names every path any of them observed exactly once. */
  lemma {:induction false} FoldFragmentsOk(hist: seq<Seen>, id: TurnId, done: seq<TurnId>, m: Merge, frags: seq<ClosedTurn>)
    requires MergingOk(hist, id, done, m)
    requires forall b :: b in frags ==> TurnOk(hist, b.id, b.files)
    ensures MergingOk(hist, id, done + Ids(frags), FoldFragments(m, frags))
    decreases |frags|
  {
    if frags == [] {
      assert done + Ids(frags) == done;
    } else {
      FoldFragmentOk(hist, id, done, m, frags[0]);
      FoldFragmentsOk(hist, id, done + [frags[0].id], FoldFiles(m, frags[0].files), frags[1..]);
      assert done + Ids(frags) == done + [frags[0].id] + Ids(frags[1..]);
    }
  }

  ghost predicate IncreasingIds(turns: seq<ClosedTurn>) {
    forall i, j :: 0 <= i < j < |turns| ==> turns[i].id < turns[j].id
  }

  /** Every turn of `done` precedes every one of `frags`. */
  ghost predicate AllBefore(done: seq<TurnId>, frags: seq<ClosedTurn>) {
    forall x, b :: x in done && b in frags ==> x < b.id
  }

  lemma NextBefore(done: seq<TurnId>, frags: seq<ClosedTurn>)
    requires IncreasingIds(frags) && frags != [] && AllBefore(done, frags)
    ensures IncreasingIds(frags[1..]) && AllBefore(done + [frags[0].id], frags[1..])
    ensures forall x :: x in done ==> x < frags[0].id
  {
    forall b | b in frags[1..] ensures frags[0].id < b.id {
      var i :| 0 <= i < |frags[1..]| && frags[1..][i] == b;
      assert frags[i + 1] == b;
    }
    assert frags[0] in frags;
  }

  /** Merging fragments in turn order keeps, for every path, the earliest original of all of them. */
  lemma {:induction false} FoldFragmentsOriginals(hist: seq<Seen>, id: TurnId, done: seq<TurnId>, m: Merge, frags: seq<ClosedTurn>)
    requires InTurnOrder(hist) && IncreasingIds(frags) && AllBefore(done, frags)
    requires MergingOk(hist, id, done, m) && MergingOriginals(hist, id, done, m)
    requires forall b :: b in frags ==> TurnOk(hist, b.id, b.files)
    ensures MergingOriginals(hist, id, done + Ids(frags), FoldFragments(m, frags))
    decreases |frags|
  {
    if frags == [] {
      assert done + Ids(frags) == done;
    } else {
      var first := frags[0];
      NextBefore(done, frags);
      FoldFragmentOk(hist, id, done, m, first);
      FoldFragmentOriginals(hist, id, done, m, first);
      FoldFragmentsOriginals(hist, id, done + [first.id], FoldFiles(m, first.files), frags[1..]);
      assert done + Ids(frags) == done + [first.id] + Ids(frags[1..]);
    }
  }

  /** The originals of a finished merge, when the fragments precede the turn itself. */
  lemma MergedOriginals(hist: seq<Seen>, id: TurnId, done: seq<TurnId>, m: Merge)
    requires InTurnOrder(hist)
    requires MergingOk(hist, id, done, m) && MergingOriginals(hist, id, done, m)
    requires forall x :: x in done ==> x < id
    ensures Originals(hist, Covered(id, done), m.files)
  {
    forall p ensures SameOriginal(Lookup(m.files, p), Origin(hist, Covered(id, done), p)) {
      OriginOfUnion(hist, Elements(done), {id}, p);
      assert SameOriginal(Lookup(m.files, p),
                          if p in m.claimed then Origin(hist, Elements(done), p) else Origin(hist, {id}, p));
    }
  }

  // ---- terminal flags --------------------------------------------------------------

  /** The terminal state of a path: was it there, was its content captured, was it withheld? */
  predicate SameFlags(a: Option<ChangeObs>, b: Option<ChangeObs>) {
    && (a.Some? <==> b.Some?)
    && (a.Some? ==> a.value.deleted == b.value.deleted
                    && a.value.snapshotted == b.value.snapshotted
                    && a.value.withheld == b.value.withheld)
  }

  /** The last fragment of `merges` that observed the path. */
  function LastHolding(hist: seq<Seen>, merges: seq<TurnId>, p: Path): Option<TurnId> {
    if merges == [] then None
    else
      var n := |merges| - 1;
      if Origin(hist, {merges[n]}, p).Some? then Some(merges[n]) else LastHolding(hist, merges[..n], p)
  }

  /** The last observation of the path in one turn, if there is a turn. */
  function FinalIn(hist: seq<Seen>, turn: Option<TurnId>, p: Path): Option<ChangeObs> {
    if turn.Some? then Latest(hist, {turn.value}, p) else None
  }

  ghost predicate Increasing(ids: seq<TurnId>) {
    forall i, j :: 0 <= i < j < |ids| ==> ids[i] < ids[j]
  }

  /** When every turn of `a` precedes every turn of `b`, the latest observation is that of `b`. */
  lemma {:induction false} LatestOfUnion(hist: seq<Seen>, a: set<TurnId>, b: set<TurnId>, p: Path)
    requires InTurnOrder(hist)
    requires forall x, y :: x in a && y in b ==> x < y
    ensures Latest(hist, a + b, p) ==
            if Latest(hist, b, p).Some? then Latest(hist, b, p) else Latest(hist, a, p)
  {
    if hist != [] {
      var n := |hist| - 1;
      var front := hist[..n];
      LatestOfUnion(front, a, b, p);
      if Concerns(hist[n], a, p) {
        OriginAndLatest(front, b, p);
        forall h | h in front ensures h.turn !in b {
          var i :| 0 <= i < |front| && front[i] == h;
          assert hist[i].turn <= hist[n].turn;
        }
      }
    }
  }

  /** Over fragments in turn order, the latest observation is the final one of the last holding fragment. */
  lemma {:induction false} LatestOfFragments(hist: seq<Seen>, merges: seq<TurnId>, p: Path)
    requires InTurnOrder(hist) && Increasing(merges)
    ensures Latest(hist, Elements(merges), p) == FinalIn(hist, LastHolding(hist, merges, p), p)
  {
    if merges == [] {
      OriginAndLatest(hist, Elements(merges), p);
    } else {
      var n := |merges| - 1;
      LatestOfFragments(hist, merges[..n], p);
      assert merges == merges[..n] + [merges[n]];
      assert Elements(merges) == Elements(merges[..n]) + {merges[n]};
      LatestOfUnion(hist, Elements(merges[..n]), {merges[n]}, p);
      OriginAndLatest(hist, {merges[n]}, p);
    }
  }

  lemma {:induction false} HoldersHold(hist: seq<Seen>, merges: seq<TurnId>, p: Path)
    ensures FirstHolding(hist, merges, p).Some? <==> LastHolding(hist, merges, p).Some?
  {
    if merges != [] {
      HoldersHold(hist, merges[..|merges| - 1], p);
    }
  }

  /** No turn observed the path after the one the merged entry was taken from, or what the last one that
      did observed agrees with it. */
  predicate LatestWins(hist: seq<Seen>, id: TurnId, merges: seq<TurnId>, p: Path) {
    var first, last := FirstHolding(hist, merges, p), LastHolding(hist, merges, p);
    || Origin(hist, {id}, p).Some?
    || first == last
    || SameFlags(FinalIn(hist, first, p), FinalIn(hist, last, p))
  }

  /** The entry of a merged record has the flags of the latest observation exactly when the turn itself
      observed the path, at most one fragment did, or the first and the last that did agree. */
  lemma FlagsExactly(hist: seq<Seen>, id: TurnId, merges: seq<TurnId>, files: seq<ChangeObs>, p: Path)
    requires InTurnOrder(hist) && Increasing(merges) && (forall m :: m in merges ==> m < id)
    requires MergedPath(hist, id, merges, files, p)
    ensures SameFlags(Lookup(files, p), Latest(hist, Covered(id, merges), p)) <==> LatestWins(hist, id, merges, p)
  {
    LatestOfUnion(hist, Elements(merges), {id}, p);
    LatestOfFragments(hist, merges, p);
    HoldersHold(hist, merges, p);
    OriginAndLatest(hist, {id}, p);
    OriginAndLatest(hist, Covered(id, merges), p);
  }
}
