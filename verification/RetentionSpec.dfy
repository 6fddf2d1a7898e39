/** What a budget eviction keeps and removes, said about sets of content addresses. */
module RetentionSpec {
  import opened Records

  /** One object file of the content store. */
  datatype Stored = Stored(size: nat, mtime: nat)

  type Blobs = map<Hash, Stored>

  function SizeOf(blobs: Blobs, h: Hash): nat {
    if h in blobs then blobs[h].size else 0
  }

  /** The bytes on disk of a set of addresses; a missing blob counts nothing. */
  ghost function Total(blobs: Blobs, hashes: set<Hash>): nat {
    if hashes == {} then 0
    else
      var h :| h in hashes;
      SizeOf(blobs, h) + Total(blobs, hashes - {h})
  }

  lemma {:induction false} TotalPick(blobs: Blobs, hashes: set<Hash>, h: Hash)
    requires h in hashes
    ensures Total(blobs, hashes) == SizeOf(blobs, h) + Total(blobs, hashes - {h})
    decreases |hashes|
  {
    var first :| first in hashes && Total(blobs, hashes) == SizeOf(blobs, first) + Total(blobs, hashes - {first});
    if first != h {
      TotalPick(blobs, hashes - {first}, h);
      TotalPick(blobs, hashes - {h}, first);
      assert hashes - {first} - {h} == hashes - {h} - {first};
    }
  }

  lemma TotalAdd(blobs: Blobs, hashes: set<Hash>, h: Hash)
    requires h !in hashes
    ensures Total(blobs, hashes + {h}) == Total(blobs, hashes) + SizeOf(blobs, h)
  {
    TotalPick(blobs, hashes + {h}, h);
    assert hashes + {h} - {h} == hashes;
  }

  lemma {:induction false} TotalUnion(blobs: Blobs, a: set<Hash>, b: set<Hash>)
    requires a !! b
    ensures Total(blobs, a + b) == Total(blobs, a) + Total(blobs, b)
    decreases |b|
  {
    if b == {} {
      assert a + b == a;
    } else {
      var h :| h in b;
      TotalUnion(blobs, a, b - {h});
      TotalPick(blobs, b, h);
      TotalAdd(blobs, a + (b - {h}), h);
      assert a + (b - {h}) + {h} == a + b;
    }
  }

  lemma TotalGrows(blobs: Blobs, a: set<Hash>, b: set<Hash>)
    requires a <= b
    ensures Total(blobs, a) <= Total(blobs, b)
  {
    TotalUnion(blobs, a, b - a);
    assert a + (b - a) == b;
  }

  /** Removing blobs takes exactly their bytes off any total. */
  lemma {:induction false} TotalAfterRemoval(blobs: Blobs, gone: set<Hash>, hashes: set<Hash>)
    ensures Total(blobs - gone, hashes) == Total(blobs, hashes - gone)
    decreases |hashes|
  {
    if hashes != {} {
      var h :| h in hashes;
      TotalAfterRemoval(blobs, gone, hashes - {h});
      TotalPick(blobs - gone, hashes, h);
      assert hashes - {h} - gone == hashes - gone - {h};
      if h in gone {
        assert hashes - gone - {h} == hashes - gone;
      } else {
        TotalPick(blobs, hashes - gone, h);
      }
    }
  }

  // ---- turns --------------------------------------------------------------------------

  /** The snapshots (before and after) that a turn's entries reference. */
  function EntryHashes(files: seq<FileEntry>): (r: set<Hash>)
    ensures forall h :: h in r <==> exists f :: f in files && (f.before == Some(h) || f.after == Some(h))
  {
    (set f | f in files && f.before.Some? :: f.before.value) + (set f | f in files && f.after.Some? :: f.after.value)
  }

  function Referenced(turns: seq<TurnRecord>): (r: set<Hash>)
    ensures forall h :: h in r <==> exists t :: t in turns && h in EntryHashes(t.files)
  {
    set t, h | t in turns && h in EntryHashes(t.files) :: h
  }

  /** The snapshots of the `k` newest turns. */
  function Newest(turns: seq<TurnRecord>, k: nat): set<Hash>
    requires k <= |turns|
  {
    Referenced(turns[|turns| - k..])
  }

  lemma NewestNext(turns: seq<TurnRecord>, k: nat)
    requires k < |turns|
    ensures Newest(turns, k + 1) == Newest(turns, k) + EntryHashes(turns[|turns| - 1 - k].files)
  {
    var n := |turns| - 1 - k;
    assert turns[n..] == [turns[n]] + turns[n + 1..];
  }

  lemma {:induction false} NewestGrows(turns: seq<TurnRecord>, j: nat, k: nat)
    requires j <= k <= |turns|
    ensures Newest(turns, j) <= Newest(turns, k) <= Referenced(turns)
  {
    forall h | h in Newest(turns, j) ensures h in Newest(turns, k) {
      var t :| t in turns[|turns| - j..] && h in EntryHashes(t.files);
      var i :| 0 <= i < j && turns[|turns| - j..][i] == t;
      assert turns[|turns| - k..][k - j + i] == t;
    }
  }

  lemma NewestAll(turns: seq<TurnRecord>)
    ensures Newest(turns, 0) == {} && Newest(turns, |turns|) == Referenced(turns)
  {
    assert turns[|turns|..] == [] && turns[0..] == turns;
  }

  /** `managed_bytes`: what the budget is enforced over. */
  ghost function Managed(blobs: Blobs, turns: seq<TurnRecord>): nat {
    Total(blobs, Referenced(turns))
  }

  ghost function NewestBytes(blobs: Blobs, turns: seq<TurnRecord>, k: nat): nat
    requires k <= |turns|
  {
    Total(blobs, Newest(turns, k))
  }

  lemma BytesGrow(blobs: Blobs, turns: seq<TurnRecord>, j: nat, k: nat)
    requires j <= k <= |turns|
    ensures NewestBytes(blobs, turns, j) <= NewestBytes(blobs, turns, k) <= Managed(blobs, turns)
  {
    NewestGrows(turns, j, k);
    TotalGrows(blobs, Newest(turns, j), Newest(turns, k));
    TotalGrows(blobs, Newest(turns, k), Referenced(turns));
  }

  // ---- what is kept ---------------------------------------------------------------------

  /** The bytes of the `k` newest turns, for each `k`. */
  ghost function RunSizes(blobs: Blobs, turns: seq<TurnRecord>): (sizes: seq<nat>)
    ensures |sizes| == |turns| + 1 && forall k :: 0 <= k <= |turns| ==> sizes[k] == NewestBytes(blobs, turns, k)
  {
    seq(|turns| + 1, k requires 0 <= k <= |turns| => NewestBytes(blobs, turns, k))
  }

  ghost predicate Grows(sizes: seq<nat>) {
    |sizes| > 0 && sizes[0] == 0 && forall i, j :: 0 <= i <= j < |sizes| ==> sizes[i] <= sizes[j]
  }

  /** Walking from the `i` newest of `n` turns on, how many are kept.  The newest turn is spared while
      there is an older one to sacrifice. */
  function KeptFrom(sizes: seq<nat>, budget: nat, i: nat): (k: nat)
    requires i < |sizes|
    ensures i <= k < |sizes|
    decreases |sizes| - i
  {
    if i == |sizes| - 1 then i
    else if sizes[i + 1] > budget && !(i == 0 && |sizes| > 2) then i
    else KeptFrom(sizes, budget, i + 1)
  }

  /** The longest run that fits, but at least the newest turn when there are older ones. */
  predicate LongestRun(sizes: seq<nat>, budget: nat, k: nat) {
    && k < |sizes|
    && (forall j :: 0 <= j < |sizes| && sizes[j] <= budget ==> j <= k)
    && (sizes[k] <= budget || (k == 1 && |sizes| > 2))
    && (|sizes| > 2 ==> k >= 1)
  }

  lemma {:induction false} KeptFromIsLongest(sizes: seq<nat>, budget: nat, i: nat)
    requires Grows(sizes) && i < |sizes| && (sizes[i] <= budget || (i == 1 && |sizes| > 2))
    ensures LongestRun(sizes, budget, KeptFrom(sizes, budget, i))
    decreases |sizes| - i
  {
    if i < |sizes| - 1 && !(sizes[i + 1] > budget && !(i == 0 && |sizes| > 2)) {
      KeptFromIsLongest(sizes, budget, i + 1);
    }
  }

  lemma LongestRunIsUnique(sizes: seq<nat>, budget: nat, j: nat, k: nat)
    requires Grows(sizes) && LongestRun(sizes, budget, j) && LongestRun(sizes, budget, k)
    ensures j == k
  {}

  ghost function KeptTurns(blobs: Blobs, turns: seq<TurnRecord>, budget: nat): (k: nat)
    ensures k <= |turns|
  {
    KeptFrom(RunSizes(blobs, turns), budget, 0)
  }

  ghost function Kept(blobs: Blobs, turns: seq<TurnRecord>, budget: nat): set<Hash> {
    Newest(turns, KeptTurns(blobs, turns, budget))
  }

  ghost function Candidates(blobs: Blobs, turns: seq<TurnRecord>, budget: nat): set<Hash> {
    Referenced(turns) - Kept(blobs, turns, budget)
  }

  /** Does the walk meet a turn that does not fit? */
  ghost predicate BoundaryTrips(blobs: Blobs, turns: seq<TurnRecord>, budget: nat) {
    KeptTurns(blobs, turns, budget) < |turns|
  }

  lemma RunSizesGrow(blobs: Blobs, turns: seq<TurnRecord>)
    ensures Grows(RunSizes(blobs, turns))
    ensures RunSizes(blobs, turns)[|turns|] == Managed(blobs, turns)
  {
    NewestAll(turns);
    var sizes := RunSizes(blobs, turns);
    assert sizes[0] == NewestBytes(blobs, turns, 0);
    forall i, j | 0 <= i <= j < |sizes| ensures sizes[i] <= sizes[j] {
      BytesGrow(blobs, turns, i, j);
    }
  }

  /** The kept turns are the longest newest-first run that fits the budget, except that the newest turn
      is kept whenever there are older ones. */
  lemma KeptIsLongestRunThatFits(blobs: Blobs, turns: seq<TurnRecord>, budget: nat)
    ensures LongestRun(RunSizes(blobs, turns), budget, KeptTurns(blobs, turns, budget))
  {
    RunSizesGrow(blobs, turns);
    KeptFromIsLongest(RunSizes(blobs, turns), budget, 0);
  }

  /** The claim of the walk's author, in its exact form: the walk meets a turn that does not fit if and
      only if the managed bytes exceed the budget. */
  lemma BoundaryIffOverBudget(blobs: Blobs, turns: seq<TurnRecord>, budget: nat)
    ensures BoundaryTrips(blobs, turns, budget) <==> Managed(blobs, turns) > budget
  {
    RunSizesGrow(blobs, turns);
    KeptIsLongestRunThatFits(blobs, turns, budget);
    var sizes, k := RunSizes(blobs, turns), KeptTurns(blobs, turns, budget);
    LongestAllIffFits(sizes, budget, k);
  }

  lemma LongestAllIffFits(sizes: seq<nat>, budget: nat, k: nat)
    requires Grows(sizes) && LongestRun(sizes, budget, k)
    ensures k < |sizes| - 1 <==> sizes[|sizes| - 1] > budget
  {}

  /** The newest of several turns alone is over budget, and the older turns reference nothing else. */
  ghost predicate NewestIsEverything(blobs: Blobs, turns: seq<TurnRecord>, budget: nat) {
    |turns| > 1 && NewestBytes(blobs, turns, 1) > budget && Referenced(turns) == Newest(turns, 1)
  }

  lemma NoCandidates(blobs: Blobs, turns: seq<TurnRecord>, budget: nat)
    requires Managed(blobs, turns) <= budget || NewestIsEverything(blobs, turns, budget)
    ensures Candidates(blobs, turns, budget) == {}
  {
    KeptIsLongestRunThatFits(blobs, turns, budget);
    BoundaryIffOverBudget(blobs, turns, budget);
    NewestAll(turns);
    if NewestIsEverything(blobs, turns, budget) {
      RunSizesGrow(blobs, turns);
      NewestOnlyRun(RunSizes(blobs, turns), budget, KeptTurns(blobs, turns, budget));
    }
  }

  lemma NewestOnlyRun(sizes: seq<nat>, budget: nat, k: nat)
    requires Grows(sizes) && LongestRun(sizes, budget, k) && |sizes| > 2 && sizes[1] > budget
    ensures k == 1
  {
    assert k >= 1 && sizes[1] <= sizes[k];
  }

  lemma OversizeRun(sizes: seq<nat>, budget: nat, k: nat)
    requires LongestRun(sizes, budget, k) && sizes[k] > budget
    ensures k == 1 && |sizes| > 2
  {}

  lemma SomeCandidate(blobs: Blobs, turns: seq<TurnRecord>, budget: nat)
    requires Managed(blobs, turns) > budget && Candidates(blobs, turns, budget) == {}
    ensures NewestIsEverything(blobs, turns, budget)
  {
    var k := KeptTurns(blobs, turns, budget);
    KeptCoversAll(blobs, turns, budget);
    KeptIsLongestRunThatFits(blobs, turns, budget);
    OversizeRun(RunSizes(blobs, turns), budget, k);
  }

  lemma KeptCoversAll(blobs: Blobs, turns: seq<TurnRecord>, budget: nat)
    requires Candidates(blobs, turns, budget) == {}
    ensures var k := KeptTurns(blobs, turns, budget);
            Newest(turns, k) == Referenced(turns) && RunSizes(blobs, turns)[k] == Managed(blobs, turns)
  {
    var k := KeptTurns(blobs, turns, budget);
    NewestGrows(turns, k, |turns|);
    forall h | h in Referenced(turns) ensures h in Newest(turns, k) {
      assert h !in Candidates(blobs, turns, budget);
    }
  }

  /** Over budget there is a candidate, with exactly one exception. */
  lemma CandidatesIff(blobs: Blobs, turns: seq<TurnRecord>, budget: nat)
    ensures Candidates(blobs, turns, budget) != {} <==>
              Managed(blobs, turns) > budget && !NewestIsEverything(blobs, turns, budget)
  {
    if Managed(blobs, turns) <= budget || NewestIsEverything(blobs, turns, budget) {
      NoCandidates(blobs, turns, budget);
    } else if Candidates(blobs, turns, budget) == {} {
      SomeCandidate(blobs, turns, budget);
    }
  }

  /** The exception happens: one big file, then a turn that touches nothing else. */
  lemma OverBudgetWithoutCandidates()
    ensures exists blobs: Blobs, turns, budget ::
              Managed(blobs, turns) > budget && Candidates(blobs, turns, budget) == {}
  {
    var h := Sha256([1]);
    var f := FileEntry("a", Some(h), None, Delete, false, false, None, None);
    var t := TurnRecord("t", Rich, false, None, None, None, [], None, [f]);
    var blobs: Blobs := map[h := Stored(5, 0)];
    var turns := [t, t];
    assert EntryHashes(t.files) == {h};
    assert Referenced(turns) == {h} by { assert turns[0] == t; }
    assert Newest(turns, 1) == {h} by { assert turns[1..] == [t]; }
    TotalPick(blobs, {h}, h);
    CandidatesIff(blobs, turns, 3);
  }

  // ---- budgets ----------------------------------------------------------------------------

  lemma LongerRun(small: seq<nat>, large: seq<nat>, b: nat, c: nat, j: nat, k: nat)
    requires Grows(small) && Grows(large) && |small| == |large| && b <= c
    requires forall i :: 0 <= i < |small| ==> large[i] <= small[i]
    requires LongestRun(small, b, j) && LongestRun(large, c, k)
    ensures j <= k
  {}

  lemma LargerBudgetKeepsMore(blobs: Blobs, turns: seq<TurnRecord>, small: nat, large: nat)
    requires small <= large
    ensures KeptTurns(blobs, turns, small) <= KeptTurns(blobs, turns, large)
    ensures Candidates(blobs, turns, large) <= Candidates(blobs, turns, small)
  {
    RunSizesGrow(blobs, turns);
    KeptIsLongestRunThatFits(blobs, turns, small);
    KeptIsLongestRunThatFits(blobs, turns, large);
    LongerRun(RunSizes(blobs, turns), RunSizes(blobs, turns), small, large,
              KeptTurns(blobs, turns, small), KeptTurns(blobs, turns, large));
    NewestGrows(turns, KeptTurns(blobs, turns, small), KeptTurns(blobs, turns, large));
  }

  lemma RemovalShrinksRuns(blobs: Blobs, gone: set<Hash>, turns: seq<TurnRecord>, k: nat)
    requires k <= |turns|
    ensures NewestBytes(blobs - gone, turns, k) <= NewestBytes(blobs, turns, k)
  {
    TotalAfterRemoval(blobs, gone, Newest(turns, k));
    TotalGrows(blobs, Newest(turns, k) - gone, Newest(turns, k));
  }

  /** Removing blobs only makes the rest fit better. */
  lemma RemovalKeepsMore(blobs: Blobs, gone: set<Hash>, turns: seq<TurnRecord>, budget: nat)
    ensures KeptTurns(blobs, turns, budget) <= KeptTurns(blobs - gone, turns, budget)
    ensures Candidates(blobs - gone, turns, budget) <= Candidates(blobs, turns, budget)
  {
    var before, after := RunSizes(blobs, turns), RunSizes(blobs - gone, turns);
    RunSizesGrow(blobs, turns);
    RunSizesGrow(blobs - gone, turns);
    KeptIsLongestRunThatFits(blobs, turns, budget);
    KeptIsLongestRunThatFits(blobs - gone, turns, budget);
    forall k | 0 <= k < |before| ensures after[k] <= before[k] {
      RemovalShrinksRuns(blobs, gone, turns, k);
    }
    LongerRun(before, after, budget, budget, KeptTurns(blobs, turns, budget), KeptTurns(blobs - gone, turns, budget));
    NewestGrows(turns, KeptTurns(blobs, turns, budget), KeptTurns(blobs - gone, turns, budget));
  }
}
