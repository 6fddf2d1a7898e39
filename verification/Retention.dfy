/** Budget eviction over a content-shared store: a planner, an executor, and what a pass conserves. */
module Retention {
  import opened Records
  import opened RetentionSpec

  datatype EvictionPlan = EvictionPlan(
    victims: seq<(Hash, nat)>,
    protectedBytes: nat,
    freedBytesProjected: nat,
    passStart: nat)

  datatype Evicted = Evicted(count: nat, bytes: nat, protectedBytes: nat)

  // ---- what a pass removes ---------------------------------------------------------------

  function Prompts(turns: seq<TurnRecord>): (r: set<Hash>)
    ensures forall h :: h in r <==> exists t :: t in turns && t.promptRef == Some(h)
  {
    set t | t in turns && t.promptRef.Some? :: t.promptRef.value
  }

  predicate Fresh(blobs: Blobs, h: Hash, passStart: nat) {
    h in blobs && blobs[h].mtime > passStart
  }

  /** The candidates that nothing spares. */
  ghost function Victims(blobs: Blobs, turns: seq<TurnRecord>, budget: nat, extra: set<Hash>, passStart: nat): set<Hash> {
    set h | h in Candidates(blobs, turns, budget) && h !in extra && h !in Prompts(turns) && !Fresh(blobs, h, passStart)
  }

  function Removable(blobs: Blobs, victims: set<Hash>, passStart: nat): set<Hash> {
    set h | h in victims && h in blobs && !Fresh(blobs, h, passStart)
  }

  ghost function Removed(blobs: Blobs, turns: seq<TurnRecord>, budget: nat, extra: set<Hash>, passStart: nat): set<Hash> {
    Removable(blobs, Victims(blobs, turns, budget, extra, passStart), passStart)
  }

  /** The candidates that a pass leaves in place. */
  ghost function SparedCandidates(blobs: Blobs, turns: seq<TurnRecord>, budget: nat, extra: set<Hash>, passStart: nat): set<Hash> {
    Candidates(blobs, turns, budget) - Removed(blobs, turns, budget, extra, passStart)
  }

  /** Nothing spares `h`: a turn references it, no kept turn does, it is no prompt, the caller does not
      protect it, and it was not touched since the pass began. */
  ghost predicate Expendable(blobs: Blobs, turns: seq<TurnRecord>, budget: nat, extra: set<Hash>, passStart: nat, h: Hash) {
    && h in Referenced(turns) && h !in Kept(blobs, turns, budget)
    && h !in Prompts(turns) && h !in extra
    && (h in blobs ==> blobs[h].mtime <= passStart)
  }

  /** What a pass leaves of the referenced blobs: the kept ones and the spared candidates. */
  lemma WhatRemains(blobs: Blobs, turns: seq<TurnRecord>, budget: nat, extra: set<Hash>, passStart: nat)
    ensures var kept, spared := Kept(blobs, turns, budget), SparedCandidates(blobs, turns, budget, extra, passStart);
            && Referenced(turns) - Removed(blobs, turns, budget, extra, passStart) == kept + spared
            && kept !! spared
  {
    KeptAndCandidatesPartition(blobs, turns, budget);
  }

  lemma RemainingBytes(blobs: Blobs, turns: seq<TurnRecord>, budget: nat, extra: set<Hash>, passStart: nat)
    ensures Managed(blobs - Removed(blobs, turns, budget, extra, passStart), turns)
         == Total(blobs, Kept(blobs, turns, budget))
            + Total(blobs, SparedCandidates(blobs, turns, budget, extra, passStart))
  {
    WhatRemains(blobs, turns, budget, extra, passStart);
    TotalAfterRemoval(blobs, Removed(blobs, turns, budget, extra, passStart), Referenced(turns));
    TotalUnion(blobs, Kept(blobs, turns, budget), SparedCandidates(blobs, turns, budget, extra, passStart));
  }

  /** A pass brings the managed bytes down to the budget, or to the newest turn alone if that is more,
      plus what was spared. */
  lemma ResultIsBounded(blobs: Blobs, turns: seq<TurnRecord>, budget: nat, extra: set<Hash>, passStart: nat)
    ensures var gone := Removed(blobs, turns, budget, extra, passStart);
            var spared := Total(blobs, SparedCandidates(blobs, turns, budget, extra, passStart));
            var newest := if turns == [] then 0 else NewestBytes(blobs, turns, 1);
            Managed(blobs - gone, turns) <= (if budget < newest then newest else budget) + spared
  {
    RemainingBytes(blobs, turns, budget, extra, passStart);
    KeptBytes(blobs, turns, budget);
  }

  lemma KeptBytes(blobs: Blobs, turns: seq<TurnRecord>, budget: nat)
    ensures Total(blobs, Kept(blobs, turns, budget)) <= budget
            || (turns != [] && Total(blobs, Kept(blobs, turns, budget)) == NewestBytes(blobs, turns, 1))
  {
    KeptIsLongestRunThatFits(blobs, turns, budget);
    var sizes, k := RunSizes(blobs, turns), KeptTurns(blobs, turns, budget);
    if sizes[k] > budget {
      OversizeRun(sizes, budget, k);
    }
  }

  /** A second pass under the same protections finds nothing left to remove. */
  lemma SecondPassRemovesNothing(blobs: Blobs, turns: seq<TurnRecord>, budget: nat, extra: set<Hash>, passStart: nat)
    ensures var after := blobs - Removed(blobs, turns, budget, extra, passStart);
            Removed(after, turns, budget, extra, passStart) == {}
  {
    RemovalKeepsMore(blobs, Removed(blobs, turns, budget, extra, passStart), turns, budget);
  }

  /** A larger budget never evicts more. */
  lemma LargerBudgetEvictsLess(blobs: Blobs, turns: seq<TurnRecord>, small: nat, large: nat, extra: set<Hash>, passStart: nat)
    requires small <= large
    ensures Removed(blobs, turns, large, extra, passStart) <= Removed(blobs, turns, small, extra, passStart)
  {
    LargerBudgetKeepsMore(blobs, turns, small, large);
  }

  /** Kept and candidate addresses partition everything the turns reference. */
  lemma KeptAndCandidatesPartition(blobs: Blobs, turns: seq<TurnRecord>, budget: nat)
    ensures Kept(blobs, turns, budget) + Candidates(blobs, turns, budget) == Referenced(turns)
    ensures Kept(blobs, turns, budget) !! Candidates(blobs, turns, budget)
  {
    NewestGrows(turns, KeptTurns(blobs, turns, budget), |turns|);
  }

  // ---- reading a turn ----------------------------------------------------------------------

  function HashOf(h: Option<Hash>): set<Hash> {
    if h.Some? then {h.value} else {}
  }

  /** Push an address unless it is there. */
  function Include(out: seq<Hash>, h: Option<Hash>): (r: seq<Hash>)
    requires Distinct(out)
    ensures Distinct(r) && Elements(r) == Elements(out) + HashOf(h)
  {
    if h.Some? && h.value !in out then out + [h.value] else out
  }

  lemma EntryHashesNext(files: seq<FileEntry>, f: FileEntry)
    ensures EntryHashes(files + [f]) == EntryHashes(files) + HashOf(f.before) + HashOf(f.after)
  {}

  /** `turn_snapshot_hashes`: each address once. */
  method TurnSnapshotHashes(t: TurnRecord) returns (out: seq<Hash>)
    ensures Distinct(out) && Elements(out) == EntryHashes(t.files)
  {
    out := [];
    for i := 0 to |t.files|
      invariant Distinct(out) && Elements(out) == EntryHashes(t.files[..i])
    {
      assert t.files[..i + 1] == t.files[..i] + [t.files[i]];
      EntryHashesNext(t.files[..i], t.files[i]);
      out := Include(out, t.files[i].before);
      out := Include(out, t.files[i].after);
    }
    assert t.files[..|t.files|] == t.files;
  }

  /** The addresses of a turn that are not kept yet, and their bytes. */
  method NewHashes(blobs: Blobs, hashes: seq<Hash>, keep: set<Hash>) returns (newHashes: set<Hash>, newBytes: nat)
    requires Distinct(hashes)
    ensures newHashes == Elements(hashes) - keep && newBytes == Total(blobs, newHashes)
  {
    newHashes, newBytes := {}, 0;
    for j := 0 to |hashes|
      invariant newHashes == Elements(hashes[..j]) - keep && newBytes == Total(blobs, newHashes)
    {
      var h := hashes[j];
      assert hashes[..j + 1] == hashes[..j] + [h];
      assert h !in hashes[..j];
      if h !in keep {
        TotalAdd(blobs, newHashes, h);
        newHashes, newBytes := newHashes + {h}, newBytes + SizeOf(blobs, h);
      }
    }
    assert hashes[..|hashes|] == hashes;
  }

  /** The state of the walk after the `i` newest turns. */
  ghost predicate Walked(blobs: Blobs, turns: seq<TurnRecord>, budget: nat, i: nat,
                         keep: set<Hash>, candidates: set<Hash>, boundary: bool, running: nat) {
    && i <= |turns|
    && if boundary then
         && KeptTurns(blobs, turns, budget) < i
         && keep == Kept(blobs, turns, budget) && candidates == Newest(turns, i) - keep
       else
         && keep == Newest(turns, i) && candidates == {} && running == RunSizes(blobs, turns)[i]
         && KeptFrom(RunSizes(blobs, turns), budget, i) == KeptTurns(blobs, turns, budget)
  }

  lemma NextBeyond(blobs: Blobs, turns: seq<TurnRecord>, budget: nat, i: nat,
                   keep: set<Hash>, candidates: set<Hash>, running: nat)
    requires Walked(blobs, turns, budget, i, keep, candidates, true, running) && i < |turns|
    ensures Walked(blobs, turns, budget, i + 1, keep,
                   candidates + (EntryHashes(turns[|turns| - 1 - i].files) - keep), true, running)
  {
    NewestNext(turns, i);
  }

  lemma NextRun(blobs: Blobs, turns: seq<TurnRecord>, i: nat)
    requires i < |turns|
    ensures var added := EntryHashes(turns[|turns| - 1 - i].files) - Newest(turns, i);
            && Newest(turns, i) + added == Newest(turns, i + 1)
            && added == Newest(turns, i + 1) - Newest(turns, i)
            && RunSizes(blobs, turns)[i + 1] == RunSizes(blobs, turns)[i] + Total(blobs, added)
  {
    NewestNext(turns, i);
    TotalUnion(blobs, Newest(turns, i), EntryHashes(turns[|turns| - 1 - i].files) - Newest(turns, i));
  }

  /** Inside the budget so far: the next turn is kept, or it is the boundary. */
  lemma NextInside(blobs: Blobs, turns: seq<TurnRecord>, budget: nat, i: nat, keep: set<Hash>, running: nat)
    requires Walked(blobs, turns, budget, i, keep, {}, false, running) && i < |turns|
    ensures var added := EntryHashes(turns[|turns| - 1 - i].files) - keep;
            if running + Total(blobs, added) > budget && !(i == 0 && |turns| > 1)
            then Walked(blobs, turns, budget, i + 1, keep, added, true, running)
            else Walked(blobs, turns, budget, i + 1, keep + added, {}, false, running + Total(blobs, added))
  {
    NextRun(blobs, turns, i);
  }

  /** One turn of the walk. */
  method WalkOne(blobs: Blobs, turns: seq<TurnRecord>, budget: nat, i: nat,
                 keep: set<Hash>, candidates: set<Hash>, boundary: bool, running: nat)
    returns (keepNow: set<Hash>, candidatesNow: set<Hash>, boundaryNow: bool, runningNow: nat)
    requires i < |turns| && Walked(blobs, turns, budget, i, keep, candidates, boundary, running)
    ensures Walked(blobs, turns, budget, i + 1, keepNow, candidatesNow, boundaryNow, runningNow)
  {
    keepNow, candidatesNow, boundaryNow, runningNow := keep, candidates, boundary, running;
    var hashes := TurnSnapshotHashes(turns[|turns| - 1 - i]);
    if boundary {
      NextBeyond(blobs, turns, budget, i, keep, candidates, running);
      candidatesNow := candidates + (Elements(hashes) - keep);
    } else {
      var newHashes, newBytes := NewHashes(blobs, hashes, keep);
      NextInside(blobs, turns, budget, i, keep, running);
      if running + newBytes > budget && !(i == 0 && |turns| > 1) {
        boundaryNow, candidatesNow := true, Elements(hashes) - keep;
      } else {
        runningNow, keepNow := running + newBytes, keep + newHashes;
      }
    }
  }

  lemma WalkedNothing(blobs: Blobs, turns: seq<TurnRecord>, budget: nat)
    ensures Walked(blobs, turns, budget, 0, {}, {}, false, 0)
  {
    NewestAll(turns);
    RunSizesGrow(blobs, turns);
  }

  lemma WalkedAll(blobs: Blobs, turns: seq<TurnRecord>, budget: nat,
                  keep: set<Hash>, candidates: set<Hash>, boundary: bool, running: nat)
    requires Walked(blobs, turns, budget, |turns|, keep, candidates, boundary, running)
    ensures keep == Kept(blobs, turns, budget) && candidates == Candidates(blobs, turns, budget)
    ensures boundary <==> Managed(blobs, turns) > budget
  {
    NewestAll(turns);
    BoundaryIffOverBudget(blobs, turns, budget);
  }

  /** The walk from the newest turn to the oldest. */
  method Walk(blobs: Blobs, turns: seq<TurnRecord>, budget: nat)
    returns (keep: set<Hash>, candidates: set<Hash>, boundary: bool)
    ensures keep == Kept(blobs, turns, budget) && candidates == Candidates(blobs, turns, budget)
    ensures boundary <==> Managed(blobs, turns) > budget
  {
    keep, candidates, boundary := {}, {}, false;
    var running: nat := 0;
    WalkedNothing(blobs, turns, budget);
    for i := 0 to |turns|
      invariant Walked(blobs, turns, budget, i, keep, candidates, boundary, running)
    {
      keep, candidates, boundary, running := WalkOne(blobs, turns, budget, i, keep, candidates, boundary, running);
    }
    WalkedAll(blobs, turns, budget, keep, candidates, boundary, running);
  }

  lemma ManagedNext(blobs: Blobs, turns: seq<TurnRecord>, i: nat, newHashes: set<Hash>)
    requires i < |turns| && newHashes == EntryHashes(turns[i].files) - Referenced(turns[..i])
    ensures Referenced(turns[..i + 1]) == Referenced(turns[..i]) + newHashes
    ensures Total(blobs, Referenced(turns[..i + 1])) == Total(blobs, Referenced(turns[..i])) + Total(blobs, newHashes)
  {
    TotalUnion(blobs, Referenced(turns[..i]), newHashes);
    var more := turns[..i + 1];
    assert forall t :: t in more <==> t in turns[..i] || t == turns[i];
    forall h ensures h in Referenced(more) <==> h in Referenced(turns[..i]) || h in EntryHashes(turns[i].files) {
      assert h in Referenced(more) <==> exists t :: t in more && h in EntryHashes(t.files);
      assert turns[i] in more;
    }
    assert Referenced(more) == Referenced(turns[..i]) + newHashes;
  }

  /** `managed_bytes`: each referenced address once. */
  method ManagedBytes(blobs: Blobs, turns: seq<TurnRecord>) returns (total: nat)
    ensures total == Managed(blobs, turns)
  {
    var seen: set<Hash> := {};
    total := 0;
    for i := 0 to |turns|
      invariant seen == Referenced(turns[..i]) && total == Total(blobs, seen)
    {
      var hashes := TurnSnapshotHashes(turns[i]);
      var newHashes, newBytes := NewHashes(blobs, hashes, seen);
      ManagedNext(blobs, turns, i, newHashes);
      seen, total := seen + newHashes, total + newBytes;
    }
    assert turns[..|turns|] == turns;
  }

  // ---- planning ------------------------------------------------------------------------------

  function VictimHashes(victims: seq<(Hash, nat)>): (r: set<Hash>)
    ensures forall h :: h in r <==> exists v :: v in victims && v.0 == h
  {
    set v | v in victims :: v.0
  }

  ghost predicate DistinctVictims(victims: seq<(Hash, nat)>) {
    forall i, j :: 0 <= i < j < |victims| ==> victims[i].0 != victims[j].0
  }

  function Protected(hashes: set<Hash>, extra: set<Hash>): set<Hash> {
    set h | h in hashes && h in extra
  }

  function Unprotected(hashes: set<Hash>, extra: set<Hash>): set<Hash> {
    set h | h in hashes && h !in extra
  }

  lemma ProtectNext(blobs: Blobs, done: set<Hash>, h: Hash, extra: set<Hash>)
    requires h !in done
    ensures Unprotected(done + {h}, extra) == Unprotected(done, extra) + (if h in extra then {} else {h})
    ensures Total(blobs, Protected(done + {h}, extra))
         == Total(blobs, Protected(done, extra)) + (if h in extra then SizeOf(blobs, h) else 0)
  {
    if h in extra {
      assert Protected(done + {h}, extra) == Protected(done, extra) + {h};
      TotalAdd(blobs, Protected(done, extra), h);
    } else {
      assert Protected(done + {h}, extra) == Protected(done, extra);
    }
  }

  /** Taking one more element out of `rest`. */
  lemma TakeOne(all: set<Hash>, rest: set<Hash>, h: Hash)
    requires rest <= all && h in rest
    ensures all - (rest - {h}) == all - rest + {h} && h !in all - rest && rest - {h} <= all
  {}

  /** The caller's protect-set comes off the candidates first, and its bytes are reported. */
  method ProtectCandidates(blobs: Blobs, candidates: set<Hash>, extra: set<Hash>)
    returns (kept: set<Hash>, protectedBytes: nat)
    ensures kept == Unprotected(candidates, extra) && protectedBytes == Total(blobs, Protected(candidates, extra))
  {
    var rest := candidates;
    kept, protectedBytes := {}, 0;
    while rest != {}
      invariant rest <= candidates
      invariant kept == Unprotected(candidates - rest, extra)
      invariant protectedBytes == Total(blobs, Protected(candidates - rest, extra))
      decreases |rest|
    {
      var h :| h in rest;
      TakeOne(candidates, rest, h);
      ProtectNext(blobs, candidates - rest, h, extra);
      if h in extra {
        protectedBytes := protectedBytes + SizeOf(blobs, h);
      } else {
        kept := kept + {h};
      }
      rest := rest - {h};
    }
    assert candidates - rest == candidates;
  }

  /** The candidates that neither a kept turn, nor a prompt, nor freshness spares. */
  ghost function Unspared(blobs: Blobs, candidates: set<Hash>, keep: set<Hash>, prompts: set<Hash>, passStart: nat): set<Hash> {
    set h | h in candidates && h !in keep && h !in prompts && !Fresh(blobs, h, passStart)
  }

  lemma UnsparedNext(blobs: Blobs, candidates: set<Hash>, h: Hash, keep: set<Hash>, prompts: set<Hash>, passStart: nat)
    ensures Unspared(blobs, candidates + {h}, keep, prompts, passStart)
         == Unspared(blobs, candidates, keep, prompts, passStart)
            + (if h in keep || h in prompts || Fresh(blobs, h, passStart) then {} else {h})
  {}

  lemma AddVictim(blobs: Blobs, victims: seq<(Hash, nat)>, h: Hash)
    requires DistinctVictims(victims) && h !in VictimHashes(victims)
    ensures DistinctVictims(victims + [(h, SizeOf(blobs, h))])
    ensures VictimHashes(victims + [(h, SizeOf(blobs, h))]) == VictimHashes(victims) + {h}
    ensures Total(blobs, VictimHashes(victims) + {h}) == Total(blobs, VictimHashes(victims)) + SizeOf(blobs, h)
  {
    TotalAdd(blobs, VictimHashes(victims), h);
    var more := victims + [(h, SizeOf(blobs, h))];
    assert forall v :: v in more <==> v in victims || v == (h, SizeOf(blobs, h));
  }

  /** The victims selected among the candidates `done`. */
  ghost predicate SelectedFrom(blobs: Blobs, done: set<Hash>, keep: set<Hash>, prompts: set<Hash>, passStart: nat,
                               victims: seq<(Hash, nat)>, projected: nat) {
    && DistinctVictims(victims)
    && VictimHashes(victims) == Unspared(blobs, done, keep, prompts, passStart)
    && (forall v :: v in victims ==> v.1 == SizeOf(blobs, v.0))
    && projected == Total(blobs, VictimHashes(victims))
  }

  lemma SelectNext(blobs: Blobs, done: set<Hash>, keep: set<Hash>, prompts: set<Hash>, passStart: nat,
                   victims: seq<(Hash, nat)>, projected: nat, h: Hash)
    requires SelectedFrom(blobs, done, keep, prompts, passStart, victims, projected) && h !in done
    ensures if h in keep || h in prompts || Fresh(blobs, h, passStart)
            then SelectedFrom(blobs, done + {h}, keep, prompts, passStart, victims, projected)
            else SelectedFrom(blobs, done + {h}, keep, prompts, passStart,
                              victims + [(h, SizeOf(blobs, h))], projected + SizeOf(blobs, h))
  {
    UnsparedNext(blobs, done, h, keep, prompts, passStart);
    if !(h in keep || h in prompts || Fresh(blobs, h, passStart)) {
      AddVictim(blobs, victims, h);
    }
  }

  method SelectVictims(blobs: Blobs, candidates: set<Hash>, keep: set<Hash>, prompts: set<Hash>, passStart: nat)
    returns (victims: seq<(Hash, nat)>, projected: nat)
    ensures VictimHashes(victims) == Unspared(blobs, candidates, keep, prompts, passStart) && DistinctVictims(victims)
    ensures forall v :: v in victims ==> v.1 == SizeOf(blobs, v.0)
    ensures projected == Total(blobs, VictimHashes(victims))
  {
    var rest := candidates;
    victims, projected := [], 0;
    assert candidates - rest == {};
    while rest != {}
      invariant rest <= candidates
      invariant SelectedFrom(blobs, candidates - rest, keep, prompts, passStart, victims, projected)
      decreases |rest|
    {
      var h :| h in rest;
      TakeOne(candidates, rest, h);
      SelectNext(blobs, candidates - rest, keep, prompts, passStart, victims, projected, h);
      if h !in keep && h !in prompts && !Fresh(blobs, h, passStart) {
        victims, projected := victims + [(h, SizeOf(blobs, h))], projected + SizeOf(blobs, h);
      }
      rest := rest - {h};
    }
    assert candidates - rest == candidates;
  }

  // ---- executing -------------------------------------------------------------------------------

  /** What everyone else does to the store between a plan and its `i`-th deletion, and between deletions:
      blobs may be touched, grow, shrink, come and go. */
  type Others = (nat, Blobs) -> Blobs

  /** One victim's turn: the store as the pass left it, as it finds it, and as it leaves it. */
  datatype Moment = Moment(hash: Hash, before: Blobs, found: Blobs, left: Blobs)

  predicate Removes(m: Moment) {
    m.hash in m.found && m.hash !in m.left
  }

  function Swept(blobs: Blobs, h: Hash, passStart: nat): Blobs {
    if h in blobs && !Fresh(blobs, h, passStart) then blobs - {h} else blobs
  }

  function Left(start: Blobs, moments: seq<Moment>): Blobs {
    if moments == [] then start else moments[|moments| - 1].left
  }

  /** The turn of the `i`-th victim. */
  function MomentAt(plan: EvictionPlan, others: Others, before: Blobs, i: nat): Moment
    requires i < |plan.victims|
  {
    var h, found := plan.victims[i].0, others(i, before);
    Moment(h, before, found, Swept(found, h, plan.passStart))
  }

  /** The turns of the first `n` victims. */
  function Sweep(plan: EvictionPlan, others: Others, start: Blobs, n: nat): (moments: seq<Moment>)
    requires n <= |plan.victims|
    ensures |moments| == n
    ensures forall i :: 0 <= i < n ==> moments[i] == MomentAt(plan, others, moments[i].before, i)
  {
    if n == 0 then []
    else
      var earlier := Sweep(plan, others, start, n - 1);
      earlier + [MomentAt(plan, others, Left(start, earlier), n - 1)]
  }

  /** What the pass reports: how many it deleted, and their sizes as it found them. */
  function Tally(moments: seq<Moment>, protectedBytes: nat): (e: Evicted)
    ensures e.protectedBytes == protectedBytes
  {
    if moments == [] then Evicted(0, 0, protectedBytes)
    else
      Tallied(Tally(moments[..|moments| - 1], protectedBytes), moments[|moments| - 1])
  }

  function Tallied(e: Evicted, m: Moment): Evicted {
    if Removes(m) then e.(count := e.count + 1, bytes := e.bytes + m.found[m.hash].size) else e
  }

  /** The bytes at these addresses that everyone else added, less those they took. */
  ghost function Drift(moments: seq<Moment>, hashes: set<Hash>): int {
    if moments == [] then 0
    else
      var m := moments[|moments| - 1];
      Drift(moments[..|moments| - 1], hashes) + Total(m.found, hashes) - Total(m.before, hashes)
  }

  /** A plan for this store: the victims are the candidates that nothing spares, each once. */
  ghost predicate IsPlan(plan: EvictionPlan, blobs: Blobs, turns: seq<TurnRecord>, budget: nat, extra: set<Hash>) {
    && DistinctVictims(plan.victims)
    && VictimHashes(plan.victims) == Victims(blobs, turns, budget, extra, plan.passStart)
  }

  lemma SweepNext(plan: EvictionPlan, others: Others, start: Blobs, n: nat)
    requires n < |plan.victims|
    ensures var earlier := Sweep(plan, others, start, n);
            Sweep(plan, others, start, n + 1) == earlier + [MomentAt(plan, others, Left(start, earlier), n)]
  {}

  /** One victim's turn deletes that victim or nothing, and deletes it exactly when it is there and was
      not touched since the pass began. */
  lemma SweepDeletes(plan: EvictionPlan, others: Others, start: Blobs, n: nat, i: nat)
    requires i < n <= |plan.victims|
    ensures var m := Sweep(plan, others, start, n)[i];
            && (Removes(m) <==> m.hash in m.found && m.found[m.hash].mtime <= plan.passStart)
            && (Removes(m) ==> m.left == m.found - {m.hash})
            && (!Removes(m) ==> m.left == m.found)
  {
    var m := Sweep(plan, others, start, n)[i];
    assert m == MomentAt(plan, others, m.before, i);
  }

  lemma TallyNext(moments: seq<Moment>, m: Moment, protectedBytes: nat)
    ensures Tally(moments + [m], protectedBytes) == Tallied(Tally(moments, protectedBytes), m)
  {
    assert (moments + [m])[..|moments|] == moments;
  }

  lemma VictimsAreExpendable(plan: EvictionPlan, blobs: Blobs, turns: seq<TurnRecord>, budget: nat, extra: set<Hash>, h: Hash)
    requires IsPlan(plan, blobs, turns, budget, extra)
    ensures Expendable(blobs, turns, budget, extra, plan.passStart, h) <==>
              exists i :: 0 <= i < |plan.victims| && plan.victims[i].0 == h
    ensures forall i, j :: 0 <= i < j < |plan.victims| ==> plan.victims[i].0 != plan.victims[j].0
  {
    assert h in VictimHashes(plan.victims) <==> Expendable(blobs, turns, budget, extra, plan.passStart, h);
    if h in VictimHashes(plan.victims) {
      var v :| v in plan.victims && v.0 == h;
      var i :| 0 <= i < |plan.victims| && plan.victims[i] == v;
    }
  }

  /** Whatever everyone else does between the plan and each deletion: a blob that was kept, a prompt,
      protected or touched when the plan was taken is never deleted, and neither is one that was touched
      by the time its turn came... */
  lemma NothingSparedIsRemoved(plan: EvictionPlan, blobs: Blobs, turns: seq<TurnRecord>, budget: nat, extra: set<Hash>,
                               others: Others, start: Blobs, i: nat, h: Hash)
    requires IsPlan(plan, blobs, turns, budget, extra) && i < |plan.victims|
    requires var m := Sweep(plan, others, start, |plan.victims|)[i]; h in m.found && h !in m.left
    ensures Expendable(blobs, turns, budget, extra, plan.passStart, h)
    ensures Sweep(plan, others, start, |plan.victims|)[i].found[h].mtime <= plan.passStart
  {
    SweepDeletes(plan, others, start, |plan.victims|, i);
    assert Sweep(plan, others, start, |plan.victims|)[i].hash == plan.victims[i].0;
    VictimsAreExpendable(plan, blobs, turns, budget, extra, h);
  }

  /** ...and each of the others has exactly one turn, and is deleted then if it is still there and
      untouched. */
  lemma ExpendableIsRemoved(plan: EvictionPlan, blobs: Blobs, turns: seq<TurnRecord>, budget: nat, extra: set<Hash>,
                            others: Others, start: Blobs, h: Hash)
    requires IsPlan(plan, blobs, turns, budget, extra)
    requires Expendable(blobs, turns, budget, extra, plan.passStart, h)
    ensures var moments := Sweep(plan, others, start, |plan.victims|);
            exists i :: 0 <= i < |moments| && moments[i].hash == h
              && (h in moments[i].left <==> h in moments[i].found && moments[i].found[h].mtime > plan.passStart)
              && forall j :: 0 <= j < |moments| && moments[j].hash == h ==> j == i
  {
    VictimsAreExpendable(plan, blobs, turns, budget, extra, h);
    var i: nat :| i < |plan.victims| && plan.victims[i].0 == h;
    SweepDeletes(plan, others, start, |plan.victims|, i);
    assert Sweep(plan, others, start, |plan.victims|)[i].hash == h;
  }

  /** One victim's turn takes exactly what it reports off the bytes of any addresses that include it. */
  lemma MomentConserves(m: Moment, passStart: nat, hashes: set<Hash>, e: Evicted)
    requires m.left == Swept(m.found, m.hash, passStart) && m.hash in hashes
    ensures Total(m.found, hashes) + e.bytes == Total(m.left, hashes) + Tallied(e, m).bytes
  {
    if Removes(m) {
      TotalAfterRemoval(m.found, {m.hash}, hashes);
      TotalPick(m.found, hashes, m.hash);
    }
  }

  lemma DriftNext(moments: seq<Moment>, m: Moment, hashes: set<Hash>)
    ensures Drift(moments + [m], hashes) == Drift(moments, hashes) + Total(m.found, hashes) - Total(m.before, hashes)
  {
    assert (moments + [m])[..|moments|] == moments;
  }

  ghost predicate Conserved(hashes: set<Hash>, start: Blobs, moments: seq<Moment>, protectedBytes: nat) {
    Total(start, hashes) + Drift(moments, hashes)
    == Total(Left(start, moments), hashes) + Tally(moments, protectedBytes).bytes
  }

  lemma ConservedNext(hashes: set<Hash>, start: Blobs, moments: seq<Moment>, m: Moment, passStart: nat, protectedBytes: nat)
    requires Conserved(hashes, start, moments, protectedBytes)
    requires m.before == Left(start, moments) && m.left == Swept(m.found, m.hash, passStart) && m.hash in hashes
    ensures Conserved(hashes, start, moments + [m], protectedBytes)
  {
    DriftNext(moments, m, hashes);
    TallyNext(moments, m, protectedBytes);
    MomentConserves(m, passStart, hashes, Tally(moments, protectedBytes));
  }

  /** Bytes are conserved, whatever goes on between the deletions: the bytes at the start, and what everyone
      else added less what they took, are the bytes at the end plus what was evicted. */
  lemma {:induction false} BytesAreConserved(plan: EvictionPlan, hashes: set<Hash>, others: Others, start: Blobs, n: nat)
    requires n <= |plan.victims| && forall i :: 0 <= i < |plan.victims| ==> plan.victims[i].0 in hashes
    ensures Conserved(hashes, start, Sweep(plan, others, start, n), plan.protectedBytes)
  {
    if n > 0 {
      BytesAreConserved(plan, hashes, others, start, n - 1);
      SweepNext(plan, others, start, n - 1);
      var earlier := Sweep(plan, others, start, n - 1);
      var m := MomentAt(plan, others, Left(start, earlier), n - 1);
      ConservedNext(hashes, start, earlier, m, plan.passStart, plan.protectedBytes);
    }
  }

  lemma VictimsAreReferenced(plan: EvictionPlan, blobs: Blobs, turns: seq<TurnRecord>, budget: nat, extra: set<Hash>)
    requires IsPlan(plan, blobs, turns, budget, extra)
    ensures forall i :: 0 <= i < |plan.victims| ==> plan.victims[i].0 in Referenced(turns)
  {
    forall i | 0 <= i < |plan.victims| ensures plan.victims[i].0 in Referenced(turns) {
      VictimsAreExpendable(plan, blobs, turns, budget, extra, plan.victims[i].0);
    }
  }

  // ---- when nobody interferes --------------------------------------------------------------------

  /** Each victim's turn finds the store as the pass left it. */
  ghost predicate Undisturbed(moments: seq<Moment>) {
    forall i :: 0 <= i < |moments| ==> moments[i].found == moments[i].before
  }

  /** The store and the tally after visiting the victims `done`. */
  ghost predicate Executed(was: Blobs, done: set<Hash>, plan: EvictionPlan, blobs: Blobs, evicted: Evicted) {
    var gone := Removable(was, done, plan.passStart);
    blobs == was - gone && evicted == Evicted(|gone|, Total(was, gone), plan.protectedBytes)
  }

  lemma RemovableNext(blobs: Blobs, victims: set<Hash>, h: Hash, passStart: nat)
    requires h !in victims
    ensures h !in Removable(blobs, victims, passStart)
    ensures Removable(blobs, victims + {h}, passStart)
         == Removable(blobs, victims, passStart) + (if h in blobs && !Fresh(blobs, h, passStart) then {h} else {})
  {}

  lemma RemovedNext(was: Blobs, gone: set<Hash>, h: Hash)
    requires h in was && h !in gone
    ensures was - gone - {h} == was - (gone + {h}) && |gone + {h}| == |gone| + 1
    ensures Total(was, gone + {h}) == Total(was, gone) + was[h].size
  {
    TotalAdd(was, gone, h);
  }

  /** One more victim: skipped when it is fresh or already gone, and otherwise deleted and tallied. */
  lemma ExecutedNext(was: Blobs, done: set<Hash>, plan: EvictionPlan, blobs: Blobs, evicted: Evicted, h: Hash)
    requires Executed(was, done, plan, blobs, evicted) && h !in done
    ensures if h in blobs && !Fresh(blobs, h, plan.passStart)
            then Executed(was, done + {h}, plan, blobs - {h},
                          Evicted(evicted.count + 1, evicted.bytes + blobs[h].size, evicted.protectedBytes))
            else Executed(was, done + {h}, plan, blobs, evicted)
    ensures h !in blobs ==> blobs - {h} == blobs
  {
    var gone := Removable(was, done, plan.passStart);
    RemovableNext(was, done, h, plan.passStart);
    assert h in blobs <==> h in was;
    if h in blobs && !Fresh(blobs, h, plan.passStart) {
      RemovedNext(was, gone, h);
    } else {
      assert gone + {} == gone;
    }
  }

  lemma QuietMoment(start: Blobs, done: set<Hash>, plan: EvictionPlan, evicted: Evicted, m: Moment)
    requires Executed(start, done, plan, m.found, evicted) && m.hash !in done
    requires m.left == Swept(m.found, m.hash, plan.passStart)
    ensures Executed(start, done + {m.hash}, plan, m.left, Tallied(evicted, m))
  {
    ExecutedNext(start, done, plan, m.found, evicted, m.hash);
  }

  /** When nobody interferes, a pass removes exactly the victims that are there. */
  lemma {:induction false} QuietSweep(plan: EvictionPlan, others: Others, start: Blobs, n: nat)
    requires DistinctVictims(plan.victims) && n <= |plan.victims| && Undisturbed(Sweep(plan, others, start, n))
    ensures var moments := Sweep(plan, others, start, n);
            Executed(start, VictimHashes(plan.victims[..n]), plan, Left(start, moments), Tally(moments, plan.protectedBytes))
  {
    if n > 0 {
      SweepNext(plan, others, start, n - 1);
      var earlier := Sweep(plan, others, start, n - 1);
      var m := MomentAt(plan, others, Left(start, earlier), n - 1);
      StillUndisturbed(earlier, m);
      QuietSweep(plan, others, start, n - 1);
      NotYetVisited(plan.victims, n - 1);
      TallyNext(earlier, m, plan.protectedBytes);
      QuietMoment(start, VictimHashes(plan.victims[..n - 1]), plan, Tally(earlier, plan.protectedBytes), m);
    } else {
      NothingExecuted(start, plan);
      assert plan.victims[..n] == [];
    }
  }

  lemma StillUndisturbed(earlier: seq<Moment>, m: Moment)
    requires Undisturbed(earlier + [m])
    ensures Undisturbed(earlier) && m.found == m.before
  {
    assert (earlier + [m])[|earlier|] == m;
    forall i | 0 <= i < |earlier| ensures earlier[i].found == earlier[i].before {
      assert (earlier + [m])[i] == earlier[i];
    }
  }

  /** When nobody interferes, a pass removes exactly the candidates that nothing spares. */
  lemma QuietPass(plan: EvictionPlan, others: Others, blobs: Blobs, turns: seq<TurnRecord>, budget: nat, extra: set<Hash>)
    requires IsPlan(plan, blobs, turns, budget, extra)
    requires Undisturbed(Sweep(plan, others, blobs, |plan.victims|))
    ensures var moments := Sweep(plan, others, blobs, |plan.victims|);
            var gone := Removed(blobs, turns, budget, extra, plan.passStart);
            && Left(blobs, moments) == blobs - gone
            && Tally(moments, plan.protectedBytes) == Evicted(|gone|, Total(blobs, gone), plan.protectedBytes)
  {
    QuietSweep(plan, others, blobs, |plan.victims|);
    assert plan.victims[..|plan.victims|] == plan.victims;
  }

  lemma PassConserves(plan: EvictionPlan, others: Others, blobs: Blobs, turns: seq<TurnRecord>, budget: nat, extra: set<Hash>)
    requires IsPlan(plan, blobs, turns, budget, extra)
    ensures Conserved(Referenced(turns), blobs, Sweep(plan, others, blobs, |plan.victims|), plan.protectedBytes)
  {
    VictimsAreReferenced(plan, blobs, turns, budget, extra);
    BytesAreConserved(plan, Referenced(turns), others, blobs, |plan.victims|);
  }

  lemma NothingExecuted(start: Blobs, plan: EvictionPlan)
    ensures Executed(start, VictimHashes([]), plan, start, Evicted(0, 0, plan.protectedBytes))
  {
    assert Removable(start, VictimHashes([]), plan.passStart) == {};
    assert start - {} == start;
  }

  // ---- the store -----------------------------------------------------------------------------

  class BlobStore {
    var blobs: Blobs

    constructor (blobs: Blobs)
      ensures this.blobs == blobs
    {
      this.blobs := blobs;
    }

    /** Delete an object if it is there, and say how big it was. */
    method Remove(h: Hash) returns (size: Option<nat>)
      modifies this
      ensures blobs == old(blobs) - {h}
      ensures size == if h in old(blobs) then Some(old(blobs)[h].size) else None
    {
      if h !in blobs {
        return None;
      }
      size := Some(blobs[h].size);
      blobs := blobs - {h};
    }

    /** `plan_eviction`: deletes nothing. */
    method PlanEviction(turns: seq<TurnRecord>, budget: nat, extra: set<Hash>, now: nat) returns (plan: EvictionPlan)
      ensures plan.passStart == now && IsPlan(plan, blobs, turns, budget, extra)
      ensures plan.protectedBytes == Total(blobs, Candidates(blobs, turns, budget) * extra)
      ensures plan.freedBytesProjected == Total(blobs, Victims(blobs, turns, budget, extra, now))
    {
      var keep, candidates, _ := Walk(blobs, turns, budget);
      var unprotected, protectedBytes := ProtectCandidates(blobs, candidates, extra);
      assert Protected(candidates, extra) == candidates * extra;
      var victims, projected := SelectVictims(blobs, unprotected, keep, Prompts(turns), now);
      assert Unspared(blobs, unprotected, keep, Prompts(turns), now) == Victims(blobs, turns, budget, extra, now);
      plan := EvictionPlan(victims, protectedBytes, projected, now);
    }

    /** Someone else's turn at the store. */
    method Interfere(others: Others, i: nat)
      modifies this
      ensures blobs == others(i, old(blobs))
    {
      blobs := others(i, blobs);
    }

    /** One victim's turn: look whether it was touched, and if not delete it. */
    method Visit(h: Hash, passStart: nat) returns (size: Option<nat>)
      modifies this
      ensures blobs == Swept(old(blobs), h, passStart)
      ensures size == if h in old(blobs) && h !in blobs then Some(old(blobs)[h].size) else None
    {
      size := None;
      if !Fresh(blobs, h, passStart) {
        ghost var was := blobs;
        size := Remove(h);
        assert h !in was ==> was - {h} == was;
      }
    }

    /** `execute`: delete each victim that was not touched since the plan was taken, looking at each one
        when its turn comes. */
    method Execute(plan: EvictionPlan, others: Others) returns (evicted: Evicted)
      modifies this
      ensures var moments := Sweep(plan, others, old(blobs), |plan.victims|);
              blobs == Left(old(blobs), moments) && evicted == Tally(moments, plan.protectedBytes)
    {
      evicted := Evicted(0, 0, plan.protectedBytes);
      for i := 0 to |plan.victims|
        invariant blobs == Left(old(blobs), Sweep(plan, others, old(blobs), i))
        invariant evicted == Tally(Sweep(plan, others, old(blobs), i), plan.protectedBytes)
      {
        SweepNext(plan, others, old(blobs), i);
        TallyNext(Sweep(plan, others, old(blobs), i), MomentAt(plan, others, blobs, i), plan.protectedBytes);
        Interfere(others, i);
        var size := Visit(plan.victims[i].0, plan.passStart);
        if size.Some? {
          evicted := evicted.(count := evicted.count + 1, bytes := evicted.bytes + size.value);
        }
      }
    }

    /** `enforce_budget`: plan, then execute, with anything going on in between. */
    method EnforceBudget(turns: seq<TurnRecord>, budget: nat, extra: set<Hash>, now: nat, others: Others)
      returns (evicted: Evicted, ghost plan: EvictionPlan)
      modifies this
      ensures plan.passStart == now && IsPlan(plan, old(blobs), turns, budget, extra)
      ensures var moments := Sweep(plan, others, old(blobs), |plan.victims|);
              && blobs == Left(old(blobs), moments)
              && evicted == Tally(moments, Total(old(blobs), Candidates(old(blobs), turns, budget) * extra))
              && Managed(old(blobs), turns) + Drift(moments, Referenced(turns)) == Managed(blobs, turns) + evicted.bytes
      ensures Undisturbed(Sweep(plan, others, old(blobs), |plan.victims|)) ==>
                var gone := Removed(old(blobs), turns, budget, extra, now);
                blobs == old(blobs) - gone && evicted.count == |gone| && evicted.bytes == Total(old(blobs), gone)
    {
      var taken := PlanEviction(turns, budget, extra, now);
      plan := taken;
      PassConserves(plan, others, blobs, turns, budget, extra);
      if Undisturbed(Sweep(plan, others, blobs, |plan.victims|)) {
        QuietPass(plan, others, blobs, turns, budget, extra);
      }
      evicted := Execute(taken, others);
    }
  }

  lemma NotYetVisited(victims: seq<(Hash, nat)>, i: nat)
    requires DistinctVictims(victims) && i < |victims|
    ensures victims[i].0 !in VictimHashes(victims[..i])
    ensures VictimHashes(victims[..i + 1]) == VictimHashes(victims[..i]) + {victims[i].0}
  {
    assert victims[..i + 1] == victims[..i] + [victims[i]];
    assert forall v :: v in victims[..i + 1] <==> v in victims[..i] || v == victims[i];
  }
}
