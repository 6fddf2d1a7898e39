/** Loading the memory file: group by id, sort, fold; and the walk that verifies recall candidates. */
module MemoryLoad {
  import opened Records
  import opened Orders
  import opened MemoryFold

  /** The records of one id, in file order. */
  function Group(records: seq<MemoryRecord>, id: Id): seq<MemoryRecord> {
    if records == [] then []
    else
      var n := |records| - 1;
      Group(records[..n], id) + if records[n].id == id then [records[n]] else []
  }

  /** The ids in order of their first record. */
  function IdsInOrder(records: seq<MemoryRecord>): seq<Id> {
    if records == [] then []
    else
      var n := |records| - 1;
      var earlier := IdsInOrder(records[..n]);
      if records[n].id in earlier then earlier else earlier + [records[n].id]
  }

  /** No earlier record has the id of record `i`. */
  predicate FirstOfItsId(records: seq<MemoryRecord>, i: nat)
    requires i < |records|
  {
    forall j :: 0 <= j < i ==> records[j].id != records[i].id
  }

  predicate InFileOrder(records: seq<MemoryRecord>, at: seq<nat>, ids: seq<Id>) {
    && |at| == |ids|
    && (forall x :: 0 <= x < |at| ==> at[x] < |records| && ids[x] == records[at[x]].id)
    && (forall x, y :: 0 <= x < y < |at| ==> at[x] < at[y])
  }

  predicate HoldsFirsts(records: seq<MemoryRecord>, at: seq<nat>) {
    forall i :: 0 <= i < |records| ==> (i in at <==> FirstOfItsId(records, i))
  }

  /** `at` holds, in order, the position of each id's first record. */
  predicate FirstPositions(records: seq<MemoryRecord>, at: seq<nat>, ids: seq<Id>) {
    InFileOrder(records, at, ids) && HoldsFirsts(records, at)
  }

  /** The ids come exactly in the order in which they first appear in the file. */
  lemma {:induction false} IdsByFirstAppearance(records: seq<MemoryRecord>) returns (at: seq<nat>)
    ensures FirstPositions(records, at, IdsInOrder(records))
    decreases |records|
  {
    if records == [] {
      at := [];
    } else {
      var n := |records| - 1;
      var front, last := records[..n], records[n];
      var earlier := IdsByFirstAppearance(front);
      assert records == front + [last];
      if last.id in IdsInOrder(front) {
        at := earlier;
        RepeatedId(front, last, at);
      } else {
        at := earlier + [n];
        NewId(front, last, earlier);
      }
    }
  }

  lemma FirstInFront(front: seq<MemoryRecord>, last: MemoryRecord, i: nat)
    requires i < |front|
    ensures FirstOfItsId(front + [last], i) <==> FirstOfItsId(front, i)
  {
    var all := front + [last];
    assert forall j :: 0 <= j <= i ==> all[j] == front[j];
  }

  lemma FirstAtEnd(front: seq<MemoryRecord>, last: MemoryRecord)
    ensures FirstOfItsId(front + [last], |front|) <==> last.id !in IdsInOrder(front)
  {
    IdsOnce(front);
    var all := front + [last];
    assert all[|front|] == last;
    forall j | 0 <= j < |front| ensures all[j] in front {
      assert all[j] == front[j];
    }
    if last.id in IdsInOrder(front) {
      var r :| r in front && r.id == last.id;
      var j :| 0 <= j < |front| && front[j] == r;
      assert all[j] == r;
    }
  }

  lemma RepeatedId(front: seq<MemoryRecord>, last: MemoryRecord, at: seq<nat>)
    requires last.id in IdsInOrder(front) && FirstPositions(front, at, IdsInOrder(front))
    ensures FirstPositions(front + [last], at, IdsInOrder(front))
  {
    var all := front + [last];
    FirstAtEnd(front, last);
    forall i | 0 <= i < |all| ensures i in at <==> FirstOfItsId(all, i) {
      if i < |front| {
        FirstInFront(front, last, i);
      }
    }
  }

  lemma NewFirstAt(front: seq<MemoryRecord>, last: MemoryRecord, at: seq<nat>, i: nat)
    requires last.id !in IdsInOrder(front) && i <= |front|
    requires i < |front| ==> (i in at <==> FirstOfItsId(front, i))
    ensures i in at + [|front|] <==> FirstOfItsId(front + [last], i)
  {
    if i < |front| {
      FirstInFront(front, last, i);
    } else {
      FirstAtEnd(front, last);
      assert (at + [|front|])[|at|] == |front|;
    }
  }

  lemma NewFirst(front: seq<MemoryRecord>, last: MemoryRecord, at: seq<nat>)
    requires last.id !in IdsInOrder(front) && HoldsFirsts(front, at)
    ensures HoldsFirsts(front + [last], at + [|front|])
  {
    forall i | 0 <= i < |front + [last]| ensures i in at + [|front|] <==> FirstOfItsId(front + [last], i) {
      NewFirstAt(front, last, at, i);
    }
  }

  lemma NextInFile(front: seq<MemoryRecord>, last: MemoryRecord, at: seq<nat>, ids: seq<Id>)
    requires InFileOrder(front, at, ids)
    ensures InFileOrder(front + [last], at + [|front|], ids + [last.id])
  {}

  lemma NewId(front: seq<MemoryRecord>, last: MemoryRecord, at: seq<nat>)
    requires last.id !in IdsInOrder(front) && FirstPositions(front, at, IdsInOrder(front))
    ensures FirstPositions(front + [last], at + [|front|], IdsInOrder(front) + [last.id])
  {
    NewFirst(front, last, at);
    NextInFile(front, last, at, IdsInOrder(front));
  }

  /** The fold over a sorted group, variable by variable. */
  method FoldGroup(id: Id, sorted: seq<MemoryRecord>) returns (m: EffectiveMemory)
    ensures m == FoldSorted(id, sorted)
  {
    var fact, pins, origin, ts, retracted := "", [], "", 0, false;
    for i := 0 to |sorted|
      invariant EffectiveMemory(id, fact, pins, origin, ts, retracted) == FoldSorted(id, sorted[..i])
    {
      var rec := sorted[i];
      assert sorted[..i + 1][..i] == sorted[..i];
      match rec.op {
        case Retract => retracted, origin, ts := true, rec.origin, rec.ts;
        case _ => fact, pins, origin, ts, retracted := rec.fact, rec.pins, rec.origin, rec.ts, false;
      }
    }
    assert sorted[..|sorted|] == sorted;
    m := EffectiveMemory(id, fact, pins, origin, ts, retracted);
  }

  method GroupById(records: seq<MemoryRecord>) returns (byId: map<Id, seq<MemoryRecord>>, order: seq<Id>)
    ensures order == IdsInOrder(records) && byId.Keys == Elements(order)
    ensures forall id :: id in byId ==> byId[id] == Group(records, id)
  {
    byId, order := map[], [];
    for i := 0 to |records|
      invariant order == IdsInOrder(records[..i]) && byId.Keys == Elements(order)
      invariant forall id :: id in byId ==> byId[id] == Group(records[..i], id)
      invariant forall id :: id !in byId ==> Group(records[..i], id) == []
    {
      var rec := records[i];
      assert records[..i + 1][..i] == records[..i];
      if rec.id !in byId {
        order := order + [rec.id];
      }
      var group := if rec.id in byId then byId[rec.id] else [];
      byId := byId[rec.id := group + [rec]];
    }
    assert records[..|records|] == records;
  }

  /** What each of these ids says now, one after the other. */
  function EffectiveOfAll(records: seq<MemoryRecord>, ids: seq<Id>): (r: seq<EffectiveMemory>)
    ensures |r| == |ids|
  {
    if ids == [] then []
    else
      var n := |ids| - 1;
      EffectiveOfAll(records, ids[..n]) + [Effective(ids[n], Group(records, ids[n]))]
  }

  lemma {:induction false} EffectiveAt(records: seq<MemoryRecord>, ids: seq<Id>, i: nat)
    requires i < |ids|
    ensures EffectiveOfAll(records, ids)[i] == Effective(ids[i], Group(records, ids[i]))
  {
    if i < |ids| - 1 {
      EffectiveAt(records, ids[..|ids| - 1], i);
    }
  }

  /** `load_effective_checked`, after parsing and within its deadline. */
  method LoadEffective(records: seq<MemoryRecord>) returns (out: seq<EffectiveMemory>)
    ensures out == EffectiveOfAll(records, IdsInOrder(records))
  {
    var byId, order := GroupById(records);
    out := [];
    for i := 0 to |order|
      invariant out == EffectiveOfAll(records, order[..i])
    {
      assert order[i] in Elements(order) && order[..i + 1][..i] == order[..i];
      var m := FoldGroup(order[i], Sort(RecordLe, byId[order[i]]));
      out := out + [m];
    }
    assert order[..|order|] == order;
  }

  // ---- the order of the file -------------------------------------------------------------------

  lemma {:induction false} GroupCounts(records: seq<MemoryRecord>, id: Id, r: MemoryRecord)
    ensures multiset(Group(records, id))[r] == if r.id == id then multiset(records)[r] else 0
  {
    if records != [] {
      var n := |records| - 1;
      GroupCounts(records[..n], id, r);
      assert records == records[..n] + [records[n]];
    }
  }

  lemma {:induction false} IdsOnce(records: seq<MemoryRecord>)
    ensures Distinct(IdsInOrder(records))
    ensures forall id :: id in IdsInOrder(records) <==> exists r :: r in records && r.id == id
  {
    if records != [] {
      var n := |records| - 1;
      IdsOnce(records[..n]);
      assert records == records[..n] + [records[n]];
    }
  }

  /** For any permutation of the whole file, the same ids are loaded, each once, and each says the same, up
      to the order of its pins. */
  lemma LoadForgetsOrder(a: seq<MemoryRecord>, b: seq<MemoryRecord>, id: Id)
    requires multiset(a) == multiset(b)
    ensures id in IdsInOrder(a) <==> id in IdsInOrder(b)
    ensures Distinct(IdsInOrder(a)) && Distinct(IdsInOrder(b))
    ensures Agree(Effective(id, Group(a, id)), Effective(id, Group(b, id)))
  {
    IdsOnce(a);
    IdsOnce(b);
    SameMembers(a, b);
    forall r ensures multiset(Group(a, id))[r] == multiset(Group(b, id))[r] {
      GroupCounts(a, id, r);
      GroupCounts(b, id, r);
    }
    FoldForgetsOrder(id, Group(a, id), Group(b, id));
  }

  // ---- recall ------------------------------------------------------------------------------------

  const RECALL_VERIFY_CAP: nat := 128

  function FreshOnes(candidates: seq<EffectiveMemory>, isFresh: EffectiveMemory -> bool): seq<EffectiveMemory> {
    if candidates == [] then []
    else
      var n := |candidates| - 1;
      FreshOnes(candidates[..n], isFresh) + if isFresh(candidates[n]) then [candidates[n]] else []
  }

  function Examined(candidates: seq<EffectiveMemory>): seq<EffectiveMemory> {
    if |candidates| > RECALL_VERIFY_CAP then candidates[..RECALL_VERIFY_CAP] else candidates
  }

  lemma {:induction false} FreshPrefix(candidates: seq<EffectiveMemory>, isFresh: EffectiveMemory -> bool, i: nat)
    requires i <= |candidates|
    ensures FreshOnes(candidates[..i], isFresh) <= FreshOnes(candidates, isFresh)
  {
    if i < |candidates| {
      var n := |candidates| - 1;
      FreshPrefix(candidates[..n], isFresh, i);
      assert candidates[..n][..i] == candidates[..i];
    } else {
      assert candidates[..i] == candidates;
    }
  }

  /** `hits` are fresh candidates at increasing positions below the cap, at most `k`; a fresh candidate that
      is missing comes after `k` others or at or beyond the cap. */
  ghost predicate FirstFresh(candidates: seq<EffectiveMemory>, isFresh: EffectiveMemory -> bool, k: nat,
                             at: seq<nat>, hits: seq<EffectiveMemory>) {
    && |at| == |hits| <= k
    && (forall x :: 0 <= x < |at| ==> at[x] < |candidates| && at[x] < 128 && hits[x] == candidates[at[x]] && isFresh(hits[x]))
    && (forall x, y :: 0 <= x < y < |at| ==> at[x] < at[y])
    && (forall i :: 0 <= i < |candidates| && i < 128 && isFresh(candidates[i]) && i !in at ==>
          |hits| == k && forall x :: 0 <= x < |at| ==> at[x] < i)
  }

  /** `found` are the fresh candidates, at the increasing positions `at`. */
  ghost predicate PicksFresh(candidates: seq<EffectiveMemory>, isFresh: EffectiveMemory -> bool, at: seq<nat>,
                             found: seq<EffectiveMemory>) {
    && |at| == |found|
    && (forall x :: 0 <= x < |at| ==> at[x] < |candidates| && found[x] == candidates[at[x]] && isFresh(found[x]))
    && (forall x, y :: 0 <= x < y < |at| ==> at[x] < at[y])
    && (forall i :: 0 <= i < |candidates| && isFresh(candidates[i]) ==> i in at)
  }

  lemma {:induction false} FreshPositions(candidates: seq<EffectiveMemory>, isFresh: EffectiveMemory -> bool)
    returns (at: seq<nat>)
    ensures PicksFresh(candidates, isFresh, at, FreshOnes(candidates, isFresh))
    decreases |candidates|
  {
    if candidates == [] {
      at := [];
    } else {
      var n := |candidates| - 1;
      var earlier := FreshPositions(candidates[..n], isFresh);
      assert candidates == candidates[..n] + [candidates[n]];
      at := if isFresh(candidates[n]) then earlier + [n] else earlier;
      PicksFreshNext(candidates[..n], candidates[n], isFresh, earlier, FreshOnes(candidates[..n], isFresh));
    }
  }

  lemma PicksFreshNext(front: seq<EffectiveMemory>, last: EffectiveMemory, isFresh: EffectiveMemory -> bool,
                       at: seq<nat>, found: seq<EffectiveMemory>)
    requires PicksFresh(front, isFresh, at, found)
    ensures isFresh(last) ==> PicksFresh(front + [last], isFresh, at + [|front|], found + [last])
    ensures !isFresh(last) ==> PicksFresh(front + [last], isFresh, at, found)
  {
    var all := front + [last];
    var more := if isFresh(last) then at + [|front|] else at;
    forall i | 0 <= i < |all| && isFresh(all[i]) ensures i in more {
      if i < |front| {
        assert all[i] == front[i] && i in at;
      } else {
        assert more[|at|] == i;
      }
    }
  }

  lemma FirstFreshOf(candidates: seq<EffectiveMemory>, isFresh: EffectiveMemory -> bool, k: nat,
                     at: seq<nat>, found: seq<EffectiveMemory>)
    requires PicksFresh(Examined(candidates), isFresh, at, found)
    ensures |found| <= k ==> FirstFresh(candidates, isFresh, k, at, found)
    ensures |found| > k ==> FirstFresh(candidates, isFresh, k, at[..k], found[..k])
  {
    forall i | 0 <= i < |candidates| && i < 128 && isFresh(candidates[i]) ensures i in at {
      assert Examined(candidates)[i] == candidates[i];
    }
    if |found| > k {
      forall i | 0 <= i < |candidates| && i < 128 && isFresh(candidates[i]) && i !in at[..k]
        ensures forall x :: 0 <= x < k ==> at[x] < i
      {
        assert forall z :: 0 <= z < k ==> at[z] in at[..k];
        var y :| 0 <= y < |at| && at[y] == i;
      }
    }
  }

  /** The verify walk over ranked candidates: it returns the first `k` fresh ones among those it may
      examine, and says it was capped exactly when it is still short and there are more. */
  method VerifyWalk(candidates: seq<EffectiveMemory>, isFresh: EffectiveMemory -> bool, k: nat)
    returns (hits: seq<EffectiveMemory>, capped: bool)
    ensures var all := FreshOnes(Examined(candidates), isFresh);
            && hits == (if |all| > k then all[..k] else all)
            && (capped <==> |candidates| > RECALL_VERIFY_CAP && |all| < k)
    ensures exists at :: FirstFresh(candidates, isFresh, k, at, hits)
    ensures capped <==> |candidates| > 128 && |hits| < k
  {
    hits, capped := [], false;
    ghost var all := FreshOnes(Examined(candidates), isFresh);
    ghost var at := FreshPositions(Examined(candidates), isFresh);
    FirstFreshOf(candidates, isFresh, k, at, all);
    var i := 0;
    while i < |candidates|
      invariant 0 <= i <= |candidates| && i <= RECALL_VERIFY_CAP
      invariant hits == FreshOnes(candidates[..i], isFresh) && |hits| <= k
    {
      assert i < |Examined(candidates)| ==> candidates[..i] == Examined(candidates)[..i];
      if |hits| >= k {
        assert candidates[..i] == Examined(candidates)[..i];
        FreshPrefix(Examined(candidates), isFresh, i);
        return;
      }
      if i >= RECALL_VERIFY_CAP {
        assert candidates[..i] == Examined(candidates);
        return hits, true;
      }
      assert candidates[..i + 1][..i] == candidates[..i];
      if isFresh(candidates[i]) {
        hits := hits + [candidates[i]];
      }
      i := i + 1;
    }
    assert candidates[..i] == Examined(candidates);
  }
}
