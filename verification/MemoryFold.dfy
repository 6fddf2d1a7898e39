/** Folding memory records to what they say now, and why the order of the records does not matter. */
module MemoryFold {
  import opened Records
  import opened Orders

  datatype MemoryOp = Assert | Reverify | Retract

  datatype Pin = Pin(path: string, hash: string)

  datatype MemoryRecord = MemoryRecord(
    id: Id,
    op: MemoryOp,
    fact: string,
    pins: seq<Pin>,
    sourceTurns: seq<Id>,
    origin: string,
    ts: nat,
    reason: Option<string>)

  datatype EffectiveMemory = EffectiveMemory(
    id: Id, fact: string, pins: seq<Pin>, origin: string, ts: nat, retracted: bool)

  function OpRank(op: MemoryOp): nat {
    match op
    case Assert => 0
    case Reverify => 1
    case Retract => 2
  }

  // ---- the sort key -------------------------------------------------------------------------

  type PinKey = (string, string)

  /** Sorted pins, then fact, then origin. */
  type ContentKey = (seq<PinKey>, (string, string))

  /** Time, then operation, then content. */
  type Key = (nat, (nat, ContentKey))

  predicate NatLe(a: nat, b: nat) { a <= b }

  predicate PinLe(a: PinKey, b: PinKey) { PairLe(StringLe, StringLe, a, b) }

  predicate PinsLe(a: seq<PinKey>, b: seq<PinKey>) { LexLe(PinLe, a, b) }

  predicate TextsLe(a: (string, string), b: (string, string)) { PairLe(StringLe, StringLe, a, b) }

  predicate ContentLe(a: ContentKey, b: ContentKey) { PairLe(PinsLe, TextsLe, a, b) }

  predicate RankLe(a: (nat, ContentKey), b: (nat, ContentKey)) { PairLe(NatLe, ContentLe, a, b) }

  predicate KeyLe(a: Key, b: Key) { PairLe(NatLe, RankLe, a, b) }

  function PinKeys(pins: seq<Pin>): (keys: seq<PinKey>)
    ensures |keys| == |pins|
    ensures forall i :: 0 <= i < |pins| ==> keys[i] == (pins[i].path, pins[i].hash)
  {
    seq(|pins|, i requires 0 <= i < |pins| => (pins[i].path, pins[i].hash))
  }

  /** `content_key`: the order of the pins inside the record does not show. */
  function ContentKeyOf(r: MemoryRecord): ContentKey {
    (Sort(PinLe, PinKeys(r.pins)), (r.fact, r.origin))
  }

  function KeyOf(r: MemoryRecord): Key {
    (r.ts, (OpRank(r.op), ContentKeyOf(r)))
  }

  predicate RecordLe(a: MemoryRecord, b: MemoryRecord) {
    KeyLe(KeyOf(a), KeyOf(b))
  }

  lemma StringsAreOrdered()
    ensures TotalOrder(StringLe) && TotalOrder(PinLe) && TotalOrder(TextsLe)
  {
    StringsAreTotal();
    PairIsTotal(StringLe, StringLe, PinLe);
    PairIsTotal(StringLe, StringLe, TextsLe);
  }

  /** The key is a genuine total order: no two different keys tie. */
  lemma KeysAreOrdered()
    ensures TotalOrder(KeyLe)
  {
    StringsAreOrdered();
    LexIsTotal(PinLe, PinsLe);
    PairIsTotal(PinsLe, TextsLe, ContentLe);
    PairIsTotal(NatLe, ContentLe, RankLe);
    PairIsTotal(NatLe, RankLe, KeyLe);
  }

  // ---- the fold --------------------------------------------------------------------------------

  const Nothing := EffectiveMemory("", "", [], "", 0, false)

  /** One record on top of what earlier ones said: a retraction keeps fact and pins. */
  function Apply(m: EffectiveMemory, r: MemoryRecord): EffectiveMemory {
    match r.op
    case Retract => m.(retracted := true, origin := r.origin, ts := r.ts)
    case _ => m.(fact := r.fact, pins := r.pins, origin := r.origin, ts := r.ts, retracted := false)
  }

  function FoldSorted(id: Id, group: seq<MemoryRecord>): EffectiveMemory {
    if group == [] then Nothing.(id := id)
    else Apply(FoldSorted(id, group[..|group| - 1]), group[|group| - 1])
  }

  /** What the records of one id say now. */
  function Effective(id: Id, group: seq<MemoryRecord>): EffectiveMemory {
    FoldSorted(id, Sort(RecordLe, group))
  }

  /** Equal but for the order of pins. */
  predicate Agree(a: EffectiveMemory, b: EffectiveMemory) {
    && a.id == b.id && a.fact == b.fact && a.origin == b.origin && a.ts == b.ts && a.retracted == b.retracted
    && multiset(PinKeys(a.pins)) == multiset(PinKeys(b.pins))
  }

  function Keys(group: seq<MemoryRecord>): (keys: seq<Key>)
    ensures |keys| == |group|
    ensures forall i :: 0 <= i < |group| ==> keys[i] == KeyOf(group[i])
  {
    seq(|group|, i requires 0 <= i < |group| => KeyOf(group[i]))
  }

  /** Records with equal keys do the same. */
  lemma ApplyAgrees(m: EffectiveMemory, n: EffectiveMemory, r: MemoryRecord, s: MemoryRecord)
    requires Agree(m, n) && KeyOf(r) == KeyOf(s)
    ensures Agree(Apply(m, r), Apply(n, s))
  {
    assert multiset(PinKeys(r.pins)) == multiset(Sort(PinLe, PinKeys(r.pins)));
    assert multiset(PinKeys(s.pins)) == multiset(Sort(PinLe, PinKeys(s.pins)));
  }

  lemma {:induction false} FoldDependsOnKeys(id: Id, a: seq<MemoryRecord>, b: seq<MemoryRecord>)
    requires Keys(a) == Keys(b)
    ensures Agree(FoldSorted(id, a), FoldSorted(id, b))
    decreases |a|
  {
    assert |a| == |Keys(a)| == |b|;
    if a != [] {
      var n := |a| - 1;
      assert Keys(a[..n]) == Keys(a)[..n] && Keys(b[..n]) == Keys(b)[..n];
      FoldDependsOnKeys(id, a[..n], b[..n]);
      assert Keys(a)[n] == Keys(b)[n];
      ApplyAgrees(FoldSorted(id, a[..n]), FoldSorted(id, b[..n]), a[n], b[n]);
    }
  }

  lemma KeysOfPermutation(a: seq<MemoryRecord>, b: seq<MemoryRecord>)
    requires multiset(a) == multiset(b)
    ensures multiset(Keys(a)) == multiset(Keys(b))
  {
    MapOfPermutation(KeyOf, a, b);
    assert Keys(a) == Mapped(KeyOf, a) && Keys(b) == Mapped(KeyOf, b);
  }

  lemma RecordsArePreordered()
    ensures Preorder(RecordLe)
  {
    KeysAreOrdered();
    forall a, b, c | RecordLe(a, b) && RecordLe(b, c) ensures RecordLe(a, c) {
      assert KeyLe(KeyOf(a), KeyOf(b)) && KeyLe(KeyOf(b), KeyOf(c));
    }
  }

  lemma SortedKeys(group: seq<MemoryRecord>)
    ensures Sorted(KeyLe, Keys(Sort(RecordLe, group)))
    ensures multiset(Keys(Sort(RecordLe, group))) == multiset(Keys(group))
  {
    RecordsArePreordered();
    SortSorts(RecordLe, group);
    KeysOfPermutation(Sort(RecordLe, group), group);
  }

  /** For any permutation of one id's records, the fold says the same, up to the order of pins: ties on
      time and operation included. */
  lemma FoldForgetsOrder(id: Id, a: seq<MemoryRecord>, b: seq<MemoryRecord>)
    requires multiset(a) == multiset(b)
    ensures Agree(Effective(id, a), Effective(id, b))
  {
    SortedKeys(a);
    SortedKeys(b);
    KeysOfPermutation(a, b);
    KeysAreOrdered();
    SortedIsUnique(KeyLe, Keys(Sort(RecordLe, a)), Keys(Sort(RecordLe, b)));
    FoldDependsOnKeys(id, Sort(RecordLe, a), Sort(RecordLe, b));
  }

  // ---- what wins ----------------------------------------------------------------------------------

  /** In one millisecond an assertion yields to a reverification, and both yield to a retraction. */
  predicate Yields(a: MemoryOp, b: MemoryOp) {
    a == b || a == Assert || b == Retract
  }

  predicate NoLater(s: MemoryRecord, r: MemoryRecord) {
    s.ts < r.ts || (s.ts == r.ts && Yields(s.op, r.op))
  }

  /** No record of the group is later, or as late with an operation that does not yield. */
  predicate IsLatest(group: seq<MemoryRecord>, r: MemoryRecord) {
    r in group && forall s :: s in group ==> NoLater(s, r)
  }

  ghost predicate InOrder(group: seq<MemoryRecord>) {
    forall i, j :: 0 <= i < j < |group| ==> NoLater(group[i], group[j])
  }

  lemma SortedInOrder(group: seq<MemoryRecord>)
    ensures var sorted := Sort(RecordLe, group);
            && InOrder(sorted) && |sorted| == |group| && forall r :: r in sorted <==> r in group
  {
    var sorted := Sort(RecordLe, group);
    RecordsArePreordered();
    SortSorts(RecordLe, group);
    SameLength(sorted, group);
    SameMembers(sorted, group);
    forall i, j | 0 <= i < j < |sorted| ensures NoLater(sorted[i], sorted[j]) {
      assert RecordLe(sorted[i], sorted[j]);
    }
  }

  lemma LastIsLatest(sorted: seq<MemoryRecord>)
    requires sorted != [] && InOrder(sorted)
    ensures IsLatest(sorted, sorted[|sorted| - 1])
  {
    forall s | s in sorted ensures NoLater(s, sorted[|sorted| - 1]) {
      var i :| 0 <= i < |sorted| && sorted[i] == s;
    }
  }

  lemma {:induction false} FoldTakesLast(id: Id, sorted: seq<MemoryRecord>)
    requires sorted != []
    ensures var m := FoldSorted(id, sorted);
            var last := sorted[|sorted| - 1];
            m.id == id && m.ts == last.ts && m.origin == last.origin && (m.retracted <==> last.op == Retract)
    decreases |sorted|
  {
    var n := |sorted| - 1;
    if n > 0 {
      FoldTakesLast(id, sorted[..n]);
    }
  }

  /** A latest record tells the time and whether the memory is retracted. */
  lemma LatestDecides(group: seq<MemoryRecord>, last: MemoryRecord)
    requires IsLatest(group, last)
    ensures forall r :: r in group ==> r.ts <= last.ts
    ensures last.op == Retract <==> exists r :: r in group && r.op == Retract && r.ts == last.ts
  {
    if last.op != Retract {
      forall r | r in group && r.ts == last.ts ensures r.op != Retract {
        assert NoLater(r, last);
      }
    }
  }

  /** Said without sorting: the time is the latest of all, and a memory is retracted exactly when one of its
      latest records retracts it, so a retraction is never lost to an assertion of the same millisecond. */
  lemma RetractionIsNeverLost(id: Id, group: seq<MemoryRecord>)
    requires group != []
    ensures var m := Effective(id, group);
            && m.id == id
            && (exists r :: r in group && r.ts == m.ts) && (forall r :: r in group ==> r.ts <= m.ts)
            && (m.retracted <==> exists r :: r in group && r.op == Retract && r.ts == m.ts)
  {
    var sorted := Sort(RecordLe, group);
    SortedInOrder(group);
    LastIsLatest(sorted);
    FoldTakesLast(id, sorted);
    var last := sorted[|sorted| - 1];
    assert IsLatest(group, last) by {
      assert last in sorted;
    }
    LatestDecides(group, last);
  }

  predicate AllRetract(group: seq<MemoryRecord>) {
    forall r :: r in group ==> r.op == Retract
  }

  /** `r` is a latest record of the group that is not a retraction. */
  predicate LatestAssertion(group: seq<MemoryRecord>, r: MemoryRecord) {
    && r in group && r.op != Retract
    && forall s :: s in group && s.op != Retract ==> NoLater(s, r)
  }

  ghost predicate FactFrom(group: seq<MemoryRecord>, m: EffectiveMemory) {
    if AllRetract(group) then m.fact == "" && m.pins == []
    else exists r :: LatestAssertion(group, r) && m.fact == r.fact && m.pins == r.pins
  }

  /** The fact and the pins are those of one latest record that is not a retraction. */
  lemma FactOfLatestAssertion(id: Id, group: seq<MemoryRecord>)
    ensures FactFrom(group, Effective(id, group))
  {
    var sorted := Sort(RecordLe, group);
    SortedInOrder(group);
    FactOfSorted(id, sorted);
    assert AllRetract(group) <==> AllRetract(sorted);
    if !AllRetract(group) {
      var r :| LatestAssertion(sorted, r) && Effective(id, group).fact == r.fact && Effective(id, group).pins == r.pins;
      assert LatestAssertion(group, r);
    }
  }

  lemma SameMembers<T(!new)>(a: seq<T>, b: seq<T>)
    requires multiset(a) == multiset(b)
    ensures forall x :: x in a <==> x in b
  {
    forall x ensures x in a <==> x in b {
      assert x in a <==> x in multiset(a);
      assert x in b <==> x in multiset(b);
    }
  }

  lemma LastAssertionIsLatest(front: seq<MemoryRecord>, last: MemoryRecord)
    requires InOrder(front + [last]) && last.op != Retract
    ensures LatestAssertion(front + [last], last)
  {
    var all := front + [last];
    assert all[|front|] == last;
    forall s | s in all ensures NoLater(s, last) {
      var i :| 0 <= i < |all| && all[i] == s;
    }
  }

  lemma RetractionChangesNoFact(front: seq<MemoryRecord>, last: MemoryRecord, m: EffectiveMemory)
    requires FactFrom(front, m) && last.op == Retract
    ensures FactFrom(front + [last], Apply(m, last))
  {
    if !AllRetract(front) {
      var r :| LatestAssertion(front, r) && m.fact == r.fact && m.pins == r.pins;
      assert LatestAssertion(front + [last], r);
      assert !AllRetract(front + [last]) by { assert r in front + [last]; }
    }
  }

  lemma {:induction false} FactOfSorted(id: Id, sorted: seq<MemoryRecord>)
    requires InOrder(sorted)
    ensures FactFrom(sorted, FoldSorted(id, sorted))
  {
    if sorted != [] {
      var n := |sorted| - 1;
      var front, last := sorted[..n], sorted[n];
      FactOfSorted(id, front);
      assert sorted == front + [last];
      if last.op == Retract {
        RetractionChangesNoFact(front, last, FoldSorted(id, front));
      } else {
        LastAssertionIsLatest(front, last);
        assert !AllRetract(sorted) by { assert last in sorted; }
      }
    }
  }
}
