/** Total orders on texts, lists and pairs, stable sorting, and the uniqueness of a sorted arrangement. */
module Orders {

  ghost predicate TotalOrder<T(!new)>(le: (T, T) -> bool) {
    && (forall a, b :: le(a, b) || le(b, a))
    && (forall a, b :: le(a, b) && le(b, a) ==> a == b)
    && (forall a, b, c :: le(a, b) && le(b, c) ==> le(a, c))
  }

  /** Dictionary order of lists. */
  predicate LexLe<T(==)>(le: (T, T) -> bool, a: seq<T>, b: seq<T>) {
    if a == [] then true
    else if b == [] then false
    else if a[0] == b[0] then LexLe(le, a[1..], b[1..])
    else le(a[0], b[0])
  }

  predicate PairLe<A(==), B>(leA: (A, A) -> bool, leB: (B, B) -> bool, p: (A, B), q: (A, B)) {
    if p.0 == q.0 then leB(p.1, q.1) else leA(p.0, q.0)
  }

  lemma {:induction false} LexLaws<T(!new)>(le: (T, T) -> bool, a: seq<T>, b: seq<T>)
    requires TotalOrder(le)
    ensures LexLe(le, a, b) || LexLe(le, b, a)
    ensures LexLe(le, a, b) && LexLe(le, b, a) ==> a == b
  {
    if a != [] && b != [] {
      LexLaws(le, a[1..], b[1..]);
      assert a == [a[0]] + a[1..] && b == [b[0]] + b[1..];
    }
  }

  lemma {:induction false} LexTransitive<T(!new)>(le: (T, T) -> bool, a: seq<T>, b: seq<T>, c: seq<T>)
    requires TotalOrder(le) && LexLe(le, a, b) && LexLe(le, b, c)
    ensures LexLe(le, a, c)
  {
    if a != [] && b != [] && c != [] {
      if a[0] == b[0] && b[0] == c[0] {
        LexTransitive(le, a[1..], b[1..], c[1..]);
      }
    }
  }

  lemma LexIsTotal<T(!new)>(le: (T, T) -> bool, lex: (seq<T>, seq<T>) -> bool)
    requires TotalOrder(le) && forall a, b :: lex(a, b) == LexLe(le, a, b)
    ensures TotalOrder(lex)
  {
    forall a, b ensures lex(a, b) || lex(b, a)
                ensures lex(a, b) && lex(b, a) ==> a == b
    {
      LexLaws(le, a, b);
    }
    forall a, b, c | lex(a, b) && lex(b, c) ensures lex(a, c) {
      LexTransitive(le, a, b, c);
    }
  }

  predicate CharLe(a: char, b: char) { a <= b }

  /** Texts by code points, which is also the order of their UTF-8 bytes. */
  predicate StringLe(a: string, b: string) { LexLe(CharLe, a, b) }

  lemma StringsAreTotal()
    ensures TotalOrder(StringLe)
  {
    LexIsTotal(CharLe, StringLe);
  }

  lemma StringLaws(a: string, b: string, c: string)
    ensures StringLe(a, b) || StringLe(b, a)
    ensures StringLe(a, b) && StringLe(b, a) ==> a == b
    ensures StringLe(a, b) && StringLe(b, c) ==> StringLe(a, c)
  {
    StringsAreTotal();
  }

  lemma PairIsTotal<A(!new), B(!new)>(leA: (A, A) -> bool, leB: (B, B) -> bool, pair: ((A, B), (A, B)) -> bool)
    requires TotalOrder(leA) && TotalOrder(leB) && forall p, q :: pair(p, q) == PairLe(leA, leB, p, q)
    ensures TotalOrder(pair)
  {
    forall p, q, r | pair(p, q) && pair(q, r) ensures pair(p, r) {
      if p.0 != q.0 && q.0 != r.0 {
        assert leA(p.0, r.0);
      }
    }
  }

  // ---- sorting --------------------------------------------------------------------------------

  ghost predicate Sorted<T>(le: (T, T) -> bool, s: seq<T>) {
    forall i, j :: 0 <= i < j < |s| ==> le(s[i], s[j])
  }

  /** Behind every element that is not greater: the sort is stable. */
  function Insert<T>(le: (T, T) -> bool, sorted: seq<T>, x: T): (r: seq<T>)
    ensures multiset(r) == multiset(sorted) + multiset{x}
  {
    if sorted == [] then [x]
    else
      var n := |sorted| - 1;
      assert sorted == sorted[..n] + [sorted[n]];
      if le(sorted[n], x) then sorted + [x] else Insert(le, sorted[..n], x) + [sorted[n]]
  }

  function Sort<T>(le: (T, T) -> bool, s: seq<T>): (r: seq<T>)
    ensures multiset(r) == multiset(s)
  {
    if s == [] then []
    else
      var n := |s| - 1;
      assert s == s[..n] + [s[n]];
      Insert(le, Sort(le, s[..n]), s[n])
  }

  /** What sorting needs: any two compare, and comparisons chain. */
  ghost predicate Preorder<T(!new)>(le: (T, T) -> bool) {
    && (forall a, b :: le(a, b) || le(b, a))
    && (forall a, b, c :: le(a, b) && le(b, c) ==> le(a, c))
  }

  lemma {:induction false} InsertSorts<T(!new)>(le: (T, T) -> bool, sorted: seq<T>, x: T)
    requires Preorder(le) && Sorted(le, sorted)
    ensures Sorted(le, Insert(le, sorted, x))
  {
    if sorted != [] {
      var n := |sorted| - 1;
      if !le(sorted[n], x) {
        InsertSorts(le, sorted[..n], x);
        var front := Insert(le, sorted[..n], x);
        forall i | 0 <= i < |front| ensures le(front[i], sorted[n]) {
          assert front[i] in multiset(front);
          assert front[i] in sorted[..n] || front[i] == x;
        }
      }
    }
  }

  lemma {:induction false} SortSorts<T(!new)>(le: (T, T) -> bool, s: seq<T>)
    requires Preorder(le)
    ensures Sorted(le, Sort(le, s))
  {
    if s != [] {
      var n := |s| - 1;
      SortSorts(le, s[..n]);
      InsertSorts(le, Sort(le, s[..n]), s[n]);
    }
  }

  /** There is one sorted arrangement of a collection. */
  lemma {:induction false} SortedIsUnique<T(!new)>(le: (T, T) -> bool, a: seq<T>, b: seq<T>)
    requires TotalOrder(le) && Sorted(le, a) && Sorted(le, b) && multiset(a) == multiset(b)
    ensures a == b
    decreases |a|
  {
    SameLength(a, b);
    if a != [] {
      var n := |a| - 1;
      assert a[n] in multiset(a) && b[n] in multiset(b);
      LastIsGreatest(le, a, b[n]);
      LastIsGreatest(le, b, a[n]);
      WithoutLast(a, b);
      SortedIsUnique(le, a[..n], b[..n]);
      assert a == a[..n] + [a[n]] && b == b[..n] + [b[n]];
    }
  }

  lemma LastIsGreatest<T(!new)>(le: (T, T) -> bool, s: seq<T>, x: T)
    requires Sorted(le, s) && (forall a, b :: le(a, b) || le(b, a)) && x in multiset(s)
    ensures s != [] && le(x, s[|s| - 1])
  {
    var i :| 0 <= i < |s| && s[i] == x;
  }

  lemma WithoutLast<T>(a: seq<T>, b: seq<T>)
    requires a != [] && |a| == |b| && multiset(a) == multiset(b) && a[|a| - 1] == b[|b| - 1]
    ensures multiset(a[..|a| - 1]) == multiset(b[..|b| - 1])
  {
    var n := |a| - 1;
    assert a == a[..n] + [a[n]] && b == b[..n] + [b[n]];
    assert multiset(a[..n]) == multiset(a) - multiset{a[n]};
    assert multiset(b[..n]) == multiset(b) - multiset{b[n]};
  }

  lemma SameLength<T>(a: seq<T>, b: seq<T>)
    requires multiset(a) == multiset(b)
    ensures |a| == |b|
  {
    assert |multiset(a)| == |a| && |multiset(b)| == |b|;
  }


  // ---- permutations ----------------------------------------------------------------------------

  function Mapped<T, K>(f: T -> K, s: seq<T>): (r: seq<K>)
    ensures |r| == |s| && forall i :: 0 <= i < |s| ==> r[i] == f(s[i])
  {
    seq(|s|, i requires 0 <= i < |s| => f(s[i]))
  }

  function RemoveAt<T>(s: seq<T>, j: nat): seq<T>
    requires j < |s|
  {
    s[..j] + s[j + 1..]
  }

  lemma Without<T>(s: seq<T>, j: nat)
    requires j < |s|
    ensures multiset(s) == multiset(RemoveAt(s, j)) + multiset{s[j]}
  {
    assert s == s[..j] + [s[j]] + s[j + 1..];
  }

  lemma SameWithout<T>(a: seq<T>, b: seq<T>, j: nat)
    requires a != [] && j < |b| && b[j] == a[0] && multiset(a) == multiset(b)
    ensures multiset(RemoveAt(a, 0)) == multiset(RemoveAt(b, j))
  {
    Without(a, 0);
    Without(b, j);
    assert multiset(RemoveAt(a, 0)) == multiset(a) - multiset{a[0]};
    assert multiset(RemoveAt(b, j)) == multiset(b) - multiset{a[0]};
  }

  lemma MappedWithout<T, K>(f: T -> K, s: seq<T>, j: nat)
    requires j < |s|
    ensures multiset(Mapped(f, s)) == multiset(Mapped(f, RemoveAt(s, j))) + multiset{f(s[j])}
  {
    Without(Mapped(f, s), j);
    assert RemoveAt(Mapped(f, s), j) == Mapped(f, RemoveAt(s, j));
  }

  lemma {:induction false} MapOfPermutation<T, K>(f: T -> K, a: seq<T>, b: seq<T>)
    requires multiset(a) == multiset(b)
    ensures multiset(Mapped(f, a)) == multiset(Mapped(f, b))
    decreases |a|
  {
    SameLength(a, b);
    if a != [] {
      assert a[0] in multiset(b);
      var j :| 0 <= j < |b| && b[j] == a[0];
      SameWithout(a, b, j);
      MapOfPermutation(f, RemoveAt(a, 0), RemoveAt(b, j));
      MappedWithout(f, a, 0);
      MappedWithout(f, b, j);
    }
  }
}
