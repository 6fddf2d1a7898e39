/** The binary search over probe points, with holes: points that cannot be answered. */
module BisectSearch {
  import opened Records

  datatype Answer = Good | Bad | Flaky | Blocked | Failed

  /** `FirstBad(at)` blames one index; `Ambiguous(lo, hi)` leaves the indices of `(lo, hi]`; `Aborted`
      is a probe that could not be run at all. */
  datatype Found = FirstBad(at: int) | Ambiguous(lo: int, hi: int) | Aborted(at: int)

  datatype Outcome = Outcome(found: Found, tried: seq<int>)

  // ---- picking a candidate -----------------------------------------------------------

  function Abs(x: int): int {
    if x < 0 then -x else x
  }

  function Midpoint(lo: int, hi: int): int {
    lo + 1 + (hi - 1 - (lo + 1)) / 2
  }

  predicate Candidate(c: int, lo: int, hi: int, tried: seq<int>) {
    lo < c < hi && c !in tried
  }

  /** Outwards from the midpoint, the upper neighbour first. */
  function PickFrom(lo: int, hi: int, tried: seq<int>, d: nat): (r: Option<int>)
    requires lo + 1 < hi
    requires forall c :: Candidate(c, lo, hi, tried) ==> Abs(c - Midpoint(lo, hi)) >= d
    ensures r.None? <==> forall c :: lo < c < hi ==> c in tried
    ensures r.Some? ==> Candidate(r.value, lo, hi, tried)
    ensures r.Some? ==> forall c :: Candidate(c, lo, hi, tried) ==>
              Abs(r.value - Midpoint(lo, hi)) <= Abs(c - Midpoint(lo, hi))
    ensures r.Some? ==> forall c :: Candidate(c, lo, hi, tried) && Abs(r.value - Midpoint(lo, hi)) == Abs(c - Midpoint(lo, hi)) ==>
              c <= r.value
    decreases hi - lo - d
  {
    var mid := Midpoint(lo, hi);
    if d > hi - lo - 2 then
      assert forall c :: Candidate(c, lo, hi, tried) ==> Abs(c - mid) < hi - lo - 1;
      assert forall c :: lo < c < hi && c !in tried ==> Candidate(c, lo, hi, tried);
      None
    else if Candidate(mid + d, lo, hi, tried) then Some(mid + d)
    else if Candidate(mid - d, lo, hi, tried) then Some(mid - d)
    else
      assert forall c :: Candidate(c, lo, hi, tried) && Abs(c - mid) == d ==> c == mid + d || c == mid - d;
      PickFrom(lo, hi, tried, d + 1)
  }

  /** `pick_candidate`: the untried point closest to the midpoint, if there is any. */
  function Pick(lo: int, hi: int, tried: seq<int>): (r: Option<int>)
    requires lo + 1 < hi
    ensures r.None? <==> forall c :: lo < c < hi ==> c in tried
    ensures r.Some? ==> Candidate(r.value, lo, hi, tried)
    ensures r.Some? ==> forall c :: Candidate(c, lo, hi, tried) ==>
              Abs(r.value - Midpoint(lo, hi)) <= Abs(c - Midpoint(lo, hi))
  {
    PickFrom(lo, hi, tried, 0)
  }

  // ---- the search ------------------------------------------------------------------------

  ghost function Untried(lo: int, hi: int, tried: seq<int>): set<int> {
    set c | lo < c < hi && c !in tried
  }

  /** Narrow `(lo, hi)`: `lo` is good and `hi` is bad, by an answer or on trust. */
  function Search(ask: int -> Answer, lo: int, hi: int, tried: seq<int>): Outcome
    requires lo < hi
    decreases Untried(lo, hi, tried)
  {
    if hi - lo <= 1 then Outcome(FirstBad(hi), tried)
    else
      match Pick(lo, hi, tried)
      case None => Outcome(Ambiguous(lo, hi), tried)
      case Some(mid) =>
        assert mid in Untried(lo, hi, tried);
        match ask(mid)
        case Good => Search(ask, mid, hi, tried + [mid])
        case Bad => Search(ask, lo, mid, tried + [mid])
        case Failed => Outcome(Aborted(mid), tried + [mid])
        case _ => Search(ask, lo, hi, tried + [mid])
  }

  predicate Unanswered(a: Answer) {
    a == Flaky || a == Blocked
  }

  /** From the trusted `(lo0, hi0)`, answers justify `(lo, hi)`. */
  predicate Narrowed(ask: int -> Answer, lo0: int, hi0: int, lo: int, hi: int) {
    && lo0 <= lo < hi <= hi0
    && (lo == lo0 || ask(lo) == Good)
    && (hi == hi0 || ask(hi) == Bad)
  }

  ghost predicate AllUnanswered(ask: int -> Answer, lo: int, hi: int) {
    forall c :: lo < c < hi ==> Unanswered(ask(c))
  }

  /** What the search has tried so far: distinct points inside the trusted span, and those still inside
      the current one gave no answer. */
  ghost predicate TriedOk(ask: int -> Answer, lo0: int, hi0: int, lo: int, hi: int, tried: seq<int>) {
    && Distinct(tried)
    && (forall c :: c in tried ==> lo0 < c < hi0)
    && (forall c :: c in tried && lo < c < hi ==> Unanswered(ask(c)))
  }

  lemma TriedOne(ask: int -> Answer, lo0: int, hi0: int, lo: int, hi: int, tried: seq<int>, mid: int)
    requires TriedOk(ask, lo0, hi0, lo, hi, tried) && lo0 <= lo < mid < hi <= hi0 && mid !in tried
    ensures ask(mid) == Good ==> TriedOk(ask, lo0, hi0, mid, hi, tried + [mid])
    ensures ask(mid) == Bad ==> TriedOk(ask, lo0, hi0, lo, mid, tried + [mid])
    ensures Unanswered(ask(mid)) ==> TriedOk(ask, lo0, hi0, lo, hi, tried + [mid])
    ensures Distinct(tried + [mid])
  {}

  /** The verdict is justified: a blamed index sits right after a good (or trusted) one and is itself bad
      (or trusted); an ambiguous span has nothing but unanswerable points inside, all of them tried. */
  ghost predicate Justified(ask: int -> Answer, lo0: int, hi0: int, r: Outcome) {
    && Distinct(r.tried) && (forall c :: c in r.tried ==> lo0 < c < hi0)
    && match r.found
       case FirstBad(at) => Narrowed(ask, lo0, hi0, at - 1, at)
       case Ambiguous(lo, hi) =>
         && Narrowed(ask, lo0, hi0, lo, hi) && hi - lo > 1 && AllUnanswered(ask, lo, hi)
         && forall c :: lo < c < hi ==> c in r.tried
       case Aborted(at) => ask(at) == Failed && lo0 < at < hi0
  }

  lemma {:induction false} SearchIsJustified(ask: int -> Answer, lo0: int, hi0: int, lo: int, hi: int, tried: seq<int>)
    requires Narrowed(ask, lo0, hi0, lo, hi) && TriedOk(ask, lo0, hi0, lo, hi, tried)
    ensures Justified(ask, lo0, hi0, Search(ask, lo, hi, tried))
    decreases Untried(lo, hi, tried)
  {
    if hi - lo > 1 {
      match Pick(lo, hi, tried)
      case None =>
        assert forall c :: lo < c < hi ==> c in tried;
      case Some(mid) =>
        assert mid in Untried(lo, hi, tried);
        TriedOne(ask, lo0, hi0, lo, hi, tried, mid);
        match ask(mid)
        case Good => SearchIsJustified(ask, lo0, hi0, mid, hi, tried + [mid]);
        case Bad => SearchIsJustified(ask, lo0, hi0, lo, mid, tried + [mid]);
        case Failed =>
        case _ => SearchIsJustified(ask, lo0, hi0, lo, hi, tried + [mid]);
    }
  }

  /** The search ends with a justified verdict, having tried each point at most once. */
  lemma VerdictIsJustified(ask: int -> Answer, lo: int, hi: int)
    requires lo < hi
    ensures Justified(ask, lo, hi, Search(ask, lo, hi, []))
  {
    SearchIsJustified(ask, lo, hi, lo, hi, []);
  }

  lemma {:induction false} DistinctFits(s: seq<int>, lo: int, hi: int)
    requires Distinct(s) && lo <= hi && forall c :: c in s ==> lo <= c < hi
    ensures |s| <= hi - lo
    decreases hi - lo
  {
    if s != [] {
      assert s[0] in s;
      if hi - 1 in s {
        var i :| 0 <= i < |s| && s[i] == hi - 1;
        var rest := s[..i] + s[i + 1..];
        forall j | 0 <= j < |rest| ensures lo <= rest[j] < hi - 1 {
          var k := if j < i then j else j + 1;
          assert rest[j] == s[k] && s[k] in s && s[k] != s[i];
        }
        DistinctFits(rest, lo, hi - 1);
      } else {
        DistinctFits(s, lo, hi - 1);
      }
    }
  }

  /** However many holes there are, the number of probes is bounded by the number of points. */
  lemma TriesAreBounded(ask: int -> Answer, lo: int, hi: int)
    requires lo < hi
    ensures |Search(ask, lo, hi, []).tried| <= hi - lo - 1
  {
    VerdictIsJustified(ask, lo, hi);
    DistinctFits(Search(ask, lo, hi, []).tried, lo + 1, hi);
  }

  // ---- the number of probes without holes ---------------------------------------------------

  /** The least `k` with `n <= 2^k`. */
  function CeilLog2(n: nat): nat {
    if n <= 1 then 0 else 1 + CeilLog2((n + 1) / 2)
  }

  function Pow2(k: nat): nat {
    if k == 0 then 1 else 2 * Pow2(k - 1)
  }

  lemma {:induction false} CeilLog2Is(n: nat)
    ensures n <= Pow2(CeilLog2(n))
    ensures n > 1 ==> Pow2(CeilLog2(n) - 1) < n
  {
    if n > 1 {
      CeilLog2Is((n + 1) / 2);
      if n > 2 {
        assert Pow2(CeilLog2(n) - 1) == 2 * Pow2(CeilLog2((n + 1) / 2) - 1);
      }
    }
  }

  lemma {:induction false} CeilLog2Grows(m: nat, n: nat)
    requires m <= n
    ensures CeilLog2(m) <= CeilLog2(n)
  {
    if m > 1 {
      CeilLog2Grows((m + 1) / 2, (n + 1) / 2);
    }
  }

  lemma {:induction false} SearchHalves(ask: int -> Answer, lo: int, hi: int, tried: seq<int>)
    requires lo < hi && (forall c :: lo < c < hi ==> ask(c) in {Good, Bad} && c !in tried)
    ensures |Search(ask, lo, hi, tried).tried| <= |tried| + CeilLog2(hi - lo)
    ensures Search(ask, lo, hi, tried).found.FirstBad?
    decreases Untried(lo, hi, tried)
  {
    if hi - lo > 1 {
      var mid := Midpoint(lo, hi);
      assert Candidate(mid, lo, hi, tried);
      assert Pick(lo, hi, tried) == Some(mid);
      assert mid in Untried(lo, hi, tried);
      CeilLog2Grows(if ask(mid) == Good then hi - mid else mid - lo, (hi - lo + 1) / 2);
      if ask(mid) == Good {
        SearchHalves(ask, mid, hi, tried + [mid]);
      } else {
        SearchHalves(ask, lo, mid, tried + [mid]);
      }
    }
  }

  /** With every point answerable, at most `ceil(log2(hi - lo))` probes and always a single culprit. */
  lemma SearchIsLogarithmic(ask: int -> Answer, lo: int, hi: int)
    requires lo < hi && forall c :: lo < c < hi ==> ask(c) in {Good, Bad}
    ensures |Search(ask, lo, hi, []).tried| <= CeilLog2(hi - lo)
    ensures Search(ask, lo, hi, []).found.FirstBad?
  {
    SearchHalves(ask, lo, hi, []);
  }

  // ---- one culprit ---------------------------------------------------------------------------

  /** Every answer before `culprit` is good and every answer from it on is bad; points may be holes. */
  ghost predicate Breaks(ask: int -> Answer, lo: int, hi: int, culprit: int) {
    && lo < culprit <= hi
    && (forall c :: lo < c < culprit ==> ask(c) == Good || Unanswered(ask(c)))
    && (forall c :: culprit <= c < hi ==> ask(c) == Bad || Unanswered(ask(c)))
  }

  /** The search names the culprit exactly when both sides of the break are known: the point before it is
      good (or the trusted good end), and it is itself bad (or the trusted bad end). Otherwise it reports
      a span, and the culprit is in it. */
  lemma CulpritFound(ask: int -> Answer, lo: int, hi: int, culprit: int)
    requires Breaks(ask, lo, hi, culprit)
    ensures var r := Search(ask, lo, hi, []);
            && (r.found == FirstBad(culprit) <==>
                  (culprit - 1 == lo || ask(culprit - 1) == Good) && (culprit == hi || ask(culprit) == Bad))
            && (r.found != FirstBad(culprit) ==>
                  r.found.Ambiguous? && r.found.lo < culprit <= r.found.hi)
  {
    VerdictIsJustified(ask, lo, hi);
    var r := Search(ask, lo, hi, []);
    match r.found
    case FirstBad(at) =>
      if at - 1 != lo {
        assert ask(at - 1) == Good;
      }
      assert at == culprit;
    case Ambiguous(l, h) =>
      assert l < culprit <= h;
      assert AllUnanswered(ask, l, h);
    case Aborted(at) =>
  }

  /** A verdict other than a span is never wrong. */
  lemma BlameIsNeverWrong(ask: int -> Answer, lo: int, hi: int, culprit: int)
    requires Breaks(ask, lo, hi, culprit) && Search(ask, lo, hi, []).found.FirstBad?
    ensures Search(ask, lo, hi, []).found.at == culprit
  {
    CulpritFound(ask, lo, hi, culprit);
  }
}
