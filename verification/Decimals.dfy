/** Decimal text: zero-padded printing, strict parsing, splitting, and lexical order. */
module Decimals {
  import opened Records

  function Digit(n: nat): char
    requires n < 10
  {
    ('0' as int + n) as char
  }

  predicate IsDigit(c: char) {
    '0' <= c <= '9'
  }

  function Decimal(n: nat): (s: string)
    ensures |s| >= 1
  {
    if n < 10 then [Digit(n)] else Decimal(n / 10) + [Digit(n % 10)]
  }

  function Zeros(k: nat): string {
    seq(k, _ => '0')
  }

  /** Zero-padded to at least `w` digits. */
  function Padded(n: nat, w: nat): string {
    var s := Decimal(n);
    if |s| >= w then s else Zeros(w - |s|) + s
  }

  predicate AllDigits(s: string) {
    forall c :: c in s ==> IsDigit(c)
  }

  function Value(s: string): nat
    requires AllDigits(s)
  {
    if s == "" then 0
    else
      assert IsDigit(s[|s| - 1]) by { assert s[|s| - 1] in s; }
      Value(s[..|s| - 1]) * 10 + (s[|s| - 1] as int - '0' as int)
  }

  /** An unsigned integer, as the standard parser reads it: at least one digit, a plus sign allowed. */
  function ParseUnsigned(s: string, bound: nat): Option<nat> {
    var digits := if s != "" && s[0] == '+' then s[1..] else s;
    if digits == "" || !AllDigits(digits) || Value(digits) > bound then None else Some(Value(digits))
  }

  /** A signed integer: a minus sign is allowed too. */
  function ParseSigned(s: string, bound: nat): Option<int> {
    if s != "" && s[0] == '-' then
      if s[1..] == "" || !AllDigits(s[1..]) || Value(s[1..]) > bound + 1 then None
      else
        var n: int := 0 - Value(s[1..]);
        Some(n)
    else
      var n := ParseUnsigned(s, bound);
      if n.None? then None else Some(n.value)
  }

  function SplitOnce(s: string, c: char): Option<(string, string)> {
    if s == "" then None
    else if s[0] == c then Some(("", s[1..]))
    else
      var rest := SplitOnce(s[1..], c);
      if rest.None? then None else Some(([s[0]] + rest.value.0, rest.value.1))
  }

  lemma {:induction false} SplitAtFirst(a: string, c: char, b: string)
    requires c !in a
    ensures SplitOnce(a + [c] + b, c) == Some((a, b))
  {
    if a == "" {
      assert a + [c] + b == [c] + b;
    } else {
      SplitAtFirst(a[1..], c, b);
      assert (a + [c] + b)[1..] == a[1..] + [c] + b;
      assert (a + [c] + b)[0] == a[0] && a[0] in a;
      assert [a[0]] + a[1..] == a;
    }
  }

  lemma {:induction false} DecimalValue(n: nat)
    ensures AllDigits(Decimal(n)) && Value(Decimal(n)) == n
  {
    if n >= 10 {
      DecimalValue(n / 10);
      var s := Decimal(n);
      assert s[..|s| - 1] == Decimal(n / 10);
    } else {
      assert [Digit(n)][..0] == "";
    }
  }

  lemma {:induction false} ZerosValue(k: nat, s: string)
    requires AllDigits(s)
    ensures AllDigits(Zeros(k) + s) && Value(Zeros(k) + s) == Value(s)
    decreases k + |s|
  {
    var all := Zeros(k) + s;
    if s != "" {
      ZerosValue(k, s[..|s| - 1]);
      assert all[..|all| - 1] == Zeros(k) + s[..|s| - 1];
    } else if k > 0 {
      ZerosValue(k - 1, "");
      assert all[..|all| - 1] == Zeros(k - 1) + "";
    }
  }

  lemma DigitsParse(s: string, bound: nat)
    requires s != "" && AllDigits(s) && Value(s) <= bound
    ensures ParseUnsigned(s, bound) == Some(Value(s)) && ParseSigned(s, bound) == Some(Value(s))
  {
    assert s[0] in s;
  }

  /** A plus sign changes nothing, and a minus sign negates, down to the least signed value. */
  lemma SignsAreRead(s: string, bound: nat)
    requires s != "" && AllDigits(s)
    ensures ParseUnsigned(['+'] + s, bound) == ParseUnsigned(s, bound)
    ensures ParseUnsigned(s, bound) == if Value(s) <= bound then Some(Value(s)) else None
    ensures ParseUnsigned(['-'] + s, bound).None?
    ensures ParseSigned(['+'] + s, bound) == ParseSigned(s, bound)
    ensures ParseSigned(s, bound) == if Value(s) <= bound then Some(Value(s)) else None
    ensures var minus: int := 0 - Value(s);
            ParseSigned(['-'] + s, bound) == if Value(s) <= bound + 1 then Some(minus) else None
  {
    assert s[0] in s;
    assert (['+'] + s)[1..] == s && (['-'] + s)[1..] == s;
    assert '-' in ['-'] + s;
  }

  /** Parsing undoes printing, whatever the padding. */
  lemma PaddedParses(n: nat, w: nat, bound: nat)
    requires n <= bound
    ensures AllDigits(Padded(n, w)) && ParseUnsigned(Padded(n, w), bound) == Some(n)
    ensures ParseSigned(Padded(n, w), bound) == Some(n)
  {
    DecimalValue(n);
    ZerosValue(if |Decimal(n)| >= w then 0 else w - |Decimal(n)|, Decimal(n));
    assert Zeros(0) + Decimal(n) == Decimal(n);
    DigitsParse(Padded(n, w), bound);
  }

  function Pow10(w: nat): nat {
    if w == 0 then 1 else 10 * Pow10(w - 1)
  }

  lemma {:induction false} DecimalFits(n: nat, w: nat)
    requires w >= 1
    ensures |Decimal(n)| <= w <==> n < Pow10(w)
  {
    if w == 1 {
      assert Pow10(1) == 10;
    } else if n >= 10 {
      DecimalFits(n / 10, w - 1);
    } else {
      PowGrows(w);
    }
  }

  lemma {:induction false} PowGrows(w: nat)
    requires w >= 1
    ensures Pow10(w) >= 10
  {
    if w > 1 {
      PowGrows(w - 1);
    }
  }

  /** A number that fits its width prints as its leading part and its last digit. */
  lemma PaddedStep(n: nat, w: nat)
    requires w >= 2 && n < Pow10(w)
    ensures Padded(n, w) == Padded(n / 10, w - 1) + [Digit(n % 10)]
    ensures n / 10 < Pow10(w - 1)
  {
    DecimalFits(n, w);
    if n < 10 {
      assert Zeros(w - 1) == Zeros(w - 2) + "0";
    }
  }

  lemma {:induction false} PaddedWidth(n: nat, w: nat)
    requires w >= 1 && n < Pow10(w)
    ensures |Padded(n, w)| == w
  {
    DecimalFits(n, w);
  }

  // ---- lexical order ---------------------------------------------------------------------------

  predicate LexLess(a: string, b: string) {
    if b == "" then false
    else if a == "" then true
    else a[0] < b[0] || (a[0] == b[0] && LexLess(a[1..], b[1..]))
  }

  lemma {:induction false} LexOfConcat(a: string, b: string, x: string, y: string)
    requires |a| == |b|
    ensures LexLess(a + x, b + y) <==> LexLess(a, b) || (a == b && LexLess(x, y))
  {
    if a == "" {
      assert a + x == x && b + y == y;
    } else {
      LexOfConcat(a[1..], b[1..], x, y);
      assert (a + x)[1..] == a[1..] + x && (b + y)[1..] == b[1..] + y;
      assert a == b <==> a[0] == b[0] && a[1..] == b[1..];
    }
  }

  /** Numbers of one width have the order of their texts. */
  lemma {:induction false} LexOfPadded(m: nat, n: nat, w: nat)
    requires w >= 1 && m < Pow10(w) && n < Pow10(w)
    ensures LexLess(Padded(m, w), Padded(n, w)) <==> m < n
    ensures Padded(m, w) == Padded(n, w) <==> m == n
  {
    if w == 1 {
      assert Pow10(1) == 10;
    } else {
      PaddedStep(m, w);
      PaddedStep(n, w);
      LexOfPadded(m / 10, n / 10, w - 1);
      PaddedWidth(m / 10, w - 1);
      PaddedWidth(n / 10, w - 1);
      LexOfConcat(Padded(m / 10, w - 1), Padded(n / 10, w - 1), [Digit(m % 10)], [Digit(n % 10)]);
      var x, y := [Digit(m % 10)], [Digit(n % 10)];
      assert LexLess(x, y) <==> m % 10 < n % 10;
      SameLast(Padded(m / 10, w - 1), Padded(n / 10, w - 1), Digit(m % 10), Digit(n % 10));
    }
  }

  lemma SameLast(a: string, b: string, c: char, d: char)
    requires |a| == |b|
    ensures a + [c] == b + [d] <==> a == b && c == d
  {
    if a + [c] == b + [d] {
      assert (a + [c])[..|a|] == a && (b + [d])[..|b|] == b;
      assert (a + [c])[|a|] == c && (b + [d])[|b|] == d;
    }
  }
}
