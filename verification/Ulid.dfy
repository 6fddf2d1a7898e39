/** Turn ids: 48 bits of time and 80 bits of entropy in 26 characters that sort like the pair they encode. */
module Ulid {
  import opened Records
  import opened Decimals

  const CROCKFORD: string := "0123456789ABCDEFGHJKMNPQRSTVWXYZ"

  const TIME_BITS: nat := 0x1_0000_0000_0000

  function Symbol(d: nat): char
    requires d < 32
  {
    CROCKFORD[d]
  }

  function Pow32(k: nat): nat {
    if k == 0 then 1 else 32 * Pow32(k - 1)
  }

  /** The `k` lowest base-32 digits, most significant first. */
  function Encode(n: nat, k: nat): (s: string)
    ensures |s| == k
  {
    if k == 0 then "" else Encode(n / 32, k - 1) + [Symbol(n % 32)]
  }

  /** The bytes as one number, the first byte most significant. */
  function Accumulate(rand: seq<byte>): nat {
    if rand == [] then 0 else Accumulate(rand[..|rand| - 1]) * 256 + rand[|rand| - 1] as int
  }

  function UlidText(ms: nat, rand: seq<byte>): string {
    Encode(ms % TIME_BITS, 10) + Encode(Accumulate(rand), 16)
  }

  lemma {:induction false} Pow32Positive(k: nat)
    ensures Pow32(k) > 0
  {
    if k > 0 {
      Pow32Positive(k - 1);
    }
  }

  /** A right shift by five bits at a time, masked to five bits, picks one digit. */
  function ShiftedDigit(n: nat, digits: nat): nat
    requires Pow32(digits) > 0
  {
    n / Pow32(digits) % 32
  }

  lemma {:induction false} DivTwice(n: nat, k: nat)
    ensures Pow32(k) > 0 && n / 32 / Pow32(k) == n / Pow32(k + 1)
  {
    Pow32Positive(k);
    var p := Pow32(k);
    var q, r := n / 32, n % 32;
    var a, b := q / p, q % p;
    assert n == 32 * p * a + (32 * b + r) by {
      assert q == p * a + b;
    }
    assert 0 <= 32 * b + r < 32 * p;
    DivUnique(n, 32 * p, a, 32 * b + r);
  }

  lemma MultiplesApart(d: nat, x: nat, q: nat)
    ensures x < q ==> d * x + d <= d * q
  {
    if x < q {
      assert d * (x + 1) <= d * q;
    }
  }

  lemma DivUnique(n: nat, d: nat, q: nat, r: nat)
    requires d > 0 && n == d * q + r && r < d
    ensures n / d == q
  {
    assert n == d * (n / d) + n % d;
    MultiplesApart(d, n / d, q);
    MultiplesApart(d, q, n / d);
  }

  /** Shifting from the top finds the digits of the encoding. */
  lemma {:induction false} DigitByShift(n: nat, k: nat, i: nat)
    requires i < k
    ensures Pow32(k - 1 - i) > 0 && Encode(n, k)[i] == Symbol(ShiftedDigit(n, k - 1 - i))
  {
    Pow32Positive(k - 1 - i);
    if i < k - 1 {
      DigitByShift(n / 32, k - 1, i);
      DivTwice(n, k - 2 - i);
    } else {
      assert Pow32(0) == 1;
    }
  }

  /** `ulid_with`: fill 26 slots by shifting, first the time, then the entropy. */
  method UlidWith(ms: nat, rand: seq<byte>) returns (text: string)
    requires |rand| == 10
    ensures text == UlidText(ms, rand)
  {
    var out := new char[26];
    var ts := ms % TIME_BITS;
    for i := 0 to 10
      invariant forall j :: 0 <= j < i ==> out[j] == Encode(ts, 10)[j]
    {
      DigitByShift(ts, 10, i);
      out[i] := Symbol(ShiftedDigit(ts, 9 - i));
    }
    var acc := 0;
    for i := 0 to 10
      invariant acc == Accumulate(rand[..i])
    {
      assert rand[..i + 1][..i] == rand[..i];
      acc := acc * 256 + rand[i] as int;
    }
    assert rand[..10] == rand;
    for i := 0 to 16
      invariant forall j :: 0 <= j < 10 ==> out[j] == Encode(ts, 10)[j]
      invariant forall j :: 0 <= j < i ==> out[10 + j] == Encode(acc, 16)[j]
    {
      DigitByShift(acc, 16, i);
      out[10 + i] := Symbol(ShiftedDigit(acc, 15 - i));
    }
    text := out[..];
    assert text == Encode(ts, 10) + Encode(acc, 16) by {
      forall j | 0 <= j < 26 ensures text[j] == (Encode(ts, 10) + Encode(acc, 16))[j] {
        if j >= 10 {
          assert out[10 + (j - 10)] == Encode(acc, 16)[j - 10];
        }
      }
    }
  }

  // ---- order -------------------------------------------------------------------------------------

  lemma {:induction false} SymbolsRise(d: nat, e: nat)
    requires d < e < 32
    ensures Symbol(d) < Symbol(e)
    decreases e - d
  {
    if e == d + 1 {
      NextSymbol(d);
    } else {
      NextSymbol(d);
      SymbolsRise(d + 1, e);
    }
  }

  lemma NextSymbol(d: nat)
    requires d < 31
    ensures Symbol(d) < Symbol(d + 1)
  {}

  /** The symbols are the ten digits and then capital letters, without those easily misread: as they rise,
      there is no other choice. */
  lemma SymbolsAreReadable(d: nat)
    requires d < 32
    ensures IsDigit(Symbol(d)) <==> d < 10
    ensures d >= 10 ==> 'A' <= Symbol(d) <= 'Z' && Symbol(d) !in "ILOU"
  {
    assert "ILOU" == ['I', 'L', 'O', 'U'];
  }

  /** Encodings of one length have the order of the numbers, and lose nothing that fits. */
  lemma {:induction false} EncodeOrder(m: nat, n: nat, k: nat)
    requires m < Pow32(k) && n < Pow32(k)
    ensures LexLess(Encode(m, k), Encode(n, k)) <==> m < n
    ensures Encode(m, k) == Encode(n, k) <==> m == n
  {
    if k > 0 {
      EncodeOrder(m / 32, n / 32, k - 1);
      LexOfConcat(Encode(m / 32, k - 1), Encode(n / 32, k - 1), [Symbol(m % 32)], [Symbol(n % 32)]);
      SymbolOrder(m % 32, n % 32);
      SameLast(Encode(m / 32, k - 1), Encode(n / 32, k - 1), Symbol(m % 32), Symbol(n % 32));
    }
  }

  lemma SymbolOrder(d: nat, e: nat)
    requires d < 32 && e < 32
    ensures LexLess([Symbol(d)], [Symbol(e)]) <==> d < e
    ensures Symbol(d) == Symbol(e) <==> d == e
  {
    if d < e {
      SymbolsRise(d, e);
    } else if e < d {
      SymbolsRise(e, d);
    }
  }

  function Pow256(k: nat): nat {
    if k == 0 then 1 else 256 * Pow256(k - 1)
  }

  lemma {:induction false} AccumulateFits(rand: seq<byte>)
    ensures Accumulate(rand) < Pow256(|rand|)
  {
    if rand != [] {
      AccumulateFits(rand[..|rand| - 1]);
    }
  }

  lemma {:induction false} AccumulateLosesNothing(a: seq<byte>, b: seq<byte>)
    requires |a| == |b| && Accumulate(a) == Accumulate(b)
    ensures a == b
  {
    if a != [] {
      var n := |a| - 1;
      AccumulateLosesNothing(a[..n], b[..n]);
      assert a == a[..n] + [a[n]] && b == b[..n] + [b[n]];
    }
  }

  lemma Sizes()
    ensures Pow256(10) == Pow32(16) && TIME_BITS <= Pow32(10)
  {
    assert Pow256(2) == 65_536 && Pow256(4) == 4_294_967_296;
    assert Pow256(6) == 281_474_976_710_656;
    assert Pow256(8) == 18_446_744_073_709_551_616;
    assert Pow256(10) == 1_208_925_819_614_629_174_706_176;
    assert Pow32(2) == 1024 && Pow32(4) == 1_048_576;
    assert Pow32(6) == 1_073_741_824;
    assert Pow32(8) == 1_099_511_627_776;
    assert Pow32(10) == 1_125_899_906_842_624;
    assert Pow32(12) == 1_152_921_504_606_846_976;
    assert Pow32(14) == 1_180_591_620_717_411_303_424;
    assert Pow32(16) == 1_208_925_819_614_629_174_706_176;
  }

  /** The order of two ids is the order of the pairs (48-bit time, 80-bit entropy), and two ids are equal
      only when both are: no bit is lost. */
  lemma UlidOrder(ms: nat, rand: seq<byte>, other: nat, salt: seq<byte>)
    requires |rand| == 10 && |salt| == 10
    ensures LexLess(UlidText(ms, rand), UlidText(other, salt)) <==>
              || ms % TIME_BITS < other % TIME_BITS
              || (ms % TIME_BITS == other % TIME_BITS && Accumulate(rand) < Accumulate(salt))
    ensures UlidText(ms, rand) == UlidText(other, salt) <==> ms % TIME_BITS == other % TIME_BITS && rand == salt
  {
    var a, b := Encode(ms % TIME_BITS, 10), Encode(other % TIME_BITS, 10);
    var x, y := Encode(Accumulate(rand), 16), Encode(Accumulate(salt), 16);
    Sizes();
    AccumulateFits(rand);
    AccumulateFits(salt);
    EncodeOrder(ms % TIME_BITS, other % TIME_BITS, 10);
    EncodeOrder(Accumulate(rand), Accumulate(salt), 16);
    LexOfConcat(a, b, x, y);
    if a + x == b + y {
      assert (a + x)[..10] == a && (b + y)[..10] == b;
      assert (a + x)[10..] == x && (b + y)[10..] == y;
      AccumulateLosesNothing(rand, salt);
    }
  }
}
