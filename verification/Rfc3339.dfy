/** Timestamps as text: the printer, the parser that must undo it, and the order of the texts. */
module Rfc3339 {
  import opened Records
  import opened Calendar
  import opened Decimals

  /** A time stamp by its fields. */
  datatype Stamp = Stamp(date: Date, h: nat, mi: nat, s: nat, milli: nat)

  const U64: nat := 0x1_0000_0000_0000_0000
  const I64_MAX: nat := 0x7FFF_FFFF_FFFF_FFFF
  const U32_MAX: nat := 0xFFFF_FFFF

  /** The last millisecond of the year 9999. */
  const LAST_FOUR_DIGIT_MS: nat := 253_402_300_799_999

  function DayOf(ms: nat): nat {
    ms / 1000 / 86_400
  }

  /** The fields of `ms` below the day, beside a given date. */
  function ClockOf(date: Date, ms: nat): Stamp {
    var sod := ms / 1000 % 86_400;
    Stamp(date, sod / 3600, (sod % 3600) / 60, sod % 60, ms % 1000)
  }

  function StampOf(ms: nat): Stamp {
    ClockOf(CivilFromDays(DayOf(ms)), ms)
  }

  /** A number as the printer pads it; a minus sign takes one place. */
  function Field(n: int, w: nat): string
    requires w >= 1
  {
    if n >= 0 then Padded(n, w) else "-" + Padded(-n, w - 1)
  }

  function DateText(t: Date): string {
    Field(t.y, 4) + ['-'] + (Field(t.m, 2) + ['-'] + Field(t.d, 2))
  }

  function ClockText(t: Stamp): string {
    Field(t.h, 2) + [':'] + (Field(t.mi, 2) + [':'] + Field(t.s, 2))
  }

  function StampText(t: Stamp): string {
    DateText(t.date) + ['T'] + (ClockText(t) + ['.'] + Field(t.milli, 3)) + ['Z']
  }

  /** `rfc3339`. */
  function Print(ms: nat): string {
    StampText(StampOf(ms))
  }

  // ---- the parser --------------------------------------------------------------------------

  function StripZ(s: string): Option<string> {
    if s != "" && s[|s| - 1] == 'Z' then Some(s[..|s| - 1]) else None
  }

  /** Three pieces around the first two separators; the last piece keeps any further ones. */
  function SplitThree(s: string, c: char): Option<(string, string, string)> {
    var first := SplitOnce(s, c);
    if first.None? then None
    else
      var second := SplitOnce(first.value.1, c);
      if second.None? then None else Some((first.value.0, second.value.0, second.value.1))
  }

  /** At most three characters of the fraction, filled up with zeros. */
  function FractionDigits(f: string): string {
    var digits := if |f| > 3 then f[..3] else f;
    digits + Zeros(3 - |digits|)
  }

  function ParseDate(s: string): Option<Date> {
    var p := SplitThree(s, '-');
    if p.None? then None
    else
      var y, m, d := ParseSigned(p.value.0, I64_MAX), ParseUnsigned(p.value.1, U32_MAX), ParseUnsigned(p.value.2, U32_MAX);
      if y.None? || m.None? || d.None? then None else Some(Date(y.value, m.value, d.value))
  }

  function ParseClock(s: string): Option<int> {
    var p := SplitThree(s, ':');
    if p.None? then None
    else
      var h, mi, se := ParseSigned(p.value.0, I64_MAX), ParseSigned(p.value.1, I64_MAX), ParseSigned(p.value.2, I64_MAX);
      if h.None? || mi.None? || se.None? then None else Some(h.value * 3600 + mi.value * 60 + se.value)
  }

  function ParseTime(s: string): Option<(int, nat)> {
    var split := SplitOnce(s, '.');
    var clock := ParseClock(if split.None? then s else split.value.0);
    var millis := if split.None? then Some(0) else ParseUnsigned(FractionDigits(split.value.1), U64 - 1);
    if clock.None? || millis.None? then None else Some((clock.value, millis.value))
  }

  /** The text before and after the first `T`, without the final `Z`. */
  function Halves(s: string): Option<(string, string)> {
    var body := StripZ(s);
    if body.None? then None else SplitOnce(body.value, 'T')
  }

  function Combine(date: Option<Date>, time: Option<(int, nat)>): Option<nat> {
    if date.None? || time.None? then None
    else
      var secs := DaysFromCivil(date.value) * 86_400 + time.value.0;
      if secs < 0 then None else Some(secs * 1000 + time.value.1)
  }

  /** `parse_rfc3339_ms`. */
  function Parse(s: string): Option<nat> {
    var halves := Halves(s);
    if halves.None? then None else Combine(ParseDate(halves.value.0), ParseTime(halves.value.1))
  }

  // ---- the fields of a stamp ----------------------------------------------------------------

  predicate InRange(t: Stamp) {
    Valid(t.date) && t.date.y >= 0 && t.h < 24 && t.mi < 60 && t.s < 60 && t.milli < 1000
  }

  lemma ClockArithmetic(date: Date, ms: nat)
    ensures var t := ClockOf(date, ms);
            && t.date == date && t.h < 24 && t.mi < 60 && t.s < 60 && t.milli < 1000
            && ms == (DayOf(ms) * 86_400 + t.h * 3600 + t.mi * 60 + t.s) * 1000 + t.milli
  {}

  lemma DateOfDay(days: nat)
    ensures Valid(CivilFromDays(days)) && CivilFromDays(days).y >= 1970
    ensures DaysFromCivil(CivilFromDays(days)) == days
  {
    CivilIsValid(days);
    DaysOfCivil(days);
    TheEpoch();
    if days > 0 {
      DatesFollowDays(0, days);
    }
  }

  lemma StampOfInRange(ms: nat)
    ensures var t := StampOf(ms);
            && InRange(t) && t.date.y >= 1970 && DaysFromCivil(t.date) == DayOf(ms)
            && ms == (DayOf(ms) * 86_400 + t.h * 3600 + t.mi * 60 + t.s) * 1000 + t.milli
  {
    DateOfDay(DayOf(ms));
    ClockArithmetic(CivilFromDays(DayOf(ms)), ms);
  }

  /** Years of 64-bit milliseconds stay far inside a machine integer. */
  lemma YearFits(ms: nat)
    requires ms < U64
    ensures StampOf(ms).date.y <= 600_000_000
  {
    var y, mp, doy := CivilFromDaysIs(DayOf(ms));
    if y > 599_999_999 {
      YearStartsGrow(600_000_000, y);
    }
  }

  // ---- the round trip --------------------------------------------------------------------------

  lemma FieldIsDigits(n: nat, w: nat, bound: nat)
    requires w >= 1 && n <= bound
    ensures AllDigits(Field(n, w))
    ensures ParseUnsigned(Field(n, w), bound) == Some(n) && ParseSigned(Field(n, w), bound) == Some(n)
  {
    PaddedParses(n, w, bound);
  }

  /** Digits contain no separator. */
  lemma NoSeparator(s: string, c: char)
    requires AllDigits(s) && !IsDigit(c)
    ensures c !in s
  {}

  lemma ThreeFields(a: string, b: string, d: string, c: char)
    requires AllDigits(a) && AllDigits(b) && !IsDigit(c)
    ensures SplitThree(a + [c] + (b + [c] + d), c) == Some((a, b, d))
    ensures AllDigits(d) ==> forall x :: !IsDigit(x) && x != c ==> x !in a + [c] + (b + [c] + d)
  {
    NoSeparator(a, c);
    NoSeparator(b, c);
    SplitAtFirst(a, c, b + [c] + d);
    SplitAtFirst(b, c, d);
  }

  lemma DateParses(t: Date)
    requires 0 <= t.y <= I64_MAX && 0 <= t.m <= U32_MAX && 0 <= t.d <= U32_MAX
    ensures ParseDate(DateText(t)) == Some(t) && 'T' !in DateText(t)
  {
    FieldIsDigits(t.y, 4, I64_MAX);
    FieldIsDigits(t.m, 2, U32_MAX);
    FieldIsDigits(t.d, 2, U32_MAX);
    ThreeFields(Field(t.y, 4), Field(t.m, 2), Field(t.d, 2), '-');
    assert !IsDigit('T');
  }

  lemma ClockParses(t: Stamp)
    requires t.h <= U32_MAX && t.mi <= U32_MAX && t.s <= U32_MAX
    ensures ParseClock(ClockText(t)) == Some(t.h * 3600 + t.mi * 60 + t.s) && '.' !in ClockText(t)
  {
    FieldIsDigits(t.h, 2, I64_MAX);
    FieldIsDigits(t.mi, 2, I64_MAX);
    FieldIsDigits(t.s, 2, I64_MAX);
    ThreeFields(Field(t.h, 2), Field(t.mi, 2), Field(t.s, 2), ':');
    assert !IsDigit('.');
  }

  lemma TimeParses(t: Stamp)
    requires InRange(t)
    ensures ParseTime(ClockText(t) + ['.'] + Field(t.milli, 3)) == Some((t.h * 3600 + t.mi * 60 + t.s, t.milli))
  {
    ClockParses(t);
    SplitAtFirst(ClockText(t), '.', Field(t.milli, 3));
    FieldIsDigits(t.milli, 3, U64 - 1);
    assert Pow10(3) == 1000;
    PaddedWidth(t.milli, 3);
    assert Field(t.milli, 3) + Zeros(0) == Field(t.milli, 3);
  }

  lemma HalvesOf(date: string, time: string)
    requires 'T' !in date
    ensures Halves(date + ['T'] + time + ['Z']) == Some((date, time))
  {
    var body := date + ['T'] + time;
    var s := body + ['Z'];
    assert s[..|s| - 1] == body && s[|s| - 1] == 'Z';
    SplitAtFirst(date, 'T', time);
  }

  /** Parsing the text of a stamp combines its fields. */
  lemma StampParses(t: Stamp)
    requires InRange(t) && t.date.y <= I64_MAX
    ensures Parse(StampText(t)) == Combine(Some(t.date), Some((t.h * 3600 + t.mi * 60 + t.s, t.milli)))
  {
    DateParses(t.date);
    TimeParses(t);
    HalvesOf(DateText(t.date), ClockText(t) + ['.'] + Field(t.milli, 3));
  }

  lemma CombineSums(date: Date, days: nat, clock: nat, milli: nat)
    requires DaysFromCivil(date) == days
    ensures Combine(Some(date), Some((clock, milli))) == Some((days * 86_400 + clock) * 1000 + milli)
  {}

  /** The fields of a printed time combine to that time. */
  lemma StampCombines(ms: nat)
    ensures var t := StampOf(ms);
            InRange(t) && Combine(Some(t.date), Some((t.h * 3600 + t.mi * 60 + t.s, t.milli))) == Some(ms)
  {
    StampOfInRange(ms);
    var t := StampOf(ms);
    CombineSums(t.date, DayOf(ms), t.h * 3600 + t.mi * 60 + t.s, t.milli);
  }

  lemma StampParsesTo(t: Stamp, ms: nat)
    requires InRange(t) && t.date.y <= I64_MAX
    requires Combine(Some(t.date), Some((t.h * 3600 + t.mi * 60 + t.s, t.milli))) == Some(ms)
    ensures Parse(StampText(t)) == Some(ms)
  {
    StampParses(t);
  }

  /** Parsing the text of any 64-bit time gives that time back. */
  lemma ParseUndoesPrint(ms: nat)
    requires ms < U64
    ensures Parse(Print(ms)) == Some(ms)
  {
    YearFits(ms);
    StampCombines(ms);
    StampParsesTo(StampOf(ms), ms);
  }

  // ---- what the parser reads beside what the printer writes -----------------------------------------

  /** A date that exists, and a time of day that need not: the parser checks no field. */
  predicate Readable(t: Stamp) {
    Valid(t.date) && t.date.y >= 0 && t.h <= U32_MAX && t.mi <= U32_MAX && t.s <= U32_MAX
  }

  function DigitAt(s: string, i: nat): nat
    requires AllDigits(s)
  {
    if i < |s| then
      assert IsDigit(s[i]) by { assert s[i] in s; }
      s[i] as int - '0' as int
    else 0
  }

  function Leading(f: string): string {
    if |f| > 3 then f[..3] else f
  }

  /** The first three digits of a fraction, missing ones being zero. */
  function Millis(f: string): nat
    requires AllDigits(Leading(f))
  {
    100 * DigitAt(Leading(f), 0) + 10 * DigitAt(Leading(f), 1) + DigitAt(Leading(f), 2)
  }

  lemma ThreeDigits(s: string)
    requires |s| == 3 && AllDigits(s)
    ensures Value(s) == 100 * DigitAt(s, 0) + 10 * DigitAt(s, 1) + DigitAt(s, 2)
  {
    assert s[..2][..1] == s[..1] && s[..1][..0] == "";
    assert Value(s[..1]) == DigitAt(s, 0);
    assert Value(s[..2]) == 10 * Value(s[..1]) + DigitAt(s, 1);
  }

  lemma FractionValue(f: string)
    requires AllDigits(Leading(f))
    ensures ParseUnsigned(FractionDigits(f), U64 - 1) == Some(Millis(f))
  {
    var s, d := FractionDigits(f), Leading(f);
    assert s == d + Zeros(3 - |d|) && |s| == 3;
    assert AllDigits(s);
    ThreeDigits(s);
    assert DigitAt(s, 0) == DigitAt(d, 0) && DigitAt(s, 1) == DigitAt(d, 1) && DigitAt(s, 2) == DigitAt(d, 2);
    DigitsParse(s, U64 - 1);
  }

  lemma FractionParses(t: Stamp, f: string)
    requires Readable(t) && AllDigits(Leading(f))
    ensures ParseTime(ClockText(t) + ['.'] + f) == Some((t.h * 3600 + t.mi * 60 + t.s, Millis(f)))
  {
    ClockParses(t);
    SplitAtFirst(ClockText(t), '.', f);
    FractionValue(f);
  }

  lemma {:induction false} NoSplit(s: string, c: char)
    requires c !in s
    ensures SplitOnce(s, c).None?
  {
    if s != "" {
      NoSplit(s[1..], c);
    }
  }

  lemma WholeSecondsParse(t: Stamp)
    requires Readable(t)
    ensures ParseTime(ClockText(t)) == Some((t.h * 3600 + t.mi * 60 + t.s, 0))
  {
    ClockParses(t);
    NoSplit(ClockText(t), '.');
  }

  lemma TextParses(t: Stamp, time: string)
    requires Readable(t) && t.date.y <= I64_MAX
    ensures Parse(DateText(t.date) + ['T'] + time + ['Z']) == Combine(Some(t.date), ParseTime(time))
  {
    DateParses(t.date);
    HalvesOf(DateText(t.date), time);
  }

  lemma InRangeCombines(t: Stamp, ms: nat)
    requires Readable(t) && t.date.y >= 1970
    ensures Combine(Some(t.date), Some((t.h * 3600 + t.mi * 60 + t.s, ms)))
         == Some(SecondsOf(t) * 1000 + ms)
  {
    DaysFromEpoch(t.date);
  }

  lemma DaysFromEpoch(d: Date)
    requires Valid(d) && d.y >= 1970
    ensures DaysFromCivil(d) >= 0
  {
    TheEpoch();
    CivilOfDays(d);
    if DaysFromCivil(d) < 0 {
      DatesFollowDays(DaysFromCivil(d), 0);
    }
  }

  /** The whole seconds of a stamp since the epoch. */
  function SecondsOf(t: Stamp): int {
    DaysFromCivil(t.date) * 86_400 + t.h * 3600 + t.mi * 60 + t.s
  }

  /** A date, a time of day, and the mark of UTC. */
  function TextWith(date: Date, time: string): string {
    DateText(date) + ['T'] + time + ['Z']
  }

  /** The text of this date and time of day is read as the seconds of `t` and `ms` milliseconds. */
  predicate ReadsAs(t: Stamp, time: string, ms: nat) {
    Parse(TextWith(t.date, time)) == Some(SecondsOf(t) * 1000 + ms)
  }

  lemma TimeDecides(t: Stamp, time: string, ms: nat)
    requires Readable(t) && 1970 <= t.date.y <= I64_MAX
    requires ParseTime(time) == Some((t.h * 3600 + t.mi * 60 + t.s, ms))
    ensures ReadsAs(t, time, ms)
  {
    TextParses(t, time);
    DaysFromEpoch(t.date);
    InRangeCombines(t, ms);
  }

  /** A fraction counts as milliseconds by its first three digits, missing ones being zero and further ones
      ignored: `.5` is 500 and `.25` is 250. */
  lemma FractionsAreMilliseconds(t: Stamp, f: string)
    requires Readable(t) && 1970 <= t.date.y <= I64_MAX && AllDigits(Leading(f))
    ensures ReadsAs(t, ClockText(t) + ['.'] + f, Millis(f))
  {
    FractionParses(t, f);
    TimeDecides(t, ClockText(t) + ['.'] + f, Millis(f));
  }

  /** Without a fraction there are no milliseconds. */
  lemma WholeSeconds(t: Stamp)
    requires Readable(t) && 1970 <= t.date.y <= I64_MAX
    ensures ReadsAs(t, ClockText(t), 0)
  {
    WholeSecondsParse(t);
    TimeDecides(t, ClockText(t), 0);
  }

  lemma DaysBeforeEpoch(d: Date)
    requires Valid(d) && d.y < 1970
    ensures DaysFromCivil(d) < 0
  {
    TheEpoch();
    CivilOfDays(d);
    if DaysFromCivil(d) > 0 {
      DatesFollowDays(0, DaysFromCivil(d));
    }
  }

  /** A time before 1970 is refused. */
  lemma BeforeTheEpoch(t: Stamp)
    requires InRange(t) && t.date.y < 1970
    ensures Parse(StampText(t)).None?
  {
    DaysBeforeEpoch(t.date);
    StampParses(t);
  }

  lemma {:induction false} SplitJoins(s: string, c: char)
    requires SplitOnce(s, c).Some?
    ensures var halves := SplitOnce(s, c).value; s == halves.0 + [c] + halves.1 && c !in halves.0
  {
    if s[0] != c {
      SplitJoins(s[1..], c);
      assert s == [s[0]] + s[1..];
    }
  }

  lemma ThreePieces(s: string, c: char)
    requires SplitThree(s, c).Some?
    ensures var p := SplitThree(s, c).value; s == p.0 + [c] + (p.1 + [c] + p.2)
  {
    SplitJoins(s, c);
    SplitJoins(SplitOnce(s, c).value.1, c);
  }

  lemma ClockHasItsMarks(time: string) returns (clock: (string, string, string), fraction: string)
    requires ParseTime(time).Some?
    ensures time == clock.0 + [':'] + (clock.1 + [':'] + clock.2) + fraction
    ensures fraction != "" ==> fraction[0] == '.'
  {
    var split := SplitOnce(time, '.');
    var hms := if split.None? then time else split.value.0;
    fraction := if split.None? then "" else ['.'] + split.value.1;
    if split.Some? {
      SplitJoins(time, '.');
    }
    assert time == hms + fraction;
    ThreePieces(hms, ':');
    clock := SplitThree(hms, ':').value;
  }

  lemma HalvesJoin(s: string)
    requires Halves(s).Some?
    ensures var halves := Halves(s).value; s == halves.0 + ['T'] + halves.1 + ['Z']
  {
    var body := StripZ(s).value;
    assert s == body + ['Z'];
    SplitJoins(body, 'T');
  }

  /** A text that is read has all its marks in their places: nothing else counts as a time. */
  lemma ReadTextHasItsMarks(s: string)
    returns (date: (string, string, string), clock: (string, string, string), fraction: string)
    requires Parse(s).Some?
    ensures s == date.0 + ['-'] + (date.1 + ['-'] + date.2) + ['T']
                 + (clock.0 + [':'] + (clock.1 + [':'] + clock.2) + fraction) + ['Z']
    ensures fraction != "" ==> fraction[0] == '.'
  {
    var halves := Halves(s).value;
    HalvesJoin(s);
    ThreePieces(halves.0, '-');
    date := SplitThree(halves.0, '-').value;
    clock, fraction := ClockHasItsMarks(halves.1);
  }

  // ---- the order --------------------------------------------------------------------------------

  predicate ClockBefore(a: Stamp, b: Stamp) {
    a.h < b.h || (a.h == b.h && (a.mi < b.mi || (a.mi == b.mi && (a.s < b.s || (a.s == b.s && a.milli < b.milli)))))
  }

  predicate StampBefore(a: Stamp, b: Stamp) {
    Before(a.date, b.date) || (a.date == b.date && ClockBefore(a, b))
  }

  lemma ClocksFollowTime(x: Date, y: Date, a: nat, b: nat)
    ensures a < b <==> DayOf(a) < DayOf(b) || (DayOf(a) == DayOf(b) && ClockBefore(ClockOf(x, a), ClockOf(y, b)))
  {
    ClockArithmetic(x, a);
    ClockArithmetic(y, b);
  }

  lemma DaysFollow(x: nat, y: nat)
    ensures x < y <==> Before(CivilFromDays(x), CivilFromDays(y))
    ensures x == y <==> CivilFromDays(x) == CivilFromDays(y)
  {
    DatesFollowDays(x, y);
    DaysOfCivil(x);
    DaysOfCivil(y);
  }

  lemma StampsFollowTime(a: nat, b: nat)
    ensures a < b <==> StampBefore(StampOf(a), StampOf(b))
  {
    DaysFollow(DayOf(a), DayOf(b));
    ClocksFollowTime(CivilFromDays(DayOf(a)), CivilFromDays(DayOf(b)), a, b);
  }

  /** Joining fixed-width texts compares them in turn. */
  lemma JoinOrder(a: string, b: string, c: char, x: string, y: string)
    requires |a| == |b|
    ensures LexLess(a + [c] + x, b + [c] + y) <==> LexLess(a, b) || (a == b && LexLess(x, y))
    ensures |x| == |y| ==> (a + [c] + x == b + [c] + y <==> a == b && x == y)
  {
    LexOfConcat(a, b, [c] + x, [c] + y);
    assert a + [c] + x == a + ([c] + x) && b + [c] + y == b + ([c] + y);
    assert ([c] + x)[1..] == x && ([c] + y)[1..] == y;
    if a + [c] + x == b + [c] + y {
      assert (a + [c] + x)[..|a|] == a && (b + [c] + y)[..|b|] == b;
      assert (a + [c] + x)[|a| + 1..] == x && (b + [c] + y)[|b| + 1..] == y;
    }
  }

  lemma FieldOrder(m: nat, n: nat, w: nat)
    requires 1 <= w <= 4 && m < Pow10(w) && n < Pow10(w)
    ensures |Field(m, w)| == w && |Field(n, w)| == w
    ensures LexLess(Field(m, w), Field(n, w)) <==> m < n
    ensures Field(m, w) == Field(n, w) <==> m == n
  {
    PaddedWidth(m, w);
    PaddedWidth(n, w);
    LexOfPadded(m, n, w);
  }

  lemma Widths()
    ensures Pow10(2) == 100 && Pow10(3) == 1000 && Pow10(4) == 10_000
  {
    assert Pow10(1) == 10;
    assert Pow10(2) == 100;
    assert Pow10(3) == 1000;
  }

  lemma DateOrder(a: Date, b: Date)
    requires Valid(a) && Valid(b) && 0 <= a.y <= 9999 && 0 <= b.y <= 9999
    ensures |DateText(a)| == 10 && |DateText(b)| == 10
    ensures LexLess(DateText(a), DateText(b)) <==> Before(a, b)
    ensures DateText(a) == DateText(b) <==> a == b
  {
    Widths();
    FieldOrder(a.y, b.y, 4);
    FieldOrder(a.m, b.m, 2);
    FieldOrder(a.d, b.d, 2);
    JoinOrder(Field(a.m, 2), Field(b.m, 2), '-', Field(a.d, 2), Field(b.d, 2));
    JoinOrder(Field(a.y, 4), Field(b.y, 4), '-', Field(a.m, 2) + ['-'] + Field(a.d, 2), Field(b.m, 2) + ['-'] + Field(b.d, 2));
  }

  lemma ClockOrder(a: Stamp, b: Stamp)
    requires InRange(a) && InRange(b)
    ensures |ClockText(a)| == 8 && |ClockText(b)| == 8
    ensures LexLess(ClockText(a), ClockText(b)) <==>
              a.h < b.h || (a.h == b.h && (a.mi < b.mi || (a.mi == b.mi && a.s < b.s)))
    ensures ClockText(a) == ClockText(b) <==> a.h == b.h && a.mi == b.mi && a.s == b.s
  {
    Widths();
    FieldOrder(a.h, b.h, 2);
    FieldOrder(a.mi, b.mi, 2);
    FieldOrder(a.s, b.s, 2);
    JoinOrder(Field(a.mi, 2), Field(b.mi, 2), ':', Field(a.s, 2), Field(b.s, 2));
    JoinOrder(Field(a.h, 2), Field(b.h, 2), ':', Field(a.mi, 2) + [':'] + Field(a.s, 2), Field(b.mi, 2) + [':'] + Field(b.s, 2));
  }

  /** Up to the year 9999, texts are ordered like the stamps they print. */
  lemma TextOrder(a: Stamp, b: Stamp)
    requires InRange(a) && InRange(b) && a.date.y <= 9999 && b.date.y <= 9999
    ensures LexLess(StampText(a), StampText(b)) <==> StampBefore(a, b)
  {
    Widths();
    DateOrder(a.date, b.date);
    ClockOrder(a, b);
    FieldOrder(a.milli, b.milli, 3);
    var x, y := ClockText(a) + ['.'] + Field(a.milli, 3), ClockText(b) + ['.'] + Field(b.milli, 3);
    JoinOrder(ClockText(a), ClockText(b), '.', Field(a.milli, 3), Field(b.milli, 3));
    var p, q := DateText(a.date) + ['T'] + x, DateText(b.date) + ['T'] + y;
    JoinOrder(DateText(a.date), DateText(b.date), 'T', x, y);
    LexOfConcat(p, q, "Z", "Z");
  }

  lemma YearOfBound(ms: nat)
    requires ms <= LAST_FOUR_DIGIT_MS
    ensures StampOf(ms).date.y <= 9999
  {
    LastStamps();
    StampOfInRange(ms);
    if ms < LAST_FOUR_DIGIT_MS {
      StampsFollowTime(ms, LAST_FOUR_DIGIT_MS);
    }
  }

  lemma LastDay()
    ensures CivilFromDays(2_932_896) == Date(9999, 12, 31) && CivilFromDays(2_932_897) == Date(10_000, 1, 1)
  {
    DaysFromCivilIs(Date(9999, 12, 31));
    assert MonthOffset(9) == 275 && YearStart(9999) == 2_932_591;
    CivilOfDays(Date(9999, 12, 31));
    CivilIsTheCalendar(2_932_896);
  }

  lemma LastStamps()
    ensures StampOf(LAST_FOUR_DIGIT_MS) == Stamp(Date(9999, 12, 31), 23, 59, 59, 999)
    ensures StampOf(LAST_FOUR_DIGIT_MS + 1) == Stamp(Date(10_000, 1, 1), 0, 0, 0, 0)
  {
    LastDay();
    assert DayOf(LAST_FOUR_DIGIT_MS) == 2_932_896 && DayOf(LAST_FOUR_DIGIT_MS + 1) == 2_932_897;
  }

  /** Comparing texts is comparing times for all times up to a bound exactly when the bound does not pass
      the last millisecond of the year 9999. */
  lemma TextOrderIsTimeOrder(bound: nat)
    ensures (forall a: nat, b: nat :: a <= bound && b <= bound ==> (LexLess(Print(a), Print(b)) <==> a < b))
        <==> bound <= LAST_FOUR_DIGIT_MS
  {
    if bound <= LAST_FOUR_DIGIT_MS {
      forall a: nat, b: nat | a <= bound && b <= bound ensures LexLess(Print(a), Print(b)) <==> a < b {
        YearOfBound(a);
        YearOfBound(b);
        StampOfInRange(a);
        StampOfInRange(b);
        TextOrder(StampOf(a), StampOf(b));
        StampsFollowTime(a, b);
      }
    } else {
      LastStamps();
      FirstDigits(LAST_FOUR_DIGIT_MS, LAST_FOUR_DIGIT_MS + 1);
      assert LexLess(Print(LAST_FOUR_DIGIT_MS + 1), Print(LAST_FOUR_DIGIT_MS));
    }
  }

  lemma FirstDigits(a: nat, b: nat)
    requires StampOf(a).date.y == 9999 && StampOf(b).date.y == 10_000
    ensures LexLess(Print(b), Print(a))
  {
    assert Decimal(9) == "9";
    assert Decimal(99) == "99";
    assert Decimal(999) == "999";
    assert Decimal(9999) == "9999";
    assert Decimal(1) == "1";
    assert Decimal(10) == "10";
    assert Decimal(100) == "100";
    assert Decimal(1000) == "1000";
    assert Decimal(10_000) == "10000";
    assert Print(a)[0] == '9' && Print(b)[0] == '1';
  }
}
