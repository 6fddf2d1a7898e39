/** Days since the Unix epoch and dates of the Gregorian calendar: two closed forms that undo each other. */
module Calendar {

  datatype Date = Date(y: int, m: int, d: int)

  // ---- the calendar, independently ------------------------------------------------------

  predicate IsLeap(y: int) {
    y % 4 == 0 && (y % 100 != 0 || y % 400 == 0)
  }

  function DaysInMonth(y: int, m: int): int {
    if m == 2 then (if IsLeap(y) then 29 else 28)
    else if m == 4 || m == 6 || m == 9 || m == 11 then 30
    else 31
  }

  predicate Valid(t: Date) {
    1 <= t.m <= 12 && 1 <= t.d <= DaysInMonth(t.y, t.m)
  }

  function NextDay(t: Date): Date {
    if t.d < DaysInMonth(t.y, t.m) then t.(d := t.d + 1)
    else if t.m < 12 then Date(t.y, t.m + 1, 1)
    else Date(t.y + 1, 1, 1)
  }

  predicate Before(a: Date, b: Date) {
    a.y < b.y || (a.y == b.y && (a.m < b.m || (a.m == b.m && a.d < b.d)))
  }

  // ---- the closed forms --------------------------------------------------------------------

  /** Division of a machine integer: towards zero. */
  function TruncDiv(a: int, b: int): int
    requires b > 0
  {
    if a >= 0 then a / b else -((-a) / b)
  }

  function YearOfEra(doe: int): int {
    (doe - doe / 1460 + doe / 36524 - doe / 146096) / 365
  }

  /** Days before year `yoe` of a 400-year era, whose years begin in March. */
  function YearOffset(yoe: int): int {
    365 * yoe + yoe / 4 - yoe / 100
  }

  /** Days before month `mp`, counted from March. */
  function MonthOffset(mp: int): int {
    (153 * mp + 2) / 5
  }

  /** The date of day `doy` of the March-year `y`. */
  function DateInYear(y: int, doy: int): Date {
    var mp := (5 * doy + 2) / 153;
    var d := doy - MonthOffset(mp) + 1;
    var m := if mp < 10 then mp + 3 else mp - 9;
    Date(if m <= 2 then y + 1 else y, m, d)
  }

  function CivilFromDays(days: int): Date {
    var z := days + 719_468;
    var era := TruncDiv(if z >= 0 then z else z - 146_096, 146_097);
    var doe := z - era * 146_097;
    var yoe := YearOfEra(doe);
    DateInYear(yoe + era * 400, doe - YearOffset(yoe))
  }

  function DaysFromCivil(t: Date): int {
    var y := if t.m <= 2 then t.y - 1 else t.y;
    var era := TruncDiv(if y >= 0 then y else y - 399, 400);
    var yoe := y - era * 400;
    var mp := if t.m > 2 then t.m - 3 else t.m + 9;
    var doy := MonthOffset(mp) + t.d - 1;
    var doe := YearOffset(yoe) + doy;
    era * 146_097 + doe - 719_468
  }

  // ---- arithmetic ---------------------------------------------------------------------------

  /** The shifted truncating division is the floor. */
  lemma EraIsFloor(z: int, b: int)
    requires b == 146_097 || b == 400
    ensures TruncDiv(if z >= 0 then z else z - (b - 1), b) == z / b
  {}

  /** Split a day of the era: century `c`, four-year cycle `q`, year `t` and day `u` of the year.  The last
      day of a leap cycle stays in year 3. */
  lemma SplitDayOfEra(doe: int) returns (c: int, q: int, t: int, u: int)
    requires 0 <= doe < 146_097
    ensures 0 <= c <= 3 && 0 <= q <= 24 && 0 <= t <= 3 && 0 <= u <= 365
    ensures doe == 36_524 * c + 1461 * q + 365 * t + u
    ensures u == 365 ==> t == 3 && (q < 24 || c == 3)
  {
    c := if doe == 146_096 then 3 else doe / 36_524;
    var r := doe - 36_524 * c;
    q := r / 1461;
    var s := r - 1461 * q;
    t := if s == 1460 then 3 else s / 365;
    u := s - 365 * t;
  }

  lemma YearOffsetOf(c: int, q: int, t: int)
    requires 0 <= c <= 3 && 0 <= q <= 24 && 0 <= t <= 3
    ensures YearOffset(100 * c + 4 * q + t) == 36_524 * c + 1461 * q + 365 * t
  {}

  lemma YearOfEraOf(c: int, q: int, t: int, u: int)
    requires 0 <= c <= 3 && 0 <= q <= 24 && 0 <= t <= 3 && 0 <= u <= 365
    requires u == 365 ==> t == 3 && (q < 24 || c == 3)
    ensures YearOfEra(36_524 * c + 1461 * q + 365 * t + u) == 100 * c + 4 * q + t
  {
    var s := 365 * t + u;
    var doe := 36_524 * c + 1461 * q + s;
    var e := if 24 * c + q + s >= 1460 then 1 else 0;
    assert doe / 1460 == 25 * c + q + e;
    if c == 3 && q == 24 && s == 1460 {
      assert doe == 146_096;
    } else {
      assert doe / 36_524 == c && doe / 146_096 == 0;
      assert doe - 25 * c - q - e + c == 365 * (100 * c + 4 * q) + (s - e);
      assert (s - e) / 365 == t;
    }
  }

  /** The year of an era that a day falls in, and how far into that year it is. */
  lemma YearOfEraSplits(doe: int)
    requires 0 <= doe < 146_097
    ensures var yoe := YearOfEra(doe);
            && 0 <= yoe < 400
            && 0 <= doe - YearOffset(yoe) <= 365
            && (doe - YearOffset(yoe) == 365 ==> IsLeap(yoe + 1))
  {
    var c, q, t, u := SplitDayOfEra(doe);
    YearOfEraOf(c, q, t, u);
    YearOffsetOf(c, q, t);
    if u == 365 {
      LeapInEra(c, q);
    }
  }

  lemma LeapInEra(c: int, q: int)
    requires 0 <= c <= 3 && 0 <= q <= 24 && (q < 24 || c == 3)
    ensures IsLeap(100 * c + 4 * q + 4)
  {
    assert 100 * c + 4 * q + 4 == 4 * (25 * c + q + 1);
    if q < 24 {
      assert (100 * c + 4 * q + 4) % 100 == 4 * q + 4;
    } else {
      assert 100 * c + 4 * q + 4 == 400;
    }
  }

  lemma LeapRepeats(y: int, era: int)
    ensures IsLeap(y + 400 * era) <==> IsLeap(y)
  {
    ShiftBy4(y, 100 * era);
    ShiftBy100(y, 4 * era);
    ShiftBy400(y, era);
  }

  lemma ShiftBy4(y: int, k: int)
    ensures (y + 4 * k) % 4 == y % 4
  {}

  lemma ShiftBy100(y: int, k: int)
    ensures (y + 100 * k) % 100 == y % 100
  {}

  lemma ShiftBy400(y: int, k: int)
    ensures (y + 400 * k) % 400 == y % 400
  {}

  /** The length of a month counted from March, in a year that ends with this February. */
  lemma MonthLengths(mp: int)
    requires 0 <= mp <= 11
    ensures mp == 11 ==> MonthOffset(12) - MonthOffset(mp) == 30
    ensures mp < 11 ==> MonthOffset(mp + 1) - MonthOffset(mp) == DaysInMonth(1, if mp < 10 then mp + 3 else mp - 9)
  {}

  /** The month that a day of the year falls in, and how far into that month it is. */
  lemma MonthOfYearSplits(doy: int)
    requires 0 <= doy <= 365
    ensures var mp := (5 * doy + 2) / 153;
            && 0 <= mp <= 11 && MonthOffset(mp) <= doy
            && (mp < 11 ==> doy < MonthOffset(mp + 1))
  {}

  // ---- days to dates ----------------------------------------------------------------------------

  /** The first day of year `y`, which begins in March. */
  function YearStart(y: int): int {
    365 * y + y / 4 - y / 100 + y / 400 - 719_468
  }

  lemma YearStartInEra(yoe: int, era: int)
    requires 0 <= yoe < 400
    ensures YearStart(yoe + 400 * era) == era * 146_097 + YearOffset(yoe) - 719_468
  {
    var y := yoe + 400 * era;
    assert y / 4 == yoe / 4 + 100 * era;
    assert y / 100 == yoe / 100 + 4 * era;
    assert y / 400 == era;
  }

  /** A date in the calendar that begins in March. */
  lemma DaysFromCivilIs(t: Date)
    ensures var y := if t.m <= 2 then t.y - 1 else t.y;
            var mp := if t.m > 2 then t.m - 3 else t.m + 9;
            DaysFromCivil(t) == YearStart(y) + MonthOffset(mp) + t.d - 1
  {
    var y := if t.m <= 2 then t.y - 1 else t.y;
    EraIsFloor(y, 400);
    YearStartInEra(y % 400, y / 400);
  }

  lemma CivilInEra(days: int, era: int)
    requires era == TruncDiv(if days + 719_468 >= 0 then days + 719_468 else days + 719_468 - 146_096, 146_097)
    ensures var doe := days + 719_468 - era * 146_097;
            CivilFromDays(days) == DateInYear(YearOfEra(doe) + era * 400, doe - YearOffset(YearOfEra(doe)))
  {}

  /** Year `yoe` of an era, as a year of the calendar. */
  lemma YearInEra(era: int, yoe: int, doy: int)
    requires 0 <= yoe < 400 && (doy == 365 ==> IsLeap(yoe + 1))
    ensures YearStart(yoe + era * 400) + doy == era * 146_097 + (YearOffset(yoe) + doy) - 719_468
    ensures doy == 365 ==> IsLeap(yoe + era * 400 + 1)
  {
    YearStartInEra(yoe, era);
    LeapRepeats(yoe + 1, era);
  }

  /** The closed form finds the March-year of a day and the day's place in it. */
  lemma CivilYearIs(days: int) returns (y: int, doy: int)
    ensures 0 <= doy <= 365 && days == YearStart(y) + doy
    ensures doy == 365 ==> IsLeap(y + 1)
    ensures CivilFromDays(days) == DateInYear(y, doy)
  {
    var era, doe := EraOfDay(days);
    YearOfEraSplits(doe);
    CivilInEra(days, era);
    var yoe := YearOfEra(doe);
    YearInEra(era, yoe, doe - YearOffset(yoe));
    y, doy := yoe + era * 400, doe - YearOffset(yoe);
  }

  /** The 400-year era of a day, and the day's place in it. */
  lemma EraOfDay(days: int) returns (era: int, doe: int)
    ensures 0 <= doe < 146_097 && doe == days + 719_468 - era * 146_097
    ensures era == TruncDiv(if days + 719_468 >= 0 then days + 719_468 else days + 719_468 - 146_096, 146_097)
  {
    era := (days + 719_468) / 146_097;
    EraIsFloor(days + 719_468, 146_097);
    doe := days + 719_468 - era * 146_097;
  }

  lemma CivilFromDaysIs(days: int) returns (y: int, mp: int, doy: int)
    ensures 0 <= mp <= 11 && 0 <= doy <= 365 && days == YearStart(y) + doy
    ensures doy == 365 ==> IsLeap(y + 1)
    ensures MonthOffset(mp) <= doy && (mp < 11 ==> doy < MonthOffset(mp + 1))
    ensures CivilFromDays(days)
         == Date(if mp >= 10 then y + 1 else y, if mp < 10 then mp + 3 else mp - 9, doy - MonthOffset(mp) + 1)
  {
    y, doy := CivilYearIs(days);
    mp := (5 * doy + 2) / 153;
    MonthOfYearSplits(doy);
  }

  /** Every day is a date that exists. */
  lemma CivilIsValid(days: int)
    ensures Valid(CivilFromDays(days))
  {
    var y, mp, doy := CivilFromDaysIs(days);
    MonthLengths(mp);
  }

  /** The parser's day count undoes the printer's date. */
  lemma DaysOfCivil(days: int)
    ensures DaysFromCivil(CivilFromDays(days)) == days
  {
    var y, mp, doy := CivilFromDaysIs(days);
    DaysFromCivilIs(CivilFromDays(days));
  }

  /** A later date of the calendar has a larger day count. */
  lemma LaterDateMoreDays(a: Date, b: Date)
    requires Valid(a) && Valid(b) && Before(a, b)
    ensures DaysFromCivil(a) < DaysFromCivil(b)
  {
    var ya, yb := if a.m <= 2 then a.y - 1 else a.y, if b.m <= 2 then b.y - 1 else b.y;
    var ma, mb := if a.m > 2 then a.m - 3 else a.m + 9, if b.m > 2 then b.m - 3 else b.m + 9;
    DaysFromCivilIs(a);
    DaysFromCivilIs(b);
    DayOfYearFits(a);
    DayOfYearFits(b);
    if ya < yb {
      YearStartsGrow(ya + 1, yb);
    } else {
      assert ya == yb;
    }
  }

  /** The days of a date's month lie before the next month, and those of its year before the next year. */
  lemma DayOfYearFits(t: Date)
    requires Valid(t)
    ensures var y := if t.m <= 2 then t.y - 1 else t.y;
            var mp := if t.m > 2 then t.m - 3 else t.m + 9;
            && 0 <= MonthOffset(mp) + t.d - 1 < YearStart(y + 1) - YearStart(y)
            && (mp < 11 ==> MonthOffset(mp) + t.d - 1 < MonthOffset(mp + 1))
  {
    var y := if t.m <= 2 then t.y - 1 else t.y;
    var mp := if t.m > 2 then t.m - 3 else t.m + 9;
    YearLengthIs(y);
    MonthLengths(mp);
  }

  lemma YearLengthIs(y: int)
    ensures YearStart(y + 1) - YearStart(y) == if IsLeap(y + 1) then 366 else 365
  {
    NextQuotient(y, 4);
    NextQuotient(y, 100);
    NextQuotient(y, 400);
    assert (y + 1) % 400 == 0 ==> (y + 1) % 100 == 0;
    assert (y + 1) % 100 == 0 ==> (y + 1) % 4 == 0;
  }

  lemma NextQuotient(y: int, b: int)
    requires b == 4 || b == 100 || b == 400
    ensures (y + 1) / b - y / b == if (y + 1) % b == 0 then 1 else 0
  {}

  lemma YearStartsGrow(a: int, b: int)
    requires a <= b
    ensures YearStart(a) <= YearStart(b)
    decreases b - a
  {
    if a < b {
      YearLengthIs(b - 1);
      YearStartsGrow(a, b - 1);
    }
  }

  lemma DatesAreOrdered(a: Date, b: Date)
    ensures Before(a, b) || a == b || Before(b, a)
  {}

  /** The printer's date undoes the parser's day count, on every date that exists. */
  lemma CivilOfDays(t: Date)
    requires Valid(t)
    ensures CivilFromDays(DaysFromCivil(t)) == t
  {
    var u := CivilFromDays(DaysFromCivil(t));
    CivilIsValid(DaysFromCivil(t));
    DaysOfCivil(DaysFromCivil(t));
    DatesAreOrdered(t, u);
    if Before(t, u) {
      LaterDateMoreDays(t, u);
    } else if Before(u, t) {
      LaterDateMoreDays(u, t);
    }
  }

  /** Day counts and dates have the same order. */
  lemma DatesFollowDays(a: int, b: int)
    ensures a < b <==> Before(CivilFromDays(a), CivilFromDays(b))
  {
    CivilIsValid(a);
    CivilIsValid(b);
    DaysOfCivil(a);
    DaysOfCivil(b);
    DatesAreOrdered(CivilFromDays(a), CivilFromDays(b));
    if Before(CivilFromDays(a), CivilFromDays(b)) {
      LaterDateMoreDays(CivilFromDays(a), CivilFromDays(b));
    }
    if Before(CivilFromDays(b), CivilFromDays(a)) {
      LaterDateMoreDays(CivilFromDays(b), CivilFromDays(a));
    }
  }

  /** Within a month, the next day is one later. */
  lemma NextInMonth(t: Date)
    ensures DaysFromCivil(t.(d := t.d + 1)) == DaysFromCivil(t) + 1
  {
    DaysFromCivilIs(t);
    DaysFromCivilIs(t.(d := t.d + 1));
  }

  /** From the last of a month to the first of the next one, in the same calendar year. */
  lemma NextMonthStarts(y: int, m: int)
    requires 1 <= m <= 11
    ensures DaysFromCivil(Date(y, m + 1, 1)) == DaysFromCivil(Date(y, m, DaysInMonth(y, m))) + 1
  {
    DaysFromCivilIs(Date(y, m + 1, 1));
    DaysFromCivilIs(Date(y, m, DaysInMonth(y, m)));
    MonthLengths(if m > 2 then m - 3 else m + 9);
    YearLengthIs(y - 1);
  }

  lemma NextYearStarts(y: int)
    ensures DaysFromCivil(Date(y + 1, 1, 1)) == DaysFromCivil(Date(y, 12, 31)) + 1
  {
    DaysFromCivilIs(Date(y + 1, 1, 1));
    DaysFromCivilIs(Date(y, 12, 31));
  }

  lemma NextDayIsOneLater(t: Date)
    requires Valid(t)
    ensures Valid(NextDay(t)) && DaysFromCivil(NextDay(t)) == DaysFromCivil(t) + 1
  {
    if t.d < DaysInMonth(t.y, t.m) {
      NextInMonth(t);
    } else if t.m < 12 {
      NextMonthStarts(t.y, t.m);
    } else {
      NextYearStarts(t.y);
    }
  }

  lemma TheEpoch()
    ensures CivilFromDays(0) == Date(1970, 1, 1)
  {
    DaysFromCivilIs(Date(1970, 1, 1));
    assert YearStart(1969) == -306 && MonthOffset(10) == 306;
    CivilOfDays(Date(1970, 1, 1));
  }

  lemma CivilAt(t: Date, days: int)
    requires Valid(t) && DaysFromCivil(t) == days
    ensures CivilFromDays(days) == t
  {
    CivilOfDays(t);
  }

  /** The closed form is the calendar: day 0 is the first of January 1970, and each day is followed by the
      next day of the Gregorian calendar. */
  lemma CivilIsTheCalendar(days: int)
    ensures CivilFromDays(0) == Date(1970, 1, 1)
    ensures CivilFromDays(days + 1) == NextDay(CivilFromDays(days))
  {
    TheEpoch();
    var today := CivilFromDays(days);
    CivilIsValid(days);
    DaysOfCivil(days);
    NextDayIsOneLater(today);
    CivilAt(NextDay(today), days + 1);
  }
}
