/** UTC timestamps as the tables store them: section 5.6 of RFC 3339 in whole seconds, compared as
    text by the database. An instant is a number of seconds since 0000-01-01T00:00:00Z in the
    proleptic Gregorian calendar. */
module Rfc3339 {
  import opened Text

  const DAY := 86400

  predicate Leap(y: int) {
    y % 4 == 0 && (y % 100 != 0 || y % 400 == 0)
  }

  function DaysBeforeYear(y: int): int {
    365 * y + (y + 3) / 4 - (y + 99) / 100 + (y + 399) / 400
  }

  function DaysInMonth(y: int, m: int): int {
    if m == 2 then (if Leap(y) then 29 else 28)
    else if m == 4 || m == 6 || m == 9 || m == 11 then 30
    else 31
  }

  function DaysBeforeMonth(y: int, m: int): int
    requires 1 <= m <= 13
    decreases m
  {
    if m == 1 then 0 else DaysBeforeMonth(y, m - 1) + DaysInMonth(y, m - 1)
  }

  datatype Civil = Civil(year: int, month: int, day: int, hour: int, minute: int, second: int)

  predicate Valid(c: Civil) {
    && 0 <= c.year
    && 1 <= c.month <= 12
    && 1 <= c.day <= DaysInMonth(c.year, c.month)
    && 0 <= c.hour < 24 && 0 <= c.minute < 60 && 0 <= c.second < 60
  }

  function SecondOfDay(c: Civil): int {
    c.hour * 3600 + c.minute * 60 + c.second
  }

  function DayNumber(c: Civil): int
    requires Valid(c)
  {
    DaysBeforeYear(c.year) + DaysBeforeMonth(c.year, c.month) + c.day - 1
  }

  function Instant(c: Civil): int
    requires Valid(c)
  {
    DayNumber(c) * DAY + SecondOfDay(c)
  }

  // ---------------------------------------------------------------------------
  // The calendar is an order isomorphism
  // ---------------------------------------------------------------------------

  lemma FourthYear(y: int)
    ensures (y + 4) / 4 - (y + 3) / 4 == if y % 4 == 0 then 1 else 0
  {
  }

  lemma HundredthYear(y: int)
    ensures (y + 100) / 100 - (y + 99) / 100 == if y % 100 == 0 then 1 else 0
  {
  }

  lemma FourHundredthYear(y: int)
    ensures (y + 400) / 400 - (y + 399) / 400 == if y % 400 == 0 then 1 else 0
  {
  }

  lemma LeapDivisors(y: int)
    ensures y % 100 == 0 ==> y % 4 == 0
    ensures y % 400 == 0 ==> y % 100 == 0
  {
    assert y % 100 == 0 ==> y == 4 * (25 * (y / 100));
    assert y % 400 == 0 ==> y == 100 * (4 * (y / 400));
  }

  lemma DaysAdded(y: int, a: int, b: int, c: int)
    requires (y + 4) / 4 - (y + 3) / 4 == a && (y + 100) / 100 - (y + 99) / 100 == b && (y + 400) / 400 - (y + 399) / 400 == c
    ensures DaysBeforeYear(y + 1) - DaysBeforeYear(y) == 365 + a - b + c
  {
    assert (y + 1 + 3) / 4 == (y + 4) / 4 && (y + 1 + 99) / 100 == (y + 100) / 100 && (y + 1 + 399) / 400 == (y + 400) / 400;
  }

  lemma YearStep(y: int)
    ensures DaysBeforeYear(y + 1) - DaysBeforeYear(y) == if Leap(y) then 366 else 365
  {
    FourthYear(y);
    HundredthYear(y);
    FourHundredthYear(y);
    LeapDivisors(y);
    DaysAdded(y, if y % 4 == 0 then 1 else 0, if y % 100 == 0 then 1 else 0, if y % 400 == 0 then 1 else 0);
  }

  lemma {:induction false} YearsGrow(y: int, z: int)
    requires y <= z
    ensures DaysBeforeYear(y) + 365 * (z - y) <= DaysBeforeYear(z)
    decreases z - y
  {
    if y < z {
      YearStep(y);
      YearsGrow(y + 1, z);
    }
  }

  lemma {:induction false} MonthsGrow(y: int, m: int, n: int)
    requires 1 <= m <= n <= 13
    ensures DaysBeforeMonth(y, m) + 28 * (n - m) <= DaysBeforeMonth(y, n)
    decreases n - m
  {
    if m < n {
      MonthsGrow(y, m, n - 1);
    }
  }

  lemma YearLength(y: int)
    ensures DaysBeforeMonth(y, 13) == if Leap(y) then 366 else 365
  {
    var l := if Leap(y) then 1 else 0;
    assert DaysBeforeMonth(y, 3) == 59 + l;
    assert DaysBeforeMonth(y, 5) == 120 + l;
    assert DaysBeforeMonth(y, 7) == 181 + l;
    assert DaysBeforeMonth(y, 9) == 243 + l;
    assert DaysBeforeMonth(y, 11) == 304 + l;
  }

  /** A date lies within its month and its year. */
  lemma DayWithinYear(c: Civil)
    requires Valid(c)
    ensures DaysBeforeYear(c.year) + DaysBeforeMonth(c.year, c.month) <= DayNumber(c)
    ensures DayNumber(c) < DaysBeforeYear(c.year) + DaysBeforeMonth(c.year, c.month + 1)
    ensures DayNumber(c) < DaysBeforeYear(c.year + 1)
  {
    MonthsGrow(c.year, c.month + 1, 13);
    YearLength(c.year);
    YearStep(c.year);
  }

  predicate DateBefore(a: Civil, b: Civil) {
    a.year < b.year
    || (a.year == b.year && (a.month < b.month || (a.month == b.month && a.day < b.day)))
  }

  predicate Before(a: Civil, b: Civil) {
    DateBefore(a, b)
    || (a.year == b.year && a.month == b.month && a.day == b.day && SecondOfDay(a) < SecondOfDay(b))
  }

  lemma DatesGrow(a: Civil, b: Civil)
    requires Valid(a) && Valid(b) && DateBefore(a, b)
    ensures DayNumber(a) < DayNumber(b)
  {
    if a.year < b.year {
      YearsApart(a, b);
    } else if a.month < b.month {
      MonthsApart(a, b);
    }
  }

  lemma YearsApart(a: Civil, b: Civil)
    requires Valid(a) && Valid(b) && a.year < b.year
    ensures DayNumber(a) < DayNumber(b)
  {
    DayWithinYear(a);
    DayWithinYear(b);
    YearsGrow(a.year + 1, b.year);
    MonthsGrow(b.year, 1, b.month);
  }

  lemma MonthsApart(a: Civil, b: Civil)
    requires Valid(a) && Valid(b) && a.year == b.year && a.month < b.month
    ensures DayNumber(a) < DayNumber(b)
  {
    DayWithinYear(a);
    MonthsGrow(a.year, a.month + 1, b.month);
  }

  lemma SecondOfDayRange(c: Civil)
    requires Valid(c)
    ensures 0 <= SecondOfDay(c) < DAY
  {
  }

  lemma InstantsGrow(a: Civil, b: Civil)
    requires Valid(a) && Valid(b) && Before(a, b)
    ensures Instant(a) < Instant(b)
  {
    SecondOfDayRange(a);
    SecondOfDayRange(b);
    if DateBefore(a, b) {
      DatesGrow(a, b);
      assert DayNumber(a) + 1 <= DayNumber(b);
    }
  }

  lemma SecondOfDayInjective(a: Civil, b: Civil)
    requires Valid(a) && Valid(b) && SecondOfDay(a) == SecondOfDay(b)
    ensures a.hour == b.hour && a.minute == b.minute && a.second == b.second
  {
    assert a.hour == SecondOfDay(a) / 3600 && b.hour == SecondOfDay(b) / 3600;
  }

  /** Later on the calendar is later in time, both ways. */
  lemma InstantOrder(a: Civil, b: Civil)
    requires Valid(a) && Valid(b)
    ensures Instant(a) < Instant(b) <==> Before(a, b)
    ensures Instant(a) == Instant(b) <==> a == b
  {
    if Before(a, b) {
      InstantsGrow(a, b);
    } else if Before(b, a) {
      InstantsGrow(b, a);
    } else {
      SecondOfDayInjective(a, b);
    }
  }

  function YearFrom(y: int, d: int): (r: int)
    requires DaysBeforeYear(y) <= d
    ensures y <= r && DaysBeforeYear(r) <= d < DaysBeforeYear(r + 1)
    decreases d - DaysBeforeYear(y)
  {
    YearStep(y);
    if d < DaysBeforeYear(y + 1) then y else YearFrom(y + 1, d)
  }

  function MonthFrom(y: int, m: int, d: int): (r: int)
    requires 1 <= m <= 12 && DaysBeforeMonth(y, m) <= d < DaysBeforeMonth(y, 13)
    ensures 1 <= r <= 12 && DaysBeforeMonth(y, r) <= d < DaysBeforeMonth(y, r + 1)
    decreases 12 - m
  {
    if m == 12 || d < DaysBeforeMonth(y, m + 1) then m else MonthFrom(y, m + 1, d)
  }

  /** Midnight of the d-th day. */
  function DateOf(d: nat): (c: Civil)
    ensures Valid(c) && DayNumber(c) == d && SecondOfDay(c) == 0
  {
    var y := YearFrom(0, d);
    YearLength(y);
    YearStep(y);
    var dayOfYear := d - DaysBeforeYear(y);
    var m := MonthFrom(y, 1, dayOfYear);
    Civil(y, m, dayOfYear - DaysBeforeMonth(y, m) + 1, 0, 0, 0)
  }

  lemma ClockReading(c: Civil, s: int)
    requires Valid(c) && 0 <= s < DAY
    ensures var c' := c.(hour := s / 3600, minute := s % 3600 / 60, second := s % 60);
            Valid(c') && SecondOfDay(c') == s && DayNumber(c') == DayNumber(c)
  {
  }

  /** The calendar reading of an instant. */
  function CivilOf(t: nat): (c: Civil)
    ensures Valid(c) && Instant(c) == t
  {
    var s := t % DAY;
    ClockReading(DateOf(t / DAY), s);
    DateOf(t / DAY).(hour := s / 3600, minute := s % 3600 / 60, second := s % 60)
  }

  // ---------------------------------------------------------------------------
  // Text
  // ---------------------------------------------------------------------------

  function Two(n: int): string
    requires 0 <= n < 100
  {
    [Digit(n / 10), Digit(n % 10)]
  }

  /** Four digits, or more when the year needs them. */
  function YearText(y: nat): string {
    if y < 10000 then Two(y / 100) + Two(y % 100) else Decimal(y)
  }

  function DateText(c: Civil): string
    requires Valid(c)
  {
    YearText(c.year) + "-" + Two(c.month) + "-" + Two(c.day)
  }

  function TimeText(c: Civil): string
    requires Valid(c)
  {
    Two(c.hour) + ":" + Two(c.minute) + ":" + Two(c.second)
  }

  /** The stored form of a timestamp. */
  function Stamp(t: nat): string {
    DateText(CivilOf(t)) + "T" + TimeText(CivilOf(t)) + "Z"
  }

  /** The form used inside archive clauses. */
  function DateTime(t: nat): string {
    DateText(CivilOf(t)) + " " + TimeText(CivilOf(t))
  }

  /** The database's byte-wise text comparison. */
  predicate TextLess(a: string, b: string) {
    b != "" && (a == "" || a[0] < b[0] || (a[0] == b[0] && TextLess(a[1..], b[1..])))
  }

  /** Comparing field by field: equal-width prefixes decide unless they are equal. */
  lemma {:induction false} TextLessFields(p: string, x: string, q: string, y: string)
    requires |p| == |q|
    ensures TextLess(p + x, q + y) <==> TextLess(p, q) || (p == q && TextLess(x, y))
  {
    if p == "" {
      assert p + x == x && q + y == y;
    } else {
      assert (p + x)[1..] == p[1..] + x && (q + y)[1..] == q[1..] + y;
      TextLessFields(p[1..], x, q[1..], y);
    }
  }

  lemma TwoOrder(a: int, b: int)
    requires 0 <= a < 100 && 0 <= b < 100
    ensures TextLess(Two(a), Two(b)) <==> a < b
    ensures Two(a) == Two(b) <==> a == b
  {
    var p, q := Two(a), Two(b);
    assert p[1..] == [Digit(a % 10)] && q[1..] == [Digit(b % 10)];
    assert TextLess(p[1..], q[1..]) <==> a % 10 < b % 10 by {
      assert p[1..][1..] == "" && q[1..][1..] == "";
    }
    assert p[0] == Digit(a / 10) && q[0] == Digit(b / 10);
  }

  lemma {:induction false} DecimalGrows(a: nat, b: nat)
    requires a <= b
    ensures |Decimal(a)| <= |Decimal(b)|
  {
    if a >= 10 {
      DecimalGrows(a / 10, b / 10);
    }
  }

  /** Decimal texts of one length are ordered as their numbers. */
  lemma {:induction false} DecimalOrder(a: nat, b: nat)
    requires |Decimal(a)| == |Decimal(b)|
    ensures TextLess(Decimal(a), Decimal(b)) <==> a < b
    ensures Decimal(a) == Decimal(b) <==> a == b
  {
    if a < 10 {
      assert b < 10;
      assert [Digit(a)][1..] == "" && [Digit(b)][1..] == "";
    } else {
      assert b >= 10;
      DecimalOrder(a / 10, b / 10);
      DigitOrder(Decimal(a / 10), Decimal(b / 10), a % 10, b % 10);
    }
  }

  lemma DigitOrder(p: string, q: string, a: int, b: int)
    requires |p| == |q| && 0 <= a < 10 && 0 <= b < 10
    ensures TextLess(p + [Digit(a)], q + [Digit(b)]) <==> TextLess(p, q) || (p == q && a < b)
    ensures p + [Digit(a)] == q + [Digit(b)] <==> p == q && a == b
  {
    TextLessFields(p, [Digit(a)], q, [Digit(b)]);
    assert [Digit(a)][1..] == "" && [Digit(b)][1..] == "";
    if p + [Digit(a)] == q + [Digit(b)] {
      assert (p + [Digit(a)])[..|p|] == p && (q + [Digit(b)])[..|p|] == q;
      assert (p + [Digit(a)])[|p|] == Digit(a) && (q + [Digit(b)])[|p|] == Digit(b);
    }
  }

  lemma DecimalSteps(y: nat)
    requires 1000 <= y < 10000
    ensures Decimal(y) == Two(y / 100) + Two(y % 100)
  {
    var a, b := y / 10, y / 100;
    LastDigit(y);
    LastDigit(a);
    LastDigit(b);
    assert a / 10 == b && a % 10 == y % 100 / 10 && y % 10 == y % 100 % 10;
    assert Decimal(b / 10) == [Digit(b / 10)];
    assert Decimal(b) == Two(b);
  }

  lemma LastDigit(n: nat)
    requires n >= 10
    ensures Decimal(n) == Decimal(n / 10) + [Digit(n % 10)]
  {
  }

  /** Years from 1000 on are written as numbers; four digits suffice before 10000 only. */
  lemma YearDigits(y: nat)
    ensures y >= 1000 ==> YearText(y) == Decimal(y)
    ensures if y < 10000 then |YearText(y)| == 4 else |YearText(y)| > 4
    ensures AllDigits(YearText(y))
  {
    if 1000 <= y < 10000 {
      DecimalSteps(y);
    }
    if y >= 10000 {
      DecimalSteps(1000);
      DecimalGrows(1000, y / 10);
    }
  }

  /** Year texts of one length are ordered as the years. */
  lemma YearTextOrder(a: nat, b: nat)
    requires |YearText(a)| == |YearText(b)|
    ensures TextLess(YearText(a), YearText(b)) <==> a < b
    ensures YearText(a) == YearText(b) <==> a == b
  {
    YearDigits(a);
    YearDigits(b);
    if a < 10000 {
      YearOrder(a, b);
    } else {
      DecimalOrder(a, b);
    }
  }

  lemma YearOrder(a: int, b: int)
    requires 0 <= a < 10000 && 0 <= b < 10000
    ensures TextLess(YearText(a), YearText(b)) <==> a < b
    ensures YearText(a) == YearText(b) <==> a == b
  {
    TwoOrder(a / 100, b / 100);
    TwoOrder(a % 100, b % 100);
    TextLessFields(Two(a / 100), Two(a % 100), Two(b / 100), Two(b % 100));
    if YearText(a) == YearText(b) {
      assert YearText(a)[..2] == Two(a / 100) && YearText(b)[..2] == Two(b / 100);
      assert YearText(a)[2..] == Two(a % 100) && YearText(b)[2..] == Two(b % 100);
    }
  }

  lemma TextLessIrreflexive(a: string)
    ensures !TextLess(a, a)
  {
  }

  /** One more two-digit field after equal-width text. */
  lemma FieldOrder(p: string, q: string, sep: string, a: int, b: int)
    requires |p| == |q| && 0 <= a < 100 && 0 <= b < 100
    ensures TextLess(p + sep + Two(a), q + sep + Two(b)) <==> TextLess(p, q) || (p == q && a < b)
    ensures p + sep + Two(a) == q + sep + Two(b) <==> p == q && a == b
  {
    TwoOrder(a, b);
    TextLessFields(p + sep, Two(a), q + sep, Two(b));
    TextLessFields(p, sep, q, sep);
    TextLessIrreflexive(sep);
    if p + sep + Two(a) == q + sep + Two(b) {
      assert (p + sep + Two(a))[..|p|] == p && (q + sep + Two(b))[..|q|] == q;
      assert (p + sep + Two(a))[|p| + |sep|..] == Two(a) && (q + sep + Two(b))[|p| + |sep|..] == Two(b);
    }
    if p + sep == q + sep {
      assert (p + sep)[..|p|] == p && (q + sep)[..|q|] == q;
    }
  }

  lemma DateOrder(a: Civil, b: Civil)
    requires Valid(a) && Valid(b) && |YearText(a.year)| == |YearText(b.year)|
    ensures |DateText(a)| == |DateText(b)| == |YearText(a.year)| + 6
    ensures TextLess(DateText(a), DateText(b)) <==> DateBefore(a, b)
    ensures DateText(a) == DateText(b) <==> a.year == b.year && a.month == b.month && a.day == b.day
  {
    YearTextOrder(a.year, b.year);
    FieldOrder(YearText(a.year), YearText(b.year), "-", a.month, b.month);
    FieldOrder(YearText(a.year) + "-" + Two(a.month), YearText(b.year) + "-" + Two(b.month), "-", a.day, b.day);
  }

  predicate ClockBefore(a: Civil, b: Civil) {
    a.hour < b.hour
    || (a.hour == b.hour && (a.minute < b.minute || (a.minute == b.minute && a.second < b.second)))
  }

  lemma ClockOrder(a: Civil, b: Civil)
    requires Valid(a) && Valid(b)
    ensures ClockBefore(a, b) <==> SecondOfDay(a) < SecondOfDay(b)
    ensures |TimeText(a)| == |TimeText(b)| == 8
    ensures TextLess(TimeText(a), TimeText(b)) <==> SecondOfDay(a) < SecondOfDay(b)
  {
    TwoOrder(a.hour, b.hour);
    FieldOrder(Two(a.hour), Two(b.hour), ":", a.minute, b.minute);
    FieldOrder(Two(a.hour) + ":" + Two(a.minute), Two(b.hour) + ":" + Two(b.minute), ":", a.second, b.second);
  }

  predicate InTextRange(t: int) {
    0 <= t < DaysBeforeYear(10000) * DAY
  }

  lemma RangeIsFourDigitYears(t: nat)
    ensures InTextRange(t) <==> CivilOf(t).year < 10000
  {
    var c := CivilOf(t);
    DayWithinYear(c);
    SecondOfDayRange(c);
    if c.year < 10000 {
      YearsGrow(c.year + 1, 10000);
      assert DayNumber(c) + 1 <= DaysBeforeYear(10000);
    } else {
      YearsGrow(10000, c.year);
      MonthsGrow(c.year, 1, c.month);
    }
  }

  lemma CivilTextOrder(a: Civil, b: Civil)
    requires Valid(a) && Valid(b) && |YearText(a.year)| == |YearText(b.year)|
    ensures TextLess(DateText(a) + "T" + TimeText(a) + "Z", DateText(b) + "T" + TimeText(b) + "Z") <==> Before(a, b)
  {
    DateOrder(a, b);
    ClockOrder(a, b);
    var da, db, ta, tb := DateText(a), DateText(b), TimeText(a), TimeText(b);
    assert da + "T" + ta + "Z" == da + ("T" + (ta + "Z"));
    assert db + "T" + tb + "Z" == db + ("T" + (tb + "Z"));
    TextLessFields(da, "T" + (ta + "Z"), db, "T" + (tb + "Z"));
    TextLessFields("T", ta + "Z", "T", tb + "Z");
    TextLessFields(ta, "Z", tb, "Z");
    TextLessIrreflexive("T");
    TextLessIrreflexive("Z");
  }

  lemma SameWidthOrder(a: nat, b: nat)
    requires |YearText(CivilOf(a).year)| == |YearText(CivilOf(b).year)|
    ensures TextLess(Stamp(a), Stamp(b)) <==> a < b
    ensures Stamp(a) == Stamp(b) <==> a == b
  {
    CivilTextOrder(CivilOf(a), CivilOf(b));
    CivilTextOrder(CivilOf(b), CivilOf(a));
    InstantOrder(CivilOf(a), CivilOf(b));
    InstantOrder(CivilOf(b), CivilOf(a));
    TextLessIrreflexive(Stamp(a));
  }

  /** Text order of stored timestamps is time order, for all instants of the years 0000 to 9999. */
  lemma StampOrder(a: nat, b: nat)
    requires InTextRange(a) && InTextRange(b)
    ensures TextLess(Stamp(a), Stamp(b)) <==> a < b
    ensures Stamp(a) == Stamp(b) <==> a == b
  {
    RangeIsFourDigitYears(a);
    RangeIsFourDigitYears(b);
    YearDigits(CivilOf(a).year);
    YearDigits(CivilOf(b).year);
    SameWidthOrder(a, b);
  }

  // ---------------------------------------------------------------------------
  // Beyond the year 9999
  // ---------------------------------------------------------------------------

  /** The year that the first n digits of a year's text spell. */
  function Leading(y: nat, n: nat): nat {
    if y < 10000 || |YearText(y)| <= n then y else Leading(y / 10, n)
  }

  lemma {:induction false} LeadingPrefix(y: nat, n: nat)
    requires 4 <= n <= |YearText(y)|
    ensures YearText(y)[..n] == YearText(Leading(y, n))
  {
    YearDigits(y);
    if |YearText(y)| > n {
      YearDigits(y / 10);
      LeadingPrefix(y / 10, n);
    }
  }

  /** All that follows the year. */
  function Tail(t: nat): string {
    "-" + Two(CivilOf(t).month) + "-" + Two(CivilOf(t).day) + "T" + TimeText(CivilOf(t)) + "Z"
  }

  lemma StampParts(t: nat)
    ensures Stamp(t) == YearText(CivilOf(t).year) + Tail(t) && Tail(t) != "" && Tail(t)[0] == '-'
  {
    Regroup(YearText(CivilOf(t).year), Two(CivilOf(t).month), Two(CivilOf(t).day), TimeText(CivilOf(t)));
  }

  lemma Regroup(y: string, m: string, d: string, w: string)
    ensures y + "-" + m + "-" + d + "T" + w + "Z" == y + ("-" + m + "-" + d + "T" + w + "Z")
  {
  }

  /** A shorter year text sorts first exactly when it does not exceed the same number of leading digits:
      the dash after it sorts before every digit. */
  lemma ShorterYearOrder(p: string, x: string, q: string, y: string)
    requires |p| < |q| && x != "" && x[0] == '-' && IsDigit(q[|p|])
    ensures TextLess(p + x, q + y) <==> TextLess(p, q[..|p|]) || p == q[..|p|]
  {
    var n := |p|;
    assert q + y == q[..n] + (q[n..] + y);
    TextLessFields(p, x, q[..n], q[n..] + y);
    assert (q[n..] + y)[0] == q[n];
  }

  /** When two stored timestamps compare as their instants do, for all instants: the earlier sorts first
      if and only if its year is at most the equally long beginning of the later year. */
  lemma StampOrderIff(early: nat, late: nat)
    requires early < late
    ensures TextLess(Stamp(early), Stamp(late))
       <==> CivilOf(early).year <= Leading(CivilOf(late).year, |YearText(CivilOf(early).year)|)
  {
    var y, z := CivilOf(early).year, CivilOf(late).year;
    InstantOrder(CivilOf(early), CivilOf(late));
    YearWidthGrows(y, z);
    if |YearText(y)| == |YearText(z)| {
      SameWidthOrder(early, late);
      YearDigits(z);
    } else {
      StampParts(early);
      StampParts(late);
      YearDigits(y);
      YearDigits(z);
      LeadingPrefix(z, |YearText(y)|);
      YearTextOrder(y, Leading(z, |YearText(y)|));
      ShorterYearOrder(YearText(y), Tail(early), YearText(z), Tail(late));
    }
  }

  lemma YearWidthGrows(y: nat, z: nat)
    requires y <= z
    ensures |YearText(y)| <= |YearText(z)|
  {
    YearDigits(y);
    YearDigits(z);
    DecimalGrows(y, z);
  }

  /** An instant of a four-digit year against one of a five-digit year: the last digit is not looked at. */
  lemma FiveDigitYears(early: nat, late: nat)
    requires CivilOf(early).year < 10000 <= CivilOf(late).year < 100000
    ensures early < late
    ensures TextLess(Stamp(early), Stamp(late)) <==> CivilOf(early).year <= CivilOf(late).year / 10
  {
    InstantOrder(CivilOf(early), CivilOf(late));
    StampOrderIff(early, late);
    YearDigits(CivilOf(early).year);
    YearDigits(CivilOf(late).year);
    YearDigits(CivilOf(late).year / 10);
  }

  /** Of two texts exactly one sorts first unless they are equal. */
  lemma {:induction false} TextTotal(a: string, b: string)
    ensures TextLess(a, b) || a == b || TextLess(b, a)
    ensures !(TextLess(a, b) && TextLess(b, a))
  {
    if a != "" && b != "" && a[0] == b[0] {
      TextTotal(a[1..], b[1..]);
      assert a == [a[0]] + a[1..] && b == [b[0]] + b[1..];
    }
  }

  lemma {:induction false} TextTransitive(a: string, b: string, c: string)
    requires !TextLess(b, a) && !TextLess(c, b)
    ensures !TextLess(c, a)
    decreases |a| + |b| + |c|
  {
    if a != "" && b != "" && c != "" && a[0] == b[0] == c[0] {
      TextTransitive(a[1..], b[1..], c[1..]);
    }
  }

  // ---------------------------------------------------------------------------
  // Reading a stored timestamp back
  // ---------------------------------------------------------------------------

  datatype Parsed = Time(instant: int) | Malformed

  function TwoValue(s: string): int
    requires |s| == 2 && IsDigit(s[0]) && IsDigit(s[1])
  {
    (s[0] as int - '0' as int) * 10 + (s[1] as int - '0' as int)
  }

  predicate DigitsAt(s: string, i: nat) {
    i + 2 <= |s| && IsDigit(s[i]) && IsDigit(s[i + 1])
  }

  predicate WellShaped(s: string) {
    && |s| == 20
    && DigitsAt(s, 0) && DigitsAt(s, 2) && s[4] == '-' && DigitsAt(s, 5) && s[7] == '-' && DigitsAt(s, 8)
    && s[10] == 'T'
    && DigitsAt(s, 11) && s[13] == ':' && DigitsAt(s, 14) && s[16] == ':' && DigitsAt(s, 17)
    && s[19] == 'Z'
  }

  function CivilFromText(s: string): Civil
    requires WellShaped(s)
  {
    Civil(TwoValue(s[0..2]) * 100 + TwoValue(s[2..4]), TwoValue(s[5..7]), TwoValue(s[8..10]),
          TwoValue(s[11..13]), TwoValue(s[14..16]), TwoValue(s[17..19]))
  }

  /** Parsing the fixed-width UTC form in whole seconds. */
  function Parse(s: string): Parsed {
    if WellShaped(s) && Valid(CivilFromText(s)) then Time(Instant(CivilFromText(s))) else Malformed
  }

  lemma TwoRoundTrip(n: int)
    requires 0 <= n < 100
    ensures TwoValue(Two(n)) == n
  {
  }

  lemma CivilText(c: Civil, s: string)
    requires Valid(c) && c.year < 10000
    requires s == DateText(c) + "T" + TimeText(c) + "Z"
    ensures WellShaped(s)
    ensures s[0..2] == Two(c.year / 100) && s[2..4] == Two(c.year % 100)
    ensures s[5..7] == Two(c.month) && s[8..10] == Two(c.day)
    ensures s[11..13] == Two(c.hour) && s[14..16] == Two(c.minute) && s[17..19] == Two(c.second)
  {
  }

  lemma CivilRoundTrip(c: Civil, s: string)
    requires Valid(c) && c.year < 10000
    requires s == DateText(c) + "T" + TimeText(c) + "Z"
    ensures WellShaped(s) && CivilFromText(s) == c
  {
    CivilText(c, s);
    TwoRoundTrip(c.year / 100);
    TwoRoundTrip(c.year % 100);
    TwoRoundTrip(c.month);
    TwoRoundTrip(c.day);
    TwoRoundTrip(c.hour);
    TwoRoundTrip(c.minute);
    TwoRoundTrip(c.second);
  }

  /** Parsing inverts formatting. */
  lemma StampRoundTrip(t: nat)
    requires InTextRange(t)
    ensures Parse(Stamp(t)) == Time(t)
  {
    RangeIsFourDigitYears(t);
    CivilRoundTrip(CivilOf(t), Stamp(t));
  }

  /** Years of more than four digits cannot be read back. */
  lemma ReadableIff(t: nat)
    ensures Parse(Stamp(t)) == if InTextRange(t) then Time(t) else Malformed
  {
    if InTextRange(t) {
      StampRoundTrip(t);
    } else {
      RangeIsFourDigitYears(t);
      YearDigits(CivilOf(t).year);
      assert |Stamp(t)| == |YearText(CivilOf(t).year)| + 16;
    }
  }

  // ---------------------------------------------------------------------------
  // Comparing any two stored timestamps
  // ---------------------------------------------------------------------------

  /** The guard of `StampOrderIff`, for two instants in either order. */
  predicate ComparesRight(a: nat, b: nat) {
    var early, late := if a <= b then a else b, if a <= b then b else a;
    CivilOf(early).year <= Leading(CivilOf(late).year, |YearText(CivilOf(early).year)|)
  }

  /** The textual comparison of two stored timestamps, for all instants. */
  lemma AtLeastIff(a: nat, b: nat)
    requires a != b
    ensures !TextLess(Stamp(a), Stamp(b)) <==> (a > b <==> ComparesRight(a, b))
  {
    TextTotal(Stamp(a), Stamp(b));
    StampOrderIff(if a <= b then a else b, if a <= b then b else a);
    if Stamp(a) == Stamp(b) {
      StampInjective(a, b);
    }
  }

  /** The same text is the same second, whatever the year. */
  lemma StampInjective(a: nat, b: nat)
    requires Stamp(a) == Stamp(b)
    ensures a == b
  {
    StampParts(a);
    StampParts(b);
    StampLength(a);
    StampLength(b);
    SameWidthOrder(a, b);
  }

  lemma StampLength(t: nat)
    ensures |Stamp(t)| == |YearText(CivilOf(t).year)| + 16
  {
  }

  /** In particular every instant of the years 10000 to 19999 sorts before every one of 2000 to 9999. */
  lemma StampOrderFailsAfter9999(early: nat, late: nat)
    requires 2000 <= CivilOf(early).year < 10000 <= CivilOf(late).year < 20000
    ensures early < late && TextLess(Stamp(late), Stamp(early))
  {
    FiveDigitYears(early, late);
    TextTotal(Stamp(early), Stamp(late));
    if Stamp(early) == Stamp(late) {
      StampInjective(early, late);
    }
  }

  // ---------------------------------------------------------------------------
  // The calendar and its text in plain numbers
  // ---------------------------------------------------------------------------

  /** Thirty days hath September. */
  predicate IsMonthLength(y: int, m: int, n: int) {
    (m in {1, 3, 5, 7, 8, 10, 12} && n == 31) || (m in {4, 6, 9, 11} && n == 30)
    || (m == 2 && n == if (y % 4 == 0 && y % 100 != 0) || y % 400 == 0 then 29 else 28)
  }

  lemma SameInstant(a: Civil, b: Civil)
    requires Valid(a) && Valid(b) && Instant(a) == Instant(b)
    ensures a == b
  {
    InstantOrder(a, b);
    InstantOrder(b, a);
    SecondOfDayInjective(a, b);
  }

  lemma MonthLength(y: int, m: int, n: int)
    requires 1 <= m <= 12 && IsMonthLength(y, m, n)
    ensures n == DaysInMonth(y, m)
  {
  }

  function Next(c: Civil, length: int): Civil {
    if c.day < length then c.(day := c.day + 1)
    else if c.month < 12 then c.(month := c.month + 1, day := 1)
    else c.(year := c.year + 1, month := 1, day := 1)
  }

  lemma NextNumber(c: Civil)
    requires Valid(c)
    ensures var d := Next(c, DaysInMonth(c.year, c.month));
            Valid(d) && DayNumber(d) == DayNumber(c) + 1 && SecondOfDay(d) == SecondOfDay(c)
  {
    YearLength(c.year);
    YearStep(c.year);
    if c.day == DaysInMonth(c.year, c.month) {
      assert DaysBeforeMonth(c.year, c.month + 1) == DaysBeforeMonth(c.year, c.month) + DaysInMonth(c.year, c.month);
    }
  }

  lemma OneDayLater(c: Civil, d: Civil, u: Civil)
    requires Valid(c) && Valid(d) && Valid(u)
    requires DayNumber(d) == DayNumber(c) + 1 && SecondOfDay(d) == SecondOfDay(c) && Instant(u) == Instant(c) + 86400
    ensures u == d
  {
    assert Instant(d) == Instant(c) + 86400;
    SameInstant(d, u);
  }

  /** A day later the clock shows the same, and the date is the next one of its month, or the first of
      the next month, or New Year's Day. */
  lemma NextDay(t: nat, u: nat, c: Civil, length: int)
    requires u == t + 86400 && c == CivilOf(t) && IsMonthLength(c.year, c.month, length)
    ensures CivilOf(u) == if c.day < length then c.(day := c.day + 1)
                          else if c.month < 12 then c.(month := c.month + 1, day := 1)
                          else c.(year := c.year + 1, month := 1, day := 1)
  {
    Tomorrow(c, CivilOf(u), length);
  }

  lemma Tomorrow(c: Civil, d: Civil, length: int)
    requires Valid(c) && Valid(d) && Instant(d) == Instant(c) + 86400 && IsMonthLength(c.year, c.month, length)
    ensures d == if c.day < length then c.(day := c.day + 1)
                 else if c.month < 12 then c.(month := c.month + 1, day := 1)
                 else c.(year := c.year + 1, month := 1, day := 1)
  {
    MonthLength(c.year, c.month, length);
    NextNumber(c);
    OneDayLater(c, Next(c, length), d);
  }

  lemma NewYear(y: nat, days: nat, c: Civil)
    requires c == Civil(y, 1, 1, 0, 0, 0) && days == 365 * y + (y + 3) / 4 - (y + 99) / 100 + (y + 399) / 400
    ensures Valid(c) && Instant(c) == days * 86400
  {
  }

  /** The usual epoch lies 62167219200 seconds after the start of the year 0. */
  lemma Epoch(t: nat)
    requires t == 62_167_219_200
    ensures CivilOf(t) == Civil(1970, 1, 1, 0, 0, 0)
  {
    NewYear(1970, 719_528, Civil(1970, 1, 1, 0, 0, 0));
    SameInstant(CivilOf(t), Civil(1970, 1, 1, 0, 0, 0));
  }

  /** Within a day the clock counts hours, minutes and seconds. */
  lemma ClockMeaning(t: nat)
    ensures var c := CivilOf(t); c.hour * 3600 + c.minute * 60 + c.second == t % 86400
  {
    var c := CivilOf(t);
    SecondOfDayRange(c);
    assert t == DayNumber(c) * 86400 + SecondOfDay(c);
  }

  predicate ReadsTwo(s: string, i: nat, n: int) {
    && i + 1 < |s| && 48 <= s[i] as int <= 57 && 48 <= s[i + 1] as int <= 57
    && n == (s[i] as int - 48) * 10 + (s[i + 1] as int - 48)
  }

  /** The stored text of a four-digit year: YYYY-MM-DDThh:mm:ssZ. */
  lemma StampMeaning(t: nat)
    requires InTextRange(t)
    ensures var s, c := Stamp(t), CivilOf(t);
            && |s| == 20 && s[4] == '-' && s[7] == '-' && s[10] == 'T' && s[13] == ':' && s[16] == ':' && s[19] == 'Z'
            && ReadsTwo(s, 0, c.year / 100) && ReadsTwo(s, 2, c.year % 100) && ReadsTwo(s, 5, c.month) && ReadsTwo(s, 8, c.day)
            && ReadsTwo(s, 11, c.hour) && ReadsTwo(s, 14, c.minute) && ReadsTwo(s, 17, c.second)
  {
    var s, c := Stamp(t), CivilOf(t);
    RangeIsFourDigitYears(t);
    CivilText(c, s);
    TwoMeaning(s, 0, c.year / 100);
    TwoMeaning(s, 2, c.year % 100);
    TwoMeaning(s, 5, c.month);
    TwoMeaning(s, 8, c.day);
    TwoMeaning(s, 11, c.hour);
    TwoMeaning(s, 14, c.minute);
    TwoMeaning(s, 17, c.second);
  }

  lemma TwoMeaning(s: string, i: nat, n: int)
    requires i + 2 <= |s| && 0 <= n < 100 && s[i..i + 2] == Two(n)
    ensures ReadsTwo(s, i, n)
  {
    assert s[i] == Two(n)[0] && s[i + 1] == Two(n)[1];
  }
}
