/**
 * Timestamps as the engine writes them: `datetime.now()` rendered with the
 * fixed-width pattern `%Y-%m-%d %H:%M:%S` and stored as SQLite TEXT.  The
 * retention delete compares these strings with `<`; this module proves that
 * the text order is the order of the moments they denote, and models the
 * `now - timedelta(hours = k)` used for the retention limit.
 */
module Timestamps {
  import opened Wrappers

  /** A naive (time-zone free) date and time, as Python's datetime holds it. */
  datatype DateTime = DateTime(year: int, month: int, day: int, hour: int, minute: int, second: int)

  predicate IsLeapYear(y: int) {
    y % 4 == 0 && (y % 100 != 0 || y % 400 == 0)
  }

  function DaysInMonth(y: int, m: int): int {
    if m == 2 then (if IsLeapYear(y) then 29 else 28)
    else if m == 4 || m == 6 || m == 9 || m == 11 then 30
    else 31
  }

  function DaysInYear(y: int): int {
    if IsLeapYear(y) then 366 else 365
  }

  /** The values Python's datetime admits (MINYEAR 1 to MAXYEAR 9999); whole seconds only. */
  predicate ValidDateTime(d: DateTime) {
    1 <= d.year <= 9999 && 1 <= d.month <= 12 && 1 <= d.day <= DaysInMonth(d.year, d.month) &&
    0 <= d.hour < 24 && 0 <= d.minute < 60 && 0 <= d.second < 60
  }

  /** Days in the whole years 1 .. y - 1. */
  function DaysBeforeYear(y: int): nat
    decreases y
  {
    if y <= 1 then 0 else DaysBeforeYear(y - 1) + DaysInYear(y - 1)
  }

  /** Days in the months 1 .. m - 1 of year y. */
  function DaysBeforeMonth(y: int, m: int): nat
    decreases m
  {
    if m <= 1 then 0 else DaysBeforeMonth(y, m - 1) + DaysInMonth(y, m - 1)
  }

  /** Whole days from 0001-01-01 to the date of d. */
  function DayIndex(d: DateTime): int {
    DaysBeforeYear(d.year) + DaysBeforeMonth(d.year, d.month) + d.day - 1
  }

  /** Seconds from 0001-01-01 00:00:00 to d: the time line on which "earlier" is meant. */
  function Seconds(d: DateTime): int {
    DayIndex(d) * 86400 + d.hour * 3600 + d.minute * 60 + d.second
  }

  /** Field-by-field order, most significant field first. */
  predicate FieldsBefore(a: DateTime, b: DateTime) {
    a.year < b.year || (a.year == b.year &&
    (a.month < b.month || (a.month == b.month &&
    (a.day < b.day || (a.day == b.day &&
    (a.hour < b.hour || (a.hour == b.hour &&
    (a.minute < b.minute || (a.minute == b.minute && a.second < b.second)))))))))
  }

  // ---------------------------------------------------------------------------
  // Calendar arithmetic

  lemma YearLength(y: int)
    ensures DaysBeforeMonth(y, 13) == DaysInYear(y)
  {
  }

  lemma {:induction false} MonthsMonotone(y: int, m1: int, m2: int)
    requires 1 <= m1 < m2
    ensures DaysBeforeMonth(y, m1) + DaysInMonth(y, m1) <= DaysBeforeMonth(y, m2)
    decreases m2
  {
    if m1 + 1 < m2 {
      MonthsMonotone(y, m1, m2 - 1);
    }
  }

  lemma {:induction false} YearsMonotone(y1: int, y2: int)
    requires 1 <= y1 < y2
    ensures DaysBeforeYear(y1) + DaysInYear(y1) <= DaysBeforeYear(y2)
    decreases y2
  {
    if y1 + 1 < y2 {
      YearsMonotone(y1, y2 - 1);
    }
  }

  /** The day of the year of a valid date lies inside its year. */
  lemma DayOfYearBound(d: DateTime)
    requires ValidDateTime(d)
    ensures DaysBeforeMonth(d.year, d.month) + d.day <= DaysInYear(d.year)
  {
    YearLength(d.year);
    if d.month < 12 {
      MonthsMonotone(d.year, d.month, 13);
    }
  }

  lemma DateBeforeDayIndex(a: DateTime, b: DateTime)
    requires ValidDateTime(a) && ValidDateTime(b)
    requires a.year < b.year || (a.year == b.year && (a.month < b.month || (a.month == b.month && a.day < b.day)))
    ensures DayIndex(a) < DayIndex(b)
  {
    if a.year < b.year {
      DayOfYearBound(a);
      YearsMonotone(a.year, b.year);
    } else if a.month < b.month {
      MonthsMonotone(a.year, a.month, b.month);
    }
  }

  /** Later fields can never outweigh an earlier one: field order implies time order. */
  lemma FieldsBeforeSeconds(a: DateTime, b: DateTime)
    requires ValidDateTime(a) && ValidDateTime(b) && FieldsBefore(a, b)
    ensures Seconds(a) < Seconds(b)
  {
    if a.year < b.year || (a.year == b.year && (a.month < b.month || (a.month == b.month && a.day < b.day))) {
      DateBeforeDayIndex(a, b);
    }
  }

  /** Chronological order of valid datetimes is the field-by-field order. */
  lemma ChronologicalIsFieldOrder(a: DateTime, b: DateTime)
    requires ValidDateTime(a) && ValidDateTime(b)
    ensures Seconds(a) < Seconds(b) <==> FieldsBefore(a, b)
    ensures Seconds(a) == Seconds(b) <==> a == b
  {
    if FieldsBefore(a, b) {
      FieldsBeforeSeconds(a, b);
    } else if FieldsBefore(b, a) {
      FieldsBeforeSeconds(b, a);
    }
  }

  // ---------------------------------------------------------------------------
  // Text order

  /**
   * `a < b` on SQLite TEXT (BINARY collation) and on Python `str`, for the
   * ASCII strings used here: the first differing character decides, and a
   * proper prefix is smaller.
   */
  predicate TextLess(a: string, b: string) {
    if |a| == 0 then |b| > 0
    else if |b| == 0 then false
    else if a[0] != b[0] then a[0] < b[0]
    else TextLess(a[1..], b[1..])
  }

  lemma {:induction false} TextLessIrreflexive(a: string)
    ensures !TextLess(a, a)
  {
    if |a| > 0 {
      TextLessIrreflexive(a[1..]);
    }
  }

  /** Any two texts are equal or one of them is the smaller. */
  lemma {:induction false} TextLessTotal(a: string, b: string)
    ensures a == b || TextLess(a, b) || TextLess(b, a)
  {
    if |a| > 0 && |b| > 0 && a[0] == b[0] {
      TextLessTotal(a[1..], b[1..]);
      assert a == [a[0]] + a[1..];
      assert b == [b[0]] + b[1..];
    }
  }

  lemma {:induction false} TextLessAsymmetric(a: string, b: string)
    ensures !(TextLess(a, b) && TextLess(b, a))
  {
    if |a| > 0 && |b| > 0 && a[0] == b[0] {
      TextLessAsymmetric(a[1..], b[1..]);
    }
  }

  lemma {:induction false} TextLessTransitive(a: string, b: string, c: string)
    requires TextLess(a, b) && TextLess(b, c)
    ensures TextLess(a, c)
  {
    if |a| > 0 && a[0] == b[0] && b[0] == c[0] {
      TextLessTransitive(a[1..], b[1..], c[1..]);
    }
  }

  /** Comparing two texts that start with pieces of equal length. */
  lemma {:induction false} TextLessConcat(a1: string, a2: string, b1: string, b2: string)
    requires |a1| == |a2|
    ensures TextLess(a1 + b1, a2 + b2) <==> TextLess(a1, a2) || (a1 == a2 && TextLess(b1, b2))
  {
    if |a1| == 0 {
      assert a1 + b1 == b1 && a2 + b2 == b2;
    } else {
      assert (a1 + b1)[0] == a1[0] && (a2 + b2)[0] == a2[0];
      assert (a1 + b1)[1..] == a1[1..] + b1;
      assert (a2 + b2)[1..] == a2[1..] + b2;
      assert a1 == [a1[0]] + a1[1..];
      assert a2 == [a2[0]] + a2[1..];
      TextLessConcat(a1[1..], a2[1..], b1, b2);
    }
  }

  // ---------------------------------------------------------------------------
  // `%Y-%m-%d %H:%M:%S`

  function Pow10(w: nat): nat {
    if w == 0 then 1 else 10 * Pow10(w - 1)
  }

  /** The `width` lowest decimal digits of n, zero-padded (`%04d`, `%02d`). */
  function Digits(n: int, width: nat): (s: string)
    ensures |s| == width
    ensures forall i :: 0 <= i < width ==> '0' <= s[i] <= '9'
    decreases width
  {
    if width == 0 then [] else Digits(n / 10, width - 1) + [(48 + n % 10) as char]
  }

  /** Zero-padded numbers of one width compare as text exactly as they compare as numbers. */
  lemma {:induction false} DigitsOrder(a: int, b: int, w: nat)
    requires 0 <= a < Pow10(w) && 0 <= b < Pow10(w)
    ensures TextLess(Digits(a, w), Digits(b, w)) <==> a < b
    ensures Digits(a, w) == Digits(b, w) <==> a == b
  {
    if w > 0 {
      var pa, pb := Digits(a / 10, w - 1), Digits(b / 10, w - 1);
      var ca, cb := (48 + a % 10) as char, (48 + b % 10) as char;
      DigitsOrder(a / 10, b / 10, w - 1);
      TextLessConcat(pa, pb, [ca], [cb]);
      assert TextLess([ca], [cb]) <==> ca < cb;
      SnocEquality(pa, pb, ca, cb);
      DecimalOrder(a, b);
    }
  }

  /** Numbers compare as their leading digits, then as their last digit. */
  lemma DecimalOrder(a: int, b: int)
    requires 0 <= a && 0 <= b
    ensures a < b <==> a / 10 < b / 10 || (a / 10 == b / 10 && a % 10 < b % 10)
    ensures a == b <==> a / 10 == b / 10 && a % 10 == b % 10
  {
    assert a == 10 * (a / 10) + a % 10;
    assert b == 10 * (b / 10) + b % 10;
  }

  lemma SnocEquality<T>(p: seq<T>, q: seq<T>, x: T, y: T)
    requires |p| == |q|
    ensures p + [x] == q + [y] <==> p == q && x == y
  {
    if p + [x] == q + [y] {
      assert p == (p + [x])[..|p|] && q == (q + [y])[..|q|];
      assert x == (p + [x])[|p|] && y == (q + [y])[|q|];
    }
  }

  /** `strftime("%Y-%m-%d %H:%M:%S")`, built from the right so each field can be peeled off. */
  function Format(d: DateTime): (s: string)
    ensures |s| == 19
  {
    Digits(d.year, 4) + MonthOnward(d)
  }

  function MonthOnward(d: DateTime): (s: string)
    ensures |s| == 15
  {
    "-" + Digits(d.month, 2) + DayOnward(d)
  }

  function DayOnward(d: DateTime): (s: string)
    ensures |s| == 12
  {
    "-" + Digits(d.day, 2) + HourOnward(d)
  }

  function HourOnward(d: DateTime): (s: string)
    ensures |s| == 9
  {
    " " + Digits(d.hour, 2) + MinuteOnward(d)
  }

  function MinuteOnward(d: DateTime): (s: string)
    ensures |s| == 6
  {
    ":" + Digits(d.minute, 2) + SecondOnward(d)
  }

  function SecondOnward(d: DateTime): (s: string)
    ensures |s| == 3
  {
    ":" + Digits(d.second, 2)
  }

  /** One separator-and-field step of the comparison of two formatted timestamps. */
  lemma FieldThen(sep: string, x: int, y: int, w: nat, s1: string, s2: string)
    requires 0 <= x < Pow10(w) && 0 <= y < Pow10(w)
    ensures TextLess(sep + Digits(x, w) + s1, sep + Digits(y, w) + s2) <==> x < y || (x == y && TextLess(s1, s2))
  {
    TextLessConcat(sep + Digits(x, w), sep + Digits(y, w), s1, s2);
    TextLessConcat(sep, sep, Digits(x, w), Digits(y, w));
    TextLessIrreflexive(sep);
    DigitsOrder(x, y, w);
    if sep + Digits(x, w) == sep + Digits(y, w) {
      assert Digits(x, w) == (sep + Digits(x, w))[|sep|..];
      assert Digits(y, w) == (sep + Digits(y, w))[|sep|..];
    }
  }

  lemma SecondOnwardOrder(a: DateTime, b: DateTime)
    requires ValidDateTime(a) && ValidDateTime(b)
    ensures TextLess(SecondOnward(a), SecondOnward(b)) <==> a.second < b.second
  {
    assert Pow10(2) == 100;
    FieldThen(":", a.second, b.second, 2, [], []);
    assert SecondOnward(a) == ":" + Digits(a.second, 2) + [];
    assert SecondOnward(b) == ":" + Digits(b.second, 2) + [];
  }

  lemma MinuteOnwardOrder(a: DateTime, b: DateTime)
    requires ValidDateTime(a) && ValidDateTime(b)
    ensures TextLess(MinuteOnward(a), MinuteOnward(b)) <==>
      a.minute < b.minute || (a.minute == b.minute && a.second < b.second)
  {
    assert Pow10(2) == 100;
    SecondOnwardOrder(a, b);
    FieldThen(":", a.minute, b.minute, 2, SecondOnward(a), SecondOnward(b));
  }

  lemma HourOnwardOrder(a: DateTime, b: DateTime)
    requires ValidDateTime(a) && ValidDateTime(b)
    ensures TextLess(HourOnward(a), HourOnward(b)) <==>
      a.hour < b.hour || (a.hour == b.hour && (a.minute < b.minute || (a.minute == b.minute && a.second < b.second)))
  {
    assert Pow10(2) == 100;
    MinuteOnwardOrder(a, b);
    FieldThen(" ", a.hour, b.hour, 2, MinuteOnward(a), MinuteOnward(b));
  }

  lemma DayOnwardOrder(a: DateTime, b: DateTime)
    requires ValidDateTime(a) && ValidDateTime(b)
    ensures TextLess(DayOnward(a), DayOnward(b)) <==>
      a.day < b.day || (a.day == b.day &&
      (a.hour < b.hour || (a.hour == b.hour && (a.minute < b.minute || (a.minute == b.minute && a.second < b.second)))))
  {
    assert Pow10(2) == 100;
    HourOnwardOrder(a, b);
    FieldThen("-", a.day, b.day, 2, HourOnward(a), HourOnward(b));
  }

  lemma MonthOnwardOrder(a: DateTime, b: DateTime)
    requires ValidDateTime(a) && ValidDateTime(b)
    ensures TextLess(MonthOnward(a), MonthOnward(b)) <==>
      a.month < b.month || (a.month == b.month && (a.day < b.day || (a.day == b.day &&
      (a.hour < b.hour || (a.hour == b.hour && (a.minute < b.minute || (a.minute == b.minute && a.second < b.second)))))))
  {
    assert Pow10(2) == 100;
    DayOnwardOrder(a, b);
    FieldThen("-", a.month, b.month, 2, DayOnward(a), DayOnward(b));
  }

  /** Formatted valid timestamps compare as text in field order. */
  lemma FormatOrder(a: DateTime, b: DateTime)
    requires ValidDateTime(a) && ValidDateTime(b)
    ensures TextLess(Format(a), Format(b)) <==> FieldsBefore(a, b)
  {
    MonthOnwardOrder(a, b);
    YearThen(a.year, b.year, MonthOnward(a), MonthOnward(b));
  }

  /** The leading year field, which has no separator before it. */
  lemma YearThen(x: int, y: int, s1: string, s2: string)
    requires 1 <= x <= 9999 && 1 <= y <= 9999
    ensures TextLess(Digits(x, 4) + s1, Digits(y, 4) + s2) <==> x < y || (x == y && TextLess(s1, s2))
  {
    assert Pow10(4) == 10000;
    FieldThen([], x, y, 4, s1, s2);
    assert [] + Digits(x, 4) == Digits(x, 4) && [] + Digits(y, 4) == Digits(y, 4);
  }

  /**
   * The fact the retention delete relies on: for valid datetimes, comparing
   * the formatted strings is comparing the moments.
   */
  lemma TextOrderIsChronological(a: DateTime, b: DateTime)
    requires ValidDateTime(a) && ValidDateTime(b)
    ensures TextLess(Format(a), Format(b)) <==> Seconds(a) < Seconds(b)
    ensures Format(a) == Format(b) <==> a == b
  {
    FormatOrder(a, b);
    FormatOrder(b, a);
    ChronologicalIsFieldOrder(a, b);
    ChronologicalIsFieldOrder(b, a);
    TextLessIrreflexive(Format(a));
  }

  // ---------------------------------------------------------------------------
  // `d - timedelta(hours = k)`

  /** The calendar day before the date of d (same time of day). */
  function PreviousDay(d: DateTime): DateTime {
    if d.day > 1 then d.(day := d.day - 1)
    else if d.month > 1 then d.(month := d.month - 1, day := DaysInMonth(d.year, d.month - 1))
    else d.(year := d.year - 1, month := 12, day := 31)
  }

  lemma PreviousDayIndex(d: DateTime)
    requires ValidDateTime(d) && !(d.year == 1 && d.month == 1 && d.day == 1)
    ensures ValidDateTime(PreviousDay(d))
    ensures DayIndex(PreviousDay(d)) == DayIndex(d) - 1
  {
  }

  /**
   * `d - timedelta(hours = k)` for k < 24: None where Python raises
   * OverflowError because the result would fall before 0001-01-01.
   */
  function HoursBefore(d: DateTime, k: nat): (r: Option<DateTime>)
    requires k < 24
    ensures ValidDateTime(d) ==> (r.None? <==> Seconds(d) < k * 3600)
    ensures ValidDateTime(d) && r.Some? ==> ValidDateTime(r.value) && Seconds(r.value) == Seconds(d) - k * 3600
  {
    if d.hour >= k then Some(d.(hour := d.hour - k))
    else if d.year == 1 && d.month == 1 && d.day == 1 then None
    else
      var p := PreviousDay(d);
      if ValidDateTime(d) then PreviousDayIndex(d); Some(p.(hour := d.hour + 24 - k))
      else Some(p.(hour := d.hour + 24 - k))
  }
}
