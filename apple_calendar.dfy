/**
 * The calendar arithmetic behind `datetime(2001, 1, 1) + timedelta(seconds=offset)` and
 * `isoformat()`: proleptic Gregorian dates, years 1 to 9999, whole seconds.
 */
module AppleCalendar {
  import opened Wrappers

  predicate IsLeap(y: int) {
    y % 4 == 0 && (y % 100 != 0 || y % 400 == 0)
  }

  function DaysInYear(y: int): nat {
    if IsLeap(y) then 366 else 365
  }

  function DaysInMonth(y: int, m: int): nat
    requires 1 <= m <= 12
  {
    if m == 2 then (if IsLeap(y) then 29 else 28)
    else if m == 4 || m == 6 || m == 9 || m == 11 then 30
    else 31
  }

  /** Days in the months of year `y` before month `m`. */
  function DaysBeforeMonth(y: int, m: int): nat
    requires 1 <= m <= 13
  {
    if m == 1 then 0 else DaysBeforeMonth(y, m - 1) + DaysInMonth(y, m - 1)
  }

  /** The twelve months fill the year. */
  lemma MonthsFillYear(y: int)
    ensures DaysBeforeMonth(y, 13) == DaysInYear(y)
  {
    var feb := DaysInMonth(y, 2);
    assert DaysBeforeMonth(y, 2) == 31;
    assert DaysBeforeMonth(y, 3) == 31 + feb;
    assert DaysBeforeMonth(y, 4) == 62 + feb;
    assert DaysBeforeMonth(y, 5) == 92 + feb;
    assert DaysBeforeMonth(y, 6) == 123 + feb;
    assert DaysBeforeMonth(y, 7) == 153 + feb;
    assert DaysBeforeMonth(y, 8) == 184 + feb;
    assert DaysBeforeMonth(y, 9) == 215 + feb;
    assert DaysBeforeMonth(y, 10) == 245 + feb;
    assert DaysBeforeMonth(y, 11) == 276 + feb;
    assert DaysBeforeMonth(y, 12) == 306 + feb;
    assert DaysBeforeMonth(y, 13) == 337 + feb;
  }

  /** Days from 0001-01-01 to the first of January of year `y`. */
  function DaysBeforeYear(y: int): int {
    var q := y - 1;
    365 * q + q / 4 - q / 100 + q / 400
  }

  /** Consecutive years are a year's length apart. */
  lemma YearStep(y: int)
    ensures DaysBeforeYear(y + 1) == DaysBeforeYear(y) + DaysInYear(y)
  {
    var q := y - 1;
    Div4Step(q);
    Div100Step(q);
    Div400Step(q);
    CenturiesAreLeapCandidates(y);
    var l4 := if y % 4 == 0 then 1 else 0;
    var l100 := if y % 100 == 0 then 1 else 0;
    var l400 := if y % 400 == 0 then 1 else 0;
    assert DaysBeforeYear(y + 1) - DaysBeforeYear(y) == 365 + l4 - l100 + l400;
  }

  /** Every multiple of 400 is a multiple of 100, and every multiple of 100 a multiple of 4. */
  lemma CenturiesAreLeapCandidates(y: int)
    ensures y % 400 == 0 ==> y % 100 == 0
    ensures y % 100 == 0 ==> y % 4 == 0
  {
    if y % 400 == 0 {
      var k := y / 400;
      assert y == 100 * (4 * k);
    }
    if y % 100 == 0 {
      var k := y / 100;
      assert y == 4 * (25 * k);
    }
  }

  /** Moving to the next integer raises the quotient by one exactly at a multiple of 4. */
  lemma Div4Step(q: int)
    ensures (q + 1) / 4 == q / 4 + (if (q + 1) % 4 == 0 then 1 else 0)
  {
  }

  /** The same for 100. */
  lemma Div100Step(q: int)
    ensures (q + 1) / 100 == q / 100 + (if (q + 1) % 100 == 0 then 1 else 0)
  {
  }

  /** The same for 400. */
  lemma Div400Step(q: int)
    ensures (q + 1) / 400 == q / 400 + (if (q + 1) % 400 == 0 then 1 else 0)
  {
  }

  /**
   * The year holding the day `rem` days after the first of January of `y`, and the day's
   * index within that year.
   */
  function Locate(y: int, rem: int): (r: (int, nat))
    ensures DaysBeforeYear(r.0) + r.1 == DaysBeforeYear(y) + rem
    ensures r.1 < DaysInYear(r.0)
    decreases (if rem < 0 then 1 else 0), (if rem < 0 then -rem else rem)
  {
    if rem < 0 then
      YearStep(y - 1);
      Locate(y - 1, rem + DaysInYear(y - 1))
    else if rem < DaysInYear(y) then (y, rem)
    else
      YearStep(y);
      Locate(y + 1, rem - DaysInYear(y))
  }

  /** The month and day of the month for the day with index `rem` counted from month `m` of year `y`. */
  function LocateMonth(y: int, m: int, rem: nat): (r: (int, int))
    requires 1 <= m <= 12
    requires rem < DaysBeforeMonth(y, 13) - DaysBeforeMonth(y, m)
    ensures 1 <= r.0 <= 12 && 1 <= r.1 <= DaysInMonth(y, r.0)
    ensures DaysBeforeMonth(y, r.0) + r.1 - 1 == DaysBeforeMonth(y, m) + rem
    decreases 13 - m
  {
    if rem < DaysInMonth(y, m) then (m, rem + 1)
    else
      LocateMonth(y, m + 1, rem - DaysInMonth(y, m))
  }

  datatype DateTime = DateTime(year: int, month: int, day: int, hour: int, minute: int, second: int)

  /** The date and time has valid fields, in the range `datetime` allows. */
  predicate Valid(t: DateTime) {
    && 1 <= t.year <= 9999
    && 1 <= t.month <= 12
    && 1 <= t.day <= DaysInMonth(t.year, t.month)
    && 0 <= t.hour < 24 && 0 <= t.minute < 60 && 0 <= t.second < 60
  }

  /** Seconds from 2001-01-01T00:00:00 to `t`. */
  function SecondsSinceEpoch(t: DateTime): int
    requires 1 <= t.month <= 12
  {
    (DaysBeforeYear(t.year) + DaysBeforeMonth(t.year, t.month) + t.day - 1 - DaysBeforeYear(2001)) * 86400
      + t.hour * 3600 + t.minute * 60 + t.second
  }

  /**
   * `datetime(2001, 1, 1) + timedelta(seconds=offset)`: `None` when the result falls outside
   * years 1 to 9999 (`OverflowError`).
   */
  function FromOffset(offset: int): (r: Option<DateTime>)
    ensures r.Some? ==> Valid(r.value)
  {
    var days, secs := offset / 86400, offset % 86400;
    var (y, dayOfYear) := Locate(2001, days);
    if !(1 <= y <= 9999) then None
    else
      MonthsFillYear(y);
      var (m, d) := LocateMonth(y, 1, dayOfYear);
      Some(DateTime(y, m, d, secs / 3600, secs % 3600 / 60, secs % 60))
  }

  /** The converted time is exactly `offset` seconds after the epoch. */
  lemma FromOffsetRoundTrip(offset: int)
    requires FromOffset(offset).Some?
    ensures SecondsSinceEpoch(FromOffset(offset).value) == offset
  {
    var days, secs := offset / 86400, offset % 86400;
    var (y, dayOfYear) := Locate(2001, days);
    MonthsFillYear(y);
    var (m, d) := LocateMonth(y, 1, dayOfYear);
    var t := FromOffset(offset).value;
    assert t == DateTime(y, m, d, secs / 3600, secs % 3600 / 60, secs % 60);
    assert DaysBeforeYear(y) + DaysBeforeMonth(y, m) + d - 1 - DaysBeforeYear(2001) == days;
    ClockSplit(secs);
    assert offset == days * 86400 + secs;
  }

  /** Hours, minutes and seconds of a time of day add back up to it. */
  lemma ClockSplit(secs: int)
    requires 0 <= secs < 86400
    ensures secs / 3600 * 3600 + secs % 3600 / 60 * 60 + secs % 60 == secs
  {
  }

  /** Seconds from the epoch back to 0001-01-01T00:00:00, the earliest `datetime`. */
  const MinOffset: int := -63113904000

  /** Seconds from the epoch to 9999-12-31T23:59:59, the latest `datetime` with no fraction. */
  const MaxOffset: int := 252423993599

  /** The two bounds are the offsets of the first and the last second `datetime` can hold. */
  lemma RangeEnds()
    ensures Valid(DateTime(1, 1, 1, 0, 0, 0)) && SecondsSinceEpoch(DateTime(1, 1, 1, 0, 0, 0)) == MinOffset
    ensures Valid(DateTime(9999, 12, 31, 23, 59, 59)) && SecondsSinceEpoch(DateTime(9999, 12, 31, 23, 59, 59)) == MaxOffset
  {
    assert DaysBeforeMonth(9999, 12) == 334 by { MonthsFillYear(9999); }
  }

  /** Later years start later, by at least 365 days a year. */
  lemma {:induction false} DaysBeforeYearGrows(a: int, b: int)
    requires a <= b
    ensures DaysBeforeYear(a) + 365 * (b - a) <= DaysBeforeYear(b)
    decreases b - a
  {
    if a < b {
      YearStep(a);
      DaysBeforeYearGrows(a + 1, b);
    }
  }

  /** The day `days` after the epoch falls in year 1 or later exactly when it is not before 0001-01-01. */
  lemma LocatedAfterYearZero(days: int)
    ensures 1 <= Locate(2001, days).0 <==> days >= -730485
  {
    var (y, d) := Locate(2001, days);
    if y < 1 {
      YearStep(y);
      DaysBeforeYearGrows(y + 1, 1);
    } else {
      DaysBeforeYearGrows(1, y);
    }
  }

  /** The day `days` after the epoch falls in year 9999 or earlier exactly when it is before 10000-01-01. */
  lemma LocatedBeforeYear10000(days: int)
    ensures Locate(2001, days).0 <= 9999 <==> days < 2921574
  {
    var (y, d) := Locate(2001, days);
    if y > 9999 {
      DaysBeforeYearGrows(10000, y);
    } else {
      YearStep(y);
      DaysBeforeYearGrows(y + 1, 10000);
    }
  }

  /**
   * The conversion fails (`OverflowError`) exactly for the offsets before 0001-01-01T00:00:00
   * or after 9999-12-31T23:59:59.
   */
  lemma FromOffsetRange(offset: int)
    ensures FromOffset(offset).None? <==> offset < MinOffset || offset > MaxOffset
  {
    var days := offset / 86400;
    LocatedAfterYearZero(days);
    LocatedBeforeYear10000(days);
    assert offset == days * 86400 + offset % 86400;
  }

  function Digit(d: int): char
    requires 0 <= d < 10
  {
    (('0' as int) + d) as char
  }

  predicate IsDigit(c: char) {
    '0' <= c <= '9'
  }

  /** The value of a decimal digit. */
  function DigitValue(c: char): int {
    c as int - '0' as int
  }

  /** The number a string of decimal digits spells, most significant digit first. */
  function Decimal(s: string): int {
    if s == [] then 0 else Decimal(s[..|s| - 1]) * 10 + DigitValue(s[|s| - 1])
  }

  /** A two-digit string reads as ten times its first digit plus its second. */
  lemma Decimal2(s: string)
    requires |s| == 2
    ensures Decimal(s) == DigitValue(s[0]) * 10 + DigitValue(s[1])
  {
    var empty: string := [];
    assert s[..1][..0] == empty;
    assert Decimal(s[..1]) == Decimal(empty) * 10 + DigitValue(s[0]);
  }

  /** Appending a digit shifts the number one place. */
  lemma DecimalPush(s: string, c: char)
    ensures Decimal(s + [c]) == Decimal(s) * 10 + DigitValue(c)
  {
    assert (s + [c])[..|s|] == s;
  }

  /** Appending two digits shifts the number two places. */
  lemma DecimalAppend2(a: string, b: string)
    requires |b| == 2
    ensures Decimal(a + b) == Decimal(a) * 100 + Decimal(b)
  {
    assert a + b == (a + [b[0]]) + [b[1]];
    DecimalPush(a + [b[0]], b[1]);
    DecimalPush(a, b[0]);
    Decimal2(b);
  }

  /** `n` in two digits, with a leading zero. */
  function Pad2(n: int): (s: string)
    requires 0 <= n < 100
    ensures |s| == 2 && IsDigit(s[0]) && IsDigit(s[1])
    ensures Decimal(s) == n
  {
    var s := [Digit(n / 10), Digit(n % 10)];
    Decimal2(s);
    s
  }

  /** `n` in four digits, with leading zeros: its hundreds, then the rest, two digits each. */
  function Pad4(n: int): (s: string)
    requires 0 <= n < 10000
    ensures |s| == 4 && forall k :: 0 <= k < 4 ==> IsDigit(s[k])
    ensures Decimal(s) == n
  {
    var hi, lo := Pad2(n / 100), Pad2(n % 100);
    DecimalAppend2(hi, lo);
    hi + lo
  }

  /** `isoformat()` of a time with no fraction of a second: `YYYY-MM-DDTHH:MM:SS`. */
  function Iso(t: DateTime): string
    requires Valid(t)
  {
    Pad4(t.year) + "-" + Pad2(t.month) + "-" + Pad2(t.day) + "T" + Pad2(t.hour) + ":" + Pad2(t.minute) + ":" + Pad2(t.second)
  }

  /** The fixed `YYYY-MM-DDTHH:MM:SS` layout: separators in their places, digits everywhere else. */
  predicate IsoLayout(s: string) {
    && |s| == 19
    && s[4] == '-' && s[7] == '-' && s[10] == 'T' && s[13] == ':' && s[16] == ':'
    && forall k :: 0 <= k < 19 && k != 4 && k != 7 && k != 10 && k != 13 && k != 16 ==> IsDigit(s[k])
  }

  /** Reads a `YYYY-MM-DDTHH:MM:SS` text back into its fields; `None` when the layout is not that one. */
  function ParseIso(s: string): Option<DateTime> {
    if !IsoLayout(s) then None
    else Some(DateTime(Decimal(s[0..4]), Decimal(s[5..7]), Decimal(s[8..10]), Decimal(s[11..13]), Decimal(s[14..16]), Decimal(s[17..19])))
  }

  /** The text has the fixed layout, and its fields read back as the date and time's own. */
  lemma IsoRoundTrip(t: DateTime)
    requires Valid(t)
    ensures IsoLayout(Iso(t))
    ensures ParseIso(Iso(t)) == Some(t)
  {
    var s := Iso(t);
    assert s[0..4] == Pad4(t.year);
    assert s[5..7] == Pad2(t.month);
    assert s[8..10] == Pad2(t.day);
    assert s[11..13] == Pad2(t.hour);
    assert s[14..16] == Pad2(t.minute);
    assert s[17..19] == Pad2(t.second);
  }

  /** A digit character is the digit of its value. */
  lemma DigitOfValue(c: char)
    requires IsDigit(c)
    ensures 0 <= DigitValue(c) < 10 && Digit(DigitValue(c)) == c
  {
  }

  /** Padding gives back the two digits a number was read from. */
  lemma Pad2OfDecimal(s: string)
    requires |s| == 2 && IsDigit(s[0]) && IsDigit(s[1])
    ensures 0 <= Decimal(s) < 100 && Pad2(Decimal(s)) == s
  {
    Decimal2(s);
    DigitOfValue(s[0]);
    DigitOfValue(s[1]);
  }

  /** Padding gives back the four digits a number was read from. */
  lemma Pad4OfDecimal(s: string)
    requires |s| == 4 && forall k :: 0 <= k < 4 ==> IsDigit(s[k])
    ensures 0 <= Decimal(s) < 10000 && Pad4(Decimal(s)) == s
  {
    var hi, lo := s[..2], s[2..];
    assert s == hi + lo;
    Pad2OfDecimal(hi);
    Pad2OfDecimal(lo);
    DecimalAppend2(hi, lo);
    var n := Decimal(s);
    assert n / 100 == Decimal(hi) && n % 100 == Decimal(lo);
  }

  /** Conversely, a text in the layout whose fields form a valid time is that time's rendering. */
  lemma ParseIsoRoundTrip(s: string)
    requires ParseIso(s).Some? && Valid(ParseIso(s).value)
    ensures Iso(ParseIso(s).value) == s
  {
    Pad4OfDecimal(s[0..4]);
    Pad2OfDecimal(s[5..7]);
    Pad2OfDecimal(s[8..10]);
    Pad2OfDecimal(s[11..13]);
    Pad2OfDecimal(s[14..16]);
    Pad2OfDecimal(s[17..19]);
    assert s == s[0..4] + "-" + s[5..7] + "-" + s[8..10] + "T" + s[11..13] + ":" + s[14..16] + ":" + s[17..19];
  }
}
