/** Calendar arithmetic and the date strings the dashboard parses.

    Instants are UTC milliseconds since 1970-01-01, as in ECMAScript time values.
    `new Date("YYYY-MM-DD")` (and its shorter forms `YYYY` and `YYYY-MM`) denotes UTC
    midnight; the same date followed by `THH:mm:ss` denotes local time, which is modelled
    as UTC shifted by a fixed offset in milliseconds (local = UTC + offset). A Firestore
    `Timestamp` holds instants from 0001-01-01 up to, not including, 10000-01-01. */
module Dates {
  import opened Wrappers
  import opened JsNumbers

  const MsPerDay: int := 86400000

  predicate IsLeapYear(y: int) {
    y % 4 == 0 && (y % 100 != 0 || y % 400 == 0)
  }

  function DaysInYear(y: int): (n: int)
    ensures n == 365 || n == 366
  {
    if IsLeapYear(y) then 366 else 365
  }

  function DaysInMonth(y: int, m: int): (n: int)
    requires 1 <= m <= 12
    ensures 28 <= n <= 31
  {
    if m == 2 then (if IsLeapYear(y) then 29 else 28)
    else if m == 4 || m == 6 || m == 9 || m == 11 then 30
    else 31
  }

  /** The day number (days since 1970-01-01) of the first day of year `y`
      (ECMAScript's DayFromYear; `/` on a positive divisor is floor division). */
  function DayFromYear(y: int): int {
    365 * (y - 1970) + (y - 1969) / 4 - (y - 1901) / 100 + (y - 1601) / 400
  }

  /** Days of year `y` before the first of month `m`. */
  function DaysBeforeMonth(y: int, m: int): (n: int)
    requires 1 <= m <= 12
    ensures 0 <= n && n + DaysInMonth(y, m) <= DaysInYear(y)
  {
    [0, 31, 59, 90, 120, 151, 181, 212, 243, 273, 304, 334][m - 1]
    + (if m > 2 && IsLeapYear(y) then 1 else 0)
  }

  /** A proleptic Gregorian calendar date. */
  datatype CivilDate = CivilDate(year: int, month: int, day: int)
  {
    predicate Valid() {
      1 <= month <= 12 && 1 <= day <= DaysInMonth(year, month)
    }

    /** Days since 1970-01-01. */
    function DayNumber(): int
      requires Valid()
    {
      DayFromYear(year) + DaysBeforeMonth(year, month) + day - 1
    }

    /** UTC midnight at the start of the date. */
    function Millis(): int
      requires Valid()
    {
      DayNumber() * MsPerDay
    }
  }

  /** Floor division by one of the calendar's divisors, characterised by its quotient
      and remainder. */
  lemma DivChar(a: int, k: int, q: int, r: int)
    requires k == 4 || k == 100 || k == 400
    requires a == k * q + r && 0 <= r < k
    ensures a / k == q && a % k == r
  {
    if k == 4 {
      assert a == 4 * q + r;
    } else if k == 100 {
      assert a == 100 * q + r;
    } else {
      assert a == 400 * q + r;
    }
  }

  /** The quotient of `a + 1` is one more than that of `a` exactly when `a + 1` is a
      multiple of the divisor. */
  lemma DivStep(a: int, k: int)
    requires k == 4 || k == 100 || k == 400
    ensures (a + 1) / k - a / k == if (a + 1) % k == 0 then 1 else 0
  {
    var q, r := a / k, a % k;
    DivChar(a, k, q, r);
    if r == k - 1 {
      DivChar(a + 1, k, q + 1, 0);
    } else {
      DivChar(a + 1, k, q, r + 1);
    }
  }

  /** Consecutive years are a year's length apart. */
  lemma DayFromYearStep(y: int)
    ensures DayFromYear(y + 1) == DayFromYear(y) + DaysInYear(y)
  {
    DivStep(y - 1969, 4);
    DivStep(y - 1901, 100);
    DivStep(y - 1601, 400);
    assert (y - 1968) % 4 == y % 4;
    assert (y - 1900) % 100 == y % 100;
    assert (y - 1600) % 400 == y % 400;
  }

  /** A later year starts on a later day. */
  lemma {:induction false} DayFromYearMonotone(a: int, b: int)
    requires a <= b
    ensures DayFromYear(a) + 365 * (b - a) <= DayFromYear(b)
    decreases b - a
  {
    if a < b {
      DayFromYearMonotone(a, b - 1);
      DayFromYearStep(b - 1);
    }
  }

  /** A valid date's day lies inside its year. */
  lemma DayNumberInYear(d: CivilDate)
    requires d.Valid()
    ensures DayFromYear(d.year) <= d.DayNumber() < DayFromYear(d.year + 1)
  {
    DayFromYearStep(d.year);
  }

  /** Earlier dates have smaller day numbers: the day number orders dates as the
      calendar does. */
  lemma {:induction false} DayNumberMonotone(d: CivilDate, e: CivilDate)
    requires d.Valid() && e.Valid()
    requires d.year < e.year || (d.year == e.year && d.month < e.month)
          || (d.year == e.year && d.month == e.month && d.day < e.day)
    ensures d.DayNumber() < e.DayNumber()
  {
    if d.year < e.year {
      DayNumberInYear(d);
      DayNumberInYear(e);
      DayFromYearMonotone(d.year + 1, e.year);
    } else if d.month < e.month {
      DaysBeforeMonthMonotone(d.year, d.month, e.month);
    }
  }

  /** Each month starts where the one before it ends. */
  lemma DaysBeforeMonthStep(y: int, m: int)
    requires 1 <= m < 12
    ensures DaysBeforeMonth(y, m + 1) == DaysBeforeMonth(y, m) + DaysInMonth(y, m)
  {
  }

  lemma {:induction false} DaysBeforeMonthMonotone(y: int, m: int, n: int)
    requires 1 <= m < n <= 12
    ensures DaysBeforeMonth(y, m) + DaysInMonth(y, m) <= DaysBeforeMonth(y, n)
    decreases n - m
  {
    DaysBeforeMonthStep(y, m);
    if m + 1 < n {
      DaysBeforeMonthMonotone(y, m + 1, n);
    }
  }

  // ---------------------------------------------------------------------------
  // Date strings

  /** Two digits and their value. */
  function TwoDigits(s: string): Option<int>
    requires |s| == 2
  {
    if AllDigits(s) then Some(NatValue(s)) else None
  }

  /** The ECMAScript date-only forms `YYYY`, `YYYY-MM` and `YYYY-MM-DD` (month and day
      default to 1); anything else, or a month or day out of range, is not a date.
      The expanded `+YYYYYY` years and the implementation-specific fallback formats are
      not part of this model. */
  function ParseCivil(s: string): (r: Option<CivilDate>)
    ensures r.Some? ==> r.value.Valid() && 0 <= r.value.year <= 9999
    ensures r.Some? ==> |s| == 4 || |s| == 7 || |s| == 10
  {
    if !(|s| == 4 || |s| == 7 || |s| == 10) || !AllDigits(s[..4]) then None
    else
      FourDigits(s[..4]);
      var year := NatValue(s[..4]);
      if |s| == 4 then Some(CivilDate(year, 1, 1))
      else if s[4] != '-' then None
      else
        match TwoDigits(s[5..7])
        case None => None
        case Some(month) =>
          if !(1 <= month <= 12) then None
          else if |s| == 7 then Some(CivilDate(year, month, 1))
          else if s[7] != '-' then None
          else
            match TwoDigits(s[8..10])
            case None => None
            case Some(day) =>
              if 1 <= day <= DaysInMonth(year, month) then Some(CivilDate(year, month, day)) else None
  }

  /** `new Date(s).getTime()` for a date-only string: UTC midnight, or None for an
      invalid date. */
  function ParseDate(s: string): (r: Option<int>)
  {
    match ParseCivil(s)
    case None => None
    case Some(d) => Some(d.Millis())
  }

  /** `new Date(`${s}T${h}:${m}:${sec}`)`: the same date, at a local time of day given in
      milliseconds after local midnight. */
  function ParseLocalDateTime(s: string, timeOfDay: int, offset: int): (r: Option<int>)
    ensures r.Some? <==> ParseDate(s).Some?
    ensures r.Some? ==> r.value == ParseDate(s).value + timeOfDay - offset
  {
    match ParseCivil(s)
    case None => None
    case Some(d) => Some(d.Millis() + timeOfDay - offset)
  }

  /** The text of a date in the `YYYY-MM-DD` form, with zero padding. */
  function FormatCivil(d: CivilDate): (s: string)
    requires d.Valid() && 0 <= d.year <= 9999
    ensures |s| == 10
  {
    [DigitChar(d.year / 1000), DigitChar(d.year / 100 % 10), DigitChar(d.year / 10 % 10),
     DigitChar(d.year % 10), '-', DigitChar(d.month / 10), DigitChar(d.month % 10), '-',
     DigitChar(d.day / 10), DigitChar(d.day % 10)]
  }

  lemma FourDigits(s: string)
    requires |s| == 4 && AllDigits(s)
    ensures NatValue(s) == 1000 * DigitValue(s[0]) + 100 * DigitValue(s[1]) + 10 * DigitValue(s[2]) + DigitValue(s[3])
  {
    assert s[..3][..2] == s[..2];
    assert s[..2][..1] == s[..1];
    assert s[..1][..0] == [];
    assert NatValue(s) == NatValue(s[..3]) * 10 + DigitValue(s[3]);
    assert NatValue(s[..3]) == NatValue(s[..2]) * 10 + DigitValue(s[2]);
    assert NatValue(s[..2]) == NatValue(s[..1]) * 10 + DigitValue(s[1]);
    assert NatValue(s[..1]) == DigitValue(s[0]);
  }

  lemma TwoDigitsValue(s: string)
    requires |s| == 2 && AllDigits(s)
    ensures TwoDigits(s) == Some(10 * DigitValue(s[0]) + DigitValue(s[1]))
  {
    assert s[..1][..0] == [];
    assert NatValue(s) == NatValue(s[..1]) * 10 + DigitValue(s[1]);
    assert NatValue(s[..1]) == DigitValue(s[0]);
  }

  /** The four decimal digits of a year between 0 and 9999 make up the year. */
  lemma YearDigits(y: int)
    requires 0 <= y <= 9999
    ensures 1000 * (y / 1000) + 100 * (y / 100 % 10) + 10 * (y / 10 % 10) + y % 10 == y
  {
    assert y == 10 * (y / 10) + y % 10;
    assert y / 10 == 10 * (y / 100) + y / 10 % 10;
    assert y / 100 == 10 * (y / 1000) + y / 100 % 10;
  }

  /** Round trip: every date from year 0 to 9999, written as `YYYY-MM-DD`, parses back. */
  lemma ParseFormatCivil(d: CivilDate)
    requires d.Valid() && 0 <= d.year <= 9999
    ensures ParseCivil(FormatCivil(d)) == Some(d)
  {
    var s := FormatCivil(d);
    assert AllDigits(s[..4]);
    assert NatValue(s[..4]) == d.year by {
      FourDigits(s[..4]);
      YearDigits(d.year);
    }
    assert TwoDigits(s[5..7]) == Some(d.month) by {
      TwoDigitsValue(s[5..7]);
    }
    assert TwoDigits(s[8..10]) == Some(d.day) by {
      TwoDigitsValue(s[8..10]);
    }
  }

  // ---------------------------------------------------------------------------
  // Firestore timestamps

  /** The earliest and one past the latest instant a Timestamp holds, in seconds. */
  const MinTimestampSeconds: int := -62135596800
  const EndTimestampSeconds: int := 253402300800

  /** `Timestamp.fromMillis(ms)` (and `fromDate`): the instant as a Timestamp, or None
      where the constructor throws because the seconds are out of range. The stored
      instant is kept as milliseconds. */
  function TimestampFromMillis(ms: int): (r: Option<int>)
    ensures r.Some? ==> r.value == ms
  {
    var seconds := ms / 1000;
    if seconds < MinTimestampSeconds || seconds >= EndTimestampSeconds then None else Some(ms)
  }

  /** The Timestamp range is exactly the years 0001 to 9999. */
  lemma TimestampRangeYears(d: CivilDate)
    requires d.Valid()
    ensures TimestampFromMillis(d.Millis()).Some? <==> 1 <= d.year <= 9999
  {
    DayNumberInYear(d);
    assert DayFromYear(1) * MsPerDay == MinTimestampSeconds * 1000;
    assert DayFromYear(10000) * MsPerDay == EndTimestampSeconds * 1000;
    if d.year < 1 {
      DayFromYearMonotone(d.year + 1, 1);
    } else if d.year > 9999 {
      DayFromYearMonotone(10000, d.year);
    } else {
      DayFromYearMonotone(1, d.year);
      DayFromYearMonotone(d.year + 1, 10000);
    }
  }

  /** A parsed date string converts to a Timestamp unless its year is 0000. */
  lemma ParsedDateTimestamp(s: string)
    requires ParseCivil(s).Some?
    ensures TimestampFromMillis(ParseDate(s).value).Some? <==> ParseCivil(s).value.year != 0
  {
    TimestampRangeYears(ParseCivil(s).value);
  }
}
