/** The dashboard's reporting period: two optional `YYYY-MM-DD` texts from the header's
    date inputs, read as the start of the first day and the last second of the last
    day in the browser's time zone. */
module Periods {
  import opened Wrappers
  import opened Dates

  /** One end of the period: none (empty input), an instant in UTC milliseconds, or an
      invalid Date, which every comparison rejects. */
  datatype Bound = Unbounded | At(millis: int) | InvalidBound

  /** 23:59:59 as milliseconds since midnight. */
  const EndOfDay: int := 86399000

  /** `date ? new Date(`${date}T<time>`) : null`, with `offset` the time zone's offset
      from UTC in milliseconds (local time is UTC plus `offset`). */
  function DayBound(date: string, timeOfDay: int, offset: int): (b: Bound)
    ensures b.Unbounded? <==> date == ""
    ensures b.At? ==> ParseDate(date).Some? && b.millis == ParseDate(date).value + timeOfDay - offset
    ensures b.InvalidBound? <==> date != "" && ParseDate(date).None?
  {
    if date == "" then Unbounded
    else match ParseLocalDateTime(date, timeOfDay, offset)
      case None => InvalidBound
      case Some(ms) => At(ms)
  }

  /** `!start || when >= start`. */
  predicate AfterStart(when: int, start: Bound) {
    match start
    case Unbounded => true
    case At(a) => when >= a
    case InvalidBound => false
  }

  /** `!end || when <= end`. */
  predicate BeforeEnd(when: int, end: Bound) {
    match end
    case Unbounded => true
    case At(b) => when <= b
    case InvalidBound => false
  }

  /** The instant lies in the period the two inputs select. */
  predicate InPeriod(when: int, startDate: string, endDate: string, offset: int) {
    AfterStart(when, DayBound(startDate, 0, offset)) && BeforeEnd(when, DayBound(endDate, EndOfDay, offset))
  }

  /** With valid inputs the period is the inclusive range from local midnight of the
      start day to local 23:59:59 of the end day; an invalid input admits nothing. */
  lemma InPeriodRange(when: int, startDate: string, endDate: string, offset: int)
    ensures startDate != "" && ParseDate(startDate).None? ==> !InPeriod(when, startDate, endDate, offset)
    ensures endDate != "" && ParseDate(endDate).None? ==> !InPeriod(when, startDate, endDate, offset)
    ensures ParseDate(startDate).Some? && ParseDate(endDate).Some? ==>
      (InPeriod(when, startDate, endDate, offset) <==>
        ParseDate(startDate).value - offset <= when <= ParseDate(endDate).value + EndOfDay - offset)
  {
    if ParseDate(startDate).Some? {
      ParseCivilShape(startDate);
    }
    if ParseDate(endDate).Some? {
      ParseCivilShape(endDate);
    }
  }

  /** A parsed date text is never empty. */
  lemma ParseCivilShape(s: string)
    requires ParseDate(s).Some?
    ensures s != ""
  {
  }

  /** A date stored as UTC midnight of day `s` (what `new Date(s)` gives for a date-only
      text) falls outside the period of that same day when the browser is behind UTC. */
  lemma UtcMidnightBeforeLocalDay(s: string, offset: int)
    requires ParseDate(s).Some? && offset < 0
    ensures !InPeriod(ParseDate(s).value, s, s, offset)
  {
    ParseCivilShape(s);
  }

  /** The date the import evidently means to store: midnight of day `s` in the browser's
      own time zone, as the period's bounds read it. It lies in the period of its own day
      whatever the offset. */
  lemma LocalMidnightInOwnDay(s: string, offset: int)
    requires ParseDate(s).Some?
    ensures DayBound(s, 0, offset) == At(ParseDate(s).value - offset)
    ensures InPeriod(ParseDate(s).value - offset, s, s, offset)
  {
    ParseCivilShape(s);
  }
}
