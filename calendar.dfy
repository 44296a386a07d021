/**
 * The proleptic Gregorian calendar of Go's `time` package, in UTC, on Unix
 * seconds: a day number to its civil date and back, and `AddDate(years, 0, 0)`
 * as the refresh-token expiry uses it.
 */
module Calendar {
  import opened Domain

  const SecondsPerDay: int := 86400

  datatype Date = Date(year: int, month: int, day: int)

  predicate IsLeap(y: int)
  {
    y % 4 == 0 && (y % 100 != 0 || y % 400 == 0)
  }

  /**
   * Days from 1970-01-01 to the 1st of March of year `y`, counting in
   * 400-year eras of 146097 days, each year from March so that the leap day
   * comes last.
   */
  function MarchFirst(y: int): int
  {
    var era := y / 400;
    var yoe := y - era * 400;
    era * 146097 + yoe * 365 + yoe / 4 - yoe / 100 - 719468
  }

  /**
   * Days from 1970-01-01 to year `y`, month `m`, day `d`: January and
   * February count in the March-based year before. A day past the end of its
   * month counts on into the next one, which is how `time.Date` normalises it.
   */
  function DaysFromCivil(y: int, m: int, d: int): int
  {
    var mp := if m > 2 then m - 3 else m + 9;
    MarchFirst(if m <= 2 then y - 1 else y) + (153 * mp + 2) / 5 + d - 1
  }

  /** The civil date of day `z` since 1970-01-01. */
  function CivilFromDays(z: int): Date
  {
    var z' := z + 719468;
    var era := z' / 146097;
    var doe := z' - era * 146097;
    var yoe := (doe - doe / 1460 + doe / 36524 - doe / 146096) / 365;
    var y := yoe + era * 400;
    var doy := doe - (365 * yoe + yoe / 4 - yoe / 100);
    var mp := (5 * doy + 2) / 153;
    var d := doy - (153 * mp + 2) / 5 + 1;
    var m := if mp < 10 then mp + 3 else mp - 9;
    Date(if m <= 2 then y + 1 else y, m, d)
  }

  /**
   * `t.AddDate(n, 0, 0)` in UTC: the same month, day and time of day `n`
   * years on; a 29 February in a year that is not leap becomes 1 March.
   */
  function AddYears(t: Time, n: int): (r: Time)
    ensures r % SecondsPerDay == t % SecondsPerDay
  {
    var date := CivilFromDays(t / SecondsPerDay);
    var days := DaysFromCivil(date.year + n, date.month, date.day);
    DayAndTime(days, t % SecondsPerDay);
    days * SecondsPerDay + t % SecondsPerDay
  }

  /** A day count and a time of day within it are recovered from the seconds they make. */
  lemma DayAndTime(days: int, r: int)
    requires 0 <= r < SecondsPerDay
    ensures (days * SecondsPerDay + r) % SecondsPerDay == r
  {
  }

  /** 2024-01-01 00:00:00 UTC a thousand years on is 3024-01-01. */
  lemma NewYearThousandYearsOn()
    ensures AddYears(1704067200, 1000) == 33260976000
  {
    assert 1704067200 / SecondsPerDay == 19723 && 1704067200 % SecondsPerDay == 0;
    NewYear2024();
    NewYear3024();
  }

  /** Day 19723 is 2024-01-01. */
  lemma NewYear2024()
    ensures CivilFromDays(19723) == Date(2024, 1, 1)
  {
    assert 739191 / 146097 == 5 && 8706 / 1460 == 5 && 8706 / 36524 == 0 && 8701 / 365 == 23;
    assert 23 / 4 == 5 && 23 / 100 == 0 && 1532 / 153 == 10 && 1532 / 5 == 306;
  }

  /** 3024-01-01 is day 384965. */
  lemma NewYear3024()
    ensures DaysFromCivil(3024, 1, 1) == 384965
  {
  }

  /**
   * 2000-02-29 a thousand years on is 3000-03-01, since 3000 is not leap:
   * the 29th of February of 3000 is day 376259, the 1st of March.
   */
  lemma LeapDayThousandYearsOn()
    ensures !IsLeap(3000)
    ensures AddYears(951782400, 1000) == 32508777600 == DaysFromCivil(3000, 3, 1) * SecondsPerDay
  {
    assert 951782400 / SecondsPerDay == 11016 && 951782400 % SecondsPerDay == 0;
    LeapDay2000();
    LeapDay3000();
  }

  /** Day 11016 is 2000-02-29. */
  lemma LeapDay2000()
    ensures CivilFromDays(11016) == Date(2000, 2, 29)
  {
    assert 730484 / 146097 == 4 && 146096 / 1460 == 100 && 146096 / 36524 == 4 && 146096 / 146096 == 1;
    assert 145999 / 365 == 399 && 399 / 4 == 99 && 399 / 100 == 3 && 1797 / 153 == 11 && 1685 / 5 == 337;
  }

  /** 3000-02-29 and 3000-03-01 are both day 376259. */
  lemma LeapDay3000()
    ensures DaysFromCivil(3000, 2, 29) == 376259 == DaysFromCivil(3000, 3, 1)
  {
  }
}
