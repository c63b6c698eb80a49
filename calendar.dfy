/**
 * Instants and the proleptic Gregorian calendar.
 *
 * Every timestamp of the record store (`date_saved`, `date_applied`,
 * `approval_date`, `date_contributed`, ...) is an `Instant`: a whole number of
 * seconds since 1970-01-01T00:00:00 UTC.  A calendar date is a day number
 * (days since 1970-01-01), and the ORM's `__month`, `__year`, `__date` and
 * `TruncMonth` lookups are the functions below.
 */
module Calendar {

  /** Seconds since 1970-01-01T00:00:00 UTC. */
  type Instant = int

  const SecondsPerDay: int := 86400

  /** The date part of an instant, as a day number (`value.date()`). */
  function DayOf(t: Instant): int {
    t / SecondsPerDay
  }

  /** Midnight at the start of day `d` (a date stored into a DateTimeField). */
  function StartOfDay(d: int): (t: Instant)
    ensures DayOf(t) == d
  {
    d * SecondsPerDay
  }

  /** A civil date: year, month 1..12 and day of the month. */
  datatype Civil = Civil(year: int, month: int, day: int)

  /** A calendar month, the value `TruncMonth` groups by. */
  datatype Month = Month(year: int, month: int)

  /** Days of a 400-year era before its year `yoe` begins (eras start on 1 March). */
  function DaysBeforeYearOfEra(yoe: int): int {
    365 * yoe + yoe / 4 - yoe / 100
  }

  /**
   * The year of an era that day `doe` of the era falls in: the last year
   * `y <= 399` that starts on or before that day.
   */
  function YearOfEra(doe: int): (y: int)
    requires 0 <= doe < 146097
    ensures 0 <= y < 400
    ensures DaysBeforeYearOfEra(y) <= doe
    ensures y < 399 ==> doe < DaysBeforeYearOfEra(y + 1)
  {
    YearOfEraFrom(doe, 399)
  }

  function YearOfEraFrom(doe: int, y: int): (r: int)
    requires 0 <= doe && 0 <= y < 400
    requires y < 399 ==> doe < DaysBeforeYearOfEra(y + 1)
    ensures 0 <= r <= y
    ensures DaysBeforeYearOfEra(r) <= doe
    ensures r < 399 ==> doe < DaysBeforeYearOfEra(r + 1)
    decreases y
  {
    if DaysBeforeYearOfEra(y) <= doe then y else YearOfEraFrom(doe, y - 1)
  }

  /** The month (0 = March, ..., 11 = February) holding day `doy` of a March-based year. */
  function MarchMonth(doy: int): int {
    (5 * doy + 2) / 153
  }

  /** Days of a March-based year before its month `mp` begins. */
  function DaysBeforeMarchMonth(mp: int): int {
    (153 * mp + 2) / 5
  }

  lemma EraBounds(doe: int)
    requires 0 <= doe < 146097
    ensures 0 <= doe - DaysBeforeYearOfEra(YearOfEra(doe)) <= 365
  {
  }

  lemma MarchYearBounds(doy: int)
    requires 0 <= doy <= 365
    ensures 0 <= MarchMonth(doy) <= 11
    ensures 0 <= doy - DaysBeforeMarchMonth(MarchMonth(doy)) <= 30
  {
  }

  /**
   * The civil date of day number `z` (the days-to-civil algorithm for the
   * proleptic Gregorian calendar: 400-year eras of 146097 days, years that
   * start on 1 March inside an era).
   */
  function CivilFromDays(z: int): (c: Civil)
    ensures 1 <= c.month <= 12
    ensures 1 <= c.day <= 31
  {
    var shifted := z + 719468;
    var era := shifted / 146097;
    var doe := shifted % 146097;
    var yoe := YearOfEra(doe);
    EraBounds(doe);
    var doy := doe - DaysBeforeYearOfEra(yoe);
    var mp := MarchMonth(doy);
    MarchYearBounds(doy);
    var m := if mp < 10 then mp + 3 else mp - 9;
    var y := yoe + era * 400;
    Civil(if m <= 2 then y + 1 else y, m, doy - DaysBeforeMarchMonth(mp) + 1)
  }

  /** The day number of a civil date; the inverse of `CivilFromDays`. */
  function DaysFromCivil(c: Civil): int {
    var y := if c.month <= 2 then c.year - 1 else c.year;
    var era := y / 400;
    var yoe := y - era * 400;
    var mp := if c.month > 2 then c.month - 3 else c.month + 9;
    var doy := DaysBeforeMarchMonth(mp) + c.day - 1;
    era * 146097 + DaysBeforeYearOfEra(yoe) + doy - 719468
  }

  /** `DaysFromCivil` on a date given by its era, year of era, March-based month and day. */
  lemma DaysFromCivilParts(c: Civil, era: int, yoe: int, mp: int)
    requires 0 <= yoe < 400 && 0 <= mp <= 11
    requires c.month == if mp < 10 then mp + 3 else mp - 9
    requires c.year == yoe + era * 400 + (if mp < 10 then 0 else 1)
    ensures DaysFromCivil(c) == era * 146097 + DaysBeforeYearOfEra(yoe) + DaysBeforeMarchMonth(mp) + c.day - 1 - 719468
  {
    var y := if c.month <= 2 then c.year - 1 else c.year;
    assert y == yoe + era * 400;
    YearSplit(era, yoe);
  }

  /** A year splits back into its era and its year of the era. */
  lemma YearSplit(era: int, yoe: int)
    requires 0 <= yoe < 400
    ensures (yoe + era * 400) / 400 == era
  {
  }

  lemma CivilRoundTrip(z: int)
    ensures DaysFromCivil(CivilFromDays(z)) == z
  {
    var shifted := z + 719468;
    var era := shifted / 146097;
    var doe := shifted % 146097;
    EraBounds(doe);
    var yoe := YearOfEra(doe);
    var doy := doe - DaysBeforeYearOfEra(yoe);
    MarchYearBounds(doy);
    var mp := MarchMonth(doy);
    var c := CivilFromDays(z);
    assert c.day == doy - DaysBeforeMarchMonth(mp) + 1;
    DaysFromCivilParts(c, era, yoe, mp);
  }

  function CivilOf(t: Instant): Civil {
    CivilFromDays(DayOf(t))
  }

  /** `TruncMonth(t)`: the calendar month an instant falls in. */
  function MonthOf(t: Instant): (m: Month)
    ensures 1 <= m.month <= 12
  {
    var c := CivilOf(t);
    Month(c.year, c.month)
  }

  /** Day of the month of an instant (`now.day`). */
  function DayOfMonth(t: Instant): (d: int)
    ensures 1 <= d <= 31
  {
    CivilOf(t).day
  }

  /** Months numbered consecutively; orders months as `order_by('year', 'month')` does. */
  function MonthOrdinal(m: Month): int {
    m.year * 12 + (m.month - 1)
  }
}
