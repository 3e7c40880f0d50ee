/** The slice of the `time` crate the sync jobs rely on: instants carrying a
    UTC offset, their proleptic Gregorian calendar date, clock time and
    weekday, and the range `from_unix_timestamp` accepts.  Sub-second
    precision is not modelled. */
module Calendar {
  import opened Wrappers

  const SecondsPerDay: int := 86400

  /** The smallest and largest Unix timestamps the `time` crate can represent
      (years -9999 and 9999, without its large-dates feature). */
  const MinUnixTimestamp: int := -377705116800
  const MaxUnixTimestamp: int := 253402300799

  /** An `OffsetDateTime`: an instant (whole seconds since the Unix epoch)
      together with the UTC offset, in seconds east of UTC, it is viewed in. */
  datatype DateTime = DateTime(unix: int, offset: int)

  /** A calendar date. */
  datatype Date = Date(year: int, month: int, day: int)

  /** `OffsetDateTime::UNIX_EPOCH`. */
  const UnixEpoch: DateTime := DateTime(0, 0)

  /** Gregorian leap years: every fourth year, except centuries not
      divisible by 400. */
  predicate IsLeapYear(y: int) {
    y % 4 == 0 && (y % 100 != 0 || y % 400 == 0)
  }

  function DaysInMonth(year: int, month: int): int
    requires 1 <= month <= 12
  {
    if month == 2 then (if IsLeapYear(year) then 29 else 28)
    else if month == 4 || month == 6 || month == 9 || month == 11 then 30
    else 31
  }

  /** A date that exists in the proleptic Gregorian calendar. */
  predicate ValidDate(d: Date) {
    1 <= d.month <= 12 && 1 <= d.day <= DaysInMonth(d.year, d.month)
  }

  /** Seconds since the epoch as read on the local wall clock of `t`. */
  function LocalSeconds(t: DateTime): int {
    t.unix + t.offset
  }

  /** The local day number of `t`, counted from 1970-01-01 (floor division). */
  function LocalDay(t: DateTime): int {
    LocalSeconds(t) / SecondsPerDay
  }

  /** Days since the epoch of a calendar date (days_from_civil). */
  function DaysFromCivil(d: Date): int {
    var y := if d.month <= 2 then d.year - 1 else d.year;
    var era := y / 400;
    var yoe := y - era * 400;
    var mp := if d.month > 2 then d.month - 3 else d.month + 9;
    var doy := (153 * mp + 2) / 5 + d.day - 1;
    var doe := yoe * 365 + yoe / 4 - yoe / 100 + doy;
    era * 146097 + doe - 719468
  }

  /** Splits a day of the 400-year era into the year of the era, in [0, 399],
      and the day of that (March-based) year, in [0, 365]: centuries of 36524
      days (the last one a day longer), four-year blocks of 1461 days. */
  function YearOfEra(doe: int): (r: (int, int))
    requires 0 <= doe < 146097
    ensures 0 <= r.0 <= 399 && 0 <= r.1 <= 365
    ensures 365 * r.0 + r.0 / 4 - r.0 / 100 + r.1 == doe
  {
    var c := if doe / 36524 < 3 then doe / 36524 else 3;
    var rest := doe - 36524 * c;
    assert 0 <= rest <= 36524 && (c < 3 ==> rest < 36524);
    var q := rest / 1461;
    var s := rest - 1461 * q;
    assert 0 <= q <= 24 && 0 <= s <= 1460;
    assert q == 24 && c < 3 ==> s <= 1459;
    var y1 := if s / 365 < 3 then s / 365 else 3;
    assert 0 <= y1 <= 3 && 0 <= s - 365 * y1 <= 365;
    var yoe := 100 * c + 4 * q + y1;
    assert yoe / 4 == 25 * c + q;
    assert yoe / 100 == c;
    (yoe, s - 365 * y1)
  }

  /** Only a year of the era followed by a leap year has a 366th day: the day
      before the following March is then a 29th of February. */
  lemma YearOfEraLeapDay(doe: int)
    requires 0 <= doe < 146097
    ensures YearOfEra(doe).1 == 365 ==> IsLeapYear(YearOfEra(doe).0 + 1)
  {
    var c := if doe / 36524 < 3 then doe / 36524 else 3;
    var rest := doe - 36524 * c;
    var q := rest / 1461;
    var s := rest - 1461 * q;
    assert 0 <= q <= 24 && 0 <= s <= 1460;
    assert q == 24 && c < 3 ==> s <= 1459;
    var y1 := if s / 365 < 3 then s / 365 else 3;
    var yoe := 100 * c + 4 * q + y1;
    assert YearOfEra(doe) == (yoe, s - 365 * y1);
    if s - 365 * y1 == 365 {
      assert y1 == 3 && s == 1460;
      assert yoe + 1 == 4 * (25 * c + q + 1);
      assert q == 24 ==> yoe + 1 == 400;
    }
  }

  /** Month index counted from March, in [0, 11]. */
  function MonthFromMarch(doy: int): (mp: int)
    requires 0 <= doy <= 365
    ensures 0 <= mp <= 11
    ensures 1 <= doy - (153 * mp + 2) / 5 + 1 <= 31
  {
    (5 * doy + 2) / 153
  }

  /** The day of the month `MonthFromMarch` leaves is within that month's
      length, and only the 366th day of a March-based year is a 29th of
      February. */
  lemma MonthFromMarchLength(doy: int)
    requires 0 <= doy <= 365
    ensures var mp := MonthFromMarch(doy);
      var day := doy - (153 * mp + 2) / 5 + 1;
      && (mp < 10 ==> day <= DaysInMonth(1, mp + 3))
      && (mp == 10 ==> day <= 31)
      && (mp == 11 ==> day <= (if doy == 365 then 29 else 28))
  {
  }

  /** The calendar date of a day number (civil_from_days). */
  function CivilFromDays(n: int): (d: Date)
    ensures 1 <= d.month <= 12 && 1 <= d.day <= 31
  {
    var z := n + 719468;
    var era := z / 146097;
    var doe := z % 146097;
    var split := YearOfEra(doe);
    var yoe := split.0;
    var doy := split.1;
    var mp := MonthFromMarch(doy);
    var day := doy - (153 * mp + 2) / 5 + 1;
    var month := if mp < 10 then mp + 3 else mp - 9;
    Date(yoe + era * 400 + (if month <= 2 then 1 else 0), month, day)
  }

  /** Every day number has a date that exists: the day is within its month's
      length, leap years included. */
  lemma CivilFromDaysValid(n: int)
    ensures ValidDate(CivilFromDays(n))
  {
    var z := n + 719468;
    var era := z / 146097;
    var doe := z % 146097;
    var split := YearOfEra(doe);
    var doy := split.1;
    var mp := MonthFromMarch(doy);
    var d := CivilFromDays(n);
    assert d.month == if mp < 10 then mp + 3 else mp - 9;
    assert d.day == doy - (153 * mp + 2) / 5 + 1;
    assert d.month <= 2 ==> d.year == (split.0 + 1) + era * 400;
    YearOfEraLeapDay(doe);
    MonthFromMarchLength(doy);
    LeapYearPeriod(split.0 + 1, era);
  }

  /** The leap-year rule repeats every 400 years. */
  lemma LeapYearPeriod(y: int, era: int)
    ensures IsLeapYear(y + era * 400) == IsLeapYear(y)
  {
    var k := era * 100;
    assert y + era * 400 == y + 4 * k;
    assert (y + 4 * k) % 4 == y % 4;
    k := era * 4;
    assert y + era * 400 == y + 100 * k;
    assert (y + 100 * k) % 100 == y % 100;
    assert (y + 400 * era) % 400 == y % 400;
  }

  /** Converting a day number to a date and back gives the day number again,
      so distinct days have distinct dates. */
  lemma CivilRoundTrip(n: int)
    ensures DaysFromCivil(CivilFromDays(n)) == n
  {
    var z := n + 719468;
    var era := z / 146097;
    var doe := z % 146097;
    var split := YearOfEra(doe);
    var yoe := split.0;
    var doy := split.1;
    var mp := MonthFromMarch(doy);
    var d := CivilFromDays(n);
    assert d.month == if mp < 10 then mp + 3 else mp - 9;
    assert d.day == doy - (153 * mp + 2) / 5 + 1;
    assert d.year == yoe + era * 400 + (if d.month <= 2 then 1 else 0);
    RoundTripParts(d, z, era, doe, yoe, doy, mp);
  }

  /** The round trip on the parts `CivilFromDays` splits a day number into. */
  lemma RoundTripParts(d: Date, z: int, era: int, doe: int, yoe: int, doy: int, mp: int)
    requires z == era * 146097 + doe
    requires 0 <= yoe <= 399 && 0 <= doy <= 365 && 0 <= mp <= 11
    requires 365 * yoe + yoe / 4 - yoe / 100 + doy == doe
    requires d.month == if mp < 10 then mp + 3 else mp - 9
    requires d.day == doy - (153 * mp + 2) / 5 + 1
    requires d.year == yoe + era * 400 + (if d.month <= 2 then 1 else 0)
    ensures DaysFromCivil(d) == z - 719468
  {
    DaysFromCivilParts(d, era, yoe, mp);
  }

  /** `DaysFromCivil` of a date given by its era, year of era and month
      counted from March. */
  lemma DaysFromCivilParts(d: Date, era: int, yoe: int, mp: int)
    requires 0 <= yoe <= 399
    requires (if d.month <= 2 then d.year - 1 else d.year) == yoe + era * 400
    requires (if d.month > 2 then d.month - 3 else d.month + 9) == mp
    ensures DaysFromCivil(d) == era * 146097 + (365 * yoe + yoe / 4 - yoe / 100 + ((153 * mp + 2) / 5 + d.day - 1)) - 719468
  {
    var y := if d.month <= 2 then d.year - 1 else d.year;
    assert y / 400 == era && y - era * 400 == yoe;
  }

  lemma CivilFromDaysInjective(a: int, b: int)
    requires CivilFromDays(a) == CivilFromDays(b)
    ensures a == b
  {
    CivilRoundTrip(a);
    CivilRoundTrip(b);
  }

  /** Days from 0000-03-01 on fall in years from 0 on. */
  lemma YearNotNegative(n: int)
    requires n >= -719468
    ensures CivilFromDays(n).year >= 0
  {
    var z := n + 719468;
    assert z / 146097 >= 0;
  }

  /** The local calendar date of `t` (`year()`, `month()`, `day()`). */
  function DateOf(t: DateTime): (d: Date)
    ensures ValidDate(d)
  {
    CivilFromDaysValid(LocalDay(t));
    CivilFromDays(LocalDay(t))
  }

  function Hour(t: DateTime): (h: int)
    ensures 0 <= h < 24
  {
    (LocalSeconds(t) % SecondsPerDay) / 3600
  }

  function Minute(t: DateTime): (m: int)
    ensures 0 <= m < 60
  {
    (LocalSeconds(t) % 3600) / 60
  }

  /** The English name `Weekday` displays as; 1970-01-01 was a Thursday. */
  function WeekdayName(t: DateTime): string {
    ["Thursday", "Friday", "Saturday", "Sunday", "Monday", "Tuesday", "Wednesday"][LocalDay(t) % 7]
  }

  /** `t + Duration::days(k)`: the instant moves, the offset is kept. */
  function AddDays(t: DateTime, k: int): DateTime {
    DateTime(t.unix + k * SecondsPerDay, t.offset)
  }

  /** `now_utc()`: the same instant, viewed at offset zero. */
  function Utc(now: DateTime): DateTime {
    DateTime(now.unix, 0)
  }

  /** `t.replace_time(Time::MIDNIGHT)`: the start of `t`'s local day. */
  function Midnight(t: DateTime): (m: DateTime)
    ensures m.offset == t.offset && LocalDay(m) == LocalDay(t)
    ensures LocalSeconds(m) % SecondsPerDay == 0
  {
    DateTime(LocalDay(t) * SecondsPerDay - t.offset, t.offset)
  }

  /** Moving by whole days moves the local date by exactly that many days. */
  lemma AddDaysLocalDay(t: DateTime, k: int)
    ensures LocalDay(AddDays(t, k)) == LocalDay(t) + k
  {
  }

  /** Whole days from a local midnight land on a local midnight. */
  lemma AddDaysKeepsMidnight(t: DateTime, k: int)
    requires LocalSeconds(t) % SecondsPerDay == 0
    ensures LocalSeconds(AddDays(t, k)) % SecondsPerDay == 0
  {
    assert LocalSeconds(t) == LocalDay(t) * SecondsPerDay;
    assert LocalSeconds(AddDays(t, k)) == (LocalDay(t) + k) * SecondsPerDay;
  }

  /** `OffsetDateTime::from_unix_timestamp`: fails outside the representable range. */
  function FromUnixTimestamp(seconds: int): (r: Option<DateTime>)
    ensures r.Some? <==> MinUnixTimestamp <= seconds <= MaxUnixTimestamp
    ensures r.Some? ==> r.value.unix == seconds && r.value.offset == 0
  {
    if MinUnixTimestamp <= seconds <= MaxUnixTimestamp then Some(DateTime(seconds, 0)) else None
  }

  /** Whether the `time` crate can format `t` as RFC 3339: a four-digit year
      and an offset of whole minutes. */
  predicate Rfc3339Formattable(t: DateTime) {
    0 <= DateOf(t).year <= 9999 && t.offset % 60 == 0
  }

}
