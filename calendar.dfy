/** The fixed calendar the forecast handlers walk: the non-leap year 2025,
    hour by hour from January 1, 00:00.  Hour index `i` lies on day-of-year
    `i / 24` at hour `i % 24`; the day-of-year is split into month and day
    through the month-length table. */
module Calendar {

  /** The year the forecast handlers project onto (a non-leap year). */
  const TargetYear: int := 2025
  const HoursPerDay: int := 24
  const DaysInYear: int := 365
  /** 365 * 24: the number of hours the forecast loops run over. */
  const HoursInYear: int := 8760

  /** A record's timestamp at hour resolution. */
  datatype Timestamp = Timestamp(year: int, month: int, day: int, hour: int)

  /** The calendar date of a timestamp (what `datetime.date()` keeps). */
  datatype Date = Date(year: int, month: int, day: int)

  /** A climatology bucket key: (month, day, hour) with the year dropped. */
  datatype Key = Key(month: int, day: int, hour: int)

  function KeyOf(t: Timestamp): Key {
    Key(t.month, t.day, t.hour)
  }

  function DateOf(t: Timestamp): Date {
    Date(t.year, t.month, t.day)
  }

  /** Chronological order of timestamps. */
  predicate TimeBefore(a: Timestamp, b: Timestamp) {
    || a.year < b.year
    || (a.year == b.year && a.month < b.month)
    || (a.year == b.year && a.month == b.month && a.day < b.day)
    || (a.year == b.year && a.month == b.month && a.day == b.day && a.hour < b.hour)
  }

  /** Chronological order of dates. */
  predicate DateBefore(a: Date, b: Date) {
    || a.year < b.year
    || (a.year == b.year && a.month < b.month)
    || (a.year == b.year && a.month == b.month && a.day < b.day)
  }

  /** Order of bucket keys within one year. */
  predicate KeyBefore(a: Key, b: Key) {
    || a.month < b.month
    || (a.month == b.month && a.day < b.day)
    || (a.month == b.month && a.day == b.day && a.hour < b.hour)
  }

  /** Days in month `m` of a non-leap year. */
  function MonthLength(m: int): (n: int)
    requires 1 <= m <= 12
    ensures 28 <= n <= 31
  {
    if m == 2 then 28
    else if m == 4 || m == 6 || m == 9 || m == 11 then 30
    else 31
  }

  /** Days of the year that precede the first day of month `m`
      (`DaysBefore(13)` is the whole year). */
  function DaysBefore(m: int): int
    requires 1 <= m <= 13
  {
    if m == 1 then 0 else DaysBefore(m - 1) + MonthLength(m - 1)
  }

  lemma {:induction false} DaysBeforeYear()
    ensures DaysBefore(13) == DaysInYear
  {
  }

  lemma {:induction false} DaysBeforeMonotone(a: int, b: int)
    requires 1 <= a <= b <= 13
    ensures DaysBefore(a) <= DaysBefore(b)
    decreases b - a
  {
    if a < b {
      DaysBeforeMonotone(a, b - 1);
    }
  }

  /** A (month, day, hour) that exists in a non-leap year. */
  predicate ValidKey(k: Key) {
    1 <= k.month <= 12 && 1 <= k.day <= MonthLength(k.month) && 0 <= k.hour < HoursPerDay
  }

  /** The month containing day-of-year `d` (0-based), looked up against the
      first day-of-year of each month; the ensures ties the table to the
      month lengths. */
  function MonthOfDay(d: int): (r: int)
    requires 0 <= d < DaysInYear
    ensures 1 <= r <= 12 && DaysBefore(r) <= d < DaysBefore(r + 1)
  {
    if d < 31 then 1 else if d < 59 then 2 else if d < 90 then 3 else if d < 120 then 4
    else if d < 151 then 5 else if d < 181 then 6 else if d < 212 then 7 else if d < 243 then 8
    else if d < 273 then 9 else if d < 304 then 10 else if d < 334 then 11 else 12
  }

  /** The bucket key of hour `i` of the target year: every hour of the walk
      has a real (month, day, hour), and the key gives back the hour. */
  function HourKey(i: int): (k: Key)
    requires 0 <= i < HoursInYear
    ensures ValidKey(k) && HourIndex(k) == i
  {
    var d := i / HoursPerDay;
    var m := MonthOfDay(d);
    assert DaysBefore(m + 1) == DaysBefore(m) + MonthLength(m);
    Key(m, d - DaysBefore(m) + 1, i % HoursPerDay)
  }

  /** `base_date + timedelta(hours = i)` for the target year. */
  function HourTimestamp(i: int): (t: Timestamp)
    requires 0 <= i < HoursInYear
    ensures t.year == TargetYear && KeyOf(t) == HourKey(i)
  {
    var k := HourKey(i);
    Timestamp(TargetYear, k.month, k.day, k.hour)
  }

  /** The hour index at which the target year meets key `k`. */
  function HourIndex(k: Key): int
    requires 1 <= k.month <= 12
  {
    (DaysBefore(k.month) + k.day - 1) * HoursPerDay + k.hour
  }

  /** Every real (month, day, hour) of a non-leap year is met by exactly the
      hour `HourIndex(k)` of the target year. */
  lemma {:induction false} HourIndexRoundTrip(k: Key)
    requires ValidKey(k)
    ensures 0 <= HourIndex(k) < HoursInYear
    ensures HourKey(HourIndex(k)) == k
    ensures forall i :: 0 <= i < HoursInYear && HourKey(i) == k ==> i == HourIndex(k)
  {
    var d := DaysBefore(k.month) + k.day - 1;
    assert DaysBefore(k.month + 1) == DaysBefore(k.month) + MonthLength(k.month);
    DaysBeforeMonotone(k.month + 1, 13);
    DaysBeforeYear();
    var i := HourIndex(k);
    assert i / HoursPerDay == d && i % HoursPerDay == k.hour;
    var m := MonthOfDay(d);
    if m < k.month {
      DaysBeforeMonotone(m + 1, k.month);
    } else if m > k.month {
      DaysBeforeMonotone(k.month + 1, m);
    }
  }

  /** February 29 is never met while walking the target year. */
  lemma {:induction false} LeapDayNeverVisited(i: int, h: int)
    requires 0 <= i < HoursInYear
    ensures HourKey(i) != Key(2, 29, h)
  {
  }

  /** Later keys of the year are met at later hours. */
  lemma {:induction false} HourIndexMonotone(a: Key, b: Key)
    requires ValidKey(a) && ValidKey(b) && KeyBefore(a, b)
    ensures HourIndex(a) < HourIndex(b)
  {
    var da := DaysBefore(a.month) + a.day - 1;
    var db := DaysBefore(b.month) + b.day - 1;
    if a.month < b.month {
      assert DaysBefore(a.month + 1) == DaysBefore(a.month) + MonthLength(a.month);
      DaysBeforeMonotone(a.month + 1, b.month);
    }
    assert da <= db;
    if da < db {
      assert (da + 1) * HoursPerDay <= db * HoursPerDay;
    }
  }

  /** Walking the hours in index order walks the year chronologically. */
  lemma {:induction false} HourTimestampOrdered(i: int, j: int)
    requires 0 <= i < j < HoursInYear
    ensures TimeBefore(HourTimestamp(i), HourTimestamp(j))
  {
    var ki, kj := HourKey(i), HourKey(j);
    if !KeyBefore(ki, kj) {
      assert ki != kj;
      assert KeyBefore(kj, ki);
      HourIndexMonotone(kj, ki);
      assert false;
    }
  }

  /** Distinct hours of the target year have distinct timestamps. */
  lemma {:induction false} HourTimestampInjective(i: int, j: int)
    requires 0 <= i < HoursInYear && 0 <= j < HoursInYear
    requires HourTimestamp(i) == HourTimestamp(j)
    ensures i == j
  {
    assert HourKey(i) == HourKey(j);
  }
}
