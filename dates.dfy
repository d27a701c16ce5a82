/** Calendar dates and moments.

    The application keeps dates as ISO strings and hands them to the browser's
    `Date` object. Here a date is a (year, month, day) triple and "now" is an
    explicit parameter (a `Moment`: a date plus the milliseconds elapsed since
    its midnight). Dates are ordered as the instants of their midnights, which
    for a triple means lexicographically. */
module Dates {

  type Month = m: int | 1 <= m <= 12 witness 1
  type Day = d: int | 1 <= d <= 31 witness 1

  /** Milliseconds in one day, the divisor of every day count in the application. */
  const MillisPerDay: int := 86_400_000

  type MillisOfDay = n: int | 0 <= n < 86_400_000

  datatype Date = Date(year: int, month: Month, day: Day)

  /** A point in time: a calendar date and the time of day in milliseconds. */
  datatype Moment = Moment(date: Date, millis: MillisOfDay)

  /** An integer that orders dates as their midnights are ordered. */
  function Key(d: Date): int {
    d.year * 372 + (d.month - 1) * 31 + (d.day - 1)
  }

  /** Strict chronological order of two dates: lexicographic on (year, month, day). */
  predicate Before(a: Date, b: Date) {
    a.year < b.year ||
    (a.year == b.year && (a.month < b.month || (a.month == b.month && a.day < b.day)))
  }

  /** `Key` is an order embedding: it is injective and agrees with `Before`. */
  lemma KeyOrder(a: Date, b: Date)
    ensures Before(a, b) <==> Key(a) < Key(b)
    ensures Key(a) == Key(b) <==> a == b
  {
    var ra := (a.month - 1) * 31 + (a.day - 1);
    var rb := (b.month - 1) * 31 + (b.day - 1);
    assert 0 <= ra < 372 && 0 <= rb < 372;
    if a.year < b.year {
      assert Key(a) < Key(b);
    } else if a.year > b.year {
      assert Key(a) > Key(b);
    } else {
      assert Key(a) - Key(b) == ra - rb;
    }
  }

  /** The midnight that starts a date. */
  function Midnight(d: Date): Moment {
    Moment(d, 0)
  }

  /** `a >= b` on moments, as the source compares `Date` objects. */
  predicate NotBefore(a: Moment, b: Moment) {
    Before(b.date, a.date) || (a.date == b.date && a.millis >= b.millis)
  }

  /** Gregorian leap years, as the browser's calendar counts them. */
  predicate LeapYear(y: int) {
    (y % 4 == 0 && y % 100 != 0) || y % 400 == 0
  }

  function DaysInMonth(y: int, m: Month): (n: int)
    ensures 28 <= n <= 31
    ensures n == 29 <==> m == 2 && LeapYear(y)
  {
    if m == 2 then (if LeapYear(y) then 29 else 28)
    else if m == 4 || m == 6 || m == 9 || m == 11 then 30
    else 31
  }

  /** A date that exists in the calendar. */
  predicate Valid(d: Date) {
    d.day <= DaysInMonth(d.year, d.month)
  }

  /** `new Date(y, m - 1, d)` for a month from 1 to 13 and a day from 1 to 31:
      a thirteenth month is January of the next year, and a day past the end
      of its month counts on into the following month (31 April is 1 May). */
  function Normalize(y: int, m: int, d: Day): (r: Date)
    requires 1 <= m <= 13
    ensures Valid(r)
    ensures r.year == if m == 13 then y + 1 else y
    ensures var first := if m == 13 then Date(y + 1, 1, 1) else Date(y, m, 1);
            if d <= DaysInMonth(first.year, first.month)
            then r == first.(day := d)
            else Before(first.(day := DaysInMonth(first.year, first.month)), r) && r.day == d - DaysInMonth(first.year, first.month) && r.day <= 3
  {
    var (y1, m1) := if m == 13 then (y + 1, 1) else (y, m);
    var len := DaysInMonth(y1, m1);
    if d <= len then Date(y1, m1, d)
    else if m1 == 12 then Date(y1 + 1, 1, d - len)
    else Date(y1, m1 + 1, d - len)
  }

  /** Normalising a date that exists changes nothing. */
  lemma NormalizeValid(d: Date)
    requires Valid(d)
    ensures Normalize(d.year, d.month, d.day) == d
  {
  }

  /** `new Date(y, m + 1, d)` for today: the same day of the next month, at
      midnight, rolled on into the month after when the next month is shorter. */
  function NextMonth(d: Date): (r: Date)
    ensures Valid(r) && Before(d, r)
    ensures r.month == d.month % 12 + 1 || r.month == (d.month + 1) % 12 + 1
  {
    Normalize(d.year, d.month + 1, d.day)
  }

  /** `today.getFullYear() - birth.getFullYear()`: the age used everywhere in the
      application, which ignores month and day. */
  function YearsBetween(birth: Date, today: Date): int {
    today.year - birth.year
  }


  /** The number of days from 1 March of year 0 to 1 March of year `y`. */
  function MarchDays(y: int): int {
    var era := y / 400;
    var yoe := y - era * 400;
    era * 146097 + CycleDays(yoe)
  }

  /** Days from 1 March of year 0 of a 400-year cycle to 1 March of year
      `yoe` of that cycle. */
  function CycleDays(yoe: int): int {
    yoe * 365 + yoe / 4 - yoe / 100
  }

  lemma CycleDaysNext(yoe: int)
    requires 0 <= yoe < 399
    ensures CycleDays(yoe + 1) == CycleDays(yoe) + if (yoe + 1) % 4 == 0 && (yoe + 1) % 100 != 0 then 366 else 365
  {
    StepFour(yoe);
    StepHundred(yoe);
  }

  lemma StepFour(n: int)
    ensures (n + 1) / 4 == n / 4 + if (n + 1) % 4 == 0 then 1 else 0
  {
    var q, r := n / 4, n % 4;
    assert n == 4 * q + r;
    if r == 3 {
      assert n + 1 == 4 * (q + 1);
    } else {
      assert n + 1 == 4 * q + (r + 1);
    }
  }

  lemma StepHundred(n: int)
    ensures (n + 1) / 100 == n / 100 + if (n + 1) % 100 == 0 then 1 else 0
  {
    var q, r := n / 100, n % 100;
    assert n == 100 * q + r;
    if r == 99 {
      assert n + 1 == 100 * (q + 1);
    } else {
      assert n + 1 == 100 * q + (r + 1);
    }
  }

  /** The year from 1 March of `y` runs 366 days when it holds a 29 February. */
  lemma MarchDaysNext(y: int)
    ensures MarchDays(y + 1) == MarchDays(y) + if LeapYear(y + 1) then 366 else 365
  {
    var era := y / 400;
    var yoe := y - era * 400;
    if yoe == 399 {
      CycleEnd(y, era);
    } else {
      CycleStep(y, era, yoe);
    }
  }

  /** The last year of a 400-year cycle leads into the first of the next. */
  lemma CycleEnd(y: int, era: int)
    requires y == era * 400 + 399
    ensures MarchDays(y + 1) == MarchDays(y) + if LeapYear(y + 1) then 366 else 365
  {
    DivModUnique(y, era, 399, 400);
    DivModUnique(y + 1, era + 1, 0, 400);
    DivModUnique(y + 1, era * 100 + 100, 0, 4);
  }

  /** Any other year leads into the next year of the same cycle. */
  lemma CycleStep(y: int, era: int, yoe: int)
    requires y == era * 400 + yoe && 0 <= yoe < 399
    ensures MarchDays(y + 1) == MarchDays(y) + if LeapYear(y + 1) then 366 else 365
  {
    DivModUnique(y, era, yoe, 400);
    DivModUnique(y + 1, era, yoe + 1, 400);
    DivModUnique(y + 1, era * 100 + (yoe + 1) / 4, (yoe + 1) % 4, 4);
    DivModUnique(y + 1, era * 4 + (yoe + 1) / 100, (yoe + 1) % 100, 100);
    CycleDaysNext(yoe);
  }

  /** Euclidean division has one quotient and one remainder. */
  lemma DivModUnique(x: int, q: int, r: int, b: int)
    requires 0 < b && 0 <= r < b && x == q * b + r
    ensures x / b == q && x % b == r
  {
    var q', r' := x / b, x % b;
    assert x == q' * b + r';
    assert (q - q') * b == r' - r;
    NonZeroProduct(q - q', b);
  }

  lemma NonZeroProduct(k: int, b: int)
    requires 0 < b
    ensures k > 0 ==> k * b >= b
    ensures k < 0 ==> k * b <= -b
  {
  }

  /** The number of days from 1 January 1970 to the date, in the proleptic
      Gregorian calendar: the day count behind `getTime`. */
  function DayNumber(d: Date): int {
    var y := if d.month <= 2 then d.year - 1 else d.year;
    MarchDays(y) + MonthOffset(d.month) + d.day - 1 - 719468
  }

  /** Days from 1 March to the first of month `m`, January and February
      counting as the last months of the year that starts in March. */
  function MonthOffset(m: Month): int {
    match m
    case 3 => 0
    case 4 => 31
    case 5 => 61
    case 6 => 92
    case 7 => 122
    case 8 => 153
    case 9 => 184
    case 10 => 214
    case 11 => 245
    case 12 => 275
    case 1 => 306
    case 2 => 337
  }

  /** The day after a date that exists. */
  function NextDay(d: Date): (r: Date)
    requires Valid(d)
    ensures Valid(r) && Before(d, r)
  {
    if d.day < DaysInMonth(d.year, d.month) then d.(day := d.day + 1)
    else if d.month < 12 then Date(d.year, d.month + 1, 1)
    else Date(d.year + 1, 1, 1)
  }

  /** The day count goes up by one from each date to the next, leap days
      included. */
  lemma DayNumberNext(d: Date)
    requires Valid(d)
    ensures DayNumber(NextDay(d)) == DayNumber(d) + 1
  {
    if d.day < DaysInMonth(d.year, d.month) {
    } else if d.month == 2 {
      NextMarch(d);
    } else {
      NextMonthStart(d);
    }
  }

  lemma NextMonthStart(d: Date)
    requires Valid(d) && d.day == DaysInMonth(d.year, d.month) && d.month != 2
    ensures DayNumber(NextDay(d)) == DayNumber(d) + 1
  {
  }

  lemma NextMarch(d: Date)
    requires Valid(d) && d.day == DaysInMonth(d.year, d.month) && d.month == 2
    ensures DayNumber(NextDay(d)) == DayNumber(d) + 1
  {
    MarchDaysNext(d.year - 1);
  }

  /** The count starts at the epoch. */
  lemma DayNumberEpoch()
    ensures DayNumber(Date(1970, 1, 1)) == 0
  {
  }

  /** Later years start later. */
  lemma {:induction false} MarchDaysMonotone(y: int, z: int)
    ensures y <= z ==> MarchDays(y) <= MarchDays(z)
    decreases z - y
  {
    if y < z {
      MarchDaysMonotone(y, z - 1);
      MarchDaysNext(z - 1);
    }
  }

  /** Every date that exists lies between the first of January of its year,
      306 days after the March before, and the first of January of the next. */
  lemma YearBounds(d: Date)
    requires Valid(d)
    ensures MarchDays(d.year - 1) + 306 <= DayNumber(d) + 719468 < MarchDays(d.year) + 306
  {
    if d.month <= 2 {
      EarlyYearBounds(d);
    } else {
      LateYearBounds(d);
    }
  }

  lemma EarlyYearBounds(d: Date)
    requires Valid(d) && d.month <= 2
    ensures MarchDays(d.year - 1) + 306 <= DayNumber(d) + 719468 < MarchDays(d.year) + 306
  {
    MarchDaysNext(d.year - 1);
  }

  lemma LateYearBounds(d: Date)
    requires Valid(d) && d.month > 2
    ensures MarchDays(d.year - 1) + 306 <= DayNumber(d) + 719468 < MarchDays(d.year) + 306
  {
    MarchDaysNext(d.year - 1);
  }

  /** A date of an earlier year has a smaller day count. */
  lemma YearOrder(a: Date, b: Date)
    requires Valid(a) && Valid(b)
    ensures b.year < a.year ==> DayNumber(b) < DayNumber(a)
  {
    YearBounds(a);
    YearBounds(b);
    MarchDaysMonotone(b.year, a.year - 1);
  }

  /** `getTime()`: milliseconds since the epoch. */
  function Instant(m: Moment): int {
    DayNumber(m.date) * MillisPerDay + m.millis
  }
}
