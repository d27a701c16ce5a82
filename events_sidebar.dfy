/** The rules of the upcoming-events panel `src/components/EventsSidebar.tsx`:
    how far away an event is, in words, and the icon and colour of its type. */
module EventsSidebar {
  import opened Wrappers
  import opened Dates
  import opened Records
  import opened Text
  import opened SrcTypes

  /** `Math.ceil(a / b)` for a positive divisor, on exact quotients. */
  function CeilDiv(a: int, b: int): (r: int)
    requires b > 0
    ensures (r - 1) * b < a <= r * b
  {
    var q := (-a) / b;
    assert -a == b * q + (-a) % b;
    -q
  }

  /** The ceiling is the only integer with that property. */
  lemma CeilDivUnique(a: int, b: int, n: int)
    requires b > 0 && (n - 1) * b < a <= n * b
    ensures n == CeilDiv(a, b)
  {
    var r := CeilDiv(a, b);
    assert (n - r + 1) * b == n * b - (r - 1) * b;
    assert (r - n + 1) * b == r * b - (n - 1) * b;
    NonPositiveProduct(n - r + 1, b);
    NonPositiveProduct(r - n + 1, b);
  }

  lemma NonPositiveProduct(x: int, b: int)
    requires b > 0
    ensures x <= 0 ==> x * b <= 0
  {
  }

  /** The whole days, rounded up, from `now` to the midnight that starts the
      event's date. */
  function DayCount(date: Date, now: Moment): (n: int)
    ensures (n - 1) * MillisPerDay < Instant(Midnight(date)) - Instant(now) <= n * MillisPerDay
  {
    CeilDiv(Instant(Midnight(date)) - Instant(now), MillisPerDay)
  }

  /** The phrases `getTimeRemaining` can return. */
  datatype Remaining = Today | Tomorrow | InDays(days: int) | InWeeks(weeks: int) | InMonths(months: int)

  /** The bucket of a day count: 0 is today and 1 tomorrow; any other count
      below a week, negative ones for past events included, is said in days;
      up to 29 days in weeks, rounded up, which is one to five weeks; and from
      30 days on in months, rounded up, which is at least one. */
  function Bucket(n: int): (r: Remaining)
    ensures r == Today <==> n == 0
    ensures r == Tomorrow <==> n == 1
    ensures r.InDays? <==> n < 7 && n != 0 && n != 1
    ensures r.InDays? ==> r.days == n
    ensures r.InWeeks? <==> 7 <= n < 30
    ensures r.InWeeks? ==> 1 <= r.weeks <= 5 && (r.weeks - 1) * 7 < n <= r.weeks * 7
    ensures r.InMonths? <==> 30 <= n
    ensures r.InMonths? ==> 1 <= r.months && (r.months - 1) * 30 < n <= r.months * 30
  {
    if n == 0 then Today
    else if n == 1 then Tomorrow
    else if n < 7 then InDays(n)
    else if n < 30 then InWeeks(CeilDiv(n, 7))
    else InMonths(CeilDiv(n, 30))
  }

  /** The text shown for a bucket. */
  function Phrase(r: Remaining): string {
    match r
    case Today => "Today"
    case Tomorrow => "Tomorrow"
    case InDays(n) => "In " + IntToString(n) + " days"
    case InWeeks(n) => "In " + IntToString(n) + " weeks"
    case InMonths(n) => "In " + IntToString(n) + " months"
  }

  /** `getTimeRemaining(event.date)` read at `now`. */
  function GetTimeRemaining(date: Date, now: Moment): string {
    Phrase(Bucket(DayCount(date, now)))
  }

  /** An event on the date just after today's, seen from any moment of today,
      is for tomorrow; one on today's date, seen from its midnight, is for
      today. */
  lemma TomorrowAndToday(now: Moment)
    requires Valid(now.date)
    ensures now.millis > 0 ==> GetTimeRemaining(NextDay(now.date), now) == "Tomorrow"
    ensures now.millis == 0 ==> GetTimeRemaining(now.date, now) == "Today"
  {
    DayNumberNext(now.date);
    var diff := Instant(Midnight(NextDay(now.date))) - Instant(now);
    assert diff == MillisPerDay - now.millis;
    if now.millis > 0 {
      CeilDivUnique(diff, MillisPerDay, 1);
    } else {
      CeilDivUnique(0, MillisPerDay, 0);
    }
  }

  datatype Icon = Gift | Heart | Calendar

  /** `getEventIcon`: a gift for birthdays, a heart for anniversaries and a
      calendar for memorials and for any other type. */
  function GetEventIcon(kind: string): (i: Icon)
    ensures kind == "birthday" <==> i == Gift
    ensures kind == "anniversary" <==> i == Heart
    ensures i == Calendar <==> kind != "birthday" && kind != "anniversary"
  {
    if kind == "birthday" then Gift
    else if kind == "anniversary" then Heart
    else Calendar
  }

  /** The colour used when the type is none of the three. */
  const DefaultColor: string := "text-blue-600"

  /** `getEventColor`: green, red and purple for birthdays, anniversaries
      and memorials, blue for any other type. */
  function GetEventColor(kind: string): (c: string)
    ensures kind == "birthday" ==> c == "text-green-600"
    ensures kind == "anniversary" ==> c == "text-red-600"
    ensures kind == "memorial" ==> c == "text-purple-600"
    ensures kind != "birthday" && kind != "anniversary" && kind != "memorial" ==> c == DefaultColor
  {
    if kind == "birthday" then "text-green-600"
    else if kind == "anniversary" then "text-red-600"
    else if kind == "memorial" then "text-purple-600"
    else DefaultColor
  }

  /** Each of the three event types gets a colour of its own, and none of
      them falls to the default. */
  lemma ColorsDistinct(a: EventType, b: EventType)
    ensures GetEventColor(EventTypeName(a)) != DefaultColor
    ensures a != b ==> GetEventColor(EventTypeName(a)) != GetEventColor(EventTypeName(b))
  {
  }

  /** The click on an event: its person is selected only when the event's
      person id names somebody, and then the first person with that id. */
  function SelectOnClick(people: seq<Person>, e: Event): (r: Option<Person>)
    ensures r.Some? <==> exists i :: 0 <= i < |people| && people[i].id == e.personId
    ensures r.Some? ==> r.value.id == e.personId && FirstWithId(people, e.personId, r.value)
  {
    Find(people, e.personId)
  }
}
