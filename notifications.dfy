/** The decisions behind the browser notifications of
    `app/utils/notifications.ts`: whether to ask for permission, which events
    get a timer and after how long, and what a notification says. The timers
    and the notifications themselves are outputs here, not side effects. */
module Notifications {
  import opened Wrappers
  import opened SeqFacts
  import opened Dates
  import opened Records
  import opened AppTypes
  import opened Text

  /** `Notification.permission`. */
  datatype Permission = Granted | Denied | Undecided

  /** The answer `requestNotificationPermission` resolves to, and whether it
      put the question to the user. */
  datatype PermissionOutcome = PermissionOutcome(allowed: bool, prompted: bool)

  /** `requestNotificationPermission`: false when the browser has no
      notifications; true without asking when permission is already granted;
      false without asking when it is denied; otherwise the user is asked and
      `answer` is what they choose. */
  function RequestPermission(supported: bool, current: Permission, answer: Permission): (r: PermissionOutcome)
    ensures r.prompted <==> supported && current == Undecided
    ensures r.allowed <==> supported && (current == Granted || (r.prompted && answer == Granted))
  {
    if !supported then PermissionOutcome(false, false)
    else if current == Granted then PermissionOutcome(true, false)
    else if current != Denied then PermissionOutcome(answer == Granted, true)
    else PermissionOutcome(false, false)
  }

  const MillisPerHour: int := 60 * 60 * 1000

  /** `eventDate.getTime() - now.getTime()`, the event's date being read as
      its midnight. */
  function TimeDiff(e: Event, now: Moment): int {
    Instant(Midnight(e.date)) - Instant(now)
  }

  /** The scheduling window: the event is still ahead, by at most a day. */
  predicate InWindow(diff: int) {
    0 < diff <= 24 * MillisPerHour
  }

  /** `Math.max(0, timeDiff - 1 hour)`: one hour ahead of the event, or at
      once when it is less than an hour away; inside the window it is never
      negative and always comes before the event. */
  function Delay(diff: int): (d: int)
    ensures d >= 0 && d >= diff - MillisPerHour
    ensures d == 0 || d == diff - MillisPerHour
    ensures InWindow(diff) ==> 0 <= d < diff
  {
    if diff - MillisPerHour > 0 then diff - MillisPerHour else 0
  }

  /** A `setTimeout` the scheduler starts: the event, its person, the delay. */
  datatype Timer = Timer(event: Event, person: Person, delay: int)

  /** The timer for one event, if any: only inside the window, and only when
      the event's person id names somebody. */
  function TimerFor(e: Event, people: seq<Person>, now: Moment): (t: Option<Timer>)
    ensures t.Some? <==> InWindow(TimeDiff(e, now)) && Resolves(people, e.personId)
    ensures t.Some? ==> t.value.event == e && t.value.person.id == e.personId && t.value.person in people
    ensures t.Some? ==> FirstWithId(people, e.personId, t.value.person)
    ensures t.Some? ==> 0 <= t.value.delay < TimeDiff(e, now)
  {
    var diff := TimeDiff(e, now);
    if InWindow(diff) then
      match Find(people, e.personId)
      case Some(p) => Some(Timer(e, p, Delay(diff)))
      case None => None
    else None
  }

  /** The timers of `scheduleEventNotifications`, in the order of the events. */
  function Schedule(events: seq<Event>, people: seq<Person>, now: Moment): (r: seq<Timer>)
    ensures |r| <= |events|
  {
    Somes(events, e => TimerFor(e, people, now))
  }

  /** Exactly the events with a timer of their own are scheduled. */
  lemma {:induction false} ScheduleExactly(events: seq<Event>, people: seq<Person>, now: Moment, t: Timer)
    ensures t in Schedule(events, people, now) <==> exists i :: 0 <= i < |events| && TimerFor(events[i], people, now) == Some(t)
  {
    SomesExactly(events, e => TimerFor(e, people, now), t);
  }

  /** Every timer started is for an event inside the window whose person
      exists, and fires before the event. */
  lemma ScheduledTimers(events: seq<Event>, people: seq<Person>, now: Moment, t: Timer)
    requires t in Schedule(events, people, now)
    ensures InWindow(TimeDiff(t.event, now)) && t.event in events
    ensures t.person in people && t.person.id == t.event.personId
    ensures 0 <= t.delay < TimeDiff(t.event, now)
  {
    ScheduleExactly(events, people, now, t);
    var i :| 0 <= i < |events| && TimerFor(events[i], people, now) == Some(t);
  }

  /** `scheduleEventNotifications`: the `forEach` over the events, starting
      one timer for each event that passes both tests. */
  method ScheduleEventNotifications(events: seq<Event>, people: seq<Person>, now: Moment) returns (timers: seq<Timer>)
    ensures timers == Schedule(events, people, now)
  {
    timers := [];
    for k := 0 to |events|
      invariant timers == Schedule(events[..k], people, now)
    {
      PrefixStep(events, k);
      var event := events[k];
      var timeDiff := Instant(Midnight(event.date)) - Instant(now);
      if timeDiff > 0 && timeDiff <= 24 * 60 * 60 * 1000 {
        var person := Find(people, event.personId);
        if person.Some? {
          var delay := if timeDiff - 60 * 60 * 1000 > 0 then timeDiff - 60 * 60 * 1000 else 0;
          timers := timers + [Timer(event, person.value, delay)];
        }
      }
    }
    PrefixAll(events);
  }

  /** The options of a notification. */
  datatype Notification = Notification(title: string, body: string, icon: string, tag: string)

  /** The body used when the event has no description. */
  function DefaultBody(name: string): string {
    "Don't forget about " + name + "'s special day!"
  }

  const DefaultIcon: string := "/vite.svg"

  /** `showNotification`: nothing unless permission is granted; otherwise
      titled as the event and tagged with its id, with the event's
      description as the body when it is a non-empty string and a reminder
      naming the person when not, and the person's photo as the icon when
      there is one. */
  function ShowNotification(e: Event, p: Person, permission: Permission): (r: Option<Notification>)
    ensures r.Some? <==> permission == Granted
    ensures r.Some? ==> r.value.title == e.title && r.value.tag == e.id
    ensures r.Some? && e.description.Some? && e.description.value != "" ==> r.value.body == e.description.value
    ensures r.Some? && (e.description.None? || e.description.value == "") ==> r.value.body == DefaultBody(p.name)
    ensures r.Some? && p.photo.Some? && p.photo.value != "" ==> r.value.icon == p.photo.value
    ensures r.Some? && (p.photo.None? || p.photo.value == "") ==> r.value.icon == DefaultIcon
  {
    if permission == Granted then
      var body := if e.description.Some? && e.description.value != "" then e.description.value else DefaultBody(p.name);
      var icon := if p.photo.Some? && p.photo.value != "" then p.photo.value else DefaultIcon;
      Some(Notification(e.title, body, icon, e.id))
    else None
  }

  /** The event `showBirthdayNotification` builds for today. */
  function BirthdayEvent(p: Person, now: Moment): (e: Event)
    ensures e.id == "birthday-" + p.id && e.kind == Birthday && e.personId == p.id && e.date == now.date
  {
    var age := now.date.year - p.dateOfBirth.year;
    Event("birthday-" + p.id, Birthday, "\U{1F389} " + p.name + "'s Birthday!", now.date, p.id,
      Some(p.name + " is turning " + IntToString(age) + " today!"))
  }

  /** `showBirthdayNotification`: `showNotification` of that event. */
  function ShowBirthdayNotification(p: Person, now: Moment, permission: Permission): Option<Notification> {
    ShowNotification(BirthdayEvent(p, now), p, permission)
  }

  /** The birthday description is never empty, so it is always the body: it
      names the person and the age, the difference of the years, and the tag
      is `birthday-` and the person's id. */
  lemma BirthdayNotification(p: Person, now: Moment)
    ensures var r := ShowBirthdayNotification(p, now, Granted);
      r.Some? && r.value.tag == "birthday-" + p.id &&
      r.value.body == p.name + " is turning " + IntToString(now.date.year - p.dateOfBirth.year) + " today!"
    ensures ShowBirthdayNotification(p, now, Denied).None? && ShowBirthdayNotification(p, now, Undecided).None?
  {
    var e := BirthdayEvent(p, now);
    assert |e.description.value| > 0;
  }
}
