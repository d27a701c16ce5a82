/** `generateUpcomingEvents` of `app/utils/graphUtils.ts`: a birthday event for
    everyone whose next birthday falls within a month from now, sorted by date. */
module UpcomingEvents {
  import opened Wrappers
  import opened SeqFacts
  import opened Dates
  import opened Records
  import opened AppTypes
  import opened Text
  import opened Sorting

  /** `new Date(year, birth.getMonth(), birth.getDate())`: the birthday in a
      given year, at midnight; a 29 February birthday falls on 1 March in a
      common year. */
  function BirthdayIn(year: int, birth: Date): (r: Date)
    ensures Valid(r) && r.year == year
    ensures Valid(Date(year, birth.month, birth.day)) ==> r == Date(year, birth.month, birth.day)
  {
    Normalize(year, birth.month, birth.day)
  }

  /** This year's birthday unless its midnight has already passed, else next
      year's: the first of the two that is not in the past. */
  function UpcomingBirthday(birth: Date, now: Moment): (r: Date)
    ensures NotBefore(Midnight(r), now)
    ensures r == BirthdayIn(now.date.year, birth) || r == BirthdayIn(now.date.year + 1, birth)
    ensures r == BirthdayIn(now.date.year + 1, birth) ==> !NotBefore(Midnight(BirthdayIn(now.date.year, birth)), now)
  {
    var thisYear := BirthdayIn(now.date.year, birth);
    if NotBefore(Midnight(thisYear), now) then thisYear else BirthdayIn(now.date.year + 1, birth)
  }

  /** `upcomingBirthday <= nextMonth`. */
  predicate InWindow(d: Date, now: Moment) {
    !Before(NextMonth(now.date), d)
  }

  /** The suffix of the title: only 1, 2 and 3 get `st`, `nd` and `rd`. */
  function Suffix(age: int): string {
    if age == 1 then "st" else if age == 2 then "nd" else if age == 3 then "rd" else "th"
  }

  /** `st`, `nd` and `rd` go to the ages 1, 2 and 3 exactly; every other age,
      0, 11, 21 or 22 among them, gets `th`. */
  lemma SuffixOrdinal(age: int)
    ensures Suffix(age) != "th" <==> 1 <= age <= 3
    ensures Suffix(age) == "st" <==> age == 1
    ensures Suffix(age) == "nd" <==> age == 2
    ensures Suffix(age) == "rd" <==> age == 3
  {
  }

  /** The age the person turns: the difference of the years. */
  function TurningAge(p: Person, now: Moment): int {
    UpcomingBirthday(p.dateOfBirth, now).year - p.dateOfBirth.year
  }

  /** The event the source pushes for a person. */
  function BirthdayEvent(p: Person, now: Moment): (e: Event)
    ensures e.kind == Birthday && e.personId == p.id && e.id == "birthday-" + p.id
    ensures e.date == UpcomingBirthday(p.dateOfBirth, now)
    ensures e.title == p.name + "'s " + IntToString(TurningAge(p, now)) + Suffix(TurningAge(p, now)) + " Birthday"
    ensures e.description == Some(p.name + " turns " + IntToString(TurningAge(p, now)))
  {
    var age := TurningAge(p, now);
    Event(
      "birthday-" + p.id,
      Birthday,
      p.name + "'s " + IntToString(age) + Suffix(age) + " Birthday",
      UpcomingBirthday(p.dateOfBirth, now),
      p.id,
      Some(p.name + " turns " + IntToString(age)))
  }

  /** The age in the description reads back as the age the person turns. */
  lemma DescriptionAge(p: Person, now: Moment)
    requires TurningAge(p, now) >= 0
    ensures var d := BirthdayEvent(p, now).description.value;
      |p.name + " turns "| <= |d| && d[..|p.name + " turns "|] == p.name + " turns " &&
      ParseNat(d[|p.name + " turns "|..]) == Some(TurningAge(p, now))
  {
    var head := p.name + " turns ";
    var digits := NatToString(TurningAge(p, now));
    assert BirthdayEvent(p, now).description.value == head + digits;
    assert (head + digits)[|head|..] == digits;
    ParseNatToString(TurningAge(p, now));
  }

  /** Whether the person gets an event. */
  predicate Upcoming(p: Person, now: Moment) {
    InWindow(UpcomingBirthday(p.dateOfBirth, now), now)
  }

  /** The event the `forEach` pushes for one person, if any. */
  function Candidate(p: Person, now: Moment): Option<Event> {
    if Upcoming(p, now) then Some(BirthdayEvent(p, now)) else None
  }

  /** The events pushed by the `forEach`, in the order of `people`. */
  function Candidates(people: seq<Person>, now: Moment): seq<Event> {
    Somes(people, p => Candidate(p, now))
  }

  /** An event is a candidate exactly when it is the birthday event of someone
      whose next birthday is within the month. */
  lemma {:induction false} CandidatesExactly(people: seq<Person>, now: Moment, e: Event)
    ensures e in Candidates(people, now) <==>
            exists i :: 0 <= i < |people| && Upcoming(people[i], now) && e == BirthdayEvent(people[i], now)
  {
    SomesExactly(people, p => Candidate(p, now), e);
  }

  /** Events are ordered by the instant of their date. */
  function EventKey(e: Event): int {
    Key(e.date)
  }

  /** Every event is a birthday of someone in the list, on a day not in the
      past and no later than a month from now, and the events are in
      chronological order. */
  lemma EventsInWindow(people: seq<Person>, now: Moment, events: seq<Event>)
    requires multiset(events) == multiset(Candidates(people, now)) && SortedBy(events, EventKey)
    ensures forall e | e in events :: e.kind == Birthday && NotBefore(Midnight(e.date), now) &&
              !Before(NextMonth(now.date), e.date)
    ensures forall i, j :: 0 <= i < j < |events| ==> !Before(events[j].date, events[i].date)
  {
    forall e | e in events
      ensures e.kind == Birthday && NotBefore(Midnight(e.date), now) && !Before(NextMonth(now.date), e.date)
    {
      assert e in multiset(Candidates(people, now));
      CandidatesExactly(people, now, e);
    }
    forall i, j | 0 <= i < j < |events| ensures !Before(events[j].date, events[i].date) {
      KeyOrder(events[j].date, events[i].date);
    }
  }

  /** `generateUpcomingEvents(people)`, with the current moment a parameter. */
  method GenerateUpcomingEvents(people: seq<Person>, now: Moment) returns (events: seq<Event>)
    ensures multiset(events) == multiset(Candidates(people, now))
    ensures SortedBy(events, EventKey)
    ensures forall k :: KeyFilter(events, EventKey, k) == KeyFilter(Candidates(people, now), EventKey, k)
    ensures forall i :: 0 <= i < |people| && Upcoming(people[i], now) ==> BirthdayEvent(people[i], now) in events
  {
    var pending: seq<Event> := [];
    for i := 0 to |people|
      invariant pending == Candidates(people[..i], now)
    {
      PrefixStep(people, i);
      if Upcoming(people[i], now) {
        pending := pending + [BirthdayEvent(people[i], now)];
      }
    }
    PrefixAll(people);
    events := SortBy(pending, EventKey);
    forall k ensures KeyFilter(events, EventKey, k) == KeyFilter(pending, EventKey, k) {
      SortByStable(pending, EventKey, k);
    }
    forall i | 0 <= i < |people| && Upcoming(people[i], now) ensures BirthdayEvent(people[i], now) in events {
      CandidatesExactly(people, now, BirthdayEvent(people[i], now));
      assert BirthdayEvent(people[i], now) in multiset(events);
    }
  }
}
