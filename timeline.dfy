/** The birth-date timeline of `src/components/Timeline.tsx`: a sorted copy of
    the people, oldest first, each shown with an age. */
module Timeline {
  import opened Dates
  import opened Sorting
  import opened SrcTypes

  /** `new Date(p.dateOfBirth).getTime()`: the instant of the midnight that
      starts the birth date. */
  function BirthInstant(p: Person): int {
    Instant(Midnight(p.dateOfBirth))
  }

  /** `[...people].sort((a, b) => birth(a) - birth(b))`: the people, every one
      of them exactly as often as before, in non-decreasing order of birth.
      The argument is a value, so the caller's list keeps its order. */
  function SortedPeople(people: seq<Person>): (r: seq<Person>)
    ensures multiset(r) == multiset(people)
    ensures forall i, j :: 0 <= i < j < |r| ==> BirthInstant(r[i]) <= BirthInstant(r[j])
  {
    SortBy(people, BirthInstant)
  }

  /** People born at the same instant keep their order in the list. */
  lemma SortedPeopleStable(people: seq<Person>, k: int)
    ensures KeyFilter(SortedPeople(people), BirthInstant, k) == KeyFilter(people, BirthInstant, k)
  {
    SortByStable(people, BirthInstant, k);
  }

  /** Sorted and stable fix the result: any ordering of the people by birth
      that keeps ties in list order is the timeline. */
  lemma SortedPeopleUnique(people: seq<Person>, s: seq<Person>)
    requires SortedBy(s, BirthInstant)
    requires forall k :: KeyFilter(s, BirthInstant, k) == KeyFilter(people, BirthInstant, k)
    ensures s == SortedPeople(people)
  {
    forall k ensures KeyFilter(SortedPeople(people), BirthInstant, k) == KeyFilter(s, BirthInstant, k) {
      SortedPeopleStable(people, k);
    }
    StableSortUnique(SortedPeople(people), s, BirthInstant);
  }

  /** `getAge`: this year minus the year of birth, month and day aside. */
  function GetAge(dateOfBirth: Date, now: Moment): (age: int)
    ensures age == YearsBetween(dateOfBirth, now.date)
    ensures age + dateOfBirth.year == now.date.year
  {
    now.date.year - dateOfBirth.year
  }

  /** Down the timeline the ages never rise, as long as every birth date
      exists in the calendar. */
  lemma AgesNonIncreasing(people: seq<Person>, now: Moment, i: int, j: int)
    requires forall p | p in people :: Valid(p.dateOfBirth)
    requires 0 <= i < j < |SortedPeople(people)|
    ensures GetAge(SortedPeople(people)[i].dateOfBirth, now) >= GetAge(SortedPeople(people)[j].dateOfBirth, now)
  {
    var r := SortedPeople(people);
    assert r[i] in multiset(people) && r[j] in multiset(people);
    assert BirthInstant(r[i]) <= BirthInstant(r[j]);
    YearOrder(r[i].dateOfBirth, r[j].dateOfBirth);
  }
}
