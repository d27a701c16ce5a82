/** The person record of the `src/` front end, whose relationships are a list
    of typed records. */
module SrcTypes {
  import opened Wrappers
  import opened Dates
  import opened Records

  datatype RelKind = Spouse | Parent | Child | Sibling

  /** One relationship: `personId` is this person's `kind` (a `Child` entry
      names one of this person's children). */
  datatype Relationship = Relationship(id: string, kind: RelKind, personId: string)

  datatype Person = Person(
    id: string,
    name: string,
    dateOfBirth: Date,
    deathDate: Option<Date>,
    location: Option<string>,
    profession: Option<string>,
    biography: Option<string>,
    gender: Gender,
    contactInfo: Option<ContactInfo>,
    photo: Option<string>,
    isMainUser: bool,
    relationships: seq<Relationship>)

  /** `p` is the person at the first position holding `id`. */
  predicate FirstWithId(people: seq<Person>, id: string, p: Person) {
    exists i :: 0 <= i < |people| && people[i] == p && p.id == id && forall j :: 0 <= j < i ==> people[j].id != id
  }

  /** `people.find(p => p.id === id)`: the first person with that id. */
  function Find(people: seq<Person>, id: string): (r: Option<Person>)
    ensures r.Some? <==> exists i :: 0 <= i < |people| && people[i].id == id
    ensures r.Some? ==> r.value.id == id && r.value in people && FirstWithId(people, id, r.value)
  {
    var i := IndexWhere(people, (p: Person) => p.id == id);
    if i < 0 then None else Some(people[i])
  }

  /** `people.findIndex(p => p.id === id)`. */
  function FindIndex(people: seq<Person>, id: string): (i: int)
    ensures -1 <= i < |people|
    ensures i >= 0 ==> people[i].id == id && forall j :: 0 <= j < i ==> people[j].id != id
    ensures i == -1 <==> forall j :: 0 <= j < |people| ==> people[j].id != id
  {
    IndexWhere(people, (p: Person) => p.id == id)
  }
}
