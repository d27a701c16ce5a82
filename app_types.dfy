/** The person record of the `app/` front end, whose relationships are three
    arrays of person ids. */
module AppTypes {
  import opened Wrappers
  import opened Dates
  import opened Records

  datatype Person = Person(
    id: string,
    name: string,
    dateOfBirth: Date,
    deathDate: Option<Date>,
    location: Option<string>,
    profession: Option<string>,
    biography: Option<string>,
    gender: Gender,
    contactInfo: Option<ContactInfo>,
    photo: Option<string>,
    isMainUser: bool,
    parents: seq<string>,
    spouse: seq<string>,
    children: seq<string>)

  /** `p` is the person at the first position holding `id`. */
  predicate FirstWithId(people: seq<Person>, id: string, p: Person) {
    exists i :: 0 <= i < |people| && people[i] == p && p.id == id && forall j :: 0 <= j < i ==> people[j].id != id
  }

  /** `people.find(p => p.id === id)`: the first person with that id. */
  function Find(people: seq<Person>, id: string): (r: Option<Person>)
    ensures r.Some? <==> exists i :: 0 <= i < |people| && people[i].id == id
    ensures r.Some? ==> r.value.id == id && r.value in people && FirstWithId(people, id, r.value)
  {
    var i := IndexWhere(people, (p: Person) => p.id == id);
    if i < 0 then None else Some(people[i])
  }

  /** Some person has the id. */
  predicate Resolves(people: seq<Person>, id: string) {
    exists i :: 0 <= i < |people| && people[i].id == id
  }
}
