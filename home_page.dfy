/** The people and activity state of `HomePage` in `app/page.tsx` and the
    handlers that change it. */
module HomePage {
  import opened Wrappers
  import opened Dates
  import opened Records
  import opened AppTypes
  import opened ActivityLog

  /** The form `handleAddRelation` receives; `kind` is the relation's `type`
      string. */
  datatype RelationForm = RelationForm(kind: string, name: string, dateOfBirth: Date, gender: Gender)

  /** The new person before the `map` callback runs: no relations yet. */
  function Fresh(id: string, form: RelationForm): Person {
    Person(id, form.name, form.dateOfBirth, None, None, None, None, form.gender, None, None, false, [], [], [])
  }

  /** The copy of the target person the callback returns. */
  function LinkTarget(p: Person, kind: string, newId: string): Person {
    if kind == "child" then p.(children := p.children + [newId])
    else if kind == "parent" then p.(parents := p.parents + [newId])
    else if kind == "spouse" then p.(spouse := p.spouse + [newId])
    else p
  }

  /** What the callback does to `newPerson` each time it meets the target. */
  function LinkNew(n: Person, kind: string, personId: string): Person {
    if kind == "child" then n.(parents := n.parents + [personId])
    else if kind == "parent" then n.(children := n.children + [personId])
    else if kind == "spouse" then n.(spouse := n.spouse + [personId])
    else n
  }

  /** `prev.map(...)` together with its side effect: the mapped list, and
      `newPerson` once the callback has run over every entry. */
  function LinkAll(people: seq<Person>, personId: string, kind: string, newId: string, n: Person): (r: (seq<Person>, Person))
    ensures |r.0| == |people| && r.1.id == n.id
    decreases |people|
  {
    if people == [] then ([], n)
    else
      var (ps, m) := LinkAll(people[..|people| - 1], personId, kind, newId, n);
      var p := people[|people| - 1];
      if p.id == personId then (ps + [LinkTarget(p, kind, newId)], LinkNew(m, kind, personId))
      else (ps + [p], m)
  }

  /** The people after `handleAddRelation`. */
  function AddRelation(people: seq<Person>, personId: string, form: RelationForm, newId: string): (r: seq<Person>)
    ensures |r| == |people| + 1 && r[|people|].id == newId
  {
    var (ps, n) := LinkAll(people, personId, form.kind, newId, Fresh(newId, form));
    ps + [n]
  }

  /** How many people carry the id. */
  function Count(people: seq<Person>, id: string): nat
    decreases |people|
  {
    if people == [] then 0
    else Count(people[..|people| - 1], id) + (if people[|people| - 1].id == id then 1 else 0)
  }

  /** `k` copies of `x`. */
  function Repeat(x: string, k: nat): (r: seq<string>)
    ensures |r| == k && forall i :: 0 <= i < k ==> r[i] == x
  {
    if k == 0 then [] else Repeat(x, k - 1) + [x]
  }

  /** The mapped list: the target gets the new id, everyone else is kept. */
  lemma {:induction false} LinkAllMap(people: seq<Person>, personId: string, kind: string, newId: string, n: Person)
    ensures var ps := LinkAll(people, personId, kind, newId, n).0;
      |ps| == |people| &&
      forall i :: 0 <= i < |people| ==>
        ps[i] == if people[i].id == personId then LinkTarget(people[i], kind, newId) else people[i]
    decreases |people|
  {
    if people != [] {
      LinkAllMap(people[..|people| - 1], personId, kind, newId, n);
    }
  }

  /** The new person: one `personId` entry for every match in the array the
      kind names, nothing else changed. */
  lemma {:induction false} LinkAllNew(people: seq<Person>, personId: string, kind: string, newId: string, n: Person)
    ensures var m := LinkAll(people, personId, kind, newId, n).1;
      var k := Count(people, personId);
      m.(parents := n.parents, children := n.children, spouse := n.spouse) == n &&
      m.parents == n.parents + (if kind == "child" then Repeat(personId, k) else []) &&
      m.children == n.children + (if kind == "parent" then Repeat(personId, k) else []) &&
      m.spouse == n.spouse + (if kind == "spouse" then Repeat(personId, k) else [])
    decreases |people|
  {
    if people != [] {
      LinkAllNew(people[..|people| - 1], personId, kind, newId, n);
      var k := Count(people[..|people| - 1], personId);
      assert Repeat(personId, k + 1) == Repeat(personId, k) + [personId];
    }
  }

  /** Exactly one person is added, at the end; the target gets the new id and
      everyone else is unchanged. */
  lemma AddRelationShape(people: seq<Person>, personId: string, form: RelationForm, newId: string)
    ensures var r := AddRelation(people, personId, form, newId);
      r[|people|].name == form.name && r[|people|].dateOfBirth == form.dateOfBirth && r[|people|].gender == form.gender &&
      (forall i :: 0 <= i < |people| && people[i].id != personId ==> r[i] == people[i]) &&
      (forall i :: 0 <= i < |people| && people[i].id == personId ==> r[i] == LinkTarget(people[i], form.kind, newId))
  {
    LinkAllMap(people, personId, form.kind, newId, Fresh(newId, form));
    LinkAllNew(people, personId, form.kind, newId, Fresh(newId, form));
  }

  /** With one person under `personId`, a child, parent or spouse relation is
      recorded on both sides, and any other type on neither. */
  lemma AddRelationLinks(people: seq<Person>, personId: string, form: RelationForm, newId: string, i: nat)
    requires i < |people| && people[i].id == personId && Count(people, personId) == 1
    ensures var r := AddRelation(people, personId, form, newId);
      var p, n := people[i], r[|people|];
      (form.kind == "child" ==> r[i].children == p.children + [newId] && n.parents == [personId] && n.children == [] && n.spouse == []) &&
      (form.kind == "parent" ==> r[i].parents == p.parents + [newId] && n.children == [personId] && n.parents == [] && n.spouse == []) &&
      (form.kind == "spouse" ==> r[i].spouse == p.spouse + [newId] && n.spouse == [personId] && n.parents == [] && n.children == []) &&
      (form.kind !in {"child", "parent", "spouse"} ==> r[i] == p && n == Fresh(newId, form))
  {
    LinkAllMap(people, personId, form.kind, newId, Fresh(newId, form));
    LinkAllNew(people, personId, form.kind, newId, Fresh(newId, form));
    assert Repeat(personId, 1) == [personId];
  }

  /** An id nobody has: the new person is added with no relations and
      nobody else changes. */
  lemma AddRelationUnknown(people: seq<Person>, personId: string, form: RelationForm, newId: string)
    requires Count(people, personId) == 0
    ensures AddRelation(people, personId, form, newId) == people + [Fresh(newId, form)]
  {
    LinkAllMap(people, personId, form.kind, newId, Fresh(newId, form));
    LinkAllNew(people, personId, form.kind, newId, Fresh(newId, form));
    CountZero(people, personId);
  }

  lemma {:induction false} CountZero(people: seq<Person>, id: string)
    requires Count(people, id) == 0
    ensures forall i :: 0 <= i < |people| ==> people[i].id != id
    decreases |people|
  {
    if people != [] {
      CountZero(people[..|people| - 1], id);
    }
  }

  /** The state `HomePage` keeps between renders. */
  class Home {
    var people: seq<Person>
    var activities: seq<Activity>
    var selectedPerson: Option<Person>
    var loggedIn: bool

    constructor()
      ensures people == [] && activities == [] && selectedPerson == None && !loggedIn
    {
      people := [];
      activities := [];
      selectedPerson := None;
      loggedIn := false;
    }

    /** `handlePersonUpdate`: the entries with the updated id are replaced, the
        updated person is selected, and one `edited` entry is logged. */
    method HandlePersonUpdate(updated: Person, activityId: string, timestamp: string)
      modifies this
      ensures people == ReplaceById(old(people), updated, (p: Person) => p.id)
      ensures selectedPerson == Some(updated)
      ensures activities == [EditActivity(activityId, timestamp, updated.name, updated.id)] + old(activities)
      ensures loggedIn == old(loggedIn)
    {
      people := ReplaceById(people, updated, (p: Person) => p.id);
      selectedPerson := Some(updated);
      activities := [EditActivity(activityId, timestamp, updated.name, updated.id)] + activities;
    }

    /** `handleAddRelation`: the `map` over the people, with the callback
        filling in `newPerson` whenever it meets the target, then the new
        person appended and one `added` entry logged. */
    method HandleAddRelation(personId: string, form: RelationForm, newId: string, activityId: string, timestamp: string)
      modifies this
      ensures people == AddRelation(old(people), personId, form, newId)
      ensures activities == [AddActivity(activityId, timestamp, form.name, form.kind, newId)] + old(activities)
      ensures selectedPerson == old(selectedPerson) && loggedIn == old(loggedIn)
    {
      var newPerson := Fresh(newId, form);
      var updated: seq<Person> := [];
      for i := 0 to |people|
        invariant (updated, newPerson) == LinkAll(people[..i], personId, form.kind, newId, Fresh(newId, form))
      {
        assert people[..i + 1][..i] == people[..i];
        var p := people[i];
        if p.id == personId {
          var updatedPerson := p;
          if form.kind == "child" {
            updatedPerson := updatedPerson.(children := updatedPerson.children + [newId]);
            newPerson := newPerson.(parents := newPerson.parents + [personId]);
          } else if form.kind == "parent" {
            updatedPerson := updatedPerson.(parents := updatedPerson.parents + [newId]);
            newPerson := newPerson.(children := newPerson.children + [personId]);
          } else if form.kind == "spouse" {
            updatedPerson := updatedPerson.(spouse := updatedPerson.spouse + [newId]);
            newPerson := newPerson.(spouse := newPerson.spouse + [personId]);
          }
          updated := updated + [updatedPerson];
        } else {
          updated := updated + [p];
        }
      }
      assert people[..|people|] == people;
      people := updated + [newPerson];
      activities := [AddActivity(activityId, timestamp, form.name, form.kind, newId)] + activities;
    }

    /** The GEDCOM import callback: the imported people after the existing
        ones, and one `added` entry naming the first of them. */
    method HandleGedcomImport(importedPeople: seq<Person>, activityId: string, timestamp: string)
      modifies this
      ensures people == old(people) + importedPeople
      ensures activities == [ImportActivity(activityId, timestamp, importedPeople, (p: Person) => p.id)] + old(activities)
      ensures selectedPerson == old(selectedPerson) && loggedIn == old(loggedIn)
    {
      people := people + importedPeople;
      activities := [ImportActivity(activityId, timestamp, importedPeople, (p: Person) => p.id)] + activities;
    }

    /** `handleLogout`: everything is cleared. */
    method HandleLogout()
      modifies this
      ensures !loggedIn && people == [] && activities == [] && selectedPerson == None
    {
      loggedIn := false;
      people := [];
      activities := [];
      selectedPerson := None;
    }
  }
}
