/** The people and activity state of `App` in `src/App.tsx`, whose
    relationships are typed records, and the handlers that change it. */
module SrcApp {
  import opened Wrappers
  import opened Dates
  import opened Records
  import opened SrcTypes
  import opened ActivityLog

  /** The type recorded on the new person's side: a child's record names a
      parent and the other way round; spouse and sibling are their own
      reverse. */
  function Reverse(k: RelKind): (r: RelKind)
    ensures (k == Child <==> r == Parent) && (k == Parent <==> r == Child)
    ensures k == Spouse || k == Sibling ==> r == k
  {
    match k
    case Child => Parent
    case Parent => Child
    case _ => k
  }

  /** The reverse of the reverse is the type itself. */
  lemma ReverseInvolution(k: RelKind)
    ensures Reverse(Reverse(k)) == k
  {
  }

  /** The form `handleAddRelation` receives. */
  datatype RelationForm = RelationForm(kind: RelKind, name: string, dateOfBirth: Date, gender: Gender)

  /** The ids `handleAddRelation` draws from `uuidv4`: the new person's, the
      target's new relationship's and the new person's relationship's. */
  datatype FreshIds = FreshIds(person: string, relationship: string, reverse: string)

  /** The new person: a single relationship, back to the target with the
      reverse type. */
  function NewPerson(personId: string, form: RelationForm, ids: FreshIds): Person {
    Person(ids.person, form.name, form.dateOfBirth, None, None, None, None, form.gender, None, None, false,
           [Relationship(ids.reverse, Reverse(form.kind), personId)])
  }

  /** `{...p, relationships: [...p.relationships, rel]}` for every person
      with the target id. */
  function Attach(people: seq<Person>, personId: string, rel: Relationship): (r: seq<Person>)
    ensures |r| == |people|
  {
    seq(|people|, i requires 0 <= i < |people| =>
      if people[i].id == personId then people[i].(relationships := people[i].relationships + [rel]) else people[i])
  }

  /** The people after `handleAddRelation`. */
  function AddRelation(people: seq<Person>, personId: string, form: RelationForm, ids: FreshIds): (r: seq<Person>)
    ensures |r| == |people| + 1
  {
    Attach(people, personId, Relationship(ids.relationship, form.kind, ids.person)) + [NewPerson(personId, form, ids)]
  }

  /** One person is added at the end; the target gains exactly one
      relationship, at the end of its list; everyone else is unchanged. */
  lemma AddRelationShape(people: seq<Person>, personId: string, form: RelationForm, ids: FreshIds)
    ensures var r := AddRelation(people, personId, form, ids);
      r[..|people|] == Attach(people, personId, Relationship(ids.relationship, form.kind, ids.person)) &&
      r[|people|].id == ids.person && |r[|people|].relationships| == 1 &&
      (forall i :: 0 <= i < |people| && people[i].id != personId ==> r[i] == people[i]) &&
      (forall i :: 0 <= i < |people| && people[i].id == personId ==>
        r[i].(relationships := people[i].relationships) == people[i] &&
        r[i].relationships[..|people[i].relationships|] == people[i].relationships &&
        r[i].relationships[|people[i].relationships|] == Relationship(ids.relationship, form.kind, ids.person))
  {
    var r := AddRelation(people, personId, form, ids);
    assert r[..|people|] == Attach(people, personId, Relationship(ids.relationship, form.kind, ids.person));
  }

  /** After an add the pair is symmetric: the target lists the new person
      with the form's type, the new person lists the target with the reverse
      type, and reversing that gives the form's type back. */
  lemma AddRelationSymmetric(people: seq<Person>, personId: string, form: RelationForm, ids: FreshIds, i: nat)
    requires i < |people| && people[i].id == personId
    ensures var r := AddRelation(people, personId, form, ids);
      var x, n := r[i], r[|people|];
      (exists j :: 0 <= j < |x.relationships| && x.relationships[j].personId == n.id && x.relationships[j].kind == form.kind) &&
      n.relationships[0].personId == x.id && Reverse(n.relationships[0].kind) == form.kind
  {
    var r := AddRelation(people, personId, form, ids);
    var j := |people[i].relationships|;
    assert r[i].relationships[j].personId == r[|people|].id;
    ReverseInvolution(form.kind);
  }

  /** The state `App` keeps between renders. */
  class App {
    var people: seq<Person>
    var activities: seq<Activity>
    var selectedPerson: Option<Person>

    /** The sample data the app starts from. */
    constructor(samplePeople: seq<Person>, sampleActivities: seq<Activity>)
      ensures people == samplePeople && activities == sampleActivities && selectedPerson == None
    {
      people := samplePeople;
      activities := sampleActivities;
      selectedPerson := None;
    }

    /** `handlePersonUpdate`: replaced by id, selected, one `edited` entry. */
    method HandlePersonUpdate(updated: Person, activityId: string, timestamp: string)
      modifies this
      ensures people == ReplaceById(old(people), updated, (p: Person) => p.id)
      ensures selectedPerson == Some(updated)
      ensures activities == [EditActivity(activityId, timestamp, updated.name, updated.id)] + old(activities)
    {
      people := ReplaceById(people, updated, (p: Person) => p.id);
      selectedPerson := Some(updated);
      activities := [EditActivity(activityId, timestamp, updated.name, updated.id)] + activities;
    }

    /** `handleAddRelation`: both sides of the relation, and one `added`
        entry for the new person. */
    method HandleAddRelation(personId: string, form: RelationForm, ids: FreshIds, activityId: string, timestamp: string)
      modifies this
      ensures people == AddRelation(old(people), personId, form, ids)
      ensures activities == [AddActivity(activityId, timestamp, form.name, KindName(form.kind), ids.person)] + old(activities)
      ensures selectedPerson == old(selectedPerson)
    {
      var newPerson := NewPerson(personId, form, ids);
      var updated := Attach(people, personId, Relationship(ids.relationship, form.kind, ids.person));
      people := updated + [newPerson];
      activities := [AddActivity(activityId, timestamp, form.name, KindName(form.kind), ids.person)] + activities;
    }

    /** `handleGedcomImport`: the imported people after the existing ones and
        one `added` entry naming the first of them. */
    method HandleGedcomImport(importedPeople: seq<Person>, activityId: string, timestamp: string)
      modifies this
      ensures people == old(people) + importedPeople
      ensures activities == [ImportActivity(activityId, timestamp, importedPeople, (p: Person) => p.id)] + old(activities)
      ensures selectedPerson == old(selectedPerson)
    {
      people := people + importedPeople;
      activities := [ImportActivity(activityId, timestamp, importedPeople, (p: Person) => p.id)] + activities;
    }
  }

  /** The `type` string of a relationship. */
  function KindName(k: RelKind): string {
    match k
    case Spouse => "spouse"
    case Parent => "parent"
    case Child => "child"
    case Sibling => "sibling"
  }
}
