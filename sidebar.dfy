/** The logic of the person side panel `app/components/Sidebar.tsx`: the
    immediate family of the person shown, the activities about them, and the
    guards of its edit and add-relation forms. */
module Sidebar {
  import opened Wrappers
  import opened Dates
  import opened Records
  import opened AppTypes

  /** The people the ids name, in id order, with every id that names nobody
      dropped: the `forEach` that pushes each `find` that succeeds. */
  function Resolve(people: seq<Person>, ids: seq<string>): (r: seq<Person>)
    ensures |r| <= |ids|
    ensures forall x | x in r :: x in people
    decreases |ids|
  {
    if ids == [] then []
    else
      var rest := Resolve(people, ids[..|ids| - 1]);
      match Find(people, ids[|ids| - 1])
      case Some(p) => rest + [p]
      case None => rest
  }

  /** When every id names somebody, nobody is dropped and the order is the
      order of the ids. */
  lemma {:induction false} ResolveAll(people: seq<Person>, ids: seq<string>)
    requires forall i :: 0 <= i < |ids| ==> Resolves(people, ids[i])
    ensures |Resolve(people, ids)| == |ids|
    ensures forall k :: 0 <= k < |ids| ==> Resolve(people, ids)[k].id == ids[k]
    decreases |ids|
  {
    if ids != [] {
      var init := ids[..|ids| - 1];
      assert forall i :: 0 <= i < |init| ==> init[i] == ids[i];
      ResolveAll(people, init);
      var last := Find(people, ids[|ids| - 1]);
      assert last.Some?;
      assert Resolve(people, ids) == Resolve(people, init) + [last.value];
    }
  }

  /** Ids that name nobody contribute nothing. */
  lemma {:induction false} ResolveDangling(people: seq<Person>, ids: seq<string>)
    requires forall i :: 0 <= i < |ids| ==> !Resolves(people, ids[i])
    ensures Resolve(people, ids) == []
    decreases |ids|
  {
    if ids != [] {
      var init := ids[..|ids| - 1];
      assert forall i :: 0 <= i < |init| ==> init[i] == ids[i];
      ResolveDangling(people, init);
    }
  }

  /** Resolving a list of ids resolves each part of it in turn. */
  lemma {:induction false} ResolveAppend(people: seq<Person>, a: seq<string>, b: seq<string>)
    ensures Resolve(people, a + b) == Resolve(people, a) + Resolve(people, b)
    decreases |b|
  {
    if b == [] {
      assert a + b == a;
    } else {
      var init := b[..|b| - 1];
      assert (a + b)[..|a + b| - 1] == a + init;
      assert (a + b)[|a + b| - 1] == b[|b| - 1];
      ResolveAppend(people, a, init);
    }
  }

  /** The object `getImmediateFamily` returns. */
  datatype Family = Family(parents: seq<Person>, siblings: seq<Person>, spouse: Option<Person>, children: seq<Person>)

  /** Pushes the people `ids` name onto `acc`, one `find` per id. */
  method PushResolved(people: seq<Person>, ids: seq<string>, acc: seq<Person>) returns (r: seq<Person>)
    ensures r == acc + Resolve(people, ids)
  {
    r := acc;
    for k := 0 to |ids|
      invariant r == acc + Resolve(people, ids[..k])
    {
      assert ids[..k + 1][..k] == ids[..k];
      var related := Find(people, ids[k]);
      if related.Some? {
        r := r + [related.value];
      }
    }
    assert ids[..|ids|] == ids;
  }

  /** `getImmediateFamily`: the parents and children the id lists name, in
      list order and without the ids that name nobody; the spouse that the
      first spouse id names, if any, the later ones being never looked at;
      and no siblings at all. */
  method GetImmediateFamily(person: Person, people: seq<Person>) returns (family: Family)
    ensures family.parents == Resolve(people, person.parents)
    ensures family.children == Resolve(people, person.children)
    ensures person.spouse == [] ==> family.spouse == None
    ensures person.spouse != [] ==> family.spouse == Find(people, person.spouse[0])
    ensures family.siblings == []
  {
    family := Family([], [], None, []);
    var parents := PushResolved(people, person.parents, family.parents);
    family := family.(parents := parents);
    if |person.spouse| > 0 {
      var spouseId := person.spouse[0];
      var related := Find(people, spouseId);
      if related.Some? {
        family := family.(spouse := related);
      }
    }
    var children := PushResolved(people, person.children, family.children);
    family := family.(children := children);
  }

  /** `activities.filter(a => a.personId === person.id)`. */
  function PersonActivities(activities: seq<Activity>, personId: string): (r: seq<Activity>)
    ensures |r| <= |activities|
    ensures forall a :: a in r <==> a in activities && a.personId == personId
  {
    if activities == [] then []
    else if activities[0].personId == personId then [activities[0]] + PersonActivities(activities[1..], personId)
    else PersonActivities(activities[1..], personId)
  }

  /** The filter keeps the original order: filtering a concatenation filters
      each part. */
  lemma {:induction false} PersonActivitiesAppend(a: seq<Activity>, b: seq<Activity>, personId: string)
    ensures PersonActivities(a + b, personId) == PersonActivities(a, personId) + PersonActivities(b, personId)
  {
    if a == [] {
      assert a + b == b;
    } else {
      assert (a + b)[0] == a[0];
      assert (a + b)[1..] == a[1..] + b;
      PersonActivitiesAppend(a[1..], b, personId);
    }
  }

  /** Nothing is dropped when every activity is about the person. */
  lemma {:induction false} PersonActivitiesAll(activities: seq<Activity>, personId: string)
    requires forall i :: 0 <= i < |activities| ==> activities[i].personId == personId
    ensures PersonActivities(activities, personId) == activities
  {
    if activities != [] {
      PersonActivitiesAll(activities[1..], personId);
    }
  }

  /** `Partial<Person>`: each field is absent (`None`) or holds a value. */
  datatype EditForm = EditForm(
    id: Option<string>,
    name: Option<string>,
    dateOfBirth: Option<Date>,
    deathDate: Option<Option<Date>>,
    location: Option<Option<string>>,
    profession: Option<Option<string>>,
    biography: Option<Option<string>>,
    gender: Option<Gender>,
    contactInfo: Option<Option<ContactInfo>>,
    photo: Option<Option<string>>,
    isMainUser: Option<bool>,
    parents: Option<seq<string>>,
    spouse: Option<seq<string>>,
    children: Option<seq<string>>)

  /** `{ ...person }`: the form the panel fills in whenever the person shown
      changes. */
  function FormOf(p: Person): EditForm {
    EditForm(Some(p.id), Some(p.name), Some(p.dateOfBirth), Some(p.deathDate), Some(p.location),
      Some(p.profession), Some(p.biography), Some(p.gender), Some(p.contactInfo), Some(p.photo),
      Some(p.isMainUser), Some(p.parents), Some(p.spouse), Some(p.children))
  }

  const EmptyForm := EditForm(None, None, None, None, None, None, None, None, None, None, None, None, None, None)

  /** `{ ...person, ...editForm }`: the fields the form holds win. */
  function Overlay(p: Person, f: EditForm): Person {
    Person(f.id.GetOr(p.id), f.name.GetOr(p.name), f.dateOfBirth.GetOr(p.dateOfBirth),
      f.deathDate.GetOr(p.deathDate), f.location.GetOr(p.location), f.profession.GetOr(p.profession),
      f.biography.GetOr(p.biography), f.gender.GetOr(p.gender), f.contactInfo.GetOr(p.contactInfo),
      f.photo.GetOr(p.photo), f.isMainUser.GetOr(p.isMainUser), f.parents.GetOr(p.parents),
      f.spouse.GetOr(p.spouse), f.children.GetOr(p.children))
  }

  /** An empty form changes nothing, a full copy of a person gives that
      person, and laying the same form on twice is laying it on once. */
  lemma OverlayLaws(p: Person, q: Person, f: EditForm)
    ensures Overlay(p, EmptyForm) == p
    ensures Overlay(q, FormOf(p)) == p
    ensures Overlay(Overlay(p, f), f) == Overlay(p, f)
  {
  }

  /** `handleSaveEdit`: the update is sent only when the form holds a
      non-empty name, a date of birth and a gender, and it is the person with
      the form laid over. */
  function SaveEdit(person: Person, form: EditForm): (r: Option<Person>)
    ensures r.Some? <==> form.name.Some? && form.name.value != "" && form.dateOfBirth.Some? && form.gender.Some?
    ensures r.Some? ==>
      r.value.name == form.name.value && r.value.dateOfBirth == form.dateOfBirth.value &&
      r.value.gender == form.gender.value
    ensures r.Some? ==> form.id.None? ==> r.value.id == person.id
  {
    if form.name.Some? && form.name.value != "" && form.dateOfBirth.Some? && form.gender.Some? then
      Some(Overlay(person, form))
    else
      None
  }

  /** The form the panel holds is a copy of the person, so a save sends the
      person back unchanged whenever the name is not empty. */
  lemma SaveUnedited(person: Person)
    ensures person.name != "" ==> SaveEdit(person, FormOf(person)) == Some(person)
    ensures person.name == "" ==> SaveEdit(person, FormOf(person)) == None
  {
    OverlayLaws(person, person, FormOf(person));
  }

  /** The add-relation form, whose fields are the strings of its inputs. */
  datatype AddForm = AddForm(kind: string, name: string, dateOfBirth: string, gender: string)

  const InitialAddForm := AddForm("child", "", "", "male")

  /** The state of the panel's forms. */
  class Panel {
    var isEditing: bool
    var showAddForm: bool
    var editForm: EditForm
    var addForm: AddForm

    constructor(person: Person)
      ensures !isEditing && !showAddForm
      ensures editForm == FormOf(person) && addForm == InitialAddForm
    {
      isEditing := false;
      showAddForm := false;
      editForm := FormOf(person);
      addForm := InitialAddForm;
    }

    /** The effect that copies a newly shown person into the edit form. */
    method ShowPerson(person: Person)
      modifies this
      ensures editForm == FormOf(person)
      ensures isEditing == old(isEditing) && showAddForm == old(showAddForm) && addForm == old(addForm)
    {
      editForm := FormOf(person);
    }

    /** `handleSaveEdit`: the update to send, if the guard lets it through,
        and the end of editing when it does. */
    method HandleSaveEdit(person: Person) returns (update: Option<Person>)
      modifies this
      ensures update == SaveEdit(person, old(editForm))
      ensures isEditing == (old(isEditing) && update.None?)
      ensures editForm == old(editForm) && showAddForm == old(showAddForm) && addForm == old(addForm)
    {
      var form := editForm;
      if form.name.Some? && form.name.value != "" && form.dateOfBirth.Some? && form.gender.Some? {
        update := Some(Overlay(person, form));
        isEditing := false;
      } else {
        update := None;
      }
    }

    /** `handleAddRelation`: with a non-empty name and date of birth, the
        request `(personId, form)` to send, after which the form is reset to
        a child with empty name and date, male, and closed; otherwise nothing
        is sent and nothing changes. */
    method HandleAddRelation(personId: string) returns (request: Option<(string, AddForm)>)
      modifies this
      ensures request.Some? <==> old(addForm).name != "" && old(addForm).dateOfBirth != ""
      ensures request.Some? ==> request.value == (personId, old(addForm))
      ensures request.Some? ==> addForm == InitialAddForm && !showAddForm
      ensures request.None? ==> addForm == old(addForm) && showAddForm == old(showAddForm)
      ensures isEditing == old(isEditing) && editForm == old(editForm)
    {
      if addForm.name != "" && addForm.dateOfBirth != "" {
        request := Some((personId, addForm));
        addForm := InitialAddForm;
        showAddForm := false;
      } else {
        request := None;
      }
    }
  }
}
