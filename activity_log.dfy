/** The state updates shared by the two front ends (`app/page.tsx` and
    `src/App.tsx`): replacing a person by id, and prepending to the activity
    log. */
module ActivityLog {
  import opened Records
  import opened Text

  /** `prev.map(p => p.id === updated.id ? updated : p)`, for any record type
      whose id `idOf` reads. */
  function ReplaceById<P>(people: seq<P>, updated: P, idOf: P -> string): (r: seq<P>)
    ensures |r| == |people|
  {
    seq(|people|, i requires 0 <= i < |people| => if idOf(people[i]) == idOf(updated) then updated else people[i])
  }

  /** Replacing keeps every other record where it was, puts the update at
      every position of its id, and leaves the ids in order. */
  lemma ReplaceKeepsOthers<P>(people: seq<P>, updated: P, idOf: P -> string)
    ensures var r := ReplaceById(people, updated, idOf);
      (forall i :: 0 <= i < |people| && idOf(people[i]) != idOf(updated) ==> r[i] == people[i]) &&
      (forall i :: 0 <= i < |people| && idOf(people[i]) == idOf(updated) ==> r[i] == updated) &&
      (forall i :: 0 <= i < |people| ==> idOf(r[i]) == idOf(people[i]))
  {
  }

  /** Replacing twice with the same record is replacing once. */
  lemma ReplaceIdempotent<P>(people: seq<P>, updated: P, idOf: P -> string)
    ensures ReplaceById(ReplaceById(people, updated, idOf), updated, idOf) == ReplaceById(people, updated, idOf)
  {
  }

  /** An update whose id nobody has changes nothing. */
  lemma ReplaceUnknown<P>(people: seq<P>, updated: P, idOf: P -> string)
    requires forall i :: 0 <= i < |people| ==> idOf(people[i]) != idOf(updated)
    ensures ReplaceById(people, updated, idOf) == people
  {
  }

  /** The entry `handlePersonUpdate` logs. */
  function EditActivity(id: string, timestamp: string, name: string, personId: string): Activity {
    Activity(id, Edited, "Updated information for " + name, timestamp, personId)
  }

  /** The entry `handleAddRelation` logs: `Added <name> as <type>`. */
  function AddActivity(id: string, timestamp: string, name: string, kind: string, personId: string): Activity {
    Activity(id, Added, "Added " + name + " as " + kind, timestamp, personId)
  }

  /** `importedPeople[0]?.id || ''`. */
  function FirstId<P>(imported: seq<P>, idOf: P -> string): (r: string)
    ensures imported == [] ==> r == ""
    ensures imported != [] ==> r == idOf(imported[0])
  {
    if imported == [] then "" else idOf(imported[0])
  }

  /** The entry the GEDCOM import callback logs. */
  function ImportActivity<P>(id: string, timestamp: string, imported: seq<P>, idOf: P -> string): Activity {
    Activity(id, Added, "Imported " + NatToString(|imported|) + " family members from GEDCOM file", timestamp, FirstId(imported, idOf))
  }
}
