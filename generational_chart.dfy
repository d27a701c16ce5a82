/** The ancestor levels and the connectors of the radial chart in
    `app/components/GenerationalChart.tsx`. The component reads the typed
    `relationships` list, so it is modelled on the typed person record. */
module GenerationalChart {
  import opened Wrappers
  import opened Records
  import opened SrcTypes
  import opened SeqFacts

  // The parents of one person

  /** `p.relationships.filter(rel => rel.type === 'parent').map(rel =>
      people.find(...)).filter(Boolean)`, over a list of relationships. */
  function ResolveParents(people: seq<Person>, rels: seq<Relationship>): (r: seq<Person>)
    ensures |r| <= |rels|
    ensures forall x :: x in r ==> x in people
    decreases |rels|
  {
    if rels == [] then []
    else
      var rest := ResolveParents(people, rels[..|rels| - 1]);
      var rel := rels[|rels| - 1];
      if rel.kind == Parent && Find(people, rel.personId).Some? then rest + [Find(people, rel.personId).value] else rest
  }

  /** The parents of `p` that resolve, in the order `p` lists them. */
  function ParentsOf(people: seq<Person>, p: Person): seq<Person> {
    ResolveParents(people, p.relationships)
  }

  /** Every resolved parent is the person found for a `parent` relationship,
      and every `parent` relationship that resolves contributes. */
  lemma {:induction false} ResolveParentsExact(people: seq<Person>, rels: seq<Relationship>, x: Person)
    ensures x in ResolveParents(people, rels) <==>
      exists j :: 0 <= j < |rels| && rels[j].kind == Parent && Find(people, rels[j].personId) == Some(x)
    decreases |rels|
  {
    if rels != [] {
      var init := rels[..|rels| - 1];
      ResolveParentsExact(people, init, x);
      if x in ResolveParents(people, rels) && x !in ResolveParents(people, init) {
        assert Find(people, rels[|rels| - 1].personId) == Some(x);
      }
      if exists j :: 0 <= j < |rels| && rels[j].kind == Parent && Find(people, rels[j].personId) == Some(x) {
        var j :| 0 <= j < |rels| && rels[j].kind == Parent && Find(people, rels[j].personId) == Some(x);
        if j < |rels| - 1 {
          assert init[j] == rels[j];
        }
      }
    }
  }

  // Generations

  /** `nextGeneration`: the parents of every person of the current
      generation, concatenated in order, with no deduplication. */
  function NextGeneration(people: seq<Person>, current: seq<Person>): seq<Person>
    decreases |current|
  {
    if current == [] then [] else NextGeneration(people, current[..|current| - 1]) + ParentsOf(people, current[|current| - 1])
  }

  /** Generations concatenate: an ancestor reached through two descendants is
      listed once for each. */
  lemma {:induction false} NextGenerationAppend(people: seq<Person>, a: seq<Person>, b: seq<Person>)
    ensures NextGeneration(people, a + b) == NextGeneration(people, a) + NextGeneration(people, b)
    decreases |b|
  {
    if b == [] {
      AppendEmpty(a);
      AppendEmpty(NextGeneration(people, a));
    } else {
      var init, last := b[..|b| - 1], b[|b| - 1];
      NextGenerationAppend(people, a, init);
      DropLast(a, b);
      AppendAssoc(NextGeneration(people, a), NextGeneration(people, init), ParentsOf(people, last));
    }
  }

  /** The generations after `current`, at most `remaining` of them, stopping
      at the first empty one. */
  function Expand(people: seq<Person>, current: seq<Person>, remaining: nat): (r: seq<seq<Person>>)
    ensures |r| <= remaining
    ensures forall k :: 0 <= k < |r| ==> r[k] != []
    decreases remaining
  {
    if remaining == 0 then []
    else
      var next := NextGeneration(people, current);
      if next == [] then [] else [next] + Expand(people, next, remaining - 1)
  }

  /** One more level of the expansion. */
  lemma ExpandStep(people: seq<Person>, current: seq<Person>, remaining: nat)
    requires remaining > 0 && NextGeneration(people, current) != []
    ensures Expand(people, current, remaining) ==
      [NextGeneration(people, current)] + Expand(people, NextGeneration(people, current), remaining - 1)
  {
  }

  /** The expansion ends when no level is left or the next one is empty. */
  lemma ExpandEnd(people: seq<Person>, current: seq<Person>, remaining: nat)
    requires remaining == 0 || NextGeneration(people, current) == []
    ensures Expand(people, current, remaining) == []
  {
  }

  /** `getAncestors(person, generations)`. */
  function Ancestors(people: seq<Person>, person: Person, generations: int): seq<seq<Person>> {
    [[person]] + Expand(people, [person], if generations < 0 then 0 else generations)
  }

  /** The first level is the person alone, there are at most `generations + 1`
      levels, and no level after the first is empty. */
  lemma AncestorsShape(people: seq<Person>, person: Person, generations: int)
    ensures var r := Ancestors(people, person, generations);
      r[0] == [person] && |r| <= (if generations < 0 then 0 else generations) + 1 &&
      forall k :: 1 <= k < |r| ==> r[k] != []
  {
  }

  /** Each level after the first is the next generation of the one before. */
  lemma AncestorsLevels(people: seq<Person>, person: Person, generations: int)
    ensures var r := Ancestors(people, person, generations);
      forall k :: 0 <= k < |r| - 1 ==> r[k + 1] == NextGeneration(people, r[k])
  {
    var bound: nat := if generations < 0 then 0 else generations;
    ExpandLevels(people, [person], bound);
  }

  /** Each element of `r` is `f` of the element before it. */
  ghost predicate Chained<T>(f: T -> T, r: seq<T>) {
    forall k :: 0 <= k < |r| - 1 ==> r[k + 1] == f(r[k])
  }

  /** An element put in front of a chain whose first element it generates. */
  lemma ChainCons<T>(f: T -> T, x: T, r: seq<T>)
    requires Chained(f, r) && (r != [] ==> r[0] == f(x))
    ensures Chained(f, [x] + r)
  {
    var s := [x] + r;
    forall k | 1 <= k < |s| - 1 ensures s[k + 1] == f(s[k]) {
      assert s[k] == r[k - 1] && s[k + 1] == r[k];
    }
  }

  /** `NextGeneration` over `people`, as a value. */
  function NextOf(people: seq<Person>): seq<Person> -> seq<Person> {
    current => NextGeneration(people, current)
  }

  /** The last level of `[current] + e`. */
  function LastLevel<T>(current: T, e: seq<T>): T {
    if e == [] then current else e[|e| - 1]
  }

  /** The step of `ExpandStops`, for any test of a level: if the levels after
      `next` stop early only at a level passing the test, so do those after
      `current`. */
  lemma StopsCons<T>(stops: T -> bool, current: T, next: T, e: seq<T>, full: seq<T>, remaining: nat)
    requires remaining > 0 && full == [next] + e
    requires |e| < remaining - 1 ==> stops(LastLevel(next, e))
    ensures |full| < remaining ==> stops(LastLevel(current, full))
  {
    assert LastLevel(current, full) == LastLevel(next, e);
  }

  lemma {:induction false} ExpandLevels(people: seq<Person>, current: seq<Person>, remaining: nat)
    ensures Chained(NextOf(people), [current] + Expand(people, current, remaining))
    decreases remaining
  {
    if remaining > 0 && NextGeneration(people, current) != [] {
      var next := NextGeneration(people, current);
      ExpandLevels(people, next, remaining - 1);
      ExpandStep(people, current, remaining);
      ChainCons(NextOf(people), current, [next] + Expand(people, next, remaining - 1));
    } else {
      ExpandEnd(people, current, remaining);
    }
  }

  /** Expansion stops early only at an empty generation: fewer than the
      maximum number of levels means the last level has no resolving parent. */
  lemma {:induction false} ExpandStops(people: seq<Person>, current: seq<Person>, remaining: nat)
    ensures |Expand(people, current, remaining)| < remaining ==>
      NextGeneration(people, LastLevel(current, Expand(people, current, remaining))) == []
    decreases remaining
  {
    if remaining > 0 && NextGeneration(people, current) != [] {
      var next := NextGeneration(people, current);
      ExpandStops(people, next, remaining - 1);
      ExpandStep(people, current, remaining);
      StopsCons(x => NextGeneration(people, x) == [], current, next,
                Expand(people, next, remaining - 1), Expand(people, current, remaining), remaining);
    } else {
      ExpandEnd(people, current, remaining);
    }
  }

  /** The loop of `getAncestors`: `currentGeneration` reassigned and `result`
      grown each round, with a `break` at the first empty generation. */
  method GetAncestors(people: seq<Person>, person: Person, generations: int) returns (result: seq<seq<Person>>)
    ensures result == Ancestors(people, person, generations)
  {
    result := [[person]];
    var currentGeneration := [person];
    var gen := 1;
    ghost var bound: nat := if generations < 0 then 0 else generations;
    while gen <= generations
      invariant 1 <= gen && gen - 1 <= bound
      invariant |result| >= 1 && currentGeneration == result[|result| - 1]
      invariant result + Expand(people, currentGeneration, bound - (gen - 1)) == Ancestors(people, person, generations)
      decreases generations - gen
    {
      var nextGeneration := Collect(people, currentGeneration);
      if |nextGeneration| == 0 {
        break;
      }
      AncestorsStep(people, result, currentGeneration, bound - (gen - 1), Ancestors(people, person, generations));
      result := result + [nextGeneration];
      currentGeneration := nextGeneration;
      gen := gen + 1;
    }
    AncestorsEnd(people, result, currentGeneration, bound - (gen - 1), Ancestors(people, person, generations));
  }

  /** One round of the loop: the next generation moves from the levels still
      to come to the levels found. */
  lemma AncestorsStep(people: seq<Person>, result: seq<seq<Person>>, current: seq<Person>, remaining: nat,
                      target: seq<seq<Person>>)
    requires remaining > 0 && NextGeneration(people, current) != []
    requires result + Expand(people, current, remaining) == target
    ensures (result + [NextGeneration(people, current)]) +
            Expand(people, NextGeneration(people, current), remaining - 1) == target
  {
    var next := NextGeneration(people, current);
    ExpandStep(people, current, remaining);
    AppendAssoc(result, [next], Expand(people, next, remaining - 1));
  }

  /** The loop ends with no level left to come. */
  lemma AncestorsEnd(people: seq<Person>, result: seq<seq<Person>>, current: seq<Person>, remaining: nat,
                     target: seq<seq<Person>>)
    requires remaining == 0 || NextGeneration(people, current) == []
    requires result + Expand(people, current, remaining) == target
    ensures result == target
  {
    ExpandEnd(people, current, remaining);
    AppendEmpty(result);
  }

  /** The `forEach` that pushes each person's parents into `nextGeneration`. */
  method Collect(people: seq<Person>, currentGeneration: seq<Person>) returns (nextGeneration: seq<Person>)
    ensures nextGeneration == NextGeneration(people, currentGeneration)
  {
    nextGeneration := [];
    for j := 0 to |currentGeneration|
      invariant nextGeneration == NextGeneration(people, currentGeneration[..j])
    {
      PrefixStep(currentGeneration, j);
      nextGeneration := nextGeneration + ParentsOf(people, currentGeneration[j]);
    }
    PrefixAll(currentGeneration);
  }

  // The chart's other rules

  /** `people.find(p => p.isMainUser) || people[0]`: `None` only for an empty
      list. */
  function InitialSelection(people: seq<Person>): (r: Option<Person>)
    ensures r.Some? <==> people != []
    ensures r.Some? && r.value.isMainUser ==>
      exists i :: 0 <= i < |people| && people[i] == r.value && forall j :: 0 <= j < i ==> !people[j].isMainUser
    ensures (forall i :: 0 <= i < |people| ==> !people[i].isMainUser) && people != [] ==> r == Some(people[0])
    ensures (exists i :: 0 <= i < |people| && people[i].isMainUser) ==> r.Some? && r.value.isMainUser
  {
    var i := IndexWhere(people, (p: Person) => p.isMainUser);
    if i >= 0 then Some(people[i]) else if people == [] then None else Some(people[0])
  }

  /** The `select`'s change handler: a choice that resolves replaces the
      selection, any other leaves it. */
  function Reselect(people: seq<Person>, current: Person, id: string): (r: Person)
    ensures (exists i :: 0 <= i < |people| && people[i].id == id) ==> r.id == id && FirstWithId(people, id, r)
    ensures (forall i :: 0 <= i < |people| ==> people[i].id != id) ==> r == current
  {
    match Find(people, id)
    case Some(p) => p
    case None => current
  }

  /** The child lists `id` among its parents. */
  predicate ListsParent(child: Person, id: string) {
    exists j :: 0 <= j < |child.relationships| && child.relationships[j].kind == Parent && child.relationships[j].personId == id
  }

  /** `prevGeneration.filter(child => child.relationships.some(...))`. */
  function ChildrenIn(prev: seq<Person>, person: Person): (r: seq<Person>)
    ensures forall c :: c in r <==> c in prev && ListsParent(c, person.id)
    decreases |prev|
  {
    if prev == [] then []
    else
      var rest := ChildrenIn(prev[..|prev| - 1], person);
      var c := prev[|prev| - 1];
      assert forall x :: x in prev <==> x in prev[..|prev| - 1] || x == c;
      if ListsParent(c, person.id) then rest + [c] else rest
  }

  /** A drawn connector: its level, and the child and parent it joins. */
  datatype Connector = Connector(level: nat, child: Person, parent: Person)

  /** The connectors drawn for the people of one level, against the level
      before it. */
  function LevelConnectors(level: nat, prev: seq<Person>, generation: seq<Person>): (r: seq<Connector>)
    ensures forall e :: e in r <==> e.level == level && e.parent in generation && e.child in prev && ListsParent(e.child, e.parent.id)
    decreases |generation|
  {
    if generation == [] then []
    else
      var rest := LevelConnectors(level, prev, generation[..|generation| - 1]);
      var p := generation[|generation| - 1];
      assert forall x :: x in generation <==> x in generation[..|generation| - 1] || x == p;
      rest + ConnectorsTo(level, ChildrenIn(prev, p), p)
  }

  /** One connector from each child to the parent. */
  function ConnectorsTo(level: nat, children: seq<Person>, parent: Person): (r: seq<Connector>)
    ensures forall e :: e in r <==> e.level == level && e.parent == parent && e.child in children
    decreases |children|
  {
    if children == [] then []
    else
      var c := children[|children| - 1];
      assert forall x :: x in children <==> x in children[..|children| - 1] || x == c;
      ConnectorsTo(level, children[..|children| - 1], parent) + [Connector(level, c, parent)]
  }

  /** All connectors of the first `n` levels, skipping the root level. */
  function Connectors(levels: seq<seq<Person>>, n: nat): (r: seq<Connector>)
    requires n <= |levels|
    ensures forall e :: e in r <==>
      1 <= e.level < n && e.parent in levels[e.level] && e.child in levels[e.level - 1] && ListsParent(e.child, e.parent.id)
  {
    if n <= 1 then [] else Connectors(levels, n - 1) + LevelConnectors(n - 1, levels[n - 2], levels[n - 1])
  }
}
