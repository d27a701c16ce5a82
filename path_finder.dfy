/** `findShortestPath` of `app/utils/graphUtils.ts`: breadth-first search over
    the links, taken in both directions, from one person id to another. */
module PathFinder {
  import opened AppTypes
  import opened GraphUtils
  import opened SeqFacts

  /** Adjacency lists keyed by person id, as the source's `Map<string, string[]>`. */
  type Graph = map<string, seq<string>>

  /** Some link joins `u` and `v`, whichever way it points. */
  predicate Joined(links: seq<Link>, u: string, v: string) {
    exists l | l in links :: (l.source == u && l.target == v) || (l.source == v && l.target == u)
  }

  function NodeIds(nodes: seq<Person>): set<string> {
    set n | n in nodes :: n.id
  }

  /** One hop of the search: from a node to anything a link joins it to. The
      start of the hop must be a node, because the adjacency map has entries
      only for nodes. */
  predicate Step(nodes: seq<Person>, links: seq<Link>, u: string, v: string) {
    u in NodeIds(nodes) && Joined(links, u, v)
  }

  /** A sequence of ids from `a` to `b` whose consecutive ids are one hop apart. */
  ghost predicate IsPath(nodes: seq<Person>, links: seq<Link>, q: seq<string>, a: string, b: string) {
    |q| >= 1 && q[0] == a && q[|q| - 1] == b &&
    forall i :: 0 <= i < |q| - 1 ==> Step(nodes, links, q[i], q[i + 1])
  }

  /** No id occurs twice. */
  predicate Simple(q: seq<string>) {
    forall i, j :: 0 <= i < j < |q| ==> q[i] != q[j]
  }

  predicate GEdge(g: Graph, u: string, v: string) {
    u in g && v in g[u]
  }

  /** The ids of a sequence, as a set. */
  function Elems(s: seq<string>): set<string> {
    if s == [] then {} else Elems(s[..|s| - 1]) + {s[|s| - 1]}
  }

  lemma {:induction false} ElemsHas(s: seq<string>, v: string)
    requires v in s
    ensures v in Elems(s)
  {
    if s[|s| - 1] != v {
      ElemsHas(s[..|s| - 1], v);
    }
  }

  /** The adjacency list of `u`, empty for an id without an entry. */
  function Neighbors(g: Graph, u: string): (r: seq<string>)
    ensures forall v :: v in r <==> GEdge(g, u, v)
  {
    if u in g then g[u] else []
  }

  ghost predicate WalkTo(g: Graph, q: seq<string>, a: string, b: string) {
    |q| >= 1 && q[0] == a && q[|q| - 1] == b &&
    forall i :: 0 <= i < |q| - 1 ==> GEdge(g, q[i], q[i + 1])
  }

  /** No walk from `a` to `b` has fewer than `len` ids. */
  ghost predicate Shortest(g: Graph, a: string, b: string, len: int) {
    forall q :: WalkTo(g, q, a, b) ==> len <= |q|
  }

  /** The adjacency map of the source: an entry for every node id, and for
      every link, the target appended to the source's list and the source to
      the target's, where those entries exist. */
  method BuildAdjacency(nodes: seq<Person>, links: seq<Link>) returns (g: Graph)
    ensures g.Keys == NodeIds(nodes)
    ensures forall u, v :: GEdge(g, u, v) <==> Step(nodes, links, u, v)
  {
    g := map[];
    for i := 0 to |nodes|
      invariant g.Keys == NodeIds(nodes[..i])
      invariant forall u | u in g :: g[u] == []
    {
      g := g[nodes[i].id := []];
      assert nodes[..i + 1] == nodes[..i] + [nodes[i]];
    }
    assert nodes[..|nodes|] == nodes;
    for j := 0 to |links|
      invariant g.Keys == NodeIds(nodes)
      invariant forall u, v :: GEdge(g, u, v) <==> u in g && Joined(links[..j], u, v)
    {
      var l := links[j];
      ghost var g0 := g;
      if l.source in g {
        g := g[l.source := g[l.source] + [l.target]];
      }
      AppendEdge(g0, g, l.source, l.target);
      ghost var g1 := g;
      if l.target in g {
        g := g[l.target := g[l.target] + [l.source]];
      }
      AppendEdge(g1, g, l.target, l.source);
      JoinedStep(links, j);
    }
    assert links[..|links|] == links;
    forall u, v ensures GEdge(g, u, v) <==> Step(nodes, links, u, v) {
      assert u in g <==> u in NodeIds(nodes);
    }
  }

  /** Appending `b` to the list of `a`, when `a` has an entry, adds exactly
      the edge from `a` to `b`. */
  lemma AppendEdge(g: Graph, g': Graph, a: string, b: string)
    requires g' == if a in g then g[a := g[a] + [b]] else g
    ensures g'.Keys == g.Keys
    ensures forall u, v :: GEdge(g', u, v) <==> GEdge(g, u, v) || (u == a && v == b && a in g)
  {
  }

  /** One more link joins exactly its two ends, besides what the earlier
      links join. */
  lemma JoinedStep(links: seq<Link>, j: nat)
    requires j < |links|
    ensures forall u, v :: Joined(links[..j + 1], u, v) <==>
      Joined(links[..j], u, v) ||
      (links[j].source == u && links[j].target == v) || (links[j].source == v && links[j].target == u)
  {
    assert links[..j + 1] == links[..j] + [links[j]];
  }

  /** The ids of the queued entries. */
  function QueueIds(queue: seq<(string, seq<string>)>): set<string> {
    if queue == [] then {} else {queue[0].0} + QueueIds(queue[1..])
  }

  lemma {:induction false} QueueIdsAppend(queue: seq<(string, seq<string>)>, e: (string, seq<string>))
    ensures QueueIds(queue + [e]) == QueueIds(queue) + {e.0}
  {
    if queue != [] {
      assert (queue + [e])[1..] == queue[1..] + [e];
      QueueIdsAppend(queue[1..], e);
    }
  }

  lemma {:induction false} QueueIdsHas(queue: seq<(string, seq<string>)>, x: string) returns (e: (string, seq<string>))
    requires x in QueueIds(queue)
    ensures e in queue && e.0 == x
  {
    if queue[0].0 == x {
      e := queue[0];
    } else {
      e := QueueIdsHas(queue[1..], x);
    }
  }

  /** A queue entry: a simple walk from `from` to the entry's id, as short as
      any walk there, all of whose ids are already visited. */
  ghost predicate EntryOk(g: Graph, from: string, e: (string, seq<string>), visited: set<string>) {
    WalkTo(g, e.1, from, e.0) && Simple(e.1) && Shortest(g, from, e.0, |e.1|) &&
    forall x | x in e.1 :: x in visited
  }

  /** Every visited node whose neighbours have all been enqueued. */
  ghost predicate Closed(g: Graph, done: set<string>, visited: set<string>) {
    forall u, v :: u in done && GEdge(g, u, v) ==> v in visited
  }

  /** The lengths of the queued walks never decrease along the queue, and lie
      between `low` and `low + 1`. */
  ghost predicate Layered(queue: seq<(string, seq<string>)>, low: int) {
    (forall i :: 0 <= i < |queue| ==> low <= |queue[i].1| <= low + 1) &&
    (forall i, j :: 0 <= i < j < |queue| ==> |queue[i].1| <= |queue[j].1|)
  }

  ghost function Targets(g: Graph): set<string> {
    set u, v | u in g && v in g[u] :: v
  }

  /** A finite set holding the start and every id an edge reaches: what the
      visited set can grow to. */
  lemma Universe(g: Graph, from: string) returns (u: set<string>)
    ensures from in u
    ensures forall a, b :: GEdge(g, a, b) ==> b in u
  {
    u := {from} + Targets(g);
  }

  lemma {:induction false} Crossing(q: seq<string>, s: set<string>) returns (i: int)
    requires |q| >= 1 && q[0] in s && q[|q| - 1] !in s
    ensures 0 <= i < |q| - 1 && q[i] in s && q[i + 1] !in s
  {
    if q[1] !in s {
      i := 0;
    } else {
      var k := Crossing(q[1..], s);
      i := k + 1;
    }
  }

  lemma WalkPrefix(g: Graph, q: seq<string>, a: string, b: string, i: int)
    requires WalkTo(g, q, a, b) && 0 <= i < |q|
    ensures WalkTo(g, q[..i + 1], a, q[i])
  {
  }

  /** The heart of breadth-first search: a walk that ends outside the visited
      set must leave it through the node being expanded or a queued entry, so
      it is longer than the walk to the node being expanded. */
  lemma LeavesFrontier(g: Graph, from: string, cur: string, p: seq<string>,
                       queue: seq<(string, seq<string>)>, visited: set<string>, done: set<string>,
                       q: seq<string>, v: string)
    requires Shortest(g, from, cur, |p|)
    requires forall e | e in queue :: Shortest(g, from, e.0, |e.1|) && |p| <= |e.1|
    requires visited == done + {cur} + QueueIds(queue)
    requires Closed(g, done, visited)
    requires from in visited
    requires WalkTo(g, q, from, v) && v !in visited
    ensures |p| + 1 <= |q|
  {
    var i := Crossing(q, visited);
    assert GEdge(g, q[i], q[i + 1]);
    assert q[i] !in done;
    WalkPrefix(g, q, from, v, i);
    if q[i] != cur {
      var e := QueueIdsHas(queue, q[i]);
      assert |e.1| <= |q[..i + 1]|;
    } else {
      assert |p| <= |q[..i + 1]|;
    }
  }

  /** A set closed under the edges that holds the start but not the goal
      admits no walk from one to the other. */
  lemma NoWalkOut(g: Graph, from: string, to: string, done: set<string>, q: seq<string>)
    requires Closed(g, done, done) && from in done && to !in done
    ensures !WalkTo(g, q, from, to)
  {
    if WalkTo(g, q, from, to) {
      var i := Crossing(q, done);
      assert false;
    }
  }

  lemma SingletonShortest(g: Graph, from: string)
    ensures Shortest(g, from, from, 1)
  {
  }

  /** The queue during the search: valid shortest entries whose lengths never
      decrease and stay within `low .. low + 1`, and a set of finished nodes
      whose neighbours have all been visited. */
  ghost predicate Frontier(g: Graph, from: string, queue: seq<(string, seq<string>)>,
                           visited: set<string>, done: set<string>, low: int) {
    (forall e | e in queue :: EntryOk(g, from, e, visited)) &&
    (forall i :: 0 <= i < |queue| ==> low <= |queue[i].1| <= low + 1) &&
    (forall i, j :: 0 <= i < j < |queue| ==> |queue[i].1| <= |queue[j].1|) &&
    Closed(g, done, visited) && from in visited
  }

  /** The state of the search at the head of its outer loop. */
  ghost predicate Searching(g: Graph, from: string, queue: seq<(string, seq<string>)>,
                            visited: set<string>, done: set<string>) {
    visited == done + QueueIds(queue) && Closed(g, done, visited) && from in visited &&
    (queue != [] ==> Frontier(g, from, queue, visited, done, |queue[0].1|))
  }

  /** The state while the neighbours of `cur`, reached by walk `p`, are
      enqueued. */
  ghost predicate Expanding(g: Graph, from: string, cur: string, p: seq<string>,
                            queue: seq<(string, seq<string>)>, visited: set<string>, done: set<string>) {
    Frontier(g, from, queue, visited, done, |p|) && EntryOk(g, from, (cur, p), visited) &&
    visited == done + {cur} + QueueIds(queue)
  }

  lemma Start(g: Graph, from: string)
    ensures Searching(g, from, [(from, [from])], {from}, {})
  {
    SingletonShortest(g, from);
  }

  lemma Dequeue(g: Graph, from: string, queue: seq<(string, seq<string>)>,
                visited: set<string>, done: set<string>)
    requires queue != [] && Searching(g, from, queue, visited, done)
    ensures Expanding(g, from, queue[0].0, queue[0].1, queue[1..], visited, done)
  {
    assert queue == [queue[0]] + queue[1..];
  }

  /** Extending a shortest simple walk to `cur` by an unvisited neighbour. */
  lemma Extend(g: Graph, from: string, cur: string, p: seq<string>, visited: set<string>, n: string)
    requires EntryOk(g, from, (cur, p), visited)
    requires GEdge(g, cur, n) && n !in visited
    requires Shortest(g, from, n, |p| + 1)
    ensures EntryOk(g, from, (n, p + [n]), visited + {n})
  {
    var q := p + [n];
    assert forall i :: 0 <= i < |p| ==> q[i] == p[i];
    assert WalkTo(g, q, from, n);
    assert n !in p;
  }

  lemma EntryGrow(g: Graph, from: string, e: (string, seq<string>), visited: set<string>, n: string)
    requires EntryOk(g, from, e, visited)
    ensures EntryOk(g, from, e, visited + {n})
  {
  }

  /** Every entry stays valid when the visited set grows. */
  lemma QueueGrow(g: Graph, from: string, queue: seq<(string, seq<string>)>, visited: set<string>, n: string)
    requires forall e | e in queue :: EntryOk(g, from, e, visited)
    ensures forall e | e in queue :: EntryOk(g, from, e, visited + {n})
  {
    forall e | e in queue ensures EntryOk(g, from, e, visited + {n}) {
      EntryGrow(g, from, e, visited, n);
    }
  }

  /** Appending an entry one id longer than the expanded walk keeps the
      queue layered. */
  lemma LayerAppend(queue: seq<(string, seq<string>)>, low: int, e: (string, seq<string>))
    requires forall i :: 0 <= i < |queue| ==> low <= |queue[i].1| <= low + 1
    requires forall i, j :: 0 <= i < j < |queue| ==> |queue[i].1| <= |queue[j].1|
    requires |e.1| == low + 1
    ensures forall i :: 0 <= i < |queue + [e]| ==> low <= |(queue + [e])[i].1| <= low + 1
    ensures forall i, j :: 0 <= i < j < |queue + [e]| ==> |(queue + [e])[i].1| <= |(queue + [e])[j].1|
  {
  }

  /** The walks are shortest, and at least as long as the expanded one. */
  lemma QueueShortest(g: Graph, from: string, p: seq<string>, queue: seq<(string, seq<string>)>,
                      visited: set<string>)
    requires forall e | e in queue :: EntryOk(g, from, e, visited)
    requires forall i :: 0 <= i < |queue| ==> |p| <= |queue[i].1|
    ensures forall e | e in queue :: Shortest(g, from, e.0, |e.1|) && |p| <= |e.1|
  {
    forall e | e in queue ensures Shortest(g, from, e.0, |e.1|) && |p| <= |e.1| {
      var i :| 0 <= i < |queue| && queue[i] == e;
    }
  }

  lemma Enqueue(g: Graph, from: string, cur: string, p: seq<string>,
                queue: seq<(string, seq<string>)>, visited: set<string>, done: set<string>, n: string)
    requires Expanding(g, from, cur, p, queue, visited, done)
    requires GEdge(g, cur, n) && n !in visited
    ensures Expanding(g, from, cur, p, queue + [(n, p + [n])], visited + {n}, done)
  {
    QueueShortest(g, from, p, queue, visited);
    forall q | WalkTo(g, q, from, n) ensures |p| + 1 <= |q| {
      LeavesFrontier(g, from, cur, p, queue, visited, done, q, n);
    }
    var e := (n, p + [n]);
    Extend(g, from, cur, p, visited, n);
    EntryGrow(g, from, (cur, p), visited, n);
    QueueGrow(g, from, queue, visited, n);
    QueueIdsAppend(queue, e);
    LayerAppend(queue, |p|, e);
  }

  lemma Finish(g: Graph, from: string, cur: string, p: seq<string>,
               queue: seq<(string, seq<string>)>, visited: set<string>, done: set<string>)
    requires Expanding(g, from, cur, p, queue, visited, done)
    requires Elems(Neighbors(g, cur)) <= visited
    ensures Searching(g, from, queue, visited, done + {cur})
  {
    forall v | GEdge(g, cur, v) ensures v in visited {
      ElemsHas(Neighbors(g, cur), v);
    }
  }

  lemma Shrinks(universe: set<string>, visited: set<string>, n: string)
    requires n in universe && n !in visited
    ensures |universe - (visited + {n})| < |universe - visited|
  {
    assert universe - (visited + {n}) == (universe - visited) - {n};
  }

  /** One neighbour `n` of `cur`: if it is not yet visited it is marked
      visited and enqueued with the walk to `cur` extended by it. */
  method Visit(g: Graph, from: string, cur: string, p: seq<string>,
               queue: seq<(string, seq<string>)>, visited: set<string>, n: string,
               ghost done: set<string>, ghost universe: set<string>)
    returns (queue': seq<(string, seq<string>)>, visited': set<string>)
    requires Expanding(g, from, cur, p, queue, visited, done)
    requires n in Neighbors(g, cur) && visited <= universe && n in universe
    ensures Expanding(g, from, cur, p, queue', visited', done)
    ensures n in visited' && visited <= visited' <= universe
    ensures |universe - visited'| < |universe - visited| || (queue' == queue && visited' == visited)
  {
    queue', visited' := queue, visited;
    if n !in visited {
      assert GEdge(g, cur, n);
      Enqueue(g, from, cur, p, queue, visited, done, n);
      Shrinks(universe, visited, n);
      visited' := visited + {n};
      queue' := queue + [(n, p + [n])];
    }
  }

  /** The bookkeeping of one turn of the inner loop: the neighbours handled
      so far stay visited, and the unvisited part of the universe shrinks
      unless nothing changed. */
  lemma LoopStep(s: seq<string>, k: nat, universe: set<string>, queue: seq<(string, seq<string>)>, visited: set<string>,
                 q1: seq<(string, seq<string>)>, v1: set<string>, q2: seq<(string, seq<string>)>, v2: set<string>)
    requires k < |s|
    requires Elems(s[..k]) <= v1 && visited <= v1 <= universe
    requires |universe - v1| < |universe - visited| || (q1 == queue && v1 == visited)
    requires s[k] in v2 && v1 <= v2 <= universe
    requires |universe - v2| < |universe - v1| || (q2 == q1 && v2 == v1)
    ensures Elems(s[..k + 1]) <= v2 && visited <= v2 <= universe
    ensures |universe - v2| < |universe - visited| || (q2 == queue && v2 == visited)
  {
    assert s[..k + 1][..k] == s[..k];
  }

  /** The state after the first `k` neighbours of `cur` are handled. */
  ghost predicate Handled(g: Graph, from: string, cur: string, p: seq<string>, k: nat,
                          queue: seq<(string, seq<string>)>, visited: set<string>,
                          q: seq<(string, seq<string>)>, v: set<string>, done: set<string>, universe: set<string>)
  {
    k <= |Neighbors(g, cur)| &&
    Expanding(g, from, cur, p, q, v, done) && Elems(Neighbors(g, cur)[..k]) <= v && visited <= v <= universe &&
    (|universe - v| < |universe - visited| || (q == queue && v == visited))
  }

  /** One turn of the inner loop: the `k`-th neighbour is visited. */
  method VisitNext(g: Graph, from: string, cur: string, p: seq<string>, k: nat,
                   queue: seq<(string, seq<string>)>, visited: set<string>,
                   q: seq<(string, seq<string>)>, v: set<string>, ghost done: set<string>, ghost universe: set<string>)
    returns (q': seq<(string, seq<string>)>, v': set<string>)
    requires k < |Neighbors(g, cur)| && forall u | u in Neighbors(g, cur) :: u in universe
    requires Handled(g, from, cur, p, k, queue, visited, q, v, done, universe)
    ensures Handled(g, from, cur, p, k + 1, queue, visited, q', v', done, universe)
  {
    q', v' := Visit(g, from, cur, p, q, v, Neighbors(g, cur)[k], done, universe);
    LoopStep(Neighbors(g, cur), k, universe, queue, visited, q, v, q', v');
  }

  /** The inner loop of the search: every neighbour of `cur` not yet visited
      is marked visited and enqueued with the walk to `cur` extended by it. */
  method ExpandNode(g: Graph, from: string, cur: string, p: seq<string>,
                    queue: seq<(string, seq<string>)>, visited: set<string>,
                    ghost done: set<string>, ghost universe: set<string>)
    returns (queue': seq<(string, seq<string>)>, visited': set<string>)
    requires Expanding(g, from, cur, p, queue, visited, done)
    requires visited <= universe && forall v | v in Neighbors(g, cur) :: v in universe
    ensures Expanding(g, from, cur, p, queue', visited', done)
    ensures Elems(Neighbors(g, cur)) <= visited'
    ensures visited <= visited' <= universe
    ensures |universe - visited'| < |universe - visited| || queue' == queue
  {
    queue', visited' := queue, visited;
    var neighbors := Neighbors(g, cur);
    for k := 0 to |neighbors|
      invariant Handled(g, from, cur, p, k, queue, visited, queue', visited', done, universe)
    {
      queue', visited' := VisitNext(g, from, cur, p, k, queue, visited, queue', visited', done, universe);
    }
    PrefixAll(neighbors);
  }

  /** The search loop of `findShortestPath`, over the adjacency map. */
  method Bfs(g: Graph, from: string, to: string) returns (path: seq<string>)
    ensures from == to ==> path == [from]
    ensures path != [] ==> WalkTo(g, path, from, to) && Simple(path) && Shortest(g, from, to, |path|)
    ensures path == [] ==> forall q :: !WalkTo(g, q, from, to)
  {
    var queue: seq<(string, seq<string>)> := [(from, [from])];
    var visited: set<string> := {from};
    ghost var done: set<string> := {};
    ghost var universe := Universe(g, from);
    Start(g, from);
    while |queue| > 0
      invariant Searching(g, from, queue, visited, done)
      invariant to !in done && visited <= universe
      invariant from == to ==> queue == [(from, [from])]
      decreases |universe - visited|, |queue|
    {
      var cur, p := queue[0].0, queue[0].1;
      Dequeue(g, from, queue, visited, done);
      queue := queue[1..];
      if cur == to {
        return p;
      }
      queue, visited := ExpandNode(g, from, cur, p, queue, visited, done, universe);
      Finish(g, from, cur, p, queue, visited, done);
      done := done + {cur};
    }
    forall q ensures !WalkTo(g, q, from, to) {
      NoWalkOut(g, from, to, done, q);
    }
    return [];
  }

  /** `findShortestPath(nodes, links, fromId, toId)`: `[fromId]` when the two
      ids are equal; otherwise either a shortest simple path of ids from one to
      the other, each hop along a link in either direction, or `[]` exactly
      when no such path exists. */
  method FindShortestPath(nodes: seq<Person>, links: seq<Link>, fromId: string, toId: string)
    returns (path: seq<string>)
    ensures fromId == toId ==> path == [fromId]
    ensures path != [] ==> IsPath(nodes, links, path, fromId, toId) && Simple(path)
    ensures path != [] ==> forall q :: IsPath(nodes, links, q, fromId, toId) ==> |path| <= |q|
    ensures path == [] <==> forall q :: !IsPath(nodes, links, q, fromId, toId)
  {
    var g := BuildAdjacency(nodes, links);
    path := Bfs(g, fromId, toId);
    forall q ensures IsPath(nodes, links, q, fromId, toId) <==> WalkTo(g, q, fromId, toId) {
    }
  }
}
