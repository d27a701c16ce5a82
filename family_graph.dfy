/** The decisions `app/components/FamilyGraph.tsx` takes while it draws the
    graph: which nodes glow for the search term, the label under a node, the
    path a click highlights, and the opacity of each link given that path. */
module FamilyGraph {
  import opened Wrappers
  import opened Text
  import opened AppTypes
  import opened GraphUtils
  import opened Records
  import opened PathFinder

  /** The three stroke opacities of a link: 0.3, 0.8 and 1. */
  datatype Opacity = Dimmed | Plain | Emphasised

  /** The opacity as a number of tenths. */
  function Tenths(o: Opacity): (t: nat)
    ensures 0 < t <= 10
  {
    match o
    case Dimmed => 3
    case Plain => 8
    case Emphasised => 10
  }

  /** `a` and `b` are the two ends of `link`, in one order or the other. */
  predicate Ends(link: Link, a: string, b: string) {
    (a == link.source && b == link.target) || (a == link.target && b == link.source)
  }

  /** Two consecutive ids of `path` are the two ends of `link`. */
  predicate OnPath(path: seq<string>, link: Link) {
    exists i :: 0 <= i < |path| - 1 && Ends(link, path[i], path[i + 1])
  }

  /** The `stroke-opacity` callback: 0.8 for every link while no path is
      highlighted; otherwise 1 for a link that joins two consecutive ids of the
      path, whichever way round, and 0.3 for the rest. */
  method StrokeOpacity(path: seq<string>, link: Link) returns (o: Opacity)
    ensures path == [] ==> o == Plain
    ensures path != [] ==> (o == Emphasised <==> OnPath(path, link))
    ensures path != [] ==> (o == Dimmed <==> !OnPath(path, link))
  {
    if |path| == 0 {
      return Plain;
    }
    var i := 0;
    while i < |path| - 1
      invariant 0 <= i <= |path| - 1
      invariant forall j :: 0 <= j < i ==> !Ends(link, path[j], path[j + 1])
    {
      if (path[i] == link.source && path[i + 1] == link.target) ||
         (path[i] == link.target && path[i + 1] == link.source) {
        return Emphasised;
      }
      i := i + 1;
    }
    return Dimmed;
  }

  function Reversed(s: seq<string>): (r: seq<string>)
    ensures |r| == |s|
    ensures forall i :: 0 <= i < |s| ==> r[i] == s[|s| - 1 - i]
  {
    seq(|s|, i requires 0 <= i < |s| => s[|s| - 1 - i])
  }

  /** Both orders of each pair are compared, so a path lights the same links
      whichever end it is read from. */
  lemma OnPathReversed(path: seq<string>, link: Link)
    ensures OnPath(Reversed(path), link) <==> OnPath(path, link)
  {
    var r := Reversed(path);
    if OnPath(path, link) {
      var i :| 0 <= i < |path| - 1 && Ends(link, path[i], path[i + 1]);
      var j := |path| - 2 - i;
      assert r[j] == path[i + 1] && r[j + 1] == path[i];
      assert Ends(link, r[j], r[j + 1]);
    }
    if OnPath(r, link) {
      var j :| 0 <= j < |r| - 1 && Ends(link, r[j], r[j + 1]);
      var i := |path| - 2 - j;
      assert path[i] == r[j + 1] && path[i + 1] == r[j];
      assert Ends(link, path[i], path[i + 1]);
    }
  }

  /** A lit link has both its ends on the path. */
  lemma OnPathEnds(path: seq<string>, link: Link)
    requires OnPath(path, link)
    ensures link.source in path && link.target in path
  {
    var i :| 0 <= i < |path| - 1 && Ends(link, path[i], path[i + 1]);
    assert path[i] in path && path[i + 1] in path;
  }

  /** Along a path the search found, every hop lights at least one link of
      the graph: the one the hop went along. */
  lemma HopsLit(nodes: seq<Person>, links: seq<Link>, path: seq<string>, a: string, b: string, i: int)
    requires IsPath(nodes, links, path, a, b)
    requires 0 <= i < |path| - 1
    ensures exists l | l in links :: Ends(l, path[i], path[i + 1]) && OnPath(path, l)
  {
    assert Step(nodes, links, path[i], path[i + 1]);
    var l :| l in links && ((l.source == path[i] && l.target == path[i + 1]) || (l.source == path[i + 1] && l.target == path[i]));
    assert Ends(l, path[i], path[i + 1]);
  }

  /** The `filter` style of a node: it glows when the search term is not empty
      and occurs in its name, letter case aside. */
  predicate Glows(name: string, searchTerm: string) {
    searchTerm != "" && Contains(Lower(name), Lower(searchTerm))
  }

  lemma LowerIdempotent(s: string)
    ensures Lower(Lower(s)) == Lower(s)
  {
  }

  /** Lower-casing the term first changes nothing: the match ignores case. */
  lemma GlowsIgnoresCase(name: string, searchTerm: string)
    ensures Glows(name, Lower(searchTerm)) == Glows(name, searchTerm)
    ensures Glows(Lower(name), searchTerm) == Glows(name, searchTerm)
  {
    LowerIdempotent(searchTerm);
    LowerIdempotent(name);
  }

  /** A node glows for its own non-empty name, and for every piece of it. */
  lemma GlowsForPart(name: string, i: nat, j: nat)
    requires i < j <= |name|
    ensures Glows(name, name[i..j])
  {
    var l := Lower(name);
    var t := Lower(name[i..j]);
    assert l[i..j] == t;
    assert OccursAt(l, t, i);
  }

  /** `d.name.split(' ')[0]`: the label drawn under a node. */
  function NodeLabel(name: string): (r: string)
    ensures ' ' !in r && StartsWith(name, r)
    ensures r == name || (|r| < |name| && name[|r|] == ' ')
  {
    FirstToken(name)
  }

  /** `nodes.find(n => n.isMainUser)`. */
  function MainUser(nodes: seq<Person>): (r: Option<Person>)
    ensures r.None? <==> forall i :: 0 <= i < |nodes| ==> !nodes[i].isMainUser
    ensures r.Some? ==> r.value.isMainUser
    ensures r.Some? ==>
      exists i :: 0 <= i < |nodes| && nodes[i] == r.value && forall j :: 0 <= j < i ==> !nodes[j].isMainUser
  {
    var i := IndexWhere(nodes, (n: Person) => n.isMainUser);
    if i < 0 then None else Some(nodes[i])
  }

  /** The click handler: when a main user exists and is not the person
      clicked, the path to highlight, which is the shortest path the search
      finds from the main user to that person; `None` when the highlight is
      left as it was. */
  method ClickPath(nodes: seq<Person>, links: seq<Link>, clicked: Person) returns (highlight: Option<seq<string>>)
    ensures highlight.None? <==> MainUser(nodes).None? || MainUser(nodes).value.id == clicked.id
    ensures highlight.Some? ==>
      var from := MainUser(nodes).value.id;
      var p := highlight.value;
      (p != [] ==> IsPath(nodes, links, p, from, clicked.id) && Simple(p)) &&
      (p != [] ==> forall q :: IsPath(nodes, links, q, from, clicked.id) ==> |p| <= |q|) &&
      (p == [] <==> forall q :: !IsPath(nodes, links, q, from, clicked.id))
  {
    var mainUser := MainUser(nodes);
    if mainUser.Some? && mainUser.value.id != clicked.id {
      var path := FindShortestPath(nodes, links, mainUser.value.id, clicked.id);
      highlight := Some(path);
    } else {
      highlight := None;
    }
  }

  /** A highlighted path starts at the main user and ends at the person
      clicked, so the links at both of its ends are lit. */
  lemma ClickLightsEnds(nodes: seq<Person>, links: seq<Link>, from: string, to: string, p: seq<string>)
    requires p != [] && IsPath(nodes, links, p, from, to) && from != to
    ensures exists l | l in links :: OnPath(p, l) && (l.source == from || l.target == from)
    ensures exists l | l in links :: OnPath(p, l) && (l.source == to || l.target == to)
  {
    HopsLit(nodes, links, p, from, to, 0);
    HopsLit(nodes, links, p, from, to, |p| - 2);
  }
}
