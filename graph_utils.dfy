/** The graph engine of `app/utils/graphUtils.ts`: age groups, node and link
    colours, default portraits, and the derivation of relationship links from
    the id arrays of the people. */
module GraphUtils {
  import opened Wrappers
  import opened Dates
  import opened Records
  import opened AppTypes

  datatype AgeGroup = Infant | Kid | Adult | Senior

  /** The age group of a person born on `dateOfBirth`, with the age taken as
      the difference of the calendar years. */
  function GetAgeGroup(dateOfBirth: Date, today: Date): (g: AgeGroup)
    ensures g == Infant <==> YearsBetween(dateOfBirth, today) < 2
    ensures g == Kid <==> 2 <= YearsBetween(dateOfBirth, today) <= 12
    ensures g == Adult <==> 13 <= YearsBetween(dateOfBirth, today) <= 64
    ensures g == Senior <==> 65 <= YearsBetween(dateOfBirth, today)
  {
    var age := YearsBetween(dateOfBirth, today);
    if age < 2 then Infant
    else if age < 13 then Kid
    else if age < 65 then Adult
    else Senior
  }

  const MainUserColor: string := "#000000"

  /** The fill of a node that is not the main user: a shade per gender,
      lighter for younger age groups. */
  function Palette(gender: Gender, group: AgeGroup): string {
    match gender
    case Female => (match group
      case Infant => "#FEC7D7" case Kid => "#F9A8D4" case Adult => "#EC4899" case Senior => "#BE185D")
    case Male => (match group
      case Infant => "#BFDBFE" case Kid => "#93C5FD" case Adult => "#3B82F6" case Senior => "#1D4ED8")
    case Trans => (match group
      case Infant => "#DCFCE7" case Kid => "#BBF7D0" case Adult => "#16A34A" case Senior => "#15803D")
  }

  /** `getNodeColor`: black for the main user, whatever the gender or age;
      otherwise the palette entry of the person's gender and age group. */
  function GetNodeColor(person: Person, today: Date): (c: string)
    ensures person.isMainUser ==> c == MainUserColor
    ensures !person.isMainUser ==> c == Palette(person.gender, GetAgeGroup(person.dateOfBirth, today))
  {
    if person.isMainUser then MainUserColor
    else Palette(person.gender, GetAgeGroup(person.dateOfBirth, today))
  }

  /** The palette tells genders and age groups apart, and never uses the main
      user's black: a node's colour identifies the main user, or else the
      person's gender and age group. */
  lemma PaletteInjective(g1: Gender, a1: AgeGroup, g2: Gender, a2: AgeGroup)
    ensures Palette(g1, a1) != MainUserColor
    ensures Palette(g1, a1) == Palette(g2, a2) ==> g1 == g2 && a1 == a2
  {
  }

  datatype LinkType = SpouseLink | ParentChild | SiblingLink

  /** The `type` string a link carries. */
  function LinkTypeName(t: LinkType): string {
    match t
    case SpouseLink => "spouse"
    case ParentChild => "parent-child"
    case SiblingLink => "sibling"
  }

  const DefaultLinkColor: string := "#6B7280"

  /** `getLinkColor`, on the link's type string. */
  function GetLinkColor(kind: string): (c: string)
    ensures kind == "spouse" ==> c == "#F59E0B"
    ensures kind == "parent-child" ==> c == "#10B981"
    ensures kind == "sibling" ==> c == "#8B5CF6"
    ensures kind != "spouse" && kind != "parent-child" && kind != "sibling" ==> c == DefaultLinkColor
  {
    if kind == "spouse" then "#F59E0B"
    else if kind == "parent-child" then "#10B981"
    else if kind == "sibling" then "#8B5CF6"
    else DefaultLinkColor
  }

  /** The three link types get three colours, none of them the fallback. */
  lemma LinkColorsDistinct(t1: LinkType, t2: LinkType)
    ensures GetLinkColor(LinkTypeName(t1)) != DefaultLinkColor
    ensures GetLinkColor(LinkTypeName(t1)) == GetLinkColor(LinkTypeName(t2)) ==> t1 == t2
  {
  }

  const PhotoBase: string := "https://images.pexels.com/photos/"
  const PhotoQuery: string := "?auto=compress&cs=tinysrgb&w=150&h=150&fit=crop"

  function PexelsPhoto(n: string): string {
    PhotoBase + n + "/pexels-photo-" + n + ".jpeg" + PhotoQuery
  }

  /** `getDefaultProfilePic`: one stock portrait per gender and life stage;
      infants and kids share one, and trans people get the male child's. */
  function GetDefaultProfilePic(person: Person, today: Date): (url: string)
    ensures person.gender == Trans ==> url == PexelsPhoto("1043471")
    ensures person.gender == Male && GetAgeGroup(person.dateOfBirth, today) in {Infant, Kid} ==>
              url == PexelsPhoto("1043471")
  {
    var group := GetAgeGroup(person.dateOfBirth, today);
    match person.gender
    case Female =>
      if group == Infant || group == Kid then PexelsPhoto("1379636")
      else if group == Adult then PexelsPhoto("415829")
      else PexelsPhoto("1181690")
    case Male =>
      if group == Infant || group == Kid then PexelsPhoto("1043471")
      else if group == Adult then PexelsPhoto("220453")
      else PexelsPhoto("1222271")
    case Trans => PexelsPhoto("1043471")
  }

  /** The life stage a portrait is chosen by: infants and kids share one. */
  function Stage(g: AgeGroup): nat {
    match g
    case Infant => 0
    case Kid => 0
    case Adult => 1
    case Senior => 2
  }

  /** The photo number GetDefaultProfilePic picks. */
  function PortraitId(gender: Gender, group: AgeGroup): (n: string)
    ensures |n| >= 2
  {
    match gender
    case Female => (match Stage(group) case 0 => "1379636" case 1 => "415829" case _ => "1181690")
    case Male => (match Stage(group) case 0 => "1043471" case 1 => "220453" case _ => "1222271")
    case Trans => "1043471"
  }

  lemma PicIsPortrait(person: Person, today: Date)
    ensures GetDefaultProfilePic(person, today) == PexelsPhoto(PortraitId(person.gender, GetAgeGroup(person.dateOfBirth, today)))
  {
  }

  /** Equal photo URLs have numbers that start alike. */
  lemma PhotoPrefix(a: string, b: string)
    requires |a| >= 2 && |b| >= 2 && PexelsPhoto(a) == PexelsPhoto(b)
    ensures a[0] == b[0] && a[1] == b[1]
  {
    assert PexelsPhoto(a)[|PhotoBase|] == a[0] && PexelsPhoto(a)[|PhotoBase| + 1] == a[1];
    assert PexelsPhoto(b)[|PhotoBase|] == b[0] && PexelsPhoto(b)[|PhotoBase| + 1] == b[1];
  }

  /** The six photo numbers already differ in their first two digits. */
  lemma IdsDistinct(g1: Gender, s1: AgeGroup, g2: Gender, s2: AgeGroup)
    requires g1 != Trans && g2 != Trans
    requires PortraitId(g1, s1)[0] == PortraitId(g2, s2)[0] && PortraitId(g1, s1)[1] == PortraitId(g2, s2)[1]
    ensures g1 == g2 && Stage(s1) == Stage(s2)
  {
  }

  /** Apart from the trans fallback, the portrait tells gender and life stage
      apart: two people share one exactly when both agree. */
  lemma PortraitsDistinct(p: Person, q: Person, today: Date)
    requires p.gender != Trans && q.gender != Trans
    ensures GetDefaultProfilePic(p, today) == GetDefaultProfilePic(q, today) <==>
            p.gender == q.gender && Stage(GetAgeGroup(p.dateOfBirth, today)) == Stage(GetAgeGroup(q.dateOfBirth, today))
  {
    var s, t := GetAgeGroup(p.dateOfBirth, today), GetAgeGroup(q.dateOfBirth, today);
    PicIsPortrait(p, today);
    PicIsPortrait(q, today);
    if GetDefaultProfilePic(p, today) == GetDefaultProfilePic(q, today) {
      PhotoPrefix(PortraitId(p.gender, s), PortraitId(q.gender, t));
      IdsDistinct(p.gender, s, q.gender, t);
    }
  }

  /** An edge of the drawn graph, between two person ids. */
  datatype Link = Link(source: string, target: string, kind: LinkType)

  /** Some link of type `t` joins `a` and `b`, in either direction: the
      duplicate test the builder runs before each push. */
  predicate Covered(links: seq<Link>, a: string, b: string, t: LinkType) {
    exists l | l in links :: l.kind == t && ((l.source == a && l.target == b) || (l.source == b && l.target == a))
  }

  /** Two links of one type over the same unordered pair of ids. */
  predicate SameEdge(l1: Link, l2: Link) {
    l1.kind == l2.kind &&
    ((l1.source == l2.source && l1.target == l2.target) || (l1.source == l2.target && l1.target == l2.source))
  }

  predicate NoDuplicateLinks(links: seq<Link>) {
    forall i, j :: 0 <= i < j < |links| ==> !SameEdge(links[i], links[j])
  }

  /** The link is backed by a declaration in the people's arrays: a spouse link
      by the source listing the target as spouse; a parent-child link by the
      source listing the target as child, or the target listing the source as
      parent. So a parent-child link always points from parent to child. */
  predicate Declared(people: seq<Person>, l: Link) {
    match l.kind
    case SpouseLink =>
      exists i :: 0 <= i < |people| && people[i].id == l.source && l.target in people[i].spouse
    case ParentChild =>
      exists i :: 0 <= i < |people| &&
        ((people[i].id == l.source && l.target in people[i].children) ||
         (people[i].id == l.target && l.source in people[i].parents))
    case SiblingLink => false
  }

  /** Every link joins two people of the list, is declared, and is the only one
      of its type over its pair. */
  predicate WellFormed(people: seq<Person>, links: seq<Link>) {
    (forall l | l in links :: Resolves(people, l.source) && Resolves(people, l.target) && Declared(people, l)) &&
    NoDuplicateLinks(links)
  }

  /** Which of a person's three arrays a pass of the builder reads. */
  datatype Side = Spouses | Children | Parents

  function Ids(p: Person, side: Side): seq<string> {
    match side
    case Spouses => p.spouse
    case Children => p.children
    case Parents => p.parents
  }

  function SideType(side: Side): LinkType {
    if side == Spouses then SpouseLink else ParentChild
  }

  /** Every resolving id on the given side of person `k` is joined to that person. */
  predicate SideCovered(people: seq<Person>, links: seq<Link>, k: int, side: Side)
    requires 0 <= k < |people|
  {
    forall id | id in Ids(people[k], side) && Resolves(people, id) ::
      Covered(links, people[k].id, id, SideType(side))
  }

  predicate PersonCovered(people: seq<Person>, links: seq<Link>, k: int)
    requires 0 <= k < |people|
  {
    SideCovered(people, links, k, Spouses) && SideCovered(people, links, k, Children) &&
    SideCovered(people, links, k, Parents)
  }

  lemma CoveredGrows(links: seq<Link>, more: seq<Link>, a: string, b: string, t: LinkType)
    requires Covered(links, a, b, t)
    ensures Covered(links + more, a, b, t)
  {
    var l :| l in links && l.kind == t && ((l.source == a && l.target == b) || (l.source == b && l.target == a));
    assert l in links + more;
  }

  lemma PersonCoveredGrows(people: seq<Person>, links: seq<Link>, more: seq<Link>, k: int)
    requires 0 <= k < |people| && PersonCovered(people, links, k)
    ensures PersonCovered(people, links + more, k)
  {
    forall side, id | id in Ids(people[k], side) && Resolves(people, id)
      ensures Covered(links + more, people[k].id, id, SideType(side))
    {
      CoveredGrows(links, more, people[k].id, id, SideType(side));
    }
  }

  /** One inner `forEach` of `buildFamilyGraph`: walk one array of person `k`,
      and push a link for each id that resolves and is not linked to the person
      yet. Spouse and child ids become links from the person, parent ids links
      to the person. */
  method LinkSide(people: seq<Person>, links: seq<Link>, k: int, side: Side) returns (out: seq<Link>)
    requires 0 <= k < |people|
    requires WellFormed(people, links)
    ensures WellFormed(people, out)
    ensures |links| <= |out| && out[..|links|] == links
    ensures SideCovered(people, out, k, side)
  {
    var person := people[k];
    var ids := Ids(person, side);
    var kind := SideType(side);
    out := links;
    for j := 0 to |ids|
      invariant WellFormed(people, out)
      invariant |links| <= |out| && out[..|links|] == links
      invariant forall id | id in ids[..j] && Resolves(people, id) :: Covered(out, person.id, id, kind)
    {
      var id := ids[j];
      var target := Find(people, id);
      if target.Some? {
        if !Covered(out, person.id, id, kind) {
          var link := if side == Parents then Link(id, person.id, kind) else Link(person.id, id, kind);
          assert Declared(people, link) by {
            assert id in Ids(person, side);
          }
          assert Resolves(people, person.id) by {
            assert people[k].id == person.id;
          }
          forall id' | id' in ids[..j] && Resolves(people, id') ensures Covered(out + [link], person.id, id', kind) {
            CoveredGrows(out, [link], person.id, id', kind);
          }
          assert link in out + [link];
          out := out + [link];
        }
      }
      assert ids[..j + 1] == ids[..j] + [id];
    }
    assert ids[..|ids|] == ids;
  }

  /** `buildFamilyGraph`: one node per person, in input order, and the spouse
      and parent-child links the arrays declare, each exactly once. */
  method BuildFamilyGraph(people: seq<Person>) returns (nodes: seq<Person>, links: seq<Link>)
    ensures nodes == people
    ensures forall l | l in links :: Resolves(people, l.source) && Resolves(people, l.target)
    ensures forall l | l in links :: Declared(people, l)
    ensures NoDuplicateLinks(links)
    ensures forall k | 0 <= k < |people| :: PersonCovered(people, links, k)
  {
    nodes := people;
    links := [];
    for k := 0 to |people|
      invariant WellFormed(people, links)
      invariant forall i | 0 <= i < k :: PersonCovered(people, links, i)
    {
      var before := links;
      links := LinkSide(people, links, k, Spouses);
      var afterSpouses := links;
      links := LinkSide(people, links, k, Children);
      var afterChildren := links;
      links := LinkSide(people, links, k, Parents);
      assert SideCovered(people, links, k, Spouses) by {
        assert links == afterSpouses + links[|afterSpouses|..];
        forall id | id in Ids(people[k], Spouses) && Resolves(people, id) ensures Covered(links, people[k].id, id, SpouseLink) {
          CoveredGrows(afterSpouses, links[|afterSpouses|..], people[k].id, id, SpouseLink);
        }
      }
      assert SideCovered(people, links, k, Children) by {
        assert links == afterChildren + links[|afterChildren|..];
        forall id | id in Ids(people[k], Children) && Resolves(people, id) ensures Covered(links, people[k].id, id, ParentChild) {
          CoveredGrows(afterChildren, links[|afterChildren|..], people[k].id, id, ParentChild);
        }
      }
      forall i | 0 <= i < k ensures PersonCovered(people, links, i) {
        assert links == before + links[|before|..];
        PersonCoveredGrows(people, before, links[|before|..], i);
      }
    }
  }
}
