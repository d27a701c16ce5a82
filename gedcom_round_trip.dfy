/** What `handleImport` reads back from the text `exportToGedcom` writes, both
    in `src/components/GedcomImportExport.tsx`. */
module GedcomRoundTrip {
  import opened Wrappers
  import opened Dates
  import opened Records
  import opened SrcTypes
  import opened Text
  import opened GedcomExport
  import opened GedcomImport

  // Which people survive the trip

  /** A value written after a tag that reads back as itself: not empty, no
      line feed, and not ending in whitespace, which `trim` would drop. */
  predicate LineSafe(v: string) {
    v != [] && '\n' !in v && !IsWhitespace(v[|v| - 1])
  }

  /** An optional field that is either left out of the export or safe. */
  predicate OptionalSafe(o: Option<string>) {
    Present(o) ==> LineSafe(o.value)
  }

  /** A date that reads back as itself: a real calendar day whose year has at
      least three digits, which V8 leaves in its century. */
  predicate DateSafe(d: Date) {
    Valid(d) && d.year >= 100
  }

  predicate Exportable(p: Person) {
    LineSafe(p.name) && DateSafe(p.dateOfBirth) && (p.deathDate.Some? ==> DateSafe(p.deathDate.value)) &&
    OptionalSafe(p.location) && OptionalSafe(p.profession) && OptionalSafe(p.biography)
  }

  predicate AllExportable(people: seq<Person>) {
    forall k :: 0 <= k < |people| ==> Exportable(people[k])
  }

  // What is read back

  /** An optional field as it comes back: written only when present. */
  function Kept(o: Option<string>): (r: Option<string>)
    ensures r.Some? <==> Present(o)
    ensures r.Some? ==> r == o
  {
    if Present(o) then o else None
  }

  /** The record the parser gathers for an exported person: every `2 DATE`
      line overwrites the date, so the death date, written last, wins. */
  function DraftOf(p: Person): Draft {
    Draft(Some(p.name), Some(if p.deathDate.Some? then p.deathDate.value else p.dateOfBirth),
          Some(p.gender), Kept(p.location), Kept(p.profession), Kept(p.biography))
  }

  /** The first `n` people as they come back. */
  function Reimported(people: seq<Person>, n: nat): (r: seq<Person>)
    requires n <= |people|
    ensures |r| == n
  {
    if n == 0 then [] else Reimported(people, n - 1) + [Build(DraftOf(people[n - 1]), n - 1)]
  }

  // Dates

  lemma JoinThree(a: string, b: string, c: string)
    ensures Join([a, b, c], '/') == a + "/" + b + "/" + c
  {
    assert [a, b, c][1..] == [b, c];
    assert [b, c][1..] == [c];
    assert Join([c], '/') == c;
    assert Join([b, c], '/') == b + "/" + c;
  }

  lemma NoSlash(n: nat)
    ensures '/' !in NatToString(n) && '\n' !in NatToString(n)
  {
    var s := NatToString(n);
    forall i | 0 <= i < |s| ensures s[i] != '/' && s[i] != '\n' {
      assert IsDigit(s[i]);
    }
  }

  /** The date written by the export reads back as the same date. */
  lemma ParseFormatted(d: Date)
    requires DateSafe(d)
    ensures ParseDate(FormatDate(d)) == Some(d)
    ensures '\n' !in FormatDate(d) && FormatDate(d) != [] && IsDigit(FormatDate(d)[|FormatDate(d)| - 1])
  {
    var m, dd, y := NatToString(d.month), NatToString(d.day), NatToString(d.year);
    assert FormatDate(d) == m + "/" + dd + "/" + y;
    NoSlash(d.month);
    NoSlash(d.day);
    NoSlash(d.year);
    JoinThree(m, dd, y);
    SplitJoin([m, dd, y], '/');
    ParseNatToString(d.month);
    ParseNatToString(d.day);
    ParseNatToString(d.year);
    NormalizeValid(d);
  }

  // Lines

  /** The characters that tell the seven tests apart. */
  lemma Signatures(t: string)
    ensures StartsWith(t, "0 @I") ==> t[0] == '0' && t[2] == '@' && t[3] == 'I'
    ensures StartsWith(t, "1 NAME ") ==> t[0] == '1' && t[2] == 'N' && t[3] == 'A'
    ensures StartsWith(t, "1 SEX ") ==> t[0] == '1' && t[2] == 'S' && t[3] == 'E'
    ensures StartsWith(t, "2 DATE ") ==> t[0] == '2' && t[2] == 'D'
    ensures StartsWith(t, "2 PLAC ") ==> t[0] == '2' && t[2] == 'P'
    ensures StartsWith(t, "1 OCCU ") ==> t[0] == '1' && t[2] == 'O'
    ensures StartsWith(t, "1 NOTE ") ==> t[0] == '1' && t[2] == 'N' && t[3] == 'O'
  {
    if |t| >= 4 {
      assert t[..4][0] == t[0] && t[..4][2] == t[2] && t[..4][3] == t[3];
      if |t| >= 6 {
        assert t[..6][0] == t[0] && t[..6][2] == t[2] && t[..6][3] == t[3];
      }
      if |t| >= 7 {
        assert t[..7][0] == t[0] && t[..7][2] == t[2] && t[..7][3] == t[3];
      }
    }
  }

  /** A line that no test picks up, told by its first characters: empty, or
      with no whitespace at either end and no tag the parser reads. */
  predicate Quiet(l: string) {
    l == [] ||
    (|l| >= 4 && !IsWhitespace(l[0]) && !IsWhitespace(l[|l| - 1]) &&
     !(l[0] == '0' && l[2] == '@' && l[3] == 'I') &&
     !(l[0] == '1' && (l[2] == 'N' || (l[2] == 'S' && l[3] == 'E') || l[2] == 'O')) &&
     !(l[0] == '2' && (l[2] == 'D' || l[2] == 'P')))
  }

  /** A quiet line is classified as nothing to read. */
  lemma InertLine(l: string)
    requires Quiet(l)
    ensures Classify(l) == Other
  {
    if l != [] {
      TrimNoOp(l);
      Signatures(l);
    }
  }

  /** A tag followed by a safe value: its own trim, and the value after the tag. */
  lemma TagValue(q: string, v: string)
    requires |q| >= 4 && !IsWhitespace(q[0]) && LineSafe(v)
    ensures Trim(q + v) == q + v && StartsWith(q + v, q) && Substring(q + v, |q|) == v
  {
    var t := q + v;
    assert t[0] == q[0] && t[|t| - 1] == v[|v| - 1];
    TrimNoOp(t);
    assert t[..|q|] == q;
    assert t[|q|..] == v;
  }

  lemma ReadsHeader(n: nat)
    ensures Classify("0 @I" + NatToString(n) + "@ INDI") == Header
  {
    var l := "0 @I" + NatToString(n) + "@ INDI";
    assert l[|l| - 1] == 'I' && l[0] == '0';
    TrimNoOp(l);
    assert l[..4] == "0 @I";
    assert l[|l| - 4..] == "INDI";
    assert OccursAt(l, "INDI", |l| - 4);
  }

  lemma ReadsName(v: string)
    requires LineSafe(v)
    ensures Classify("1 NAME " + v) == NameLine(v)
  {
    TagValue("1 NAME ", v);
    Signatures("1 NAME " + v);
  }

  lemma ReadsSex(g: Gender)
    ensures Classify("1 SEX " + SexCode(g)) == SexLine(g)
  {
    TagValue("1 SEX ", SexCode(g));
    Signatures("1 SEX " + SexCode(g));
  }

  lemma ReadsDate(date: Date)
    requires DateSafe(date)
    ensures Classify("2 DATE " + FormatDate(date)) == DateLine(date)
  {
    ParseFormatted(date);
    TagValue("2 DATE ", FormatDate(date));
    Signatures("2 DATE " + FormatDate(date));
  }

  lemma ReadsPlace(v: string)
    requires LineSafe(v)
    ensures Classify("2 PLAC " + v) == PlaceLine(v)
  {
    TagValue("2 PLAC ", v);
    Signatures("2 PLAC " + v);
  }

  lemma ReadsOccupation(v: string)
    requires LineSafe(v)
    ensures Classify("1 OCCU " + v) == OccupationLine(v)
  {
    TagValue("1 OCCU ", v);
    Signatures("1 OCCU " + v);
  }

  lemma ReadsNote(v: string)
    requires LineSafe(v)
    ensures Classify("1 NOTE " + v) == NoteLine(v)
  {
    TagValue("1 NOTE ", v);
    Signatures("1 NOTE " + v);
  }

  // Classifying whole records

  lemma MapOne<A, B>(f: A -> B, a: A)
    ensures MapSeq(f, [a]) == [f(a)]
  {
    assert [a][..0] == [];
  }

  lemma MapTwo<A, B>(f: A -> B, a: A, b: A)
    ensures MapSeq(f, [a, b]) == [f(a), f(b)]
  {
    assert [a, b][..1] == [a];
    MapOne(f, a);
  }

  lemma MapFive<A, B>(f: A -> B, a: A, b: A, c: A, d: A, e: A)
    ensures MapSeq(f, [a, b, c, d, e]) == [f(a), f(b), f(c), f(d), f(e)]
  {
    MapTwo(f, a, b);
    assert [a, b, c][..2] == [a, b];
    assert MapSeq(f, [a, b, c]) == [f(a), f(b), f(c)];
    assert [a, b, c, d][..3] == [a, b, c];
    assert MapSeq(f, [a, b, c, d]) == [f(a), f(b), f(c), f(d)];
    assert [a, b, c, d, e][..4] == [a, b, c, d];
  }

  /** The parts of an INDI record as the parser sees them. */
  function HeadEvents(p: Person): seq<Line> {
    [Header, NameLine(p.name), SexLine(p.gender), Other, DateLine(p.dateOfBirth)]
  }

  function TailEvents(p: Person): seq<Line> {
    (if Present(p.location) then [PlaceLine(p.location.value)] else [])
    + (if p.deathDate.Some? then [Other, DateLine(p.deathDate.value)] else [])
    + (if Present(p.profession) then [OccupationLine(p.profession.value)] else [])
    + (if Present(p.biography) then [NoteLine(p.biography.value)] else [])
  }

  function HeadLines(p: Person, n: nat): seq<string> {
    ["0 @I" + NatToString(n) + "@ INDI", "1 NAME " + p.name, "1 SEX " + SexCode(p.gender),
     "1 BIRT", "2 DATE " + FormatDate(p.dateOfBirth)]
  }

  function TailLines(p: Person): seq<string> {
    (if Present(p.location) then ["2 PLAC " + p.location.value] else [])
    + (if p.deathDate.Some? then ["1 DEAT", "2 DATE " + FormatDate(p.deathDate.value)] else [])
    + (if Present(p.profession) then ["1 OCCU " + p.profession.value] else [])
    + (if Present(p.biography) then ["1 NOTE " + p.biography.value] else [])
  }

  lemma ClassifyHead(p: Person, n: nat)
    requires Exportable(p)
    ensures ClassifyAll(HeadLines(p, n)) == HeadEvents(p)
  {
    var l := HeadLines(p, n);
    MapFive(Classify, l[0], l[1], l[2], l[3], l[4]);
    ReadsHeader(n);
    ReadsName(p.name);
    ReadsSex(p.gender);
    BirthInert();
    ReadsDate(p.dateOfBirth);
  }

  lemma ClassifyPlace(p: Person)
    requires Exportable(p)
    ensures ClassifyAll(if Present(p.location) then ["2 PLAC " + p.location.value] else []) ==
      if Present(p.location) then [PlaceLine(p.location.value)] else []
  {
    if Present(p.location) {
      MapOne(Classify, "2 PLAC " + p.location.value);
      ReadsPlace(p.location.value);
    }
  }

  lemma ClassifyDeath(p: Person)
    requires Exportable(p)
    ensures ClassifyAll(if p.deathDate.Some? then ["1 DEAT", "2 DATE " + FormatDate(p.deathDate.value)] else []) ==
      if p.deathDate.Some? then [Other, DateLine(p.deathDate.value)] else []
  {
    if p.deathDate.Some? {
      MapTwo(Classify, "1 DEAT", "2 DATE " + FormatDate(p.deathDate.value));
      DeathInert();
      ReadsDate(p.deathDate.value);
    }
  }

  lemma BirthInert()
    ensures Classify("1 BIRT") == Other
  {
    InertLine("1 BIRT");
  }

  lemma DeathInert()
    ensures Classify("1 DEAT") == Other
  {
    InertLine("1 DEAT");
  }

  lemma ClassifyOccupation(p: Person)
    requires Exportable(p)
    ensures ClassifyAll(if Present(p.profession) then ["1 OCCU " + p.profession.value] else []) ==
      if Present(p.profession) then [OccupationLine(p.profession.value)] else []
  {
    if Present(p.profession) {
      MapOne(Classify, "1 OCCU " + p.profession.value);
      ReadsOccupation(p.profession.value);
    }
  }

  lemma ClassifyNote(p: Person)
    requires Exportable(p)
    ensures ClassifyAll(if Present(p.biography) then ["1 NOTE " + p.biography.value] else []) ==
      if Present(p.biography) then [NoteLine(p.biography.value)] else []
  {
    if Present(p.biography) {
      MapOne(Classify, "1 NOTE " + p.biography.value);
      ReadsNote(p.biography.value);
    }
  }

  lemma ClassifyTail(p: Person)
    requires Exportable(p)
    ensures ClassifyAll(TailLines(p)) == TailEvents(p)
  {
    var pl := if Present(p.location) then ["2 PLAC " + p.location.value] else [];
    var de := if p.deathDate.Some? then ["1 DEAT", "2 DATE " + FormatDate(p.deathDate.value)] else [];
    var oc := if Present(p.profession) then ["1 OCCU " + p.profession.value] else [];
    var no := if Present(p.biography) then ["1 NOTE " + p.biography.value] else [];
    ClassifyAllAppend(pl + de + oc, no);
    ClassifyAllAppend(pl + de, oc);
    ClassifyAllAppend(pl, de);
    ClassifyPlace(p);
    ClassifyDeath(p);
    ClassifyOccupation(p);
    ClassifyNote(p);
  }

  lemma ClassifyRecord(p: Person, n: nat)
    requires Exportable(p)
    ensures ClassifyAll(PersonLines(p, n)) == HeadEvents(p) + TailEvents(p)
  {
    ClassifyHead(p, n);
    ClassifyTail(p);
    JoinRecord(p, n);
  }

  /** A record is its head followed by its tail, and is classified as such. */
  lemma JoinRecord(p: Person, n: nat)
    ensures ClassifyAll(PersonLines(p, n)) == ClassifyAll(HeadLines(p, n)) + ClassifyAll(TailLines(p))
  {
    SplitRecord(p, n);
    ClassifyAllAppend(HeadLines(p, n), TailLines(p));
  }

  lemma SplitRecord(p: Person, n: nat)
    ensures PersonLines(p, n) == HeadLines(p, n) + TailLines(p)
  {
    var pl := if Present(p.location) then ["2 PLAC " + p.location.value] else [];
    var de := if p.deathDate.Some? then ["1 DEAT", "2 DATE " + FormatDate(p.deathDate.value)] else [];
    var oc := if Present(p.profession) then ["1 OCCU " + p.profession.value] else [];
    var no := if Present(p.biography) then ["1 NOTE " + p.biography.value] else [];
    Regroup(HeadLines(p, n), pl, de, oc, no);
  }

  lemma Regroup<T>(a: seq<T>, b: seq<T>, c: seq<T>, d: seq<T>, e: seq<T>)
    ensures a + b + c + d + e == a + (b + c + d + e)
  {
  }

  // Replaying a record

  lemma FoldOne(st: ParseState, a: Line)
    ensures Fold(st, [a]) == Step(st, a)
  {
    FoldSnoc(st, [], a);
  }

  lemma FoldTwo(st: ParseState, a: Line, b: Line)
    ensures Fold(st, [a, b]) == Step(Step(st, a), b)
  {
    assert [a, b][..1] == [a];
    FoldOne(st, a);
  }

  lemma ReplayHead(st: ParseState, p: Person)
    ensures Fold(st, HeadEvents(p)) ==
      ParseState(Some(EmptyDraft.(name := Some(p.name), gender := Some(p.gender), dateOfBirth := Some(p.dateOfBirth))), Flush(st))
  {
    var h, nm, sx, dt := Header, NameLine(p.name), SexLine(p.gender), DateLine(p.dateOfBirth);
    FoldTwo(st, h, nm);
    FoldSnoc(st, [h, nm], sx);
    assert [h, nm] + [sx] == [h, nm, sx];
    FoldSnoc(st, [h, nm, sx], Other);
    assert [h, nm, sx] + [Other] == [h, nm, sx, Other];
    FoldSnoc(st, [h, nm, sx, Other], dt);
    assert [h, nm, sx, Other] + [dt] == HeadEvents(p);
  }

  lemma ReplayTail(st: ParseState, p: Person)
    requires st.current == Some(EmptyDraft.(name := Some(p.name), gender := Some(p.gender), dateOfBirth := Some(p.dateOfBirth)))
    ensures Fold(st, TailEvents(p)) == st.(current := Some(DraftOf(p)))
  {
    var pl := if Present(p.location) then [PlaceLine(p.location.value)] else [];
    var de := if p.deathDate.Some? then [Other, DateLine(p.deathDate.value)] else [];
    var oc := if Present(p.profession) then [OccupationLine(p.profession.value)] else [];
    var no := if Present(p.biography) then [NoteLine(p.biography.value)] else [];
    assert TailEvents(p) == pl + de + oc + no;
    var d0 := st.current.value;
    var d1 := if Present(p.location) then d0.(location := p.location) else d0;
    var d2 := if p.deathDate.Some? then d1.(dateOfBirth := p.deathDate) else d1;
    var d3 := if Present(p.profession) then d2.(profession := p.profession) else d2;
    var d4 := if Present(p.biography) then d3.(biography := p.biography) else d3;
    TailPart(st, pl, d0, d1);
    TailPart(st.(current := Some(d1)), de, d1, d2);
    TailPart(st.(current := Some(d2)), oc, d2, d3);
    TailPart(st.(current := Some(d3)), no, d3, d4);
    FoldAppend(st, pl + de + oc, no);
    FoldAppend(st, pl + de, oc);
    FoldAppend(st, pl, de);
    assert d4 == DraftOf(p);
  }

  /** One optional part of the tail read into the open record: nothing, one
      tagged value, or a line the parser skips followed by one. */
  lemma TailPart(st: ParseState, part: seq<Line>, d: Draft, d': Draft)
    requires st.current == Some(d)
    requires (part == [] && d' == d) || (|part| == 1 && part[0] != Header && d' == Fill(d, part[0])) ||
      (|part| == 2 && part[0] == Other && part[1] != Header && d' == Fill(d, part[1]))
    ensures Fold(st, part) == st.(current := Some(d'))
  {
    if |part| == 1 {
      assert part == [part[0]];
      FoldOne(st, part[0]);
    } else if |part| == 2 {
      assert part == [part[0], part[1]];
      FoldTwo(st, part[0], part[1]);
    }
  }

  /** One INDI record read after any state: the previous record is closed and
      the exported person's record is open. */
  lemma ReadRecord(st: ParseState, p: Person, n: nat)
    requires Exportable(p)
    ensures Fold(st, ClassifyAll(PersonLines(p, n))) == ParseState(Some(DraftOf(p)), Flush(st))
  {
    ClassifyRecord(p, n);
    FoldAppend(st, HeadEvents(p), TailEvents(p));
    ReplayHead(st, p);
    ReplayTail(Fold(st, HeadEvents(p)), p);
  }

  /** The INDI records of the first `n` people read from the start: all but
      the last person imported, the last one's record still open. */
  lemma {:induction false} ReadIndividuals(people: seq<Person>, n: nat)
    requires n <= |people| && AllExportable(people)
    ensures Fold(Init, ClassifyAll(Individuals(people, n))) ==
      if n == 0 then Init else ParseState(Some(DraftOf(people[n - 1])), Reimported(people, n - 1))
  {
    if n > 0 {
      ReadIndividuals(people, n - 1);
      assert Exportable(people[n - 1]) && (n > 1 ==> Exportable(people[n - 2]));
      ReadStep(people, n);
    }
  }

  /** One more record read: the one open before is closed and added. */
  lemma ReadStep(people: seq<Person>, n: nat)
    requires 0 < n <= |people| && Exportable(people[n - 1]) && (n > 1 ==> Exportable(people[n - 2]))
    requires Fold(Init, ClassifyAll(Individuals(people, n - 1))) ==
      if n == 1 then Init else ParseState(Some(DraftOf(people[n - 2])), Reimported(people, n - 2))
    ensures Fold(Init, ClassifyAll(Individuals(people, n))) == ParseState(Some(DraftOf(people[n - 1])), Reimported(people, n - 1))
  {
    ReadNext(people, n);
    if n > 1 {
      CloseLast(people, n - 1);
    }
  }

  /** The record of person `n` read after those of the people before. */
  lemma ReadNext(people: seq<Person>, n: nat)
    requires 0 < n <= |people| && Exportable(people[n - 1])
    ensures Fold(Init, ClassifyAll(Individuals(people, n))) ==
      ParseState(Some(DraftOf(people[n - 1])), Flush(Fold(Init, ClassifyAll(Individuals(people, n - 1)))))
  {
    var before := Individuals(people, n - 1);
    ClassifyAllAppend(before, PersonLines(people[n - 1], n));
    FoldAppend(Init, ClassifyAll(before), ClassifyAll(PersonLines(people[n - 1], n)));
    ReadRecord(Fold(Init, ClassifyAll(before)), people[n - 1], n);
  }

  // Lines that read as nothing

  /** Every line is one the parser does not look at. */
  predicate AllQuiet(lines: seq<string>) {
    forall k :: 0 <= k < |lines| ==> Quiet(lines[k])
  }

  /** Lines the parser does not look at leave any state as it is. */
  lemma SkipQuiet(st: ParseState, lines: seq<string>)
    requires AllQuiet(lines)
    ensures Fold(st, ClassifyAll(lines)) == st
  {
    ClassifyAllIndex(lines);
    forall k | 0 <= k < |lines| ensures ClassifyAll(lines)[k] == Other {
      InertLine(lines[k]);
    }
    FoldOthers(st, ClassifyAll(lines));
  }

  lemma {:induction false} FamilyRecordsQuiet(families: seq<(nat, nat)>, n: nat)
    requires n <= |families|
    ensures AllQuiet(FamilyRecords(families, n))
  {
    if n > 0 {
      FamilyRecordsQuiet(families, n - 1);
      var a, b := FamilyRecords(families, n - 1), FamilyLines(families[n - 1], n);
      var f, h, w := b[0], b[1], b[2];
      assert f[0] == '0' && f[2] == '@' && f[3] == 'F' && f[|f| - 1] == 'M';
      assert h[0] == '1' && h[2] == 'H' && h[|h| - 1] == '@';
      assert w[0] == '1' && w[2] == 'W' && w[|w| - 1] == '@';
      assert forall k :: |a| <= k < |a + b| ==> (a + b)[k] == b[k - |a|];
    }
  }

  lemma HeaderQuiet()
    ensures AllQuiet(HeaderLines)
  {
  }

  lemma TrailerQuiet()
    ensures AllQuiet([Trailer, ""])
  {
  }

  // No line feed inside a line

  lemma PersonLinesSafe(p: Person, n: nat)
    requires Exportable(p)
    ensures forall l | l in PersonLines(p, n) :: '\n' !in l
  {
    NoSlash(n);
    ParseFormatted(p.dateOfBirth);
    if p.deathDate.Some? {
      ParseFormatted(p.deathDate.value);
    }
  }

  lemma {:induction false} IndividualsSafe(people: seq<Person>, n: nat)
    requires n <= |people| && AllExportable(people)
    ensures forall l | l in Individuals(people, n) :: '\n' !in l
  {
    if n > 0 {
      IndividualsSafe(people, n - 1);
      PersonLinesSafe(people[n - 1], n);
    }
  }

  lemma {:induction false} FamilyRecordsSafe(families: seq<(nat, nat)>, n: nat)
    requires n <= |families|
    ensures forall l | l in FamilyRecords(families, n) :: '\n' !in l
  {
    if n > 0 {
      FamilyRecordsSafe(families, n - 1);
      NoSlash(n);
      NoSlash(families[n - 1].0);
      NoSlash(families[n - 1].1);
    }
  }

  lemma FrameSafe()
    ensures forall l | l in HeaderLines + [Trailer] :: '\n' !in l
  {
  }

  /** The export splits back into its lines, with the empty piece after the
      final line feed. */
  lemma ExportSplits(people: seq<Person>)
    requires AllExportable(people)
    ensures Split(Unlines(ExportLines(people)), '\n') == ExportLines(people) + [""]
  {
    var f := Families(people, |people|);
    IndividualsSafe(people, |people|);
    FamilyRecordsSafe(f, |f|);
    FrameSafe();
    var lines := ExportLines(people);
    var individuals, families := Individuals(people, |people|), FamilyRecords(f, |f|);
    assert lines == HeaderLines + individuals + families + [Trailer];
    forall i | 0 <= i < |lines| ensures '\n' !in lines[i] {
      var l := lines[i];
      assert l in HeaderLines + [Trailer] || l in individuals || l in families;
    }
    UnlinesSplit(lines);
  }

  // The round trip

  /** Reading two runs of lines one after the other. */
  lemma ReadThen(st: ParseState, a: seq<string>, b: seq<string>, mid: ParseState, fin: ParseState)
    requires Fold(st, ClassifyAll(a)) == mid && Fold(mid, ClassifyAll(b)) == fin
    ensures Fold(st, ClassifyAll(a + b)) == fin
  {
    ClassifyAllAppend(a, b);
    FoldAppend(st, ClassifyAll(a), ClassifyAll(b));
  }

  lemma SnocTwo<T>(s: seq<T>, a: T, b: T)
    ensures s + [a] + [b] == s + [a, b]
  {
  }

  /** Four runs of lines of which only the second changes the state. */
  lemma ReadFramed(h: seq<string>, i: seq<string>, f: seq<string>, t: seq<string>, st: ParseState)
    requires AllQuiet(h) && AllQuiet(f) && AllQuiet(t) && Fold(Init, ClassifyAll(i)) == st
    ensures Fold(Init, ClassifyAll(h + i + f + t)) == st
  {
    SkipQuiet(Init, h);
    ReadThen(Init, h, i, Init, st);
    SkipQuiet(st, f);
    ReadThen(Init, h + i, f, st, st);
    SkipQuiet(st, t);
    ReadThen(Init, h + i + f, t, st, st);
  }

  /** Only the INDI records of the export change the parser's state. */
  lemma ReadExportState(people: seq<Person>)
    ensures Fold(Init, ClassifyAll(ExportLines(people) + [""])) == Fold(Init, ClassifyAll(Individuals(people, |people|)))
  {
    var f := Families(people, |people|);
    var individuals, families := Individuals(people, |people|), FamilyRecords(f, |f|);
    SnocTwo(HeaderLines + individuals + families, Trailer, "");
    HeaderQuiet();
    TrailerQuiet();
    FamilyRecordsQuiet(f, |f|);
    ReadFramed(HeaderLines, individuals, families, [Trailer, ""], Fold(Init, ClassifyAll(individuals)));
  }

  /** The lines of the export, with the empty piece after the final line feed,
      read back. */
  lemma ReadExportLines(people: seq<Person>)
    requires AllExportable(people)
    ensures ImportLines(ExportLines(people) + [""]) == Reimported(people, |people|)
  {
    ReadExportState(people);
    FlushIndividuals(people);
  }

  /** Closing the record still open after the last INDI record. */
  lemma FlushIndividuals(people: seq<Person>)
    requires AllExportable(people)
    ensures Flush(Fold(Init, ClassifyAll(Individuals(people, |people|)))) == Reimported(people, |people|)
  {
    var n := |people|;
    ReadIndividuals(people, n);
    if n > 0 {
      assert Fold(Init, ClassifyAll(Individuals(people, n))) == ParseState(Some(DraftOf(people[n - 1])), Reimported(people, n - 1));
      CloseLast(people, n);
    } else {
      assert Fold(Init, ClassifyAll(Individuals(people, n))) == Init;
    }
  }

  /** Closing the last record adds its person to the others. */
  lemma CloseLast(people: seq<Person>, n: nat)
    requires 0 < n <= |people| && people[n - 1].name != ""
    ensures Flush(ParseState(Some(DraftOf(people[n - 1])), Reimported(people, n - 1))) == Reimported(people, n)
  {
  }

  /** Importing the export gives back every person, in order, under the ids
      `imported-0`, `imported-1`, …, with the fields the export writes. */
  lemma ImportExport(people: seq<Person>)
    requires AllExportable(people)
    ensures Import(Unlines(ExportLines(people))) == Reimported(people, |people|)
  {
    ExportSplits(people);
    ReadExportLines(people);
  }

  /** What each person comes back as. */
  lemma RoundTrip(people: seq<Person>)
    requires AllExportable(people)
    ensures var r := Import(Unlines(ExportLines(people)));
      |r| == |people| &&
      forall k :: 0 <= k < |r| ==>
        r[k].id == "imported-" + NatToString(k) && r[k].name == people[k].name &&
        r[k].gender == people[k].gender && r[k].location == Kept(people[k].location) &&
        r[k].profession == Kept(people[k].profession) && r[k].biography == Kept(people[k].biography) &&
        r[k].dateOfBirth == (if people[k].deathDate.Some? then people[k].deathDate.value else people[k].dateOfBirth) &&
        r[k].relationships == []
  {
    ImportExport(people);
    ReimportedAt(people, |people|);
  }

  lemma {:induction false} ReimportedAt(people: seq<Person>, n: nat)
    requires n <= |people|
    ensures forall k :: 0 <= k < n ==> Reimported(people, n)[k] == Build(DraftOf(people[k]), k)
  {
    if n > 0 {
      ReimportedAt(people, n - 1);
    }
  }
}
