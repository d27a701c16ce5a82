/** The line parser inside `handleImport` of
    `src/components/GedcomImportExport.tsx`: a GEDCOM text read line by line
    into people, one per INDI record that carries a name. */
module GedcomImport {
  import opened Wrappers
  import opened Dates
  import opened Records
  import opened SrcTypes
  import opened Text

  /** The fields gathered in `currentPerson`; `None` where the record had no
      line for that field. */
  datatype Draft = Draft(
    name: Option<string>,
    dateOfBirth: Option<Date>,
    gender: Option<Gender>,
    location: Option<string>,
    profession: Option<string>,
    biography: Option<string>)

  const EmptyDraft: Draft := Draft(None, None, None, None, None, None)

  /** `'1900-01-01'`, used for a missing or unreadable date. */
  const DefaultBirth: Date := Date(1900, 1, 1)

  /** The parser's state between two lines: `currentPerson` (`None` before the
      first INDI header) and `importedPeople`. */
  datatype ParseState = ParseState(current: Option<Draft>, imported: seq<Person>)

  const Init: ParseState := ParseState(None, [])

  // Reading a date

  /** The century V8 gives a year written with at most two digits. */
  function FullYear(y: nat): (r: nat)
    ensures y >= 100 ==> r == y
    ensures y < 100 ==> 1950 <= r <= 2049 && r % 100 == y
  {
    if y < 50 then y + 2000 else if y < 100 then y + 1900 else y
  }

  /** `new Date(s)` followed by `toISOString().split('T')[0]`, for the
      `month/day/year` form the export writes: `None` where the browser yields
      an invalid date and `toISOString` throws. A day past the end of its month
      rolls into the next month, as `new Date` does. */
  function ParseDate(s: string): (r: Option<Date>)
    ensures r.Some? ==> Valid(r.value)
  {
    var parts := Split(s, '/');
    if |parts| != 3 then None
    else
      match (ParseNat(parts[0]), ParseNat(parts[1]), ParseNat(parts[2]))
      case (Some(m), Some(d), Some(y)) =>
        if 1 <= m <= 12 && 1 <= d <= 31 then Some(Normalize(FullYear(y), m, d)) else None
      case _ => None
  }

  /** `sex === 'M' ? 'male' : sex === 'F' ? 'female' : 'trans'`. */
  function SexOf(s: string): (g: Gender)
    ensures g == Male <==> s == "M"
    ensures g == Female <==> s == "F"
  {
    if s == "M" then Male else if s == "F" then Female else Trans
  }

  // Classifying a line

  /** What a line says, after `trim`, as the `if … else if` chain reads it:
      the header of an INDI record, one of six tagged values, or nothing the
      parser looks at. */
  datatype Line =
    | Header
    | NameLine(name: string)
    | SexLine(gender: Gender)
    | DateLine(date: Date)
    | PlaceLine(place: string)
    | OccupationLine(occupation: string)
    | NoteLine(note: string)
    | Other

  function Classify(line: string): Line {
    var t := Trim(line);
    if StartsWith(t, "0 @I") && Contains(t, "INDI") then Header else Tagged(t)
  }

  /** The tagged value of a trimmed line that is not a header. */
  function Tagged(t: string): Line {
    if StartsWith(t, "1 NAME ") then NameLine(Substring(t, 7))
    else if StartsWith(t, "1 SEX ") then SexLine(SexOf(Substring(t, 6)))
    else if StartsWith(t, "2 DATE ") then DateLine(ParseDate(Substring(t, 7)).GetOr(DefaultBirth))
    else if StartsWith(t, "2 PLAC ") then PlaceLine(Substring(t, 7))
    else if StartsWith(t, "1 OCCU ") then OccupationLine(Substring(t, 7))
    else if StartsWith(t, "1 NOTE ") then NoteLine(Substring(t, 7))
    else Other
  }

  /** `f` applied to every element, in order. */
  function MapSeq<A, B>(f: A -> B, s: seq<A>): (r: seq<B>)
    ensures |r| == |s|
    decreases |s|
  {
    if s == [] then [] else MapSeq(f, s[..|s| - 1]) + [f(s[|s| - 1])]
  }

  /** The lines of a file, classified one by one. */
  function ClassifyAll(lines: seq<string>): (r: seq<Line>)
    ensures |r| == |lines|
  {
    MapSeq(Classify, lines)
  }

  /** What a tagged line writes into the open record. */
  function Fill(d: Draft, l: Line): Draft {
    match l
    case NameLine(name) => d.(name := Some(name))
    case SexLine(g) => d.(gender := Some(g))
    case DateLine(date) => d.(dateOfBirth := Some(date))
    case PlaceLine(place) => d.(location := Some(place))
    case OccupationLine(occupation) => d.(profession := Some(occupation))
    case NoteLine(note) => d.(biography := Some(note))
    case _ => d
  }

  /** `currentPerson && currentPerson.name`: a record with a non-empty name. */
  predicate Named(current: Option<Draft>) {
    current.Some? && current.value.name.Some? && current.value.name.value != ""
  }

  /** The person pushed for a named record, the `n`-th one imported; the
      fields the parser never sets are left empty. */
  function Build(d: Draft, n: nat): Person
    requires d.name.Some?
  {
    Person("imported-" + NatToString(n), d.name.value, d.dateOfBirth.GetOr(DefaultBirth), None,
           d.location, d.profession, d.biography, d.gender.GetOr(Male), None, None, false, [])
  }

  /** The people imported once the open record is closed. */
  function Flush(st: ParseState): seq<Person> {
    if Named(st.current) then st.imported + [Build(st.current.value, |st.imported|)] else st.imported
  }

  /** The effect of one line: a header closes the open record and opens an
      empty one; a tagged value goes into the open record, if there is one. */
  function Step(st: ParseState, l: Line): ParseState {
    if l == Header then ParseState(Some(EmptyDraft), Flush(st))
    else if st.current.Some? then st.(current := Some(Fill(st.current.value, l)))
    else st
  }

  /** The state after a run of lines, the last one applied last. */
  function Fold(st: ParseState, ls: seq<Line>): ParseState
    decreases |ls|
  {
    if ls == [] then st else Step(Fold(st, ls[..|ls| - 1]), ls[|ls| - 1])
  }

  /** The people read from the lines of a file. */
  function ImportLines(lines: seq<string>): seq<Person> {
    Flush(Fold(Init, ClassifyAll(lines)))
  }

  /** The people read from the text of a file, split at line feeds. */
  function Import(content: string): seq<Person> {
    ImportLines(Split(content, '\n'))
  }

  /** The `forEach` callback: one line read into `currentPerson` and
      `importedPeople`. */
  method ReadLine(currentPerson: Option<Draft>, importedPeople: seq<Person>, line: string)
    returns (currentPerson': Option<Draft>, importedPeople': seq<Person>)
    ensures ParseState(currentPerson', importedPeople') == Step(ParseState(currentPerson, importedPeople), Classify(line))
  {
    currentPerson', importedPeople' := currentPerson, importedPeople;
    var trimmed := Trim(line);
    if StartsWith(trimmed, "0 @I") && Contains(trimmed, "INDI") {
      assert Classify(line) == Header;
      if Named(currentPerson) {
        importedPeople' := importedPeople + [Build(currentPerson.value, |importedPeople|)];
      }
      currentPerson' := Some(EmptyDraft);
    } else {
      assert Classify(line) == Tagged(trimmed);
      if currentPerson.Some? {
        var d := ReadValue(currentPerson.value, trimmed);
        currentPerson' := Some(d);
      }
    }
  }

  /** The `else if` branches for the six tagged values, each writing one field
      of the open record. */
  method ReadValue(d: Draft, trimmed: string) returns (d': Draft)
    ensures d' == Fill(d, Tagged(trimmed))
  {
    d' := d;
    if StartsWith(trimmed, "1 NAME ") {
      assert Tagged(trimmed) == NameLine(Substring(trimmed, 7));
      d' := d.(name := Some(Substring(trimmed, 7)));
    } else if StartsWith(trimmed, "1 SEX ") {
      var sex := Substring(trimmed, 6);
      assert Tagged(trimmed) == SexLine(SexOf(sex));
      d' := d.(gender := Some(if sex == "M" then Male else if sex == "F" then Female else Trans));
    } else if StartsWith(trimmed, "2 DATE ") {
      var parsed := ParseDate(Substring(trimmed, 7));
      assert Tagged(trimmed) == DateLine(parsed.GetOr(DefaultBirth));
      d' := d.(dateOfBirth := Some(if parsed.Some? then parsed.value else DefaultBirth));
    } else if StartsWith(trimmed, "2 PLAC ") {
      assert Tagged(trimmed) == PlaceLine(Substring(trimmed, 7));
      d' := d.(location := Some(Substring(trimmed, 7)));
    } else if StartsWith(trimmed, "1 OCCU ") {
      assert Tagged(trimmed) == OccupationLine(Substring(trimmed, 7));
      d' := d.(profession := Some(Substring(trimmed, 7)));
    } else if StartsWith(trimmed, "1 NOTE ") {
      assert Tagged(trimmed) == NoteLine(Substring(trimmed, 7));
      d' := d.(biography := Some(Substring(trimmed, 7)));
    } else {
      assert Tagged(trimmed) == Other;
    }
  }

  /** The `reader.onload` callback up to `onImport`. */
  method ParseGedcom(content: string) returns (importedPeople: seq<Person>)
    ensures importedPeople == Import(content)
  {
    var lines := Split(content, '\n');
    importedPeople := [];
    var currentPerson: Option<Draft> := None;
    for i := 0 to |lines|
      invariant ParseState(currentPerson, importedPeople) == Fold(Init, ClassifyAll(lines[..i]))
    {
      assert lines[..i + 1][..i] == lines[..i];
      FoldSnoc(Init, ClassifyAll(lines[..i]), Classify(lines[i]));
      currentPerson, importedPeople := ReadLine(currentPerson, importedPeople, lines[i]);
    }
    assert lines[..|lines|] == lines;
    if Named(currentPerson) {
      importedPeople := importedPeople + [Build(currentPerson.value, |importedPeople|)];
    }
  }

  /** `if (importedPeople.length > 0) onImport(importedPeople)`: the people
      handed to the callback, if it is called at all. */
  function HandleImport(content: string): (r: Option<seq<Person>>)
    ensures r.Some? <==> Import(content) != []
    ensures r.Some? ==> r.value == Import(content)
  {
    var people := Import(content);
    if |people| > 0 then Some(people) else None
  }

  // Properties of the fold

  lemma FoldSnoc(st: ParseState, a: seq<Line>, l: Line)
    ensures Fold(st, a + [l]) == Step(Fold(st, a), l)
  {
    assert (a + [l])[..|a|] == a;
  }

  lemma {:induction false} FoldAppend(st: ParseState, a: seq<Line>, b: seq<Line>)
    ensures Fold(st, a + b) == Fold(Fold(st, a), b)
    decreases |b|
  {
    if b == [] {
      assert a + b == a;
    } else {
      FoldAppend(st, a, b[..|b| - 1]);
      assert (a + b)[..|a + b| - 1] == a + b[..|b| - 1];
      assert (a + b)[|a + b| - 1] == b[|b| - 1];
    }
  }

  lemma {:induction false} MapAppend<A, B>(f: A -> B, a: seq<A>, b: seq<A>)
    ensures MapSeq(f, a + b) == MapSeq(f, a) + MapSeq(f, b)
    decreases |b|
  {
    if b == [] {
      assert a + b == a;
    } else {
      MapAppend(f, a, b[..|b| - 1]);
      assert (a + b)[..|a + b| - 1] == a + b[..|b| - 1];
      assert (a + b)[|a + b| - 1] == b[|b| - 1];
    }
  }

  lemma {:induction false} MapIndex<A, B>(f: A -> B, s: seq<A>)
    ensures forall k :: 0 <= k < |s| ==> MapSeq(f, s)[k] == f(s[k])
    decreases |s|
  {
    if s != [] {
      MapIndex(f, s[..|s| - 1]);
    }
  }

  lemma ClassifyAllAppend(a: seq<string>, b: seq<string>)
    ensures ClassifyAll(a + b) == ClassifyAll(a) + ClassifyAll(b)
  {
    MapAppend(Classify, a, b);
  }

  /** The imported people carry the ids `imported-0`, `imported-1`, … in
      order, a name, no relationships and none of the fields the parser never
      sets. */
  predicate Numbered(people: seq<Person>) {
    forall k :: 0 <= k < |people| ==>
      people[k].id == "imported-" + NatToString(k) && people[k].name != "" &&
      people[k].relationships == [] && people[k].deathDate.None? && !people[k].isMainUser
  }

  lemma FlushNumbered(st: ParseState)
    requires Numbered(st.imported)
    ensures Numbered(Flush(st))
  {
  }

  lemma {:induction false} FoldNumbered(st: ParseState, ls: seq<Line>)
    requires Numbered(st.imported)
    ensures Numbered(Fold(st, ls).imported)
    decreases |ls|
  {
    if ls != [] {
      FoldNumbered(st, ls[..|ls| - 1]);
      FlushNumbered(Fold(st, ls[..|ls| - 1]));
    }
  }

  lemma ImportNumbered(lines: seq<string>)
    ensures Numbered(ImportLines(lines))
  {
    FoldNumbered(Init, ClassifyAll(lines));
    FlushNumbered(Fold(Init, ClassifyAll(lines)));
  }

  /** No two imported people share an id. */
  lemma ImportIdsDistinct(lines: seq<string>)
    ensures var people := ImportLines(lines);
      forall j, k :: 0 <= j < k < |people| ==> people[j].id != people[k].id
  {
    ImportNumbered(lines);
    var people := ImportLines(lines);
    forall j, k | 0 <= j < k < |people| ensures people[j].id != people[k].id {
      if people[j].id == people[k].id {
        assert NatToString(j) == people[j].id[|"imported-"|..];
        assert NatToString(k) == people[k].id[|"imported-"|..];
        NatToStringInjective(j, k);
      }
    }
  }

  /** Lines that open no record change nothing while no record is open, and
      lines the parser does not look at change nothing at all. */
  lemma StepOther(st: ParseState, l: Line)
    requires l == Other || (st.current.None? && l != Header)
    ensures Step(st, l) == st
  {
  }

  lemma {:induction false} FoldOthers(st: ParseState, ls: seq<Line>)
    requires forall k :: 0 <= k < |ls| ==> ls[k] == Other || (st.current.None? && ls[k] != Header)
    ensures Fold(st, ls) == st
    decreases |ls|
  {
    if ls != [] {
      FoldOthers(st, ls[..|ls| - 1]);
      StepOther(st, ls[|ls| - 1]);
    }
  }

  /** Whatever comes before the first INDI header is ignored. */
  lemma PreambleIgnored(pre: seq<string>, rest: seq<string>)
    requires forall k :: 0 <= k < |pre| ==> Classify(pre[k]) != Header
    ensures ImportLines(pre + rest) == ImportLines(rest)
  {
    ClassifyAllAppend(pre, rest);
    ClassifyAllIndex(pre);
    FoldAppend(Init, ClassifyAll(pre), ClassifyAll(rest));
    FoldOthers(Init, ClassifyAll(pre));
  }

  lemma ClassifyAllIndex(lines: seq<string>)
    ensures forall k :: 0 <= k < |lines| ==> ClassifyAll(lines)[k] == Classify(lines[k])
  {
    MapIndex(Classify, lines);
  }

  /** The number of INDI headers. */
  function Headers(ls: seq<Line>): nat
    decreases |ls|
  {
    if ls == [] then 0 else Headers(ls[..|ls| - 1]) + (if ls[|ls| - 1] == Header then 1 else 0)
  }

  lemma {:induction false} FoldCount(ls: seq<Line>)
    ensures var st := Fold(Init, ls);
      |st.imported| + (if st.current.Some? then 1 else 0) <= Headers(ls)
    decreases |ls|
  {
    if ls != [] {
      FoldCount(ls[..|ls| - 1]);
    }
  }

  /** At most one person per INDI header. */
  lemma ImportCount(lines: seq<string>)
    ensures |ImportLines(lines)| <= Headers(ClassifyAll(lines))
  {
    FoldCount(ClassifyAll(lines));
  }
}
