/** `exportToGedcom` of `src/components/GedcomImportExport.tsx`: the GEDCOM
    5.5.1 text written for a list of people, one INDI record per person and one
    FAM record per married pair. */
module GedcomExport {
  import opened Wrappers
  import opened Dates
  import opened Records
  import opened SrcTypes
  import opened Text

  /** Lines of text, each followed by a line feed. */
  function Unlines(lines: seq<string>): string {
    if lines == [] then "" else lines[0] + "\n" + Unlines(lines[1..])
  }

  lemma {:induction false} UnlinesAppend(a: seq<string>, b: seq<string>)
    ensures Unlines(a + b) == Unlines(a) + Unlines(b)
  {
    if a == [] {
      assert a + b == b;
    } else {
      assert (a + b)[0] == a[0];
      assert (a + b)[1..] == a[1..] + b;
      UnlinesAppend(a[1..], b);
    }
  }

  lemma UnlinesSnoc(a: seq<string>, line: string)
    ensures Unlines(a + [line]) == Unlines(a) + line + "\n"
  {
    UnlinesAppend(a, [line]);
  }

  /** Lines without line feeds are exactly what `split('\n')` gives back, with
      the empty piece after the final line feed. */
  lemma {:induction false} UnlinesSplit(lines: seq<string>)
    requires forall i :: 0 <= i < |lines| ==> '\n' !in lines[i]
    ensures Split(Unlines(lines), '\n') == lines + [""]
  {
    UnlinesJoin(lines);
    SplitJoin(lines + [""], '\n');
  }

  lemma {:induction false} UnlinesJoin(lines: seq<string>)
    ensures Unlines(lines) == Join(lines + [""], '\n')
  {
    if lines != [] {
      UnlinesJoin(lines[1..]);
      assert (lines + [""])[1..] == lines[1..] + [""];
    }
  }

  /** The six fixed lines of the header record. */
  const HeaderLines: seq<string> :=
    ["0 HEAD", "1 SOUR Family Tree App", "1 GEDC", "2 VERS 5.5.1", "2 FORM LINEAGE-LINKED", "1 CHAR UTF-8"]

  const Trailer: string := "0 TRLR"

  /** The SEX value: `M`, `F`, and `U` for anyone else. */
  function SexCode(g: Gender): string {
    match g
    case Male => "M"
    case Female => "F"
    case Trans => "U"
  }

  /** `toLocaleDateString()` under the en-US locale: month/day/year without
      padding. */
  function FormatDate(d: Date): string {
    NatToString(d.month) + "/" + NatToString(d.day) + "/" + IntToString(d.year)
  }

  /** A truthy optional string: present and not empty. */
  predicate Present(o: Option<string>) {
    o.Some? && o.value != ""
  }

  /** The lines of the INDI record of the person numbered `n`. */
  function PersonLines(p: Person, n: nat): seq<string> {
    ["0 @I" + NatToString(n) + "@ INDI", "1 NAME " + p.name, "1 SEX " + SexCode(p.gender),
     "1 BIRT", "2 DATE " + FormatDate(p.dateOfBirth)]
    + (if Present(p.location) then ["2 PLAC " + p.location.value] else [])
    + (if p.deathDate.Some? then ["1 DEAT", "2 DATE " + FormatDate(p.deathDate.value)] else [])
    + (if Present(p.profession) then ["1 OCCU " + p.profession.value] else [])
    + (if Present(p.biography) then ["1 NOTE " + p.biography.value] else [])
  }

  /** The INDI records of the first `n` people, numbered from 1. */
  function Individuals(people: seq<Person>, n: nat): seq<string>
    requires n <= |people|
  {
    if n == 0 then [] else Individuals(people, n - 1) + PersonLines(people[n - 1], n)
  }

  // Families

  /** `relationships.find(rel => rel.type === 'spouse')`, as the id it names. */
  function FirstSpouse(p: Person): (r: Option<string>)
    ensures r.Some? <==> exists k :: 0 <= k < |p.relationships| && p.relationships[k].kind == Spouse
    ensures r.Some? ==> exists k :: 0 <= k < |p.relationships| && p.relationships[k] == Relationship(p.relationships[k].id, Spouse, r.value) &&
                          forall j :: 0 <= j < k ==> p.relationships[j].kind != Spouse
  {
    var k := IndexWhere(p.relationships, (rel: Relationship) => rel.kind == Spouse);
    if k < 0 then None else Some(p.relationships[k].personId)
  }

  /** The married pair the person at index `i` contributes, as 1-based record
      numbers, lower first: only the first spouse relationship is looked at,
      and only when its id is someone's in the list. */
  function SpousePair(people: seq<Person>, i: nat): (r: Option<(nat, nat)>)
    requires i < |people|
    ensures r.Some? ==> 1 <= r.value.0 <= r.value.1 <= |people|
    ensures r.Some? ==> r.value.0 == i + 1 || r.value.1 == i + 1
  {
    match FirstSpouse(people[i])
    case None => None
    case Some(id) =>
      var j := FindIndex(people, id);
      if j == -1 then None
      else if i <= j then Some((i + 1, j + 1)) else Some((j + 1, i + 1))
  }

  /** The `families` object after the first `n` people, in the order its keys
      were inserted; a key stands for an unordered pair, so a pair met again
      from the other side adds nothing. */
  function Families(people: seq<Person>, n: nat): seq<(nat, nat)>
    requires n <= |people|
  {
    if n == 0 then []
    else
      var f := Families(people, n - 1);
      match SpousePair(people, n - 1)
      case None => f
      case Some(pair) => if pair in f then f else f + [pair]
  }

  predicate NoRepeats(f: seq<(nat, nat)>) {
    forall a, b :: 0 <= a < b < |f| ==> f[a] != f[b]
  }

  /** No pair is written twice. */
  lemma {:induction false} FamiliesDistinct(people: seq<Person>, n: nat)
    requires n <= |people|
    ensures NoRepeats(Families(people, n))
  {
    if n > 0 {
      FamiliesDistinct(people, n - 1);
      var f := Families(people, n - 1);
      var g := Families(people, n);
      if g != f {
        var pair := SpousePair(people, n - 1).value;
        assert g == f + [pair] && pair !in f;
        forall a, b | 0 <= a < b < |g| ensures g[a] != g[b] {
          assert g[a] == f[a] && f[a] in f;
          if b < |f| {
            assert g[b] == f[b];
            assert f[a] != f[b];
          } else {
            assert g[b] == pair;
          }
        }
      }
    }
  }

  /** Every pair written is contributed by one of the people. */
  lemma {:induction false} FamiliesSound(people: seq<Person>, n: nat)
    requires n <= |people|
    ensures forall pair | pair in Families(people, n) :: exists i :: 0 <= i < n && SpousePair(people, i) == Some(pair)
  {
    if n > 0 {
      FamiliesSound(people, n - 1);
      var f := Families(people, n - 1);
      forall pair | pair in Families(people, n) ensures exists i :: 0 <= i < n && SpousePair(people, i) == Some(pair) {
        if pair in f {
          var i :| 0 <= i < n - 1 && SpousePair(people, i) == Some(pair);
        } else {
          assert SpousePair(people, n - 1) == Some(pair);
        }
      }
    }
  }

  /** Every pair contributed by one of the people is written. */
  lemma {:induction false} FamiliesComplete(people: seq<Person>, n: nat)
    requires n <= |people|
    ensures forall i :: 0 <= i < n && SpousePair(people, i).Some? ==> SpousePair(people, i).value in Families(people, n)
  {
    if n > 0 {
      FamiliesComplete(people, n - 1);
    }
  }

  /** The lines of FAM record number `k`: the lower record number as HUSB and
      the higher as WIFE, whatever the genders, and no CHIL line. */
  function FamilyLines(pair: (nat, nat), k: nat): seq<string> {
    ["0 @F" + NatToString(k) + "@ FAM",
     "1 HUSB @I" + NatToString(pair.0) + "@",
     "1 WIFE @I" + NatToString(pair.1) + "@"]
  }

  function FamilyRecords(families: seq<(nat, nat)>, n: nat): seq<string>
    requires n <= |families|
  {
    if n == 0 then [] else FamilyRecords(families, n - 1) + FamilyLines(families[n - 1], n)
  }

  /** Every line of the export, in order. */
  function ExportLines(people: seq<Person>): seq<string> {
    var f := Families(people, |people|);
    HeaderLines + Individuals(people, |people|) + FamilyRecords(f, |f|) + [Trailer]
  }

  /** The second pass of `exportToGedcom`: the `families` object. */
  method BuildFamilies(people: seq<Person>) returns (families: seq<(nat, nat)>)
    ensures families == Families(people, |people|)
  {
    families := [];
    for i := 0 to |people|
      invariant families == Families(people, i)
    {
      var spouse := FirstSpouse(people[i]);
      var pair: Option<(nat, nat)> := None;
      if spouse.Some? {
        var spouseIndex := FindIndex(people, spouse.value);
        if spouseIndex != -1 {
          pair := if i <= spouseIndex then Some((i + 1, spouseIndex + 1)) else Some((spouseIndex + 1, i + 1));
        }
      }
      assert pair == SpousePair(people, i);
      if pair.Some? && pair.value !in families {
        families := families + [pair.value];
      }
    }
  }

  /** Writes each of `record` followed by a line feed. */
  method Emit(gedcom: string, record: seq<string>) returns (gedcom': string)
    ensures gedcom' == gedcom + Unlines(record)
  {
    gedcom' := gedcom;
    for r := 0 to |record|
      invariant gedcom' == gedcom + Unlines(record[..r])
    {
      UnlinesSnoc(record[..r], record[r]);
      assert record[..r + 1] == record[..r] + [record[r]];
      gedcom' := gedcom' + record[r] + "\n";
    }
    assert record[..|record|] == record;
  }

  lemma Associative(a: string, b: string, c: string)
    ensures a + (b + c) == a + b + c
  {
  }

  lemma IndividualsStep(people: seq<Person>, i: nat)
    requires i < |people|
    ensures Unlines(Individuals(people, i + 1)) == Unlines(Individuals(people, i)) + Unlines(PersonLines(people[i], i + 1))
  {
    UnlinesAppend(Individuals(people, i), PersonLines(people[i], i + 1));
  }

  lemma FamilyRecordsStep(families: seq<(nat, nat)>, k: nat)
    requires k < |families|
    ensures Unlines(FamilyRecords(families, k + 1)) == Unlines(FamilyRecords(families, k)) + Unlines(FamilyLines(families[k], k + 1))
  {
    UnlinesAppend(FamilyRecords(families, k), FamilyLines(families[k], k + 1));
  }

  /** The first pass of `exportToGedcom`: an INDI record per person. */
  method EmitIndividuals(gedcom: string, people: seq<Person>) returns (gedcom': string)
    ensures gedcom' == gedcom + Unlines(Individuals(people, |people|))
  {
    gedcom' := gedcom;
    for i := 0 to |people|
      invariant gedcom' == gedcom + Unlines(Individuals(people, i))
    {
      IndividualsStep(people, i);
      Associative(gedcom, Unlines(Individuals(people, i)), Unlines(PersonLines(people[i], i + 1)));
      gedcom' := Emit(gedcom', PersonLines(people[i], i + 1));
    }
  }

  /** The third pass of `exportToGedcom`: a FAM record per pair. */
  method EmitFamilies(gedcom: string, families: seq<(nat, nat)>) returns (gedcom': string)
    ensures gedcom' == gedcom + Unlines(FamilyRecords(families, |families|))
  {
    gedcom' := gedcom;
    for k := 0 to |families|
      invariant gedcom' == gedcom + Unlines(FamilyRecords(families, k))
    {
      FamilyRecordsStep(families, k);
      Associative(gedcom, Unlines(FamilyRecords(families, k)), Unlines(FamilyLines(families[k], k + 1)));
      gedcom' := Emit(gedcom', FamilyLines(families[k], k + 1));
    }
  }

  /** `exportToGedcom()` up to the download: the text it puts in the file. */
  method ExportToGedcom(people: seq<Person>) returns (gedcom: string)
    ensures gedcom == Unlines(ExportLines(people))
  {
    var header := Emit("", HeaderLines);
    var individuals := EmitIndividuals(header, people);
    var families := BuildFamilies(people);
    var records := EmitFamilies(individuals, families);
    gedcom := Emit(records, [Trailer]);
    ExportLinesText(people, header, individuals, records, gedcom);
  }

  /** The text of the export, record group by record group. */
  lemma ExportLinesText(people: seq<Person>, header: string, individuals: string, records: string, gedcom: string)
    requires header == "" + Unlines(HeaderLines)
    requires individuals == header + Unlines(Individuals(people, |people|))
    requires var f := Families(people, |people|); records == individuals + Unlines(FamilyRecords(f, |f|))
    requires gedcom == records + Unlines([Trailer])
    ensures gedcom == Unlines(ExportLines(people))
  {
    assert header == Unlines(HeaderLines);
    var f := Families(people, |people|);
    var a, b, c := HeaderLines, Individuals(people, |people|), FamilyRecords(f, |f|);
    UnlinesAppend(a + b + c, [Trailer]);
    UnlinesAppend(a + b, c);
    UnlinesAppend(a, b);
  }

  /** No line of a record starts `1 CHIL`: each has another tag. */
  predicate NotChild(l: string) {
    |l| >= 5 && (l[0] != '1' || l[2] != 'C' || l[4] != 'I')
  }

  lemma PersonNoChild(p: Person, n: nat)
    ensures forall l | l in PersonLines(p, n) :: NotChild(l)
  {
  }

  lemma {:induction false} IndividualsNoChild(people: seq<Person>, n: nat)
    requires n <= |people|
    ensures forall l | l in Individuals(people, n) :: NotChild(l)
  {
    if n > 0 {
      IndividualsNoChild(people, n - 1);
      PersonNoChild(people[n - 1], n);
    }
  }

  lemma {:induction false} FamilyRecordsNoChild(f: seq<(nat, nat)>, n: nat)
    requires n <= |f|
    ensures forall l | l in FamilyRecords(f, n) :: NotChild(l)
  {
    if n > 0 {
      FamilyRecordsNoChild(f, n - 1);
    }
  }

  lemma HeaderNoChild()
    ensures forall l | l in HeaderLines + [Trailer] :: NotChild(l)
  {
  }

  lemma NotChildLine(l: string)
    requires NotChild(l)
    ensures !StartsWith(l, "1 CHIL")
  {
  }

  /** The text opens with the header record and closes with the trailer, and
      no CHIL line is ever written. */
  lemma ExportFrame(people: seq<Person>)
    ensures var lines := ExportLines(people);
      lines[..6] == HeaderLines && lines[|lines| - 1] == Trailer &&
      forall l | l in lines :: !StartsWith(l, "1 CHIL")
  {
    var f := Families(people, |people|);
    var individuals := Individuals(people, |people|);
    var families := FamilyRecords(f, |f|);
    IndividualsNoChild(people, |people|);
    FamilyRecordsNoChild(f, |f|);
    HeaderNoChild();
    var lines := ExportLines(people);
    assert lines == HeaderLines + individuals + families + [Trailer];
    forall l | l in lines ensures !StartsWith(l, "1 CHIL") {
      if l in HeaderLines {
        assert l in HeaderLines + [Trailer];
      } else if l in individuals {
      } else if l in families {
      } else {
        assert l in HeaderLines + [Trailer];
      }
      NotChildLine(l);
    }
  }
}
