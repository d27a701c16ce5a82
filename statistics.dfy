/** `calculateFamilyStatistics` of `app/utils/graphUtils.ts`: head counts, the
    average age, the gender and age-group distributions and the five most
    common first and last names. */
module Statistics {
  import opened Wrappers
  import opened Dates
  import opened Records
  import opened AppTypes
  import opened Text
  import opened Sorting
  import GraphUtils

  datatype GenderCounts = GenderCounts(male: nat, female: nat, trans: nat)

  datatype AgeGroupCounts = AgeGroupCounts(infant: nat, kid: nat, adult: nat, senior: nat)

  datatype NameCount = NameCount(name: string, count: nat)

  /** `averageAge` is `None` where the source divides 0 by 0 and gets `NaN`. */
  datatype FamilyStatistics = FamilyStatistics(
    totalMembers: nat,
    livingMembers: nat,
    deceasedMembers: nat,
    averageAge: Option<real>,
    genderDistribution: GenderCounts,
    ageGroupDistribution: AgeGroupCounts,
    commonFirstNames: seq<NameCount>,
    commonLastNames: seq<NameCount>)

  // Head counts

  predicate IsDeceased(p: Person) {
    p.deathDate.Some?
  }

  /** `people.filter(p => !p.deathDate).length`. */
  function LivingCount(people: seq<Person>): nat {
    if people == [] then 0 else (if IsDeceased(people[0]) then 0 else 1) + LivingCount(people[1..])
  }

  /** `people.filter(p => p.deathDate).length`. */
  function DeceasedCount(people: seq<Person>): nat {
    if people == [] then 0 else (if IsDeceased(people[0]) then 1 else 0) + DeceasedCount(people[1..])
  }

  /** Everyone is counted once, as living or as deceased. */
  lemma {:induction false} LivingPlusDeceased(people: seq<Person>)
    ensures LivingCount(people) + DeceasedCount(people) == |people|
  {
    if people != [] {
      LivingPlusDeceased(people[1..]);
    }
  }

  // Ages

  /** The year of death, or the current year, less the year of birth. */
  function AgeOf(p: Person, today: Date): int {
    (if p.deathDate.Some? then p.deathDate.value.year else today.year) - p.dateOfBirth.year
  }

  function AgeSum(people: seq<Person>, today: Date): int {
    if people == [] then 0 else AgeOf(people[0], today) + AgeSum(people[1..], today)
  }

  /** The mean of the ages; no number when there is nobody to average. */
  function AverageAge(people: seq<Person>, today: Date): (r: Option<real>)
    ensures r.Some? <==> people != []
    ensures r.Some? ==> r.value * |people| as real == AgeSum(people, today) as real
  {
    if people == [] then None else Some(AgeSum(people, today) as real / |people| as real)
  }

  // Distributions

  function CountGender(people: seq<Person>, g: Gender): nat {
    if people == [] then 0 else (if people[0].gender == g then 1 else 0) + CountGender(people[1..], g)
  }

  /** The `reduce` that increments `acc[p.gender]` for every person. */
  function GenderTally(people: seq<Person>): (c: GenderCounts)
    ensures c.male + c.female + c.trans == |people|
  {
    if people == [] then GenderCounts(0, 0, 0)
    else
      var c := GenderTally(people[1..]);
      match people[0].gender
      case Male => c.(male := c.male + 1)
      case Female => c.(female := c.female + 1)
      case Trans => c.(trans := c.trans + 1)
  }

  /** Each field of the gender distribution counts the people of that gender. */
  lemma {:induction false} GenderTallyCounts(people: seq<Person>)
    ensures GenderTally(people) ==
            GenderCounts(CountGender(people, Male), CountGender(people, Female), CountGender(people, Trans))
  {
    if people != [] {
      GenderTallyCounts(people[1..]);
    }
  }

  function CountAgeGroup(people: seq<Person>, today: Date, a: GraphUtils.AgeGroup): nat {
    if people == [] then 0
    else (if GraphUtils.GetAgeGroup(people[0].dateOfBirth, today) == a then 1 else 0) + CountAgeGroup(people[1..], today, a)
  }

  /** The `reduce` that increments `acc[getAgeGroup(p.dateOfBirth)]`; the age
      group is taken from the birth date alone, even for the deceased. */
  function AgeGroupTally(people: seq<Person>, today: Date): (c: AgeGroupCounts)
    ensures c.infant + c.kid + c.adult + c.senior == |people|
  {
    if people == [] then AgeGroupCounts(0, 0, 0, 0)
    else
      var c := AgeGroupTally(people[1..], today);
      match GraphUtils.GetAgeGroup(people[0].dateOfBirth, today)
      case Infant => c.(infant := c.infant + 1)
      case Kid => c.(kid := c.kid + 1)
      case Adult => c.(adult := c.adult + 1)
      case Senior => c.(senior := c.senior + 1)
  }

  lemma {:induction false} AgeGroupTallyCounts(people: seq<Person>, today: Date)
    ensures AgeGroupTally(people, today) ==
            AgeGroupCounts(CountAgeGroup(people, today, GraphUtils.Infant), CountAgeGroup(people, today, GraphUtils.Kid),
                           CountAgeGroup(people, today, GraphUtils.Adult), CountAgeGroup(people, today, GraphUtils.Senior))
  {
    if people != [] {
      AgeGroupTallyCounts(people[1..], today);
    }
  }

  // Name frequencies

  /** The index of the first occurrence of `n`, or -1. */
  function FirstIndex(names: seq<string>, n: string): int {
    IndexWhere(names, (x: string) => x == n)
  }

  /** One step of the counting `reduce`: the entry of `n` goes up by one, or a
      new entry with count 1 goes at the end. The entries are the keys of the
      counts object in the order they were added; `Entries` gives the order in
      which `Object.entries` lists them. */
  function Bump(t: seq<NameCount>, n: string): (r: seq<NameCount>)
    ensures |r| == |t| || r == t + [NameCount(n, 1)]
  {
    var i := IndexWhere(t, (e: NameCount) => e.name == n);
    if i < 0 then t + [NameCount(n, 1)] else t[i := NameCount(n, t[i].count + 1)]
  }

  /** The counts built by the `reduce`, as (name, count) pairs in the order the
      names were added as keys, which is the order they first occur. */
  function Tally(names: seq<string>): seq<NameCount> {
    if names == [] then [] else Bump(Tally(names[..|names| - 1]), names[|names| - 1])
  }

  predicate DistinctNames(t: seq<NameCount>) {
    forall i, j :: 0 <= i < j < |t| ==> t[i].name != t[j].name
  }

  /** The tally has one entry per name. */
  lemma {:induction false} TallyDistinct(names: seq<string>)
    ensures DistinctNames(Tally(names))
  {
    if names != [] {
      TallyDistinct(names[..|names| - 1]);
    }
  }

  /** The tally's names are the names counted. */
  lemma {:induction false} TallyCovers(names: seq<string>)
    ensures forall n | n in names :: exists e | e in Tally(names) :: e.name == n
    ensures forall e | e in Tally(names) :: e.name in names
  {
    if names != [] {
      var pre, x := names[..|names| - 1], names[|names| - 1];
      assert names == pre + [x];
      TallyCovers(pre);
      var t := Tally(pre);
      var i := IndexWhere(t, (e: NameCount) => e.name == x);
      var r := Tally(names);
      forall n | n in names ensures exists e | e in r :: e.name == n {
        if n == x {
          if i < 0 { assert r[|t|].name == n; } else { assert r[i].name == n; }
        } else {
          assert n in pre;
          var e :| e in t && e.name == n;
          var k :| 0 <= k < |t| && t[k] == e;
          assert r[k] == e;
        }
      }
      forall e | e in r ensures e.name in names {
        var k :| 0 <= k < |r| && r[k] == e;
        if k < |t| && k != i {
          assert r[k] == t[k] && t[k] in t;
        }
      }
    }
  }

  /** Each entry's count is the number of times its name occurs. */
  lemma {:induction false} TallyExact(names: seq<string>)
    ensures forall e | e in Tally(names) :: e.count == multiset(names)[e.name] && e.count >= 1
  {
    if names != [] {
      var pre, x := names[..|names| - 1], names[|names| - 1];
      assert names == pre + [x];
      TallyExact(pre);
      TallyDistinct(pre);
      TallyCovers(pre);
      var t := Tally(pre);
      var i := IndexWhere(t, (e: NameCount) => e.name == x);
      var r := Tally(names);
      assert multiset(names) == multiset(pre) + multiset{x};
      if i < 0 {
        assert x !in pre;
        forall e | e in r ensures e.count == multiset(names)[e.name] && e.count >= 1 {
          if e in t {
            var k :| 0 <= k < |t| && t[k] == e;
            assert e.name != x;
          }
        }
      } else {
        forall e | e in r ensures e.count == multiset(names)[e.name] && e.count >= 1 {
          var k :| 0 <= k < |r| && r[k] == e;
          if k != i {
            assert r[k] == t[k] && t[k] in t;
            assert t[k].name != x;
          } else {
            assert t[i] in t;
          }
        }
      }
    }
  }

  /** Entries come in the order their names first occur. */
  lemma {:induction false} TallyFirstSeen(names: seq<string>)
    ensures RankIncreasing(Tally(names), FirstSeen(names))
  {
    if names != [] {
      var pre, x := names[..|names| - 1], names[|names| - 1];
      assert names == pre + [x];
      TallyFirstSeen(pre);
      TallyCovers(pre);
      var t := Tally(pre);
      var i := IndexWhere(t, (e: NameCount) => e.name == x);
      if i < 0 {
        assert x !in pre;
      }
      RankCarry(pre, x, t, Tally(names));
    }
  }

  /** One counting step keeps the entries in first-occurrence order: the
      names at the old positions stay, and a new name goes last. */
  lemma RankCarry(pre: seq<string>, x: string, t: seq<NameCount>, r: seq<NameCount>)
    requires RankIncreasing(t, FirstSeen(pre))
    requires forall e | e in t :: e.name in pre
    requires |r| >= |t| && forall k :: 0 <= k < |t| ==> r[k].name == t[k].name
    requires |r| == |t| || (|r| == |t| + 1 && r[|t|].name == x && x !in pre)
    ensures RankIncreasing(r, FirstSeen(pre + [x]))
  {
    var names := pre + [x];
    forall k | 0 <= k < |t| ensures FirstSeen(names)(r[k]) == FirstSeen(pre)(t[k]) < |pre| {
      assert t[k] in t;
      FirstIndexAppend(pre, x, t[k].name);
    }
    if |r| > |t| {
      FirstIndexAppend(pre, x, x);
    }
  }

  lemma FirstIndexAppend(pre: seq<string>, x: string, n: string)
    ensures n in pre ==> FirstIndex(pre + [x], n) == FirstIndex(pre, n) < |pre|
    ensures n !in pre && n == x ==> FirstIndex(pre + [x], n) == |pre|
  {
    var s := pre + [x];
    var i := FirstIndex(s, n);
    var j := FirstIndex(pre, n);
    if n in pre {
      var k :| 0 <= k < |pre| && pre[k] == n;
      assert s[k] == n;
      assert j >= 0;
      assert s[j] == n;
      assert i >= 0 && i <= j;
      if i < j {
        assert false;
      }
    } else if n == x {
      assert s[|pre|] == n;
      assert forall k :: 0 <= k < |pre| ==> s[k] != n;
    }
  }

  /** The rank of an entry: where its name first occurs. */
  function FirstSeen(names: seq<string>): NameCount -> int {
    (e: NameCount) => FirstIndex(names, e.name)
  }

  // The order of `Object.entries`

  /** An array index in the sense of section 6.1.7 of ECMA-262: the canonical
      decimal form of an integer from 0 to 2^32 - 2 (no sign, no leading zero). */
  predicate IsArrayIndex(s: string) {
    s != [] && AllDigits(s) && (s[0] == '0' ==> |s| == 1) && DigitsValue(s) < 0xFFFF_FFFF
  }

  /** The numeric value of an array-index name, the key `Entries` sorts them by. */
  function IndexValue(e: NameCount): int {
    if IsArrayIndex(e.name) then DigitsValue(e.name) else 0
  }

  /** The entries whose names are array indices (`index`), or the others, in
      the order of `t`. */
  function KeysWhere(t: seq<NameCount>, index: bool): (r: seq<NameCount>)
    ensures forall e | e in r :: e in t && IsArrayIndex(e.name) == index
  {
    if t == [] then []
    else (if IsArrayIndex(t[0].name) == index then [t[0]] else []) + KeysWhere(t[1..], index)
  }

  /** `Object.entries` of the counts object: the own keys as
      OrdinaryOwnPropertyKeys (section 10.1.11.1 of ECMA-262) lists them,
      array-index names first in ascending numeric order, then the other names
      in the order they were added. */
  function Entries(t: seq<NameCount>): (r: seq<NameCount>)
    ensures multiset(r) == multiset(t)
  {
    KeysPartition(t);
    SortBy(KeysWhere(t, true), IndexValue) + KeysWhere(t, false)
  }

  /** Distinct array-index names have distinct values. */
  lemma ArrayIndexInjective(a: string, b: string)
    requires IsArrayIndex(a) && IsArrayIndex(b) && DigitsValue(a) == DigitsValue(b)
    ensures a == b
  {
    DigitsBounds(a);
    DigitsBounds(b);
    if a[0] == '0' || b[0] == '0' {
      assert a == "0" || b == "0";
      assert a == [a[0]] && b == [b[0]];
    } else {
      Pow10Below(|a|, |b|);
      Pow10Below(|b|, |a|);
      DigitsSameLength(a, b);
    }
  }

  /** A shorter digit string stays below the smallest longer one. */
  lemma Pow10Below(m: nat, n: nat)
    ensures m < n ==> Pow10(m) <= Pow10(n - 1)
  {
    if m < n {
      Pow10Monotone(m, n - 1);
    }
  }

  /** The two halves of the entries together hold each entry once. */
  lemma {:induction false} KeysPartition(t: seq<NameCount>)
    ensures multiset(KeysWhere(t, true)) + multiset(KeysWhere(t, false)) == multiset(t)
  {
    if t != [] {
      KeysPartition(t[1..]);
      assert t == [t[0]] + t[1..];
    }
  }

  /** Keeping some of the entries keeps their order. */
  lemma {:induction false} KeysWhereRank(t: seq<NameCount>, index: bool, rank: NameCount -> int)
    requires RankIncreasing(t, rank)
    ensures RankIncreasing(KeysWhere(t, index), rank)
  {
    if t != [] {
      KeysWhereRank(t[1..], index, rank);
      var rest := KeysWhere(t[1..], index);
      if IsArrayIndex(t[0].name) == index {
        forall e | e in rest ensures rank(t[0]) < rank(e) {
          var k :| 0 <= k < |t[1..]| && t[1..][k] == e;
          assert t[k + 1] == e;
        }
        RankCons(t[0], rest, rank);
      } else {
        assert KeysWhere(t, index) == rest;
      }
    }
  }

  lemma RankCons<T>(x: T, s: seq<T>, rank: T -> int)
    requires RankIncreasing(s, rank) && forall e | e in s :: rank(x) < rank(e)
    ensures RankIncreasing([x] + s, rank)
  {
    var r := [x] + s;
    forall i, j | 0 <= i < j < |r| ensures rank(r[i]) < rank(r[j]) {
      assert r[j] == s[j - 1] && s[j - 1] in s;
      if i > 0 {
        assert r[i] == s[i - 1];
      }
    }
  }

  /** Keeping some of the entries keeps the names distinct. */
  lemma {:induction false} KeysWhereDistinct(t: seq<NameCount>, index: bool)
    requires DistinctNames(t)
    ensures DistinctNames(KeysWhere(t, index))
  {
    if t != [] {
      KeysWhereDistinct(t[1..], index);
      var rest := KeysWhere(t[1..], index);
      if IsArrayIndex(t[0].name) == index {
        forall e | e in rest ensures e.name != t[0].name {
          var k :| 0 <= k < |t[1..]| && t[1..][k] == e;
          assert t[k + 1] == e;
        }
        DistinctCons(t[0], rest);
      } else {
        assert KeysWhere(t, index) == rest;
      }
    }
  }

  lemma DistinctCons(x: NameCount, s: seq<NameCount>)
    requires DistinctNames(s) && forall e | e in s :: e.name != x.name
    ensures DistinctNames([x] + s)
  {
    var r := [x] + s;
    forall i, j | 0 <= i < j < |r| ensures r[i].name != r[j].name {
      assert r[j] == s[j - 1] && s[j - 1] in s;
      if i > 0 {
        assert r[i] == s[i - 1];
      }
    }
  }

  /** The place of an entry in `Object.entries` of the counts of `names`:
      array-index names by value, every other name after all of them, by the
      position where it first occurs. */
  function EntryRank(names: seq<string>): NameCount -> int {
    (e: NameCount) => if IsArrayIndex(e.name) then DigitsValue(e.name) else 0x1_0000_0000 + FirstIndex(names, e.name)
  }

  /** The array-index half, sorted by value, is in strictly increasing rank. */
  lemma IndexHalfRank(names: seq<string>)
    ensures RankIncreasing(SortBy(KeysWhere(Tally(names), true), IndexValue), EntryRank(names))
  {
    var k := KeysWhere(Tally(names), true);
    TallyDistinct(names);
    KeysWhereDistinct(Tally(names), true);
    IndexSortStrict(k, SortBy(k, IndexValue), EntryRank(names));
  }

  /** Array-index names with distinct names have distinct values, so sorting
      them by value orders them strictly. */
  lemma IndexSortStrict(k: seq<NameCount>, s: seq<NameCount>, rank: NameCount -> int)
    requires DistinctNames(k) && forall e | e in k :: IsArrayIndex(e.name) && rank(e) == DigitsValue(e.name)
    requires multiset(s) == multiset(k) && SortedBy(s, IndexValue)
    ensures RankIncreasing(s, rank)
  {
    forall i, j | 0 <= i < j < |s| ensures rank(s[i]) < rank(s[j]) {
      assert s[i] in multiset(k) && s[j] in multiset(k);
      DistinctSorted(k, s, i, j);
      if DigitsValue(s[i].name) == DigitsValue(s[j].name) {
        ArrayIndexInjective(s[i].name, s[j].name);
      }
    }
  }

  /** The other half keeps first-occurrence order. */
  lemma OtherHalfRank(names: seq<string>)
    ensures RankIncreasing(KeysWhere(Tally(names), false), EntryRank(names))
  {
    var o := KeysWhere(Tally(names), false);
    TallyFirstSeen(names);
    KeysWhereRank(Tally(names), false, FirstSeen(names));
    forall i, j | 0 <= i < j < |o| ensures EntryRank(names)(o[i]) < EntryRank(names)(o[j]) {
      assert o[i] in o && o[j] in o;
    }
  }

  /** `Object.entries` of the name counts lists array-index names first, in
      ascending numeric order, and then the other names in the order they
      first occur. */
  lemma EntriesOrder(names: seq<string>)
    ensures RankIncreasing(Entries(Tally(names)), EntryRank(names))
  {
    var a := SortBy(KeysWhere(Tally(names), true), IndexValue);
    var b := KeysWhere(Tally(names), false);
    IndexHalfRank(names);
    OtherHalfRank(names);
    var r := a + b;
    forall i, j | 0 <= i < j < |r| ensures EntryRank(names)(r[i]) < EntryRank(names)(r[j]) {
      if j < |a| {
        assert r[i] == a[i] && r[j] == a[j];
      } else if i >= |a| {
        assert r[i] == b[i - |a|] && r[j] == b[j - |a|];
      } else {
        assert r[i] == a[i] && r[j] == b[j - |a|];
        assert a[i] in multiset(KeysWhere(Tally(names), true));
        assert b[j - |a|] in b;
      }
    }
  }

  /** The comparator `(a, b) => b.count - a.count`: larger counts first. */
  function ByCountDescending(e: NameCount): int {
    -(e.count as int)
  }

  function Min(a: int, b: int): int {
    if a <= b then a else b
  }

  /** `Object.entries(...).map(...).sort((a, b) => b.count - a.count).slice(0, 5)`. */
  function CommonNamesOf(t: seq<NameCount>): seq<NameCount> {
    var s := SortBy(Entries(t), ByCountDescending);
    s[..Min(5, |s|)]
  }

  /** The five most frequent of the names, with their counts. */
  function CommonNames(names: seq<string>): seq<NameCount> {
    CommonNamesOf(Tally(names))
  }

  /** The sorted entries hold exactly the tally's entries. */
  lemma SortedTally(names: seq<string>)
    ensures var s := SortBy(Entries(Tally(names)), ByCountDescending);
      CommonNames(names) == s[..Min(5, |s|)] && |s| == |Tally(names)| &&
      multiset(s) == multiset(Tally(names)) && forall e | e in s :: e in Tally(names)
  {
    var t := Tally(names);
    var s := SortBy(Entries(t), ByCountDescending);
    assert |s| == |multiset(s)| == |multiset(t)| == |t|;
    forall e | e in s ensures e in t {
      assert e in multiset(s);
    }
  }

  /** At most five entries, in decreasing count order, each a distinct name
      with the number of times it occurs. */
  lemma CommonNamesCounts(names: seq<string>)
    ensures var r := CommonNames(names);
      |r| <= 5 && |r| == Min(5, |Tally(names)|) &&
      (forall i, j :: 0 <= i < j < |r| ==> r[i].count >= r[j].count) &&
      (forall e | e in r :: e.count == multiset(names)[e.name] && e.count >= 1) &&
      DistinctNames(r)
  {
    SortedTally(names);
    CutCounts(names, Tally(names), SortBy(Entries(Tally(names)), ByCountDescending));
  }

  /** The first five of any count-sorted arrangement of the tally. */
  lemma CutCounts(names: seq<string>, t: seq<NameCount>, s: seq<NameCount>)
    requires t == Tally(names) && multiset(s) == multiset(t) && SortedBy(s, ByCountDescending)
    ensures var r := s[..Min(5, |s|)];
      |r| <= 5 && |r| == Min(5, |t|) &&
      (forall i, j :: 0 <= i < j < |r| ==> r[i].count >= r[j].count) &&
      (forall e | e in r :: e.count == multiset(names)[e.name] && e.count >= 1) &&
      DistinctNames(r)
  {
    TallyExact(names);
    TallyDistinct(names);
    assert |s| == |multiset(s)| == |multiset(t)| == |t|;
    var r := s[..Min(5, |s|)];
    forall i, j | 0 <= i < j < |r| ensures r[i].count >= r[j].count {
      assert ByCountDescending(s[i]) <= ByCountDescending(s[j]);
    }
    forall e | e in r ensures e.count == multiset(names)[e.name] && e.count >= 1 {
      assert e in multiset(s);
    }
    forall i, j | 0 <= i < j < |r| ensures r[i].name != r[j].name {
      DistinctSorted(t, s, i, j);
    }
  }

  /** Entries with equal counts keep the order `Object.entries` gave them:
      array-index names by value first, then the others as they first occur. */
  lemma CommonNamesTieOrder(names: seq<string>)
    ensures TiesRankIncreasing(CommonNames(names), ByCountDescending, EntryRank(names))
  {
    var t := Tally(names);
    EntriesOrder(names);
    SortByKeepsTieOrder(Entries(t), ByCountDescending, EntryRank(names));
    SortedTally(names);
  }

  /** Without array-index names, ties keep the order of first occurrence. */
  lemma CommonNamesTieOrderPlain(names: seq<string>)
    requires forall k :: 0 <= k < |names| ==> !IsArrayIndex(names[k])
    ensures TiesRankIncreasing(CommonNames(names), ByCountDescending, FirstSeen(names))
  {
    CommonNamesTieOrder(names);
    SortedTally(names);
    TallyCovers(names);
    var r := CommonNames(names);
    forall i, j | 0 <= i < j < |r| && ByCountDescending(r[i]) == ByCountDescending(r[j])
      ensures FirstSeen(names)(r[i]) < FirstSeen(names)(r[j])
    {
      assert r[i] in Tally(names) && r[j] in Tally(names);
      assert !IsArrayIndex(r[i].name) && !IsArrayIndex(r[j].name);
    }
  }

  /** The last names of "Ann Smith" and "Bob 7": the array-index name `7` is
      listed before `Smith` although it occurs later. */
  lemma IndexNamesFirst()
    ensures CommonNames(["Smith", "7"]) == [NameCount("7", 1), NameCount("Smith", 1)]
  {
    var t := [NameCount("Smith", 1), NameCount("7", 1)];
    var e := [NameCount("7", 1), NameCount("Smith", 1)];
    TallySmith7();
    EntriesSmith7();
    SortedSmith7();
    ShortCut(t, e);
  }

  /** A tally of at most five entries is kept whole. */
  lemma ShortCut(t: seq<NameCount>, e: seq<NameCount>)
    requires SortBy(Entries(t), ByCountDescending) == e && |e| <= 5
    ensures CommonNamesOf(t) == e
  { }

  lemma SortedSmith7()
    ensures SortBy([NameCount("7", 1), NameCount("Smith", 1)], ByCountDescending) == [NameCount("7", 1), NameCount("Smith", 1)]
  {
    var e := [NameCount("7", 1), NameCount("Smith", 1)];
    assert e[1..] == [NameCount("Smith", 1)] && e[1..][1..] == [];
    assert SortBy(e[1..], ByCountDescending) == [NameCount("Smith", 1)];
  }

  lemma TallySmith7()
    ensures Tally(["Smith", "7"]) == [NameCount("Smith", 1), NameCount("7", 1)]
  {
    assert ["Smith", "7"][..1] == ["Smith"];
    assert ["Smith"][..0] == [];
  }

  lemma EntriesSmith7()
    ensures Entries([NameCount("Smith", 1), NameCount("7", 1)]) == [NameCount("7", 1), NameCount("Smith", 1)]
  {
    KeysSmith7();
    SortOne(NameCount("7", 1), IndexValue);
  }

  lemma SortOne(x: NameCount, key: NameCount -> int)
    ensures SortBy([x], key) == [x]
  {
    assert [x][1..] == [];
  }

  lemma KeysSmith7()
    ensures KeysWhere([NameCount("Smith", 1), NameCount("7", 1)], true) == [NameCount("7", 1)]
    ensures KeysWhere([NameCount("Smith", 1), NameCount("7", 1)], false) == [NameCount("Smith", 1)]
  {
    var t := [NameCount("Smith", 1), NameCount("7", 1)];
    assert !IsArrayIndex("Smith") by {
      assert !IsDigit("Smith"[0]);
    }
    assert IsArrayIndex("7") by {
      assert "7"[..0] == [];
      assert DigitsValue("7") == 7;
    }
    assert t[1..] == [NameCount("7", 1)] && t[1..][1..] == [];
  }

  /** No name left out of the five occurs more often than a name kept. */
  lemma CommonNamesTop(names: seq<string>, n: string, e: NameCount)
    requires n in names && e in CommonNames(names)
    requires forall f | f in CommonNames(names) :: f.name != n
    ensures multiset(names)[n] <= e.count
  {
    TallyCovers(names);
    var d :| d in Tally(names) && d.name == n;
    TallyExact(names);
    assert d.count == multiset(names)[n];
    BelowTheCut(Tally(names), d, e);
  }

  /** An entry of the tally that did not make the cut counts no more than
      one that did. */
  lemma BelowTheCut(t: seq<NameCount>, d: NameCount, e: NameCount)
    requires d in t
    requires e in CommonNamesOf(t)
    requires forall f | f in CommonNamesOf(t) :: f.name != d.name
    ensures d.count <= e.count
  {
    CutBelow(t, SortBy(Entries(t), ByCountDescending), d, e);
  }

  lemma CutBelow(t: seq<NameCount>, s: seq<NameCount>, d: NameCount, e: NameCount)
    requires multiset(s) == multiset(t) && SortedBy(s, ByCountDescending)
    requires d in t && e in s[..Min(5, |s|)]
    requires forall f | f in s[..Min(5, |s|)] :: f.name != d.name
    ensures d.count <= e.count
  {
    var r := s[..Min(5, |s|)];
    assert d in multiset(s);
    var k :| 0 <= k < |s| && s[k] == d;
    if k < |r| {
      assert false;
    }
    var a :| 0 <= a < |r| && r[a] == e;
    assert ByCountDescending(s[a]) <= ByCountDescending(s[k]);
  }

  /** An entry of a tally with distinct names occurs in it once at most. */
  lemma {:induction false} DistinctOnce(t: seq<NameCount>, e: NameCount)
    requires DistinctNames(t)
    ensures multiset(t)[e] <= 1
  {
    if t != [] {
      assert t == [t[0]] + t[1..];
      DistinctOnce(t[1..], e);
      if t[0] == e {
        assert e !in t[1..];
      }
    }
  }

  lemma TwiceInSeq(s: seq<NameCount>, i: int, j: int)
    requires 0 <= i < j < |s| && s[i] == s[j]
    ensures multiset(s)[s[i]] >= 2
  {
    assert s == s[..i] + [s[i]] + s[i + 1..j] + [s[j]] + s[j + 1..];
  }

  /** Sorting a tally with distinct names keeps them distinct. */
  lemma DistinctSorted(t: seq<NameCount>, s: seq<NameCount>, i: int, j: int)
    requires DistinctNames(t) && multiset(s) == multiset(t)
    requires 0 <= i < j < |s|
    ensures s[i].name != s[j].name
  {
    if s[i].name == s[j].name {
      assert s[i] in multiset(t) && s[j] in multiset(t);
      var a :| 0 <= a < |t| && t[a] == s[i];
      var b :| 0 <= b < |t| && t[b] == s[j];
      assert a == b;
      TwiceInSeq(s, i, j);
      DistinctOnce(t, s[i]);
      assert false;
    }
  }

  /** `calculateFamilyStatistics(people)`, with the current date a parameter. */
  function CalculateFamilyStatistics(people: seq<Person>, today: Date): FamilyStatistics {
    FamilyStatistics(
      |people|,
      LivingCount(people),
      DeceasedCount(people),
      AverageAge(people, today),
      GenderTally(people),
      AgeGroupTally(people, today),
      CommonNames(FirstNames(people)),
      CommonNames(LastNames(people)))
  }

  /** `people.map(p => p.name.split(' ')[0])`. */
  function FirstNames(people: seq<Person>): (r: seq<string>)
    ensures |r| == |people| && forall i :: 0 <= i < |r| ==> r[i] == FirstToken(people[i].name)
  {
    if people == [] then [] else [FirstToken(people[0].name)] + FirstNames(people[1..])
  }

  /** `people.map(p => p.name.split(' ').slice(-1)[0])`. */
  function LastNames(people: seq<Person>): (r: seq<string>)
    ensures |r| == |people| && forall i :: 0 <= i < |r| ==> r[i] == LastToken(people[i].name)
  {
    if people == [] then [] else [LastToken(people[0].name)] + LastNames(people[1..])
  }

  /** The figures of the statistics agree with each other: the head counts and
      both distributions add up to the number of members. */
  lemma StatisticsConsistent(people: seq<Person>, today: Date)
    ensures var st := CalculateFamilyStatistics(people, today);
      st.livingMembers + st.deceasedMembers == st.totalMembers &&
      st.genderDistribution.male + st.genderDistribution.female + st.genderDistribution.trans == st.totalMembers &&
      st.ageGroupDistribution.infant + st.ageGroupDistribution.kid + st.ageGroupDistribution.adult + st.ageGroupDistribution.senior == st.totalMembers &&
      (st.averageAge.Some? <==> st.totalMembers > 0) &&
      |st.commonFirstNames| <= 5 && |st.commonLastNames| <= 5
  {
    LivingPlusDeceased(people);
    CommonNamesCounts(FirstNames(people));
    CommonNamesCounts(LastNames(people));
  }
}
