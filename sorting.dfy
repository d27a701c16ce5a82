/** The stable sort the application gets from `Array.prototype.sort` with a
    numeric comparator `(a, b) => key(a) - key(b)`, written as an insertion sort
    on sequences. Three call sites use it: the timeline (by birth date), the
    upcoming events (by date) and the name frequencies (by descending count). */
module Sorting {

  predicate SortedBy<T>(s: seq<T>, key: T -> int) {
    forall i, j :: 0 <= i < j < |s| ==> key(s[i]) <= key(s[j])
  }

  /** Put `x` in front of the first element whose key is not smaller. */
  function Insert<T>(x: T, s: seq<T>, key: T -> int): (r: seq<T>)
    ensures |r| == |s| + 1
    ensures multiset(r) == multiset(s) + multiset{x}
  {
    if s == [] || key(x) <= key(s[0]) then [x] + s
    else
      var r := [s[0]] + Insert(x, s[1..], key);
      assert s == [s[0]] + s[1..];
      assert forall y | y in multiset(r[1..]) :: y == x || y in multiset(s[1..]);
      r
  }

  function SortBy<T>(s: seq<T>, key: T -> int): (r: seq<T>)
    ensures multiset(r) == multiset(s)
    ensures SortedBy(r, key)
  {
    if s == [] then [] else
      assert s == [s[0]] + s[1..];
      InsertSorted(s[0], SortBy(s[1..], key), key);
      Insert(s[0], SortBy(s[1..], key), key)
  }

  lemma {:induction false} InsertSorted<T>(x: T, s: seq<T>, key: T -> int)
    requires SortedBy(s, key)
    ensures SortedBy(Insert(x, s, key), key)
  {
    if s != [] && key(x) > key(s[0]) {
      InsertSorted(x, s[1..], key);
      var t := Insert(x, s[1..], key);
      forall y | y in t ensures key(s[0]) <= key(y) {
        assert y in multiset(t);
        if y != x {
          assert y in multiset(s[1..]);
          var m :| 0 <= m < |s[1..]| && s[1..][m] == y;
          assert s[m + 1] == y;
        }
      }
    }
  }

  /** The elements with key `k`, in the order of `s`. */
  function KeyFilter<T>(s: seq<T>, key: T -> int, k: int): seq<T> {
    if s == [] then []
    else (if key(s[0]) == k then [s[0]] else []) + KeyFilter(s[1..], key, k)
  }

  lemma KeyFilterCons<T>(y: T, t: seq<T>, key: T -> int, k: int)
    ensures KeyFilter([y] + t, key, k) == (if key(y) == k then [y] else []) + KeyFilter(t, key, k)
  {
    assert ([y] + t)[1..] == t;
  }

  /** An element with a smaller key than `x` stays in front of it. */
  lemma KeyFilterPass<T>(x: T, s: seq<T>, t: seq<T>, key: T -> int, k: int)
    requires s != [] && key(x) > key(s[0])
    requires KeyFilter(t, key, k) == (if key(x) == k then [x] else []) + KeyFilter(s[1..], key, k)
    ensures KeyFilter([s[0]] + t, key, k) == (if key(x) == k then [x] else []) + KeyFilter(s, key, k)
  {
    KeyFilterCons(s[0], t, key, k);
    assert s == [s[0]] + s[1..];
    KeyFilterCons(s[0], s[1..], key, k);
  }

  lemma {:induction false} InsertKeyFilter<T>(x: T, s: seq<T>, key: T -> int, k: int)
    ensures KeyFilter(Insert(x, s, key), key, k) ==
            (if key(x) == k then [x] else []) + KeyFilter(s, key, k)
  {
    if s == [] || key(x) <= key(s[0]) {
      assert Insert(x, s, key) == [x] + s;
      KeyFilterCons(x, s, key, k);
    } else {
      var t := Insert(x, s[1..], key);
      InsertKeyFilter(x, s[1..], key, k);
      assert Insert(x, s, key) == [s[0]] + t;
      KeyFilterPass(x, s, t, key, k);
    }
  }

  /** Stability: for every key, the elements with that key come out in the
      order they went in. */
  lemma {:induction false} SortByStable<T>(s: seq<T>, key: T -> int, k: int)
    ensures KeyFilter(SortBy(s, key), key, k) == KeyFilter(s, key, k)
  {
    if s != [] {
      SortByStable(s[1..], key, k);
      InsertKeyFilter(s[0], SortBy(s[1..], key), key, k);
    }
  }

  lemma {:induction false} KeyFilterEmpty<T>(s: seq<T>, key: T -> int, i: nat)
    requires i < |s|
    ensures KeyFilter(s, key, key(s[i])) != []
  {
    if i > 0 {
      KeyFilterEmpty(s[1..], key, i - 1);
    }
  }

  lemma {:induction false} KeyFilterHead<T>(s: seq<T>, key: T -> int)
    requires s != [] && SortedBy(s, key)
    ensures KeyFilter(s, key, key(s[0]))[0] == s[0]
    ensures forall k :: k < key(s[0]) ==> KeyFilter(s, key, k) == []
  {
    forall k | k < key(s[0]) ensures KeyFilter(s, key, k) == [] {
      KeyFilterBelow(s, key, k);
    }
  }

  lemma {:induction false} KeyFilterBelow<T>(s: seq<T>, key: T -> int, k: int)
    requires forall i :: 0 <= i < |s| ==> k < key(s[i])
    ensures KeyFilter(s, key, k) == []
  {
    if s != [] {
      KeyFilterBelow(s[1..], key, k);
    }
  }

  /** Two sorted sequences with the same key filters start alike. */
  lemma HeadsAgree<T>(a: seq<T>, b: seq<T>, key: T -> int)
    requires a != [] && b != [] && SortedBy(a, key) && SortedBy(b, key)
    requires forall k :: KeyFilter(a, key, k) == KeyFilter(b, key, k)
    ensures a[0] == b[0]
  {
    KeyFilterHead(a, key);
    KeyFilterHead(b, key);
    KeyFilterEmpty(a, key, 0);
    KeyFilterEmpty(b, key, 0);
    assert key(a[0]) == key(b[0]);
  }

  /** Equal heads leave equal key filters on the tails. */
  lemma TailAgrees<T>(a: seq<T>, b: seq<T>, key: T -> int, k: int)
    requires a != [] && b != [] && a[0] == b[0]
    requires KeyFilter(a, key, k) == KeyFilter(b, key, k)
    ensures KeyFilter(a[1..], key, k) == KeyFilter(b[1..], key, k)
  {
    var p := if key(a[0]) == k then [a[0]] else [];
    assert a == [a[0]] + a[1..] && b == [b[0]] + b[1..];
    KeyFilterCons(a[0], a[1..], key, k);
    KeyFilterCons(b[0], b[1..], key, k);
    assert (p + KeyFilter(a[1..], key, k))[|p|..] == KeyFilter(a[1..], key, k);
    assert (p + KeyFilter(b[1..], key, k))[|p|..] == KeyFilter(b[1..], key, k);
  }

  lemma TailsAgree<T>(a: seq<T>, b: seq<T>, key: T -> int)
    requires a != [] && b != [] && a[0] == b[0]
    requires forall k :: KeyFilter(a, key, k) == KeyFilter(b, key, k)
    ensures forall k :: KeyFilter(a[1..], key, k) == KeyFilter(b[1..], key, k)
  {
    forall k ensures KeyFilter(a[1..], key, k) == KeyFilter(b[1..], key, k) {
      TailAgrees(a, b, key, k);
    }
  }

  /** Sequences with the same key filters are both empty or both not. */
  lemma EmptyAgree<T>(a: seq<T>, b: seq<T>, key: T -> int)
    requires forall k :: KeyFilter(a, key, k) == KeyFilter(b, key, k)
    ensures a == [] <==> b == []
  {
    if a != [] {
      KeyFilterEmpty(a, key, 0);
    }
    if b != [] {
      KeyFilterEmpty(b, key, 0);
    }
  }

  /** A sorted sequence is determined by its key filters: `SortBy` is the only
      stable sort, so it gives exactly what the built-in sort gives. */
  lemma {:induction false} StableSortUnique<T>(a: seq<T>, b: seq<T>, key: T -> int)
    requires SortedBy(a, key) && SortedBy(b, key)
    requires forall k :: KeyFilter(a, key, k) == KeyFilter(b, key, k)
    ensures a == b
  {
    EmptyAgree(a, b, key);
    if a != [] {
      HeadsAgree(a, b, key);
      TailsAgree(a, b, key);
      StableSortUnique(a[1..], b[1..], key);
      assert a == [a[0]] + a[1..] && b == [b[0]] + b[1..];
    }
  }

  predicate RankIncreasing<T>(s: seq<T>, rank: T -> int) {
    forall i, j :: 0 <= i < j < |s| ==> rank(s[i]) < rank(s[j])
  }

  predicate TiesRankIncreasing<T>(s: seq<T>, key: T -> int, rank: T -> int) {
    forall i, j :: 0 <= i < j < |s| && key(s[i]) == key(s[j]) ==> rank(s[i]) < rank(s[j])
  }

  /** The elements of `Insert(x, s, key)` are `x` and those of `s`. */
  lemma InsertIn<T>(x: T, s: seq<T>, key: T -> int, y: T)
    requires y in Insert(x, s, key) && y != x
    ensures exists m :: 0 <= m < |s| && s[m] == y
  {
    assert y in multiset(Insert(x, s, key));
    assert y in multiset(s);
  }

  lemma {:induction false} InsertTies<T>(x: T, s: seq<T>, key: T -> int, rank: T -> int)
    requires TiesRankIncreasing(s, key, rank)
    requires forall y | y in s :: rank(x) < rank(y)
    ensures TiesRankIncreasing(Insert(x, s, key), key, rank)
  {
    if s != [] && key(x) > key(s[0]) {
      var t := Insert(x, s[1..], key);
      InsertTies(x, s[1..], key, rank);
      var r := [s[0]] + t;
      assert Insert(x, s, key) == r;
      forall j | 0 < j < |r| && key(r[0]) == key(r[j]) ensures rank(r[0]) < rank(r[j]) {
        assert r[j] in t && r[j] != x;
        InsertIn(x, s[1..], key, r[j]);
        var m :| 0 <= m < |s[1..]| && s[1..][m] == r[j];
        assert s[m + 1] == r[j];
      }
    }
  }

  /** When the input is ordered by some rank (first appearance, say), elements
      with equal keys leave the sort in that rank order. */
  lemma {:induction false} SortByKeepsTieOrder<T>(s: seq<T>, key: T -> int, rank: T -> int)
    requires RankIncreasing(s, rank)
    ensures TiesRankIncreasing(SortBy(s, key), key, rank)
  {
    if s != [] {
      SortByKeepsTieOrder(s[1..], key, rank);
      var t := SortBy(s[1..], key);
      forall y | y in t ensures rank(s[0]) < rank(y) {
        assert y in multiset(s[1..]);
        var m :| 0 <= m < |s[1..]| && s[1..][m] == y;
        assert s[m + 1] == y;
      }
      InsertTies(s[0], t, key, rank);
    }
  }
}
