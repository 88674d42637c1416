/** The stable sort behind `array.sort((a, b) => key(b) - key(a))`: largest key first,
    elements with equal keys kept in their original order (the language's sort is
    stable). It is an insertion sort: each element, taken from the back, is placed in
    front of the first element whose key is not larger. */
module Sorting {
  import Seqs

  /** Keys never increase from left to right. */
  predicate SortedDesc<T>(s: seq<T>, key: T -> real)
  {
    forall i, j :: 0 <= i < j < |s| ==> key(s[i]) >= key(s[j])
  }

  /** Selects the elements whose key is `k`. */
  function HasKey<T>(key: T -> real, k: real): T -> bool
  {
    (x: T) => key(x) == k
  }

  function Insert<T>(x: T, s: seq<T>, key: T -> real): (r: seq<T>)
    ensures |r| == |s| + 1
    ensures multiset(r) == multiset(s) + multiset{x}
    ensures forall y :: y in r ==> y == x || y in s
  {
    if s == [] || key(s[0]) <= key(x) then [x] + s
    else
      assert s == [s[0]] + s[1..];
      [s[0]] + Insert(x, s[1..], key)
  }

  /** Inserting into a sorted sequence keeps it sorted. */
  lemma {:induction false} InsertSorted<T>(x: T, s: seq<T>, key: T -> real)
    requires SortedDesc(s, key)
    ensures SortedDesc(Insert(x, s, key), key)
  {
    if s != [] && key(s[0]) > key(x) {
      var t := Insert(x, s[1..], key);
      InsertSorted(x, s[1..], key);
      forall j | 0 <= j < |t|
        ensures key(s[0]) >= key(t[j])
      {
        assert t[j] in t;
        if t[j] != x {
          var m :| 0 <= m < |s[1..]| && s[1..][m] == t[j];
          assert s[m + 1] == t[j];
        }
      }
      assert Insert(x, s, key) == [s[0]] + t;
    }
  }

  function SortDesc<T>(s: seq<T>, key: T -> real): (r: seq<T>)
    ensures SortedDesc(r, key)
    ensures multiset(r) == multiset(s)
    ensures |r| == |s|
  {
    if s == [] then []
    else
      assert s == [s[0]] + s[1..];
      InsertSorted(s[0], SortDesc(s[1..], key), key);
      Insert(s[0], SortDesc(s[1..], key), key)
  }

  /** Inserting `x` puts it in front of every element that has the same key. */
  lemma {:induction false} InsertStable<T>(x: T, s: seq<T>, key: T -> real, k: real)
    ensures Seqs.Filter(Insert(x, s, key), HasKey(key, k))
         == (if key(x) == k then [x] else []) + Seqs.Filter(s, HasKey(key, k))
  {
    var p := HasKey(key, k);
    if s == [] || key(s[0]) <= key(x) {
      Seqs.FilterCons(x, s, p);
    } else {
      var t := Insert(x, s[1..], key);
      assert Insert(x, s, key) == [s[0]] + t;
      InsertStable(x, s[1..], key, k);
      SwapPast(x, s, t, p);
    }
  }

  /** Moving `x` past a head element that cannot share its selection leaves the filter as if `x` came first. */
  lemma SwapPast<T>(x: T, s: seq<T>, t: seq<T>, p: T -> bool)
    requires s != [] && !(p(x) && p(s[0]))
    requires Seqs.Filter(t, p) == (if p(x) then [x] else []) + Seqs.Filter(s[1..], p)
    ensures Seqs.Filter([s[0]] + t, p) == (if p(x) then [x] else []) + Seqs.Filter(s, p)
  {
    var rest := Seqs.Filter(s[1..], p);
    Seqs.FilterCons(s[0], t, p);
    assert s == [s[0]] + s[1..];
    Seqs.FilterCons(s[0], s[1..], p);
    if p(s[0]) {
      assert Seqs.Filter(s, p) == [s[0]] + rest;
      assert Seqs.Filter(t, p) == rest;
    } else if p(x) {
      assert Seqs.Filter(s, p) == rest;
      assert Seqs.Filter(t, p) == [x] + rest;
    } else {
      assert Seqs.Filter(s, p) == rest;
    }
  }

  /** Stability: among elements with one key, the sorted order is the original order. */
  lemma {:induction false} SortStable<T>(s: seq<T>, key: T -> real, k: real)
    ensures Seqs.Filter(SortDesc(s, key), HasKey(key, k)) == Seqs.Filter(s, HasKey(key, k))
  {
    if s != [] {
      SortStable(s[1..], key, k);
      InsertStable(s[0], SortDesc(s[1..], key), key, k);
    }
  }
}
