/** `Array.prototype.sort`: stable, by a comparison the caller supplies. */
module Sorting {
  import opened Sequences

  /** A comparison that is usable for sorting: total and transitive. */
  ghost predicate TotalPreorder<T(!new)>(atMost: (T, T) -> bool) {
    && (forall a, b :: atMost(a, b) || atMost(b, a))
    && (forall a, b, c :: atMost(a, b) && atMost(b, c) ==> atMost(a, c))
  }

  ghost predicate SortedBy<T>(s: seq<T>, atMost: (T, T) -> bool) {
    forall i, j :: 0 <= i < j < |s| ==> atMost(s[i], s[j])
  }

  function Insert<T>(x: T, s: seq<T>, atMost: (T, T) -> bool): (r: seq<T>)
    ensures multiset(r) == multiset{x} + multiset(s)
  {
    if s == [] || atMost(x, s[0]) then [x] + s
    else
      assert s == [s[0]] + s[1..];
      [s[0]] + Insert(x, s[1..], atMost)
  }

  function StableSort<T>(s: seq<T>, atMost: (T, T) -> bool): (r: seq<T>)
    ensures multiset(r) == multiset(s)
  {
    if s == [] then []
    else
      assert s == [s[0]] + s[1..];
      Insert(s[0], StableSort(s[1..], atMost), atMost)
  }

  lemma SameMembers<T>(a: seq<T>, b: seq<T>)
    requires multiset(a) == multiset(b)
    ensures |a| == |b|
    ensures forall x :: x in a <==> x in b
  {
    assert |multiset(a)| == |multiset(b)|;
    assert forall x :: x in a <==> x in multiset(a);
    assert forall x :: x in b <==> x in multiset(b);
  }

  lemma {:induction false} InsertSorted<T(!new)>(x: T, s: seq<T>, atMost: (T, T) -> bool)
    requires TotalPreorder(atMost) && SortedBy(s, atMost)
    ensures SortedBy(Insert(x, s, atMost), atMost)
  {
    if s != [] && !atMost(x, s[0]) {
      var t := Insert(x, s[1..], atMost);
      InsertSorted(x, s[1..], atMost);
      forall y | y in t ensures atMost(s[0], y) {
        assert y in multiset(t);
        if y != x { assert y in s[1..]; }
      }
    }
  }

  lemma {:induction false} StableSortSorted<T(!new)>(s: seq<T>, atMost: (T, T) -> bool)
    requires TotalPreorder(atMost)
    ensures SortedBy(StableSort(s, atMost), atMost)
  {
    if s != [] {
      StableSortSorted(s[1..], atMost);
      InsertSorted(s[0], StableSort(s[1..], atMost), atMost);
    }
  }

  lemma FilterCons<T>(x: T, s: seq<T>, keep: T -> bool)
    ensures Filter([x] + s, keep) == if keep(x) then [x] + Filter(s, keep) else Filter(s, keep)
  {
    assert ([x] + s)[1..] == s;
  }

  lemma {:induction false} InsertStable<T(!new)>(x: T, s: seq<T>, atMost: (T, T) -> bool, tied: T -> bool)
    requires forall a, b :: tied(a) && tied(b) ==> atMost(a, b)
    ensures Filter(Insert(x, s, atMost), tied) == Filter([x] + s, tied)
  {
    if s != [] && !atMost(x, s[0]) {
      var y, rest := s[0], s[1..];
      assert s == [y] + rest;
      InsertStable(x, rest, atMost, tied);
      FilterCons(y, Insert(x, rest, atMost), tied);
      FilterCons(x, rest, tied);
      FilterCons(x, s, tied);
      FilterCons(y, rest, tied);
      assert !(tied(x) && tied(y));
    }
  }

  /** Elements that the comparison ties keep their order. */
  lemma {:induction false} StableSortStable<T(!new)>(s: seq<T>, atMost: (T, T) -> bool, tied: T -> bool)
    requires forall a, b :: tied(a) && tied(b) ==> atMost(a, b)
    ensures Filter(StableSort(s, atMost), tied) == Filter(s, tied)
  {
    if s != [] {
      StableSortStable(s[1..], atMost, tied);
      InsertStable(s[0], StableSort(s[1..], atMost), atMost, tied);
      FilterCons(s[0], StableSort(s[1..], atMost), tied);
    }
  }

  lemma FirstIsLeast<T>(s: seq<T>, x: T, atMost: (T, T) -> bool)
    requires SortedBy(s, atMost) && x in s && atMost(s[0], s[0])
    ensures atMost(s[0], x)
  {
  }

  lemma RestMultiset<T>(s: seq<T>)
    requires s != []
    ensures multiset(s[1..]) == multiset(s) - multiset{s[0]}
  {
    assert s == [s[0]] + s[1..];
  }

  /** Where the comparison ties no two different elements, the sorted arrangement is unique. */
  lemma {:induction false} SortedIsUnique<T(!new)>(a: seq<T>, b: seq<T>, atMost: (T, T) -> bool)
    requires TotalPreorder(atMost) && SortedBy(a, atMost) && SortedBy(b, atMost) && multiset(a) == multiset(b)
    requires forall x, y :: x in a && y in a && atMost(x, y) && atMost(y, x) ==> x == y
    ensures a == b
  {
    SameMembers(a, b);
    if a != [] {
      FirstIsLeast(a, b[0], atMost);
      FirstIsLeast(b, a[0], atMost);
      RestMultiset(a);
      RestMultiset(b);
      SortedIsUnique(a[1..], b[1..], atMost);
      assert a == [a[0]] + a[1..] && b == [b[0]] + b[1..];
    }
  }
}
