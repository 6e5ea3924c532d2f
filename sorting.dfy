/**
 * A stable insertion sort by a comparator. Every `sort_values` in the pipeline is
 * modelled with it. The pipeline's sorts are on several keys, which pandas sorts
 * stably, so rows that compare equal keep their input order, as they do here.
 */
module Sorting {
  import opened Common

  /** `le` relates every pair of values one way or the other. */
  ghost predicate Total<T(!new)>(le: (T, T) -> bool)
  {
    forall a, b :: le(a, b) || le(b, a)
  }

  ghost predicate Transitive<T(!new)>(le: (T, T) -> bool)
  {
    forall a, b, c :: le(a, b) && le(b, c) ==> le(a, c)
  }

  ghost predicate Antisymmetric<T(!new)>(le: (T, T) -> bool)
  {
    forall a, b :: le(a, b) && le(b, a) ==> a == b
  }

  /** Every element is related to its successor. */
  predicate SortedBy<T>(s: seq<T>, le: (T, T) -> bool)
  {
    forall i :: 0 < i < |s| ==> le(s[i - 1], s[i])
  }

  function Insert<T>(x: T, s: seq<T>, le: (T, T) -> bool): (r: seq<T>)
    ensures multiset(r) == multiset(s) + multiset{x}
    ensures |r| == |s| + 1
    ensures r[0] == x || (s != [] && r[0] == s[0])
  {
    if s == [] || le(x, s[0]) then [x] + s
    else
      assert s == [s[0]] + s[1..];
      [s[0]] + Insert(x, s[1..], le)
  }

  lemma {:induction false} InsertSorted<T(!new)>(x: T, s: seq<T>, le: (T, T) -> bool)
    requires Total(le)
    requires SortedBy(s, le)
    ensures SortedBy(Insert(x, s, le), le)
    decreases |s|
  {
    if s != [] && !le(x, s[0]) {
      assert le(s[0], x);
      InsertSorted(x, s[1..], le);
    }
  }

  /** `s` rearranged so that consecutive elements are related by `le`. */
  function SortBy<T(!new)>(s: seq<T>, le: (T, T) -> bool): (r: seq<T>)
    requires Total(le)
    ensures multiset(r) == multiset(s)
    ensures |r| == |s|
    ensures SortedBy(r, le)
  {
    if s == [] then []
    else
      assert s == [s[0]] + s[1..];
      var t := SortBy(s[1..], le);
      InsertSorted(s[0], t, le);
      Insert(s[0], t, le)
  }

  /** With a transitive comparator, a sorted sequence relates every earlier element to every later one. */
  lemma {:induction false} SortedAll<T(!new)>(s: seq<T>, le: (T, T) -> bool, i: nat, j: nat)
    requires Transitive(le)
    requires SortedBy(s, le)
    requires i < j < |s|
    ensures le(s[i], s[j])
    decreases j - i
  {
    if i + 1 < j {
      SortedAll(s, le, i + 1, j);
    }
  }

  /** Sorting a sequence that is already in order changes nothing. */
  lemma {:induction false} SortBySorted<T(!new)>(s: seq<T>, le: (T, T) -> bool)
    requires Total(le)
    requires SortedBy(s, le)
    ensures SortBy(s, le) == s
  {
    if s != [] {
      SortBySorted(s[1..], le);
      assert s == [s[0]] + s[1..];
    }
  }

  /** Under an antisymmetric order, two sorted arrangements of the same values are the same sequence. */
  lemma {:induction false} SortedPermutationsEqual<T(!new)>(a: seq<T>, b: seq<T>, le: (T, T) -> bool)
    requires Transitive(le) && Antisymmetric(le)
    requires SortedBy(a, le) && SortedBy(b, le)
    requires multiset(a) == multiset(b)
    ensures a == b
    decreases |a|
  {
    assert |a| == |multiset(a)| == |multiset(b)| == |b|;
    if a != [] {
      SameHead(a, b, le);
      TailMultiset(a);
      TailMultiset(b);
      SortedPermutationsEqual(a[1..], b[1..], le);
      assert a == [a[0]] + a[1..] && b == [b[0]] + b[1..];
    }
  }

  lemma SameHead<T(!new)>(a: seq<T>, b: seq<T>, le: (T, T) -> bool)
    requires Transitive(le) && Antisymmetric(le)
    requires SortedBy(a, le) && SortedBy(b, le)
    requires multiset(a) == multiset(b) && a != [] && b != []
    ensures a[0] == b[0]
  {
    assert a[0] in multiset(b) && b[0] in multiset(a);
    var j :| 0 <= j < |b| && b[j] == a[0];
    var i :| 0 <= i < |a| && a[i] == b[0];
    if 0 < j {
      SortedAll(b, le, 0, j);
    }
    if 0 < i {
      SortedAll(a, le, 0, i);
    }
  }

  lemma TailMultiset<T>(a: seq<T>)
    requires a != []
    ensures multiset(a[1..]) == multiset(a) - multiset{a[0]}
  {
    assert a == [a[0]] + a[1..];
  }

  /** The distinct values of `s` in ascending order: the keys a `groupby` visits. */
  function SortedKeys<T(==,!new)>(s: seq<T>, le: (T, T) -> bool): (gs: seq<T>)
    requires Total(le) && Transitive(le)
    ensures forall g :: g in gs <==> g in s
    ensures forall x, y :: 0 <= x < y < |gs| ==> le(gs[x], gs[y]) && gs[x] != gs[y]
  {
    var u := Unique(s);
    var gs := SortBy(u, le);
    forall g ensures g in gs <==> g in s {
      assert g in gs <==> multiset(gs)[g] > 0;
      if g in s {
        var i :| 0 <= i < |s| && s[i] == g;
        assert g in u;
      }
    }
    PermutationKeepsDistinct(u, gs);
    forall x, y | 0 <= x < y < |gs| ensures le(gs[x], gs[y]) {
      SortedAll(gs, le, x, y);
    }
    gs
  }

  /** Under an antisymmetric order the keys depend only on which values occur. */
  lemma SortedKeysDetermined<T(!new)>(s: seq<T>, r: seq<T>, le: (T, T) -> bool)
    requires Total(le) && Transitive(le) && Antisymmetric(le)
    requires forall x :: x in s <==> x in r
    ensures SortedKeys(s, le) == SortedKeys(r, le)
  {
    var a := SortedKeys(s, le);
    var b := SortedKeys(r, le);
    forall x ensures multiset(a)[x] == multiset(b)[x] {
      DistinctMultiplicity(a, x);
      DistinctMultiplicity(b, x);
    }
    assert multiset(a) == multiset(b);
    SortedPermutationsEqual(a, b, le);
  }
}
