/** Value types and small sequence helpers shared by every stage of the pipeline. */
module Common {

  datatype Option<+T> = None | Some(value: T)

  datatype Result<+T, +E> = Success(value: T) | Failure(error: E)

  /** A quotient as pandas produces it: a finite value, or NaN/inf when the divisor is 0. */
  datatype Ratio = Finite(value: real) | Undefined

  /** A tile's polygon, carried through the model but never inspected. */
  datatype Polygon = Polygon(ring: seq<(real, real)>)

  /** A bag-of-words vector: one term count per vocabulary position. */
  type Vector = seq<nat>

  function Sum(s: seq<int>): int
  {
    if s == [] then 0 else Sum(s[..|s| - 1]) + s[|s| - 1]
  }

  function SumReal(s: seq<real>): real
  {
    if s == [] then 0.0 else SumReal(s[..|s| - 1]) + s[|s| - 1]
  }

  predicate Distinct<T(==)>(s: seq<T>)
  {
    forall i, j :: 0 <= i < j < |s| ==> s[i] != s[j]
  }

  /** The distinct elements of `s` in order of first appearance, as pandas' `unique` returns them. */
  function Unique<T(==)>(s: seq<T>): (r: seq<T>)
    ensures forall i :: 0 <= i < |r| ==> r[i] in s
    ensures forall i :: 0 <= i < |s| ==> s[i] in r
    ensures Distinct(r)
    ensures |r| <= |s|
  {
    if s == [] then []
    else
      var u := Unique(s[..|s| - 1]);
      assert forall i :: 0 <= i < |s| - 1 ==> s[i] == s[..|s| - 1][i];
      if s[|s| - 1] in u then u else u + [s[|s| - 1]]
  }

  /** The position of the first occurrence of x in s. */
  function FirstPosition<T(==)>(s: seq<T>, x: T): (p: nat)
    requires x in s
    ensures p < |s| && s[p] == x && x !in s[..p]
  {
    if s[0] == x then 0
    else
      assert x in s[1..];
      var p := FirstPosition(s[1..], x);
      assert s[..p + 1] == [s[0]] + s[1..][..p];
      p + 1
  }

  /** An occurrence within the first n elements is found there. */
  lemma FirstPositionPrefix<T>(s: seq<T>, n: nat, x: T)
    requires n <= |s| && x in s[..n]
    ensures FirstPosition(s, x) == FirstPosition(s[..n], x) < n
  {
    var p := FirstPosition(s[..n], x);
    var q := FirstPosition(s, x);
    assert s[..n][..p] == s[..p];
  }

  /** `Unique` lists the elements in the order of their first appearance. */
  lemma {:induction false} UniqueInFirstAppearanceOrder<T>(s: seq<T>)
    ensures var r := Unique(s);
            forall i, j :: 0 <= i < j < |r| ==> FirstPosition(s, r[i]) < FirstPosition(s, r[j])
  {
    if s != [] {
      var n := |s| - 1;
      var init := s[..n];
      var u := Unique(init);
      UniqueInFirstAppearanceOrder(init);
      var r := Unique(s);
      assert r == u || r == u + [s[n]];
      forall i | 0 <= i < |u| ensures FirstPosition(s, u[i]) == FirstPosition(init, u[i]) < n {
        FirstPositionPrefix(s, n, u[i]);
      }
      if r != u {
        NewLastFirstAppears(s, u);
      }
      forall i, j | 0 <= i < j < |r| ensures FirstPosition(s, r[i]) < FirstPosition(s, r[j]) {
        assert r[i] == u[i];
        if j < |u| {
          assert r[j] == u[j];
        }
      }
    }
  }

  /** The last element, when it is not among the earlier distinct elements, first appears last. */
  lemma NewLastFirstAppears<T>(s: seq<T>, u: seq<T>)
    requires s != [] && u == Unique(s[..|s| - 1]) && s[|s| - 1] !in u
    ensures FirstPosition(s, s[|s| - 1]) == |s| - 1
  {
    var n := |s| - 1;
    var init := s[..n];
    forall k | 0 <= k < n ensures init[k] != s[n] {
      assert init[k] in u;
    }
    assert s[n] !in s[..n];

  }

  /** Appending x adds exactly x to the members of s. */
  lemma AppendMembers<T>(s: seq<T>, x: T)
    ensures forall y :: y in s + [x] <==> y in s || y == x
    ensures forall i :: 0 <= i < |s| ==> s[i] in s
  {
  }

  predicate StrictlyIncreasing(l: seq<nat>)
  {
    forall a, b :: 0 <= a < b < |l| ==> l[a] < l[b]
  }

  /** The positions of the elements of `s` that satisfy `p`, in increasing order. */
  function Where<T>(s: seq<T>, p: T -> bool): (ks: seq<nat>)
    ensures StrictlyIncreasing(ks)
    ensures forall x :: 0 <= x < |ks| ==> ks[x] < |s| && p(s[ks[x]])
    ensures forall k: nat :: k in ks <==> k < |s| && p(s[k])
  {
    if s == [] then []
    else
      var n := |s| - 1;
      var ks := Where(s[..n], p);
      assert forall k :: 0 <= k < n ==> s[..n][k] == s[k];
      if p(s[n]) then
        AppendMembers(ks, n);
        ks + [n]
      else ks
  }

  /** Number of occurrences of `x` in `s`. */
  function Occurrences<T(==)>(s: seq<T>, x: T): (n: nat)
    ensures n == multiset(s)[x]
  {
    if s == [] then 0
    else
      assert s == s[..|s| - 1] + [s[|s| - 1]];
      Occurrences(s[..|s| - 1], x) + (if s[|s| - 1] == x then 1 else 0)
  }

  lemma {:induction false} SumAppend(a: seq<int>, b: seq<int>)
    ensures Sum(a + b) == Sum(a) + Sum(b)
    decreases |b|
  {
    if b == [] {
      assert a + b == a;
    } else {
      assert (a + b)[..|a + b| - 1] == a + b[..|b| - 1];
      SumAppend(a, b[..|b| - 1]);
    }
  }

  lemma {:induction false} SumRealAppend(a: seq<real>, b: seq<real>)
    ensures SumReal(a + b) == SumReal(a) + SumReal(b)
    decreases |b|
  {
    if b == [] {
      assert a + b == a;
    } else {
      assert (a + b)[..|a + b| - 1] == a + b[..|b| - 1];
      SumRealAppend(a, b[..|b| - 1]);
    }
  }

  /** Dividing every term by `t` divides the sum by `t`. */
  lemma {:induction false} SumOfQuotients(s: seq<int>, q: seq<real>, t: real)
    requires t != 0.0
    requires |q| == |s|
    requires forall i :: 0 <= i < |s| ==> q[i] == s[i] as real / t
    ensures SumReal(q) == Sum(s) as real / t
    decreases |s|
  {
    if s != [] {
      var n := |s| - 1;
      SumOfQuotients(s[..n], q[..n], t);
      assert SumReal(q) == SumReal(q[..n]) + q[n];
      assert Sum(s) as real / t == (Sum(s[..n]) as real + s[n] as real) / t;
    }
  }

  /** A distinct sequence holds each element at most once. */
  lemma {:induction false} DistinctMultiplicity<T>(s: seq<T>, x: T)
    requires Distinct(s)
    ensures multiset(s)[x] <= 1
    decreases |s|
  {
    if s != [] {
      var n := |s| - 1;
      assert s == s[..n] + [s[n]];
      DistinctMultiplicity(s[..n], x);
      if s[n] == x {
        assert x !in s[..n];
      }
    }
  }

  /** A rearrangement of a distinct sequence is distinct. */
  lemma PermutationKeepsDistinct<T>(s: seq<T>, r: seq<T>)
    requires Distinct(s)
    requires multiset(r) == multiset(s)
    ensures Distinct(r)
  {
    forall i, j | 0 <= i < j < |r|
      ensures r[i] != r[j]
    {
      if r[i] == r[j] {
        assert r == r[..i] + [r[i]] + r[i + 1..j] + [r[j]] + r[j + 1..];
        assert multiset(r)[r[i]] >= 2;
        DistinctMultiplicity(s, r[i]);
        assert false;
      }
    }
  }
}
