/**
 * Relevance and taxonomy. Each summary row's dwell time, in whole seconds, is divided by the
 * total dwell time of its user; the pooled relevance column is then cut at its 25th, 50th and
 * 75th percentiles into four ordinal taxonomy labels. Both steps add a column to the caller's
 * table in place.
 */
module Clustering {
  import opened Common
  import Sorting

  // ---------------------------------------------------------------------------
  // time_spent as whole seconds

  /** Why `astype(int)` refuses a column: a NaT duration has no integer value. */
  datatype CastError = MissingDuration(row: nat)

  /**
   * The conversion as written: `astype(int)` runs first and fails on the first NaT, so the
   * following `fillna(0)` never sees a missing value.
   */
  function SecondsAsWritten(durations: seq<Option<int>>): (r: Result<seq<int>, CastError>)
    ensures r.Failure? <==> exists i :: 0 <= i < |durations| && durations[i].None?
    ensures r.Failure? ==> r.error.row < |durations| && durations[r.error.row].None?
    ensures r.Success? ==> |r.value| == |durations| &&
                           forall i :: 0 <= i < |durations| ==> durations[i] == Some(r.value[i])
  {
    if durations == [] then Success([])
    else
      var n := |durations| - 1;
      var init := SecondsAsWritten(durations[..n]);
      assert forall i :: 0 <= i < n ==> durations[..n][i] == durations[i];
      if init.Failure? then init
      else if durations[n].None? then Failure(MissingDuration(n))
      else Success(init.value + [durations[n].value])
  }

  /** The conversion as intended: a missing duration counts as 0 seconds. */
  function Seconds(durations: seq<Option<int>>): (r: seq<int>)
    ensures |r| == |durations|
    ensures forall i :: 0 <= i < |durations| ==> r[i] == (if durations[i].Some? then durations[i].value else 0)
  {
    seq(|durations|, i requires 0 <= i < |durations| => if durations[i].Some? then durations[i].value else 0)
  }

  /** On a column without NaT both conversions agree; one NaT is enough to tell them apart. */
  lemma FillAfterCastIsDead(durations: seq<Option<int>>)
    ensures SecondsAsWritten(durations).Success? ==> SecondsAsWritten(durations).value == Seconds(durations)
    ensures SecondsAsWritten([None]).Failure? && Seconds([None]) == [0]
  {
  }

  // ---------------------------------------------------------------------------
  // Relevance: groupby(user)['time_spent'].transform('sum')

  /** The dwell times of user u's rows, in table order. */
  function UserTimes(uids: seq<int>, secs: seq<int>, u: int): (r: seq<int>)
    requires |uids| == |secs|
    ensures |r| <= |uids|
  {
    if uids == [] then []
    else
      var n := |uids| - 1;
      UserTimes(uids[..n], secs[..n], u) + (if uids[n] == u then [secs[n]] else [])
  }

  function UserTotal(uids: seq<int>, secs: seq<int>, u: int): int
    requires |uids| == |secs|
  {
    Sum(UserTimes(uids, secs, u))
  }

  /** A row's dwell time over its user's total; 0/0 (and x/0) is not a number. */
  function Relevance(uids: seq<int>, secs: seq<int>, i: nat): Ratio
    requires |uids| == |secs| && i < |uids|
  {
    var total := UserTotal(uids, secs, uids[i]);
    if total == 0 then Undefined else Finite(secs[i] as real / total as real)
  }

  function Relevances(uids: seq<int>, secs: seq<int>): (r: seq<Ratio>)
    requires |uids| == |secs|
    ensures |r| == |uids|
    ensures forall i :: 0 <= i < |uids| ==> r[i] == Relevance(uids, secs, i)
  {
    seq(|uids|, i requires 0 <= i < |uids| => Relevance(uids, secs, i))
  }

  lemma {:induction false} UserTimesMember(uids: seq<int>, secs: seq<int>, i: nat)
    requires |uids| == |secs| && i < |uids|
    ensures secs[i] in UserTimes(uids, secs, uids[i])
  {
    var n := |uids| - 1;
    if i < n {
      UserTimesMember(uids[..n], secs[..n], i);
    }
  }

  lemma {:induction false} TermAtMostSum(s: seq<int>, x: int)
    requires forall j :: 0 <= j < |s| ==> s[j] >= 0
    requires x in s
    ensures 0 <= x <= Sum(s)
  {
    var n := |s| - 1;
    if s[n] != x {
      TermAtMostSum(s[..n], x);
    }
    SumNonNegative(s[..n]);
  }

  lemma {:induction false} SumNonNegative(s: seq<int>)
    requires forall j :: 0 <= j < |s| ==> s[j] >= 0
    ensures Sum(s) >= 0
  {
    if s != [] {
      SumNonNegative(s[..|s| - 1]);
    }
  }

  lemma {:induction false} UserTimesNonNegative(uids: seq<int>, secs: seq<int>, u: int)
    requires |uids| == |secs|
    requires forall i :: 0 <= i < |secs| ==> secs[i] >= 0
    ensures forall j :: 0 <= j < |UserTimes(uids, secs, u)| ==> UserTimes(uids, secs, u)[j] >= 0
  {
    if uids != [] {
      var n := |uids| - 1;
      UserTimesNonNegative(uids[..n], secs[..n], u);
    }
  }

  /**
   * Relevance is undefined exactly for users whose total is 0; with non-negative dwell
   * times every defined relevance lies in [0, 1].
   */
  lemma RelevanceInUnitInterval(uids: seq<int>, secs: seq<int>, i: nat)
    requires |uids| == |secs| && i < |uids|
    requires forall j :: 0 <= j < |secs| ==> secs[j] >= 0
    ensures Relevance(uids, secs, i).Undefined? <==> UserTotal(uids, secs, uids[i]) == 0
    ensures Relevance(uids, secs, i).Finite? ==> 0.0 <= Relevance(uids, secs, i).value <= 1.0
  {
    UserTimesMember(uids, secs, i);
    UserTimesNonNegative(uids, secs, uids[i]);
    TermAtMostSum(UserTimes(uids, secs, uids[i]), secs[i]);
  }

  /** A row with no dwell time has relevance 0, unless its user's total is 0 too. */
  lemma ZeroRelevance(uids: seq<int>, secs: seq<int>, i: nat)
    requires |uids| == |secs| && i < |uids| && secs[i] == 0
    ensures Relevance(uids, secs, i) == if UserTotal(uids, secs, uids[i]) == 0 then Undefined else Finite(0.0)
  {
  }

  /** The relevance values of user u's rows, in table order. */
  function UserRelevances(uids: seq<int>, rel: seq<Ratio>, u: int): (r: seq<real>)
    requires |uids| == |rel|
  {
    if uids == [] then []
    else
      var n := |uids| - 1;
      UserRelevances(uids[..n], rel[..n], u) + (if uids[n] == u && rel[n].Finite? then [rel[n].value] else [])
  }

  lemma {:induction false} UserQuotients(uids: seq<int>, secs: seq<int>, rel: seq<Ratio>, u: int, total: real)
    requires |uids| == |secs| == |rel| && total != 0.0
    requires forall i :: 0 <= i < |uids| && uids[i] == u ==> rel[i] == Finite(secs[i] as real / total)
    ensures |UserRelevances(uids, rel, u)| == |UserTimes(uids, secs, u)|
    ensures forall j :: 0 <= j < |UserTimes(uids, secs, u)| ==>
              UserRelevances(uids, rel, u)[j] == UserTimes(uids, secs, u)[j] as real / total
  {
    if uids != [] {
      var n := |uids| - 1;
      UserQuotients(uids[..n], secs[..n], rel[..n], u, total);
    }
  }

  /** The relevances of a user with a non-zero total add up to 1. */
  lemma RelevanceSumsToOne(uids: seq<int>, secs: seq<int>, u: int)
    requires |uids| == |secs| && UserTotal(uids, secs, u) != 0
    ensures SumReal(UserRelevances(uids, Relevances(uids, secs), u)) == 1.0
  {
    var total := UserTotal(uids, secs, u);
    assert total as real / total as real == 1.0;
    var rel := Relevances(uids, secs);
    forall i | 0 <= i < |uids| && uids[i] == u ensures rel[i] == Finite(secs[i] as real / total as real) {
      assert rel[i] == Relevance(uids, secs, i);
    }
    UserQuotients(uids, secs, rel, u, total as real);
    SumOfQuotients(UserTimes(uids, secs, u), UserRelevances(uids, rel, u), total as real);
  }

  lemma {:induction false} UserTimesIgnoresOthers(uids: seq<int>, secs: seq<int>, u: int, j: nat, w: int, v: int)
    requires |uids| == |secs| && j < |uids| && uids[j] != u && w != u
    ensures UserTimes(uids[j := w], secs[j := v], u) == UserTimes(uids, secs, u)
  {
    var n := |uids| - 1;
    if j < n {
      assert uids[j := w][..n] == uids[..n][j := w];
      assert secs[j := v][..n] == secs[..n][j := v];
      UserTimesIgnoresOthers(uids[..n], secs[..n], u, j, w, v);
    } else {
      assert uids[j := w][..n] == uids[..n];
      assert secs[j := v][..n] == secs[..n];
    }
  }

  /** Another user's row, whatever its time, does not change a row's relevance. */
  lemma RelevanceIgnoresOtherUsers(uids: seq<int>, secs: seq<int>, i: nat, j: nat, w: int, v: int)
    requires |uids| == |secs| && i < |uids| && j < |uids| && uids[j] != uids[i] && w != uids[i]
    ensures Relevance(uids[j := w], secs[j := v], i) == Relevance(uids, secs, i)
  {
    UserTimesIgnoresOthers(uids, secs, uids[i], j, w, v);
  }

  // ---------------------------------------------------------------------------
  // Percentiles with linear interpolation

  predicate RealLe(a: real, b: real)
  {
    a <= b
  }

  function SortReals(s: seq<real>): (r: seq<real>)
    ensures multiset(r) == multiset(s) && |r| == |s|
    ensures forall i, j :: 0 <= i < j < |r| ==> r[i] <= r[j]
  {
    var r := Sorting.SortBy(s, RealLe);
    forall i, j | 0 <= i < j < |r| ensures r[i] <= r[j] {
      Sorting.SortedAll(r, RealLe, i, j);
    }
    r
  }

  /** The product of two non-negative reals is non-negative. */
  lemma MulNonNegative(a: real, b: real)
    requires a >= 0.0 && b >= 0.0
    ensures a * b >= 0.0
  {
  }

  /** Where percentile p falls among n sorted values, counting from 0. */
  function Position(n: nat, p: real): (h: real)
    requires n > 0 && 0.0 <= p <= 100.0
    ensures 0.0 <= h <= (n - 1) as real
  {
    var m := (n - 1) as real;
    MulNonNegative(m, 100.0 - p);
    MulNonNegative(m, p);
    m * p / 100.0
  }

  lemma PositionMonotone(n: nat, p: real, q: real)
    requires n > 0 && 0.0 <= p <= q <= 100.0
    ensures Position(n, p) <= Position(n, q)
  {
    var m := (n - 1) as real;
    MulNonNegative(m, q - p);
  }

  /** Linear interpolation from x towards y by the fraction f. */
  function Lerp(x: real, y: real, f: real): (r: real)
    requires x <= y && 0.0 <= f <= 1.0
    ensures x <= r <= y
  {
    MulNonNegative(1.0 - f, y - x);
    MulNonNegative(f, y - x);
    x + f * (y - x)
  }

  lemma LerpMonotone(x: real, y: real, f: real, g: real)
    requires x <= y && 0.0 <= f <= g <= 1.0
    ensures Lerp(x, y, f) <= Lerp(x, y, g)
  {
    MulNonNegative(g - f, y - x);
  }

  /** The value at fractional position h of the ascending sequence a. */
  function Interpolate(a: seq<real>, h: real): (r: real)
    requires forall i, j :: 0 <= i < j < |a| ==> a[i] <= a[j]
    requires 0.0 <= h <= (|a| - 1) as real
    ensures a[h.Floor] <= r
    ensures h.Floor + 1 < |a| ==> r <= a[h.Floor + 1]
    ensures h.Floor + 1 == |a| ==> r == a[h.Floor]
  {
    var lo := h.Floor;
    if lo + 1 < |a| then Lerp(a[lo], a[lo + 1], h - lo as real) else a[lo]
  }

  /** `np.percentile(s, p)` with the default "linear" method. */
  function Percentile(s: seq<real>, p: real): (r: real)
    requires |s| > 0 && 0.0 <= p <= 100.0
    ensures exists i :: 0 <= i < |s| && s[i] <= r
    ensures exists j :: 0 <= j < |s| && r <= s[j]
  {
    var a := SortReals(s);
    var h := Position(|a|, p);
    var lo := h.Floor;
    assert a[lo] in multiset(s);
    assert lo + 1 < |a| ==> a[lo + 1] in multiset(s);
    Interpolate(a, h)
  }

  /** The interpolated value lies between the two order statistics around its position. */
  lemma PercentileBetween(s: seq<real>, p: real)
    requires |s| > 0 && 0.0 <= p <= 100.0
    ensures var a := SortReals(s);
            var lo := Position(|a|, p).Floor;
            0 <= lo < |a| && a[lo] <= Percentile(s, p) &&
            (lo + 1 < |a| ==> Percentile(s, p) <= a[lo + 1])
  {
  }

  /** A higher percentile is never smaller. */
  lemma PercentileMonotone(s: seq<real>, p: real, q: real)
    requires |s| > 0 && 0.0 <= p <= q <= 100.0
    ensures Percentile(s, p) <= Percentile(s, q)
  {
    var a := SortReals(s);
    var hp := Position(|a|, p);
    var hq := Position(|a|, q);
    PositionMonotone(|a|, p, q);
    var lp := hp.Floor;
    var lq := hq.Floor;
    PercentileBetween(s, p);
    PercentileBetween(s, q);
    if lp == lq {
      if lp + 1 < |a| {
        LerpMonotone(a[lp], a[lp + 1], hp - lp as real, hq - lq as real);
      }
    } else {
      assert a[lp + 1] <= a[lq];
    }
  }

  /** The smallest and the largest value bound every percentile. */
  lemma PercentileInRange(s: seq<real>, p: real)
    requires |s| > 0 && 0.0 <= p <= 100.0
    ensures forall i :: 0 <= i < |s| && (forall j :: 0 <= j < |s| ==> s[i] <= s[j]) ==> s[i] <= Percentile(s, p)
    ensures forall i :: 0 <= i < |s| && (forall j :: 0 <= j < |s| ==> s[j] <= s[i]) ==> Percentile(s, p) <= s[i]
  {
  }

  // ---------------------------------------------------------------------------
  // Taxonomy: pd.cut with bins [-inf, p25, p50, p75, inf]

  datatype Taxonomy = Insignificant | Sporadic | Transit | Significant
  {
    /** The label string `pd.cut` writes into the column. */
    function Name(): string
    {
      match this
      case Insignificant => "Insignificant locations"
      case Sporadic => "Sporadic locations"
      case Transit => "Transit locations"
      case Significant => "Significant locations"
    }

    /** The position of the label in the categorical's order. */
    function Rank(): nat
    {
      match this
      case Insignificant => 0
      case Sporadic => 1
      case Transit => 2
      case Significant => 3
    }
  }

  /** Distinct labels have distinct ranks. */
  lemma RankInjective(a: Taxonomy, b: Taxonomy)
    requires a.Rank() == b.Rank()
    ensures a == b
  {
  }

  datatype CutError = EmptyColumn | MissingRelevance | DuplicateEdges

  datatype Cuts = Cuts(p25: real, p50: real, p75: real)

  function Values(col: seq<Ratio>): (s: seq<real>)
    requires forall i :: 0 <= i < |col| ==> col[i].Finite?
    ensures |s| == |col| && forall i :: 0 <= i < |col| ==> s[i] == col[i].value
  {
    seq(|col|, i requires 0 <= i < |col| => col[i].value)
  }

  /**
   * The bin edges of the pooled relevance column. An empty column has no percentile; a NaN
   * relevance makes every percentile NaN, and NaN or repeated edges are not unique, which
   * `pd.cut` refuses.
   */
  function CutPoints(col: seq<Ratio>): (r: Result<Cuts, CutError>)
    ensures r == Failure(EmptyColumn) <==> col == []
    ensures r == Failure(MissingRelevance) <==> col != [] && exists i :: 0 <= i < |col| && col[i].Undefined?
    ensures r.Success? ==> col != [] && (forall i :: 0 <= i < |col| ==> col[i].Finite?) &&
                           r.value.p25 < r.value.p50 < r.value.p75
  {
    if col == [] then Failure(EmptyColumn)
    else if exists i :: 0 <= i < |col| && col[i].Undefined? then Failure(MissingRelevance)
    else
      var s := Values(col);
      var p25 := Percentile(s, 25.0);
      var p50 := Percentile(s, 50.0);
      var p75 := Percentile(s, 75.0);
      PercentileMonotone(s, 25.0, 50.0);
      PercentileMonotone(s, 50.0, 75.0);
      if p25 == p50 || p50 == p75 then Failure(DuplicateEdges)
      else Success(Cuts(p25, p50, p75))
  }

  /** The cut points are the pooled 25/50/75th percentiles and lie between the column's extremes. */
  lemma CutPointsArePercentiles(col: seq<Ratio>)
    requires CutPoints(col).Success?
    ensures var c := CutPoints(col).value;
            var s := Values(col);
            c.p25 == Percentile(s, 25.0) && c.p50 == Percentile(s, 50.0) && c.p75 == Percentile(s, 75.0) &&
            (exists i :: 0 <= i < |s| && s[i] <= c.p25) && (exists j :: 0 <= j < |s| && c.p75 <= s[j])
  {
  }

  /** A column of numbers whose three percentiles differ is cut at exactly those percentiles. */
  lemma DistinctPercentilesCut(col: seq<Ratio>)
    requires col != [] && forall i :: 0 <= i < |col| ==> col[i].Finite?
    requires var s := Values(col);
             Percentile(s, 25.0) != Percentile(s, 50.0) && Percentile(s, 50.0) != Percentile(s, 75.0)
    ensures var s := Values(col);
            CutPoints(col) == Success(Cuts(Percentile(s, 25.0), Percentile(s, 50.0), Percentile(s, 75.0)))
  {
  }

  /** Right-closed bins: (-inf, p25], (p25, p50], (p50, p75], (p75, inf). */
  function Label(x: real, c: Cuts): (t: Taxonomy)
    requires c.p25 < c.p50 < c.p75
    ensures t == Insignificant <==> x <= c.p25
    ensures t == Significant <==> c.p75 < x
    ensures t == Sporadic <==> c.p25 < x <= c.p50
    ensures t == Transit <==> c.p50 < x <= c.p75
  {
    if x <= c.p25 then Insignificant
    else if x <= c.p50 then Sporadic
    else if x <= c.p75 then Transit
    else Significant
  }

  /** A larger relevance never gets a lower label. */
  lemma LabelMonotone(x: real, y: real, c: Cuts)
    requires c.p25 < c.p50 < c.p75 && x <= y
    ensures Label(x, c).Rank() <= Label(y, c).Rank()
  {
  }

  /** `assign_taxonomy`'s column: every relevance labelled with the pooled cut points. */
  function Taxonomies(col: seq<Ratio>): (r: Result<seq<Taxonomy>, CutError>)
    ensures r.Success? <==> CutPoints(col).Success?
    ensures r.Failure? ==> r.error == CutPoints(col).error
    ensures r.Success? ==>
              |r.value| == |col| &&
              forall i :: 0 <= i < |col| ==> col[i].Finite? && r.value[i] == Label(col[i].value, CutPoints(col).value)
  {
    match CutPoints(col)
    case Failure(e) => Failure(e)
    case Success(c) => Success(seq(|col|, i requires 0 <= i < |col| => Label(col[i].value, c)))
  }

  function Count(ts: seq<Taxonomy>, t: Taxonomy): nat
  {
    if ts == [] then 0 else Count(ts[..|ts| - 1], t) + (if ts[|ts| - 1] == t then 1 else 0)
  }

  /** For relevances 0.1 .. 0.8 the cut points are 0.275, 0.45 and 0.625 and every label gets two rows. */
  lemma EightRelevances(col: seq<Ratio>)
    requires col == [Finite(0.1), Finite(0.2), Finite(0.3), Finite(0.4), Finite(0.5), Finite(0.6), Finite(0.7), Finite(0.8)]
    ensures CutPoints(col) == Success(Cuts(0.275, 0.45, 0.625))
    ensures Taxonomies(col) == Success([Insignificant, Insignificant, Sporadic, Sporadic, Transit, Transit, Significant, Significant])
  {
    EightCuts(col);
    var t := Taxonomies(col).value;
    var c := Cuts(0.275, 0.45, 0.625);
    assert t[0] == Label(0.1, c) == Insignificant && t[1] == Label(0.2, c) == Insignificant;
    assert t[2] == Label(0.3, c) == Sporadic && t[3] == Label(0.4, c) == Sporadic;
    assert t[4] == Label(0.5, c) == Transit && t[5] == Label(0.6, c) == Transit;
    assert t[6] == Label(0.7, c) == Significant && t[7] == Label(0.8, c) == Significant;
    assert t == [Insignificant, Insignificant, Sporadic, Sporadic, Transit, Transit, Significant, Significant];
  }

  lemma EightCuts(col: seq<Ratio>)
    requires col == [Finite(0.1), Finite(0.2), Finite(0.3), Finite(0.4), Finite(0.5), Finite(0.6), Finite(0.7), Finite(0.8)]
    ensures CutPoints(col) == Success(Cuts(0.275, 0.45, 0.625))
  {
    assert forall i :: 0 <= i < |col| ==> col[i].Finite?;
    assert Values(col) == [0.1, 0.2, 0.3, 0.4, 0.5, 0.6, 0.7, 0.8];
    EightPercentiles(Values(col));
    DistinctPercentilesCut(col);
  }

  lemma EightPercentiles(s: seq<real>)
    requires s == [0.1, 0.2, 0.3, 0.4, 0.5, 0.6, 0.7, 0.8]
    ensures Percentile(s, 25.0) == 0.275 && Percentile(s, 50.0) == 0.45 && Percentile(s, 75.0) == 0.625
  {
    EightSorted(s);
    EightAt(s, 25.0, 1, 0.75);
    assert Lerp(0.2, 0.3, 0.75) == 0.275;
    EightAt(s, 50.0, 3, 0.5);
    assert Lerp(0.4, 0.5, 0.5) == 0.45;
    EightAt(s, 75.0, 5, 0.25);
    assert Lerp(0.6, 0.7, 0.25) == 0.625;
  }

  lemma EightSorted(s: seq<real>)
    requires s == [0.1, 0.2, 0.3, 0.4, 0.5, 0.6, 0.7, 0.8]
    ensures SortReals(s) == s
  {
    assert Sorting.SortedBy(s, RealLe);
    Sorting.SortBySorted(s, RealLe);
  }

  lemma EightAt(s: seq<real>, p: real, lo: nat, f: real)
    requires |s| == 8 && 0.0 <= p <= 100.0 && SortReals(s) == s
    requires lo + 1 < 8 && 7.0 * p / 100.0 == lo as real + f && 0.0 <= f < 1.0
    ensures Percentile(s, p) == Lerp(s[lo], s[lo + 1], f)
  {
    var h := Position(8, p);
    assert h == 7.0 * p / 100.0;
    assert h.Floor == lo;
    assert h - lo as real == f;
    assert Percentile(s, p) == Interpolate(s, h) == Lerp(s[lo], s[lo + 1], f);
  }

  /** A column whose percentiles coincide is refused: the bin edges are not unique. */
  lemma EqualRelevancesRefused(col: seq<Ratio>)
    requires col == [Finite(0.5), Finite(0.5)]
    ensures CutPoints(col) == Failure(DuplicateEdges)
  {
    assert forall i :: 0 <= i < |col| ==> col[i].Finite?;
    var s := Values(col);
    assert s[0] == 0.5 && s[1] == 0.5;
    assert Percentile(s, 25.0) == 0.5 && Percentile(s, 50.0) == 0.5;
    TiedPercentilesRefused(col);
  }

  /** Equal 25th and 50th, or 50th and 75th, percentiles make `pd.cut` refuse the bins. */
  lemma TiedPercentilesRefused(col: seq<Ratio>)
    requires col != [] && forall i :: 0 <= i < |col| ==> col[i].Finite?
    requires var s := Values(col);
             Percentile(s, 25.0) == Percentile(s, 50.0) || Percentile(s, 50.0) == Percentile(s, 75.0)
    ensures CutPoints(col) == Failure(DuplicateEdges)
  {
  }

  // ---------------------------------------------------------------------------
  // The table the two functions edit in place

  class VisitTable {
    var uid: seq<int>
    /** time_spent: a duration in seconds, None for NaT; whole seconds once converted. */
    var timeSpent: seq<Option<int>>
    /** The relevance column, absent (None) until `calculate_relevance` adds it. */
    var relevance: Option<seq<Ratio>>
    /** The taxonomy column, absent (None) until `assign_taxonomy` adds it. */
    var taxonomy: Option<seq<Taxonomy>>

    predicate Valid()
      reads this
    {
      |uid| == |timeSpent| &&
      (relevance.Some? ==> |relevance.value| == |uid|) &&
      (taxonomy.Some? ==> |taxonomy.value| == |uid|)
    }

    constructor (uids: seq<int>, durations: seq<Option<int>>)
      requires |uids| == |durations|
      ensures Valid()
      ensures uid == uids && timeSpent == durations && relevance == None && taxonomy == None
    {
      uid := uids;
      timeSpent := durations;
      relevance := None;
      taxonomy := None;
    }

    /**
     * `calculate_relevance`: time_spent becomes whole seconds (missing ones 0) and the
     * relevance column is added; nothing else changes.
     */
    method CalculateRelevance()
      requires Valid()
      modifies this
      ensures Valid()
      ensures uid == old(uid) && taxonomy == old(taxonomy)
      ensures |timeSpent| == |old(timeSpent)| &&
              forall i :: 0 <= i < |timeSpent| ==> timeSpent[i] == Some(Seconds(old(timeSpent))[i])
      ensures relevance == Some(Relevances(uid, Seconds(old(timeSpent))))
    {
      var secs := Seconds(timeSpent);
      timeSpent := seq(|secs|, i requires 0 <= i < |secs| => Some(secs[i]));
      relevance := Some(Relevances(uid, secs));
    }

    /**
     * `assign_taxonomy`: the taxonomy column is added from the relevance column, or the
     * call fails and the table is left as it was.
     */
    method AssignTaxonomy() returns (r: Result<(), CutError>)
      requires Valid() && relevance.Some?
      modifies this
      ensures Valid()
      ensures uid == old(uid) && timeSpent == old(timeSpent) && relevance == old(relevance)
      ensures r.Failure? <==> CutPoints(relevance.value).Failure?
      ensures r.Failure? ==> r.error == CutPoints(relevance.value).error && taxonomy == old(taxonomy)
      ensures r.Success? ==> Taxonomies(relevance.value).Success? && taxonomy == Some(Taxonomies(relevance.value).value)
    {
      var labels := Taxonomies(relevance.value);
      if labels.Failure? {
        return Failure(labels.error);
      }
      taxonomy := Some(labels.value);
      return Success(());
    }
  }
}
