/**
 * Dwell-time summarisation. The trajectory points, already joined to the semantic location
 * they fall in, are sorted by (user, trajectory, time); each point is credited with the time
 * elapsed since the previous point of its trajectory; the points are then grouped by
 * (user, trajectory, location) into one dwell row per group, which is finally joined to the
 * locations table on the location id.
 */
module Summarization {
  import opened Common
  import Sorting
  import SemanticContext
  import SemanticLocations

  /**
   * One row of the spatially joined table. `category` is the id of the semantic location the
   * point falls in, None when it falls in none (the left join leaves it NaN); `time` is in
   * seconds since the Unix epoch.
   */
  datatype Point = Point(uid: int, tid: int, time: int, category: Option<nat>, newBow: Vector, newContext: seq<string>)

  // ---------------------------------------------------------------------------
  // Sorting by (user, trajectory, time)

  predicate PointLe(a: Point, b: Point)
  {
    a.uid < b.uid || (a.uid == b.uid && (a.tid < b.tid || (a.tid == b.tid && a.time <= b.time)))
  }

  lemma PointOrder()
    ensures Sorting.Total(PointLe) && Sorting.Transitive(PointLe)
  {
  }

  /** `sort_values([user, trajectory, time])`. */
  function SortPoints(points: seq<Point>): (rows: seq<Point>)
    ensures multiset(rows) == multiset(points)
    ensures |rows| == |points|
    ensures forall i, j :: 0 <= i < j < |rows| ==> PointLe(rows[i], rows[j])
  {
    PointOrder();
    var rows := Sorting.SortBy(points, PointLe);
    forall i, j | 0 <= i < j < |rows| ensures PointLe(rows[i], rows[j]) {
      Sorting.SortedAll(rows, PointLe, i, j);
    }
    rows
  }

  // ---------------------------------------------------------------------------
  // The time_diff column: groupby([user, trajectory]).diff()

  predicate OnTrajectory(p: Point, u: int, t: int)
  {
    p.uid == u && p.tid == t
  }

  /** The last row before k on trajectory (u, t). */
  function LastOfTrajectory(rows: seq<Point>, u: int, t: int, k: nat): (p: Option<nat>)
    requires k <= |rows|
    ensures p.Some? ==> p.value < k && OnTrajectory(rows[p.value], u, t) &&
                        forall j :: p.value < j < k ==> !OnTrajectory(rows[j], u, t)
    ensures p.None? ==> forall j :: 0 <= j < k ==> !OnTrajectory(rows[j], u, t)
  {
    if k == 0 then None
    else if OnTrajectory(rows[k - 1], u, t) then Some(k - 1)
    else LastOfTrajectory(rows, u, t, k - 1)
  }

  /** The first row before k on trajectory (u, t). */
  function FirstOfTrajectory(rows: seq<Point>, u: int, t: int, k: nat): (p: Option<nat>)
    requires k <= |rows|
    ensures p.Some? ==> p.value < k && OnTrajectory(rows[p.value], u, t) &&
                        forall j :: 0 <= j < p.value ==> !OnTrajectory(rows[j], u, t)
    ensures p.None? ==> forall j :: 0 <= j < k ==> !OnTrajectory(rows[j], u, t)
  {
    if k == 0 then None
    else
      var f := FirstOfTrajectory(rows, u, t, k - 1);
      if f.Some? then f
      else if OnTrajectory(rows[k - 1], u, t) then Some(k - 1)
      else None
  }

  /**
   * Row i's time minus the time of the previous row of its trajectory; None (NaN) for the
   * first row of a trajectory. The difference belongs to row i, so it is credited to the
   * location of the later point.
   */
  function TimeDiff(rows: seq<Point>, i: nat): (d: Option<int>)
    requires i < |rows|
    ensures d.None? <==> forall j :: 0 <= j < i ==> !OnTrajectory(rows[j], rows[i].uid, rows[i].tid)
    ensures d.Some? ==> exists j :: 0 <= j < i && OnTrajectory(rows[j], rows[i].uid, rows[i].tid) &&
                                     d.value == rows[i].time - rows[j].time &&
                                     forall k :: j < k < i ==> !OnTrajectory(rows[k], rows[i].uid, rows[i].tid)
  {
    match LastOfTrajectory(rows, rows[i].uid, rows[i].tid, i)
    case None => None
    case Some(j) => Some(rows[i].time - rows[j].time)
  }

  /** The difference as `sum` counts it: a missing one adds nothing. */
  function DiffOrZero(rows: seq<Point>, i: nat): int
    requires i < |rows|
  {
    match TimeDiff(rows, i)
    case None => 0
    case Some(d) => d
  }

  /** Once sorted, the previous row of a trajectory is the row just above, and differences are not negative. */
  lemma SortedTimeDiff(rows: seq<Point>, i: nat)
    requires forall a, b :: 0 <= a < b < |rows| ==> PointLe(rows[a], rows[b])
    requires i < |rows|
    ensures TimeDiff(rows, i).Some? <==> i > 0 && OnTrajectory(rows[i - 1], rows[i].uid, rows[i].tid)
    ensures TimeDiff(rows, i).Some? ==> TimeDiff(rows, i).value == rows[i].time - rows[i - 1].time >= 0
  {
  }

  // ---------------------------------------------------------------------------
  // The day_of_week and hour columns

  /** `dt.dayofweek` of a Unix time: Monday is 0; 1 January 1970 was a Thursday (3). */
  function Day(time: int): (d: int)
    ensures 0 <= d < 7
  {
    (time / 86400 + 3) % 7
  }

  /** `dt.hour` of a Unix time. */
  function Hour(time: int): (h: int)
    ensures 0 <= h < 24
  {
    time % 86400 / 3600
  }

  /** A day later is the next weekday, with Sunday followed by Monday. */
  lemma DayAdvances(time: int)
    ensures Day(time + 86400) == (Day(time) + 1) % 7
  {
    assert (time + 86400) / 86400 == time / 86400 + 1;
  }

  /** Midnight UTC of 1 January 1970 was a Thursday; noon of the same day is hour 12. */
  lemma EpochCalendar()
    ensures Day(0) == 3 && Hour(0) == 0 && Hour(43200) == 12 && Day(86399) == 3 && Day(86400) == 4
  {
  }

  /** `dt.day_name()`: the weekday of a Unix time in words. */
  function DayName(time: int): (r: string)
    ensures r in ["Monday", "Tuesday", "Wednesday", "Thursday", "Friday", "Saturday", "Sunday"]
    ensures r == "Saturday" || r == "Sunday" <==> Day(time) >= 5
  {
    ["Monday", "Tuesday", "Wednesday", "Thursday", "Friday", "Saturday", "Sunday"][Day(time)]
  }

  // ---------------------------------------------------------------------------
  // Grouping by (user, trajectory, new_category)

  datatype GroupKey = GroupKey(uid: int, tid: int, category: nat)

  predicate KeyLe(a: GroupKey, b: GroupKey)
  {
    a.uid < b.uid || (a.uid == b.uid && (a.tid < b.tid || (a.tid == b.tid && a.category <= b.category)))
  }

  lemma KeyOrder()
    ensures Sorting.Total(KeyLe) && Sorting.Transitive(KeyLe)
  {
  }

  /** A point's group; a point outside every location has none, since groupby drops NaN keys. */
  function KeyOf(p: Point): Option<GroupKey>
  {
    match p.category
    case None => None
    case Some(c) => Some(GroupKey(p.uid, p.tid, c))
  }

  function KeysOf(rows: seq<Point>): (ks: seq<GroupKey>)
    ensures forall g :: g in ks <==> exists i :: 0 <= i < |rows| && KeyOf(rows[i]) == Some(g)
  {
    if rows == [] then []
    else
      var n := |rows| - 1;
      var ks := KeysOf(rows[..n]);
      assert forall i :: 0 <= i < n ==> rows[..n][i] == rows[i];
      match KeyOf(rows[n])
      case None => ks
      case Some(g) => ks + [g]
  }

  /** The groups of the table in the order groupby lists them: distinct keys, ascending. */
  function Groups(rows: seq<Point>): (gs: seq<GroupKey>)
    ensures forall g :: g in gs <==> exists i :: 0 <= i < |rows| && KeyOf(rows[i]) == Some(g)
    ensures forall x, y :: 0 <= x < y < |gs| ==> KeyLe(gs[x], gs[y]) && gs[x] != gs[y]
  {
    KeyOrder();
    Sorting.SortedKeys(KeysOf(rows), KeyLe)
  }

  /** The rows before k of group g, in table order. */
  function GroupRows(rows: seq<Point>, g: GroupKey, k: nat): (ix: seq<nat>)
    requires k <= |rows|
    ensures forall x, y :: 0 <= x < y < |ix| ==> ix[x] < ix[y]
    ensures forall x :: 0 <= x < |ix| ==> ix[x] < k && KeyOf(rows[ix[x]]) == Some(g)
    ensures forall i: nat :: i in ix <==> i < k && KeyOf(rows[i]) == Some(g)
  {
    if k == 0 then []
    else
      var ix := GroupRows(rows, g, k - 1);
      if KeyOf(rows[k - 1]) == Some(g) then
        AppendMembers(ix, k - 1);
        ix + [k - 1]
      else ix
  }

  /** `grouped['time_diff'].sum()` over the rows before k: NaN differences are skipped. */
  function GroupTime(rows: seq<Point>, g: GroupKey, k: nat): int
    requires k <= |rows|
  {
    if k == 0 then 0
    else GroupTime(rows, g, k - 1) + (if KeyOf(rows[k - 1]) == Some(g) then DiffOrZero(rows, k - 1) else 0)
  }

  /** One row of the summary: a (user, trajectory, location) group. */
  datatype Dwell = Dwell(
    uid: int,
    tid: int,
    category: nat,
    timeSpent: int,
    days: seq<int>,
    hours: seq<int>,
    bagOfWords: Vector,
    context: seq<string>)

  /** The aggregates of group g; bag_of_words and context come from its first row. */
  function DwellOf(rows: seq<Point>, g: GroupKey): (d: Dwell)
    requires GroupRows(rows, g, |rows|) != []
    ensures d.uid == g.uid && d.tid == g.tid && d.category == g.category
    ensures d.timeSpent == GroupTime(rows, g, |rows|)
    ensures var ix := GroupRows(rows, g, |rows|);
            |d.days| == |ix| && |d.hours| == |ix| &&
            forall x :: 0 <= x < |ix| ==> d.days[x] == Day(rows[ix[x]].time) && d.hours[x] == Hour(rows[ix[x]].time)
    ensures var f := GroupRows(rows, g, |rows|)[0];
            d.bagOfWords == rows[f].newBow && d.context == rows[f].newContext
  {
    var ix := GroupRows(rows, g, |rows|);
    assert forall x :: 0 <= x < |ix| ==> ix[x] in ix;
    Dwell(g.uid, g.tid, g.category, GroupTime(rows, g, |rows|),
          seq(|ix|, x requires 0 <= x < |ix| => Day(rows[ix[x]].time)),
          seq(|ix|, x requires 0 <= x < |ix| => Hour(rows[ix[x]].time)),
          rows[ix[0]].newBow, rows[ix[0]].newContext)
  }

  predicate HasRows(rows: seq<Point>, keys: seq<GroupKey>)
  {
    forall g :: g in keys ==> GroupRows(rows, g, |rows|) != []
  }

  function DwellsOf(rows: seq<Point>, keys: seq<GroupKey>): (ds: seq<Dwell>)
    requires HasRows(rows, keys)
    ensures |ds| == |keys|
    ensures forall x :: 0 <= x < |keys| ==> ds[x] == DwellOf(rows, keys[x])
  {
    if keys == [] then []
    else [DwellOf(rows, keys[0])] + DwellsOf(rows, keys[1..])
  }

  lemma GroupsHaveRows(rows: seq<Point>)
    ensures HasRows(rows, Groups(rows))
  {
    forall g | g in Groups(rows) ensures GroupRows(rows, g, |rows|) != [] {
      var i :| 0 <= i < |rows| && KeyOf(rows[i]) == Some(g);
      assert i in GroupRows(rows, g, |rows|);
    }
  }

  /** The summary before the join with the locations: sort, difference, group, aggregate. */
  function Summarize(points: seq<Point>): seq<Dwell>
  {
    var rows := SortPoints(points);
    GroupsHaveRows(rows);
    DwellsOf(rows, Groups(rows))
  }

  // ---------------------------------------------------------------------------
  // Properties of the summary

  function DwellKey(d: Dwell): GroupKey
  {
    GroupKey(d.uid, d.tid, d.category)
  }

  /** Some row of the summary is the dwell of group g. */
  predicate Summarizes(ds: seq<Dwell>, g: GroupKey)
  {
    exists x :: 0 <= x < |ds| && DwellKey(ds[x]) == g
  }

  /** Some point belongs to group g. */
  predicate InGroup(points: seq<Point>, g: GroupKey)
  {
    exists i :: 0 <= i < |points| && KeyOf(points[i]) == Some(g)
  }

  /**
   * One row per (user, trajectory, location) that some located point has, in ascending key
   * order; points outside every location form no group.
   */
  lemma SummaryGroups(points: seq<Point>)
    ensures var ds := Summarize(points);
            forall x, y :: 0 <= x < y < |ds| ==> KeyLe(DwellKey(ds[x]), DwellKey(ds[y])) && DwellKey(ds[x]) != DwellKey(ds[y])
    ensures forall g :: Summarizes(Summarize(points), g) <==> InGroup(points, g)
  {
    var rows := SortPoints(points);
    var gs := Groups(rows);
    var ds := Summarize(points);
    SummaryKeys(points);
    forall g ensures Summarizes(ds, g) <==> InGroup(points, g) {
      SameKeys(rows, points, g);
      SameKeys(points, rows, g);
      if InGroup(rows, g) {
        assert g in gs;
        var x :| 0 <= x < |gs| && gs[x] == g;
        assert DwellKey(ds[x]) == g;
      }
      if Summarizes(ds, g) {
        var x :| 0 <= x < |ds| && DwellKey(ds[x]) == g;
        assert gs[x] in gs;
      }
    }
  }

  lemma SummaryKeys(points: seq<Point>)
    ensures var rows := SortPoints(points);
            |Summarize(points)| == |Groups(rows)| &&
            forall x :: 0 <= x < |Groups(rows)| ==> DwellKey(Summarize(points)[x]) == Groups(rows)[x]
  {
  }

  /** Two orderings of the same rows have the same groups. */
  lemma SameKeys(a: seq<Point>, b: seq<Point>, g: GroupKey)
    requires multiset(a) == multiset(b)
    ensures InGroup(a, g) ==> InGroup(b, g)
  {
    if InGroup(a, g) {
      var i :| 0 <= i < |a| && KeyOf(a[i]) == Some(g);
      assert a[i] in multiset(b);
      var j :| 0 <= j < |b| && b[j] == a[i];
    }
  }

  lemma {:induction false} GroupTimeNonNegative(rows: seq<Point>, g: GroupKey, k: nat)
    requires forall a, b :: 0 <= a < b < |rows| ==> PointLe(rows[a], rows[b])
    requires k <= |rows|
    ensures GroupTime(rows, g, k) >= 0
  {
    if k > 0 {
      GroupTimeNonNegative(rows, g, k - 1);
      SortedTimeDiff(rows, k - 1);
    }
  }

  /** Every time_spent is a sum of non-negative differences, because the points are sorted first. */
  lemma TimeSpentNonNegative(points: seq<Point>)
    ensures forall x :: 0 <= x < |Summarize(points)| ==> Summarize(points)[x].timeSpent >= 0
  {
    var rows := SortPoints(points);
    forall g ensures GroupTime(rows, g, |rows|) >= 0 {
      GroupTimeNonNegative(rows, g, |rows|);
    }
  }

  /**
   * A group's days and hours list its points in time order, with weekdays in 0 .. 6 and hours
   * in 0 .. 23, and its bag_of_words and context are those of its earliest point.
   */
  lemma DwellListsInTimeOrder(points: seq<Point>, x: nat)
    requires x < |Summarize(points)|
    ensures var d := Summarize(points)[x];
            var rows := SortPoints(points);
            var ix := GroupRows(rows, DwellKey(d), |rows|);
            |d.days| == |ix| && |d.hours| == |ix| && ix != [] &&
            (forall a :: 0 <= a < |ix| ==>
               0 <= d.days[a] < 7 && 0 <= d.hours[a] < 24 &&
               d.days[a] == Day(rows[ix[a]].time) && d.hours[a] == Hour(rows[ix[a]].time)) &&
            (forall a, b :: 0 <= a < b < |ix| ==> rows[ix[a]].time <= rows[ix[b]].time) &&
            d.bagOfWords == rows[ix[0]].newBow && d.context == rows[ix[0]].newContext
  {
    var rows := SortPoints(points);
    var gs := Groups(rows);
    SummaryRow(points, x);
    DwellInTimeOrder(rows, gs[x]);
  }

  /** Row x of the summary is the dwell of the x-th group of the sorted rows. */
  lemma SummaryRow(points: seq<Point>, x: nat)
    requires x < |Summarize(points)|
    ensures var rows := SortPoints(points);
            var gs := Groups(rows);
            x < |gs| && GroupRows(rows, gs[x], |rows|) != [] &&
            Summarize(points)[x] == DwellOf(rows, gs[x]) && DwellKey(Summarize(points)[x]) == gs[x]
  {
    var rows := SortPoints(points);
    GroupsHaveRows(rows);
  }

  /** In sorted rows, the members of a group appear in time order. */
  lemma DwellInTimeOrder(rows: seq<Point>, g: GroupKey)
    requires forall a, b :: 0 <= a < b < |rows| ==> PointLe(rows[a], rows[b])
    requires GroupRows(rows, g, |rows|) != []
    ensures var ix := GroupRows(rows, g, |rows|);
            forall a, b :: 0 <= a < b < |ix| ==> rows[ix[a]].time <= rows[ix[b]].time
  {
    var ix := GroupRows(rows, g, |rows|);
    forall a, b | 0 <= a < b < |ix| ensures rows[ix[a]].time <= rows[ix[b]].time {
      assert PointLe(rows[ix[a]], rows[ix[b]]);
    }
  }

  /** The number of points of group g. */
  function CountOf(s: seq<Point>, g: GroupKey): nat
  {
    if s == [] then 0 else CountOf(s[..|s| - 1], g) + (if KeyOf(s[|s| - 1]) == Some(g) then 1 else 0)
  }

  lemma {:induction false} GroupRowsCount(s: seq<Point>, g: GroupKey, k: nat)
    requires k <= |s|
    ensures |GroupRows(s, g, k)| == CountOf(s[..k], g)
  {
    if k > 0 {
      GroupRowsCount(s, g, k - 1);
      assert s[..k][..k - 1] == s[..k - 1];
    }
  }

  lemma {:induction false} CountOfAppend(a: seq<Point>, b: seq<Point>, g: GroupKey)
    ensures CountOf(a + b, g) == CountOf(a, g) + CountOf(b, g)
    decreases |b|
  {
    if b != [] {
      CountOfAppend(a, b[..|b| - 1], g);
      assert (a + b)[..|a + b| - 1] == a + b[..|b| - 1];
      assert (a + b)[|a + b| - 1] == b[|b| - 1];
    } else {
      assert a + b == a;
    }
  }

  /** The size of a group does not depend on the order of the rows. */
  lemma {:induction false} CountOfPermutation(a: seq<Point>, b: seq<Point>, g: GroupKey)
    requires multiset(a) == multiset(b)
    ensures CountOf(a, g) == CountOf(b, g)
    decreases |a|
  {
    if a != [] {
      var n := |a| - 1;
      var p := a[n];
      assert p in multiset(b);
      var j :| 0 <= j < |b| && b[j] == p;
      var rest := b[..j] + b[j + 1..];
      RemoveAt(b, j);
      assert a == a[..n] + [p];
      assert multiset(a[..n]) == multiset(a) - multiset{p};
      CountOfPermutation(a[..n], rest, g);
      CountOfRemoveAt(b, j, g);
      CountOfAppend(a[..n], [p], g);
    }
  }

  /** Removing the point at j takes one copy of it out of the multiset. */
  lemma RemoveAt(b: seq<Point>, j: nat)
    requires j < |b|
    ensures multiset(b[..j] + b[j + 1..]) == multiset(b) - multiset{b[j]}
  {
    assert b == b[..j] + [b[j]] + b[j + 1..];
  }

  /** Removing the point at j takes it out of the count of its group. */
  lemma CountOfRemoveAt(b: seq<Point>, j: nat, g: GroupKey)
    requires j < |b|
    ensures CountOf(b, g) == CountOf(b[..j] + b[j + 1..], g) + CountOf([b[j]], g)
  {
    assert b == (b[..j] + [b[j]]) + b[j + 1..];
    CountOfAppend(b[..j] + [b[j]], b[j + 1..], g);
    CountOfAppend(b[..j], [b[j]], g);
    CountOfAppend(b[..j], b[j + 1..], g);
  }

  /** days and hours hold one entry per point of the group. */
  lemma DwellListsPerPoint(points: seq<Point>, x: nat)
    requires x < |Summarize(points)|
    ensures var d := Summarize(points)[x];
            |d.days| == CountOf(points, DwellKey(d)) && |d.hours| == CountOf(points, DwellKey(d))
  {
    var rows := SortPoints(points);
    var d := Summarize(points)[x];
    SummaryRow(points, x);
    GroupRowsCount(rows, DwellKey(d), |rows|);
    assert rows[..|rows|] == rows;
    CountOfPermutation(rows, points, DwellKey(d));
  }

  // ---------------------------------------------------------------------------
  // Telescoping: the time of a trajectory is its last timestamp minus its first

  /** The differences of the rows before k on trajectory (u, t). */
  function TrajectoryDiffs(rows: seq<Point>, u: int, t: int, k: nat): int
    requires k <= |rows|
  {
    if k == 0 then 0
    else TrajectoryDiffs(rows, u, t, k - 1) + (if OnTrajectory(rows[k - 1], u, t) then DiffOrZero(rows, k - 1) else 0)
  }

  /** The same, counting only rows that fall in a location (the only ones that reach a group). */
  function LocatedDiffs(rows: seq<Point>, u: int, t: int, k: nat): int
    requires k <= |rows|
  {
    if k == 0 then 0
    else LocatedDiffs(rows, u, t, k - 1) +
         (if OnTrajectory(rows[k - 1], u, t) && rows[k - 1].category.Some? then DiffOrZero(rows, k - 1) else 0)
  }

  /** The consecutive differences of a trajectory add up to its last time minus its first. */
  lemma {:induction false} Telescope(rows: seq<Point>, u: int, t: int, k: nat)
    requires k <= |rows|
    ensures var f := FirstOfTrajectory(rows, u, t, k);
            var l := LastOfTrajectory(rows, u, t, k);
            f.Some? == l.Some? &&
            TrajectoryDiffs(rows, u, t, k) == if l.Some? then rows[l.value].time - rows[f.value].time else 0
  {
    if k > 0 {
      Telescope(rows, u, t, k - 1);
    }
  }

  lemma {:induction false} AllLocated(rows: seq<Point>, u: int, t: int, k: nat)
    requires k <= |rows|
    requires forall i :: 0 <= i < k && OnTrajectory(rows[i], u, t) ==> rows[i].category.Some?
    ensures LocatedDiffs(rows, u, t, k) == TrajectoryDiffs(rows, u, t, k)
  {
    if k > 0 {
      AllLocated(rows, u, t, k - 1);
    }
  }

  /** The time_spent of the groups in keys that lie on trajectory (u, t), over the rows before k. */
  function KeysTime(rows: seq<Point>, keys: seq<GroupKey>, u: int, t: int, k: nat): int
    requires k <= |rows|
  {
    if keys == [] then 0
    else (if keys[0].uid == u && keys[0].tid == t then GroupTime(rows, keys[0], k) else 0) +
         KeysTime(rows, keys[1..], u, t, k)
  }

  /** Row k-1 adds its difference to exactly one of the distinct keys: its own. */
  lemma {:induction false} KeysTimeStep(rows: seq<Point>, keys: seq<GroupKey>, u: int, t: int, k: nat)
    requires 0 < k <= |rows| && Distinct(keys)
    ensures var key := KeyOf(rows[k - 1]);
            KeysTime(rows, keys, u, t, k) == KeysTime(rows, keys, u, t, k - 1) +
              (if key.Some? && key.value in keys && OnTrajectory(rows[k - 1], u, t) then DiffOrZero(rows, k - 1) else 0)
    decreases |keys|
  {
    if keys != [] {
      assert Distinct(keys[1..]);
      KeysTimeStep(rows, keys[1..], u, t, k);
      assert keys == [keys[0]] + keys[1..];
    }
  }

  /** Summing time_spent over the groups of a trajectory gives the located differences of that trajectory. */
  lemma {:induction false} KeysTimeIsLocatedDiffs(rows: seq<Point>, keys: seq<GroupKey>, u: int, t: int, k: nat)
    requires k <= |rows| && Distinct(keys)
    requires forall i :: 0 <= i < k && KeyOf(rows[i]).Some? ==> KeyOf(rows[i]).value in keys
    ensures KeysTime(rows, keys, u, t, k) == LocatedDiffs(rows, u, t, k)
  {
    if k == 0 {
      KeysTimeAtStart(rows, keys, u, t);
    } else {
      KeysTimeIsLocatedDiffs(rows, keys, u, t, k - 1);
      KeysTimeStep(rows, keys, u, t, k);
    }
  }

  lemma {:induction false} KeysTimeAtStart(rows: seq<Point>, keys: seq<GroupKey>, u: int, t: int)
    ensures KeysTime(rows, keys, u, t, 0) == 0
    decreases |keys|
  {
    if keys != [] {
      KeysTimeAtStart(rows, keys[1..], u, t);
    }
  }

  /** The total time_spent of the summary rows of trajectory (u, t). */
  function TrajectoryTime(ds: seq<Dwell>, u: int, t: int): int
  {
    if ds == [] then 0
    else (if ds[0].uid == u && ds[0].tid == t then ds[0].timeSpent else 0) + TrajectoryTime(ds[1..], u, t)
  }

  lemma {:induction false} TrajectoryTimeOfKeys(rows: seq<Point>, keys: seq<GroupKey>, u: int, t: int)
    requires HasRows(rows, keys)
    ensures TrajectoryTime(DwellsOf(rows, keys), u, t) == KeysTime(rows, keys, u, t, |rows|)
    decreases |keys|
  {
    if keys != [] {
      TrajectoryTimeOfKeys(rows, keys[1..], u, t);
      assert DwellsOf(rows, keys)[1..] == DwellsOf(rows, keys[1..]);
    }
  }

  /** With every point of (u, t) located, the summary's time for (u, t) is the sum of its differences. */
  lemma SummaryTimeIsDiffs(points: seq<Point>, u: int, t: int)
    requires forall i :: 0 <= i < |points| && OnTrajectory(points[i], u, t) ==> points[i].category.Some?
    ensures var rows := SortPoints(points);
            TrajectoryTime(Summarize(points), u, t) == TrajectoryDiffs(rows, u, t, |rows|)
  {
    var rows := SortPoints(points);
    var gs := Groups(rows);
    GroupsHaveRows(rows);
    assert Distinct(gs);
    forall i | 0 <= i < |rows| && OnTrajectory(rows[i], u, t) ensures rows[i].category.Some? {
      assert rows[i] in multiset(points);
    }
    AllLocated(rows, u, t, |rows|);
    KeysTimeIsLocatedDiffs(rows, gs, u, t, |rows|);
    TrajectoryTimeOfKeys(rows, gs, u, t);
  }

  /** In sorted rows the first and last rows of a trajectory hold its earliest and latest times. */
  lemma SortedSpan(rows: seq<Point>, u: int, t: int)
    requires forall a, b :: 0 <= a < b < |rows| ==> PointLe(rows[a], rows[b])
    requires FirstOfTrajectory(rows, u, t, |rows|).Some? && LastOfTrajectory(rows, u, t, |rows|).Some?
    ensures var f := FirstOfTrajectory(rows, u, t, |rows|).value;
            var l := LastOfTrajectory(rows, u, t, |rows|).value;
            forall i :: 0 <= i < |rows| && OnTrajectory(rows[i], u, t) ==> rows[f].time <= rows[i].time <= rows[l].time
  {
    var f := FirstOfTrajectory(rows, u, t, |rows|).value;
    var l := LastOfTrajectory(rows, u, t, |rows|).value;
    forall i | 0 <= i < |rows| && OnTrajectory(rows[i], u, t) ensures rows[f].time <= rows[i].time <= rows[l].time {
      if f < i { assert PointLe(rows[f], rows[i]); }
      if i < l { assert PointLe(rows[i], rows[l]); }
    }
  }

  /** Points first and last of trajectory (u, t) hold its earliest and its latest time. */
  predicate Spans(points: seq<Point>, u: int, t: int, first: nat, last: nat)
  {
    first < |points| && last < |points| &&
    OnTrajectory(points[first], u, t) && OnTrajectory(points[last], u, t) &&
    forall i :: 0 <= i < |points| && OnTrajectory(points[i], u, t) ==>
      points[first].time <= points[i].time <= points[last].time
  }

  lemma PermutedSpan(points: seq<Point>, rows: seq<Point>, u: int, t: int, f: nat, l: nat)
      returns (first: nat, last: nat)
    requires multiset(points) == multiset(rows)
    requires Spans(rows, u, t, f, l)
    ensures Spans(points, u, t, first, last)
    ensures points[first].time == rows[f].time && points[last].time == rows[l].time
  {
    first := IndexIn(points, rows, f);
    last := IndexIn(points, rows, l);
    forall i | 0 <= i < |points| && OnTrajectory(points[i], u, t)
      ensures points[first].time <= points[i].time <= points[last].time
    {
      assert points[i] in multiset(rows);
    }
  }

  /** Where the point at j of one ordering sits in another ordering of the same points. */
  lemma IndexIn(points: seq<Point>, rows: seq<Point>, j: nat) returns (i: nat)
    requires multiset(points) == multiset(rows)
    requires j < |rows|
    ensures i < |points| && points[i] == rows[j]
  {
    assert rows[j] in multiset(points);
    i :| 0 <= i < |points| && points[i] == rows[j];
  }

  /**
   * When every point of trajectory (u, t) falls in some location, the time_spent of its
   * summary rows adds up to the span of the trajectory: its latest timestamp minus its
   * earliest one.
   */
  lemma TrajectoryTimeIsSpan(points: seq<Point>, u: int, t: int, w: nat)
    requires w < |points| && OnTrajectory(points[w], u, t)
    requires forall i :: 0 <= i < |points| && OnTrajectory(points[i], u, t) ==> points[i].category.Some?
    ensures exists first: nat, last: nat :: Spans(points, u, t, first, last) &&
              TrajectoryTime(Summarize(points), u, t) == points[last].time - points[first].time
  {
    var rows := SortPoints(points);
    SummaryTimeIsDiffs(points, u, t);
    var j := IndexIn(rows, points, w);
    var f, l := SortedTrajectorySpan(rows, u, t, j);
    var first, last := PermutedSpan(points, rows, u, t, f, l);
    assert Spans(points, u, t, first, last) &&
           TrajectoryTime(Summarize(points), u, t) == points[last].time - points[first].time;
  }

  /** A trajectory with a row in sorted rows spans from its first row to its last, and its differences telescope. */
  lemma SortedTrajectorySpan(rows: seq<Point>, u: int, t: int, j: nat) returns (f: nat, l: nat)
    requires forall a, b :: 0 <= a < b < |rows| ==> PointLe(rows[a], rows[b])
    requires j < |rows| && OnTrajectory(rows[j], u, t)
    ensures Spans(rows, u, t, f, l)
    ensures TrajectoryDiffs(rows, u, t, |rows|) == rows[l].time - rows[f].time
  {
    Telescope(rows, u, t, |rows|);
    f := FirstOfTrajectory(rows, u, t, |rows|).value;
    l := LastOfTrajectory(rows, u, t, |rows|).value;
    SortedSpan(rows, u, t);
  }

  // ---------------------------------------------------------------------------
  // The join with the locations table

  /** A summary row with the polygon of its semantic location. */
  datatype LocatedDwell = LocatedDwell(dwell: Dwell, geometry: seq<Polygon>)

  /** Some row of the locations table has category c and polygon gm. */
  predicate LocationGeometry(locations: seq<SemanticLocations.SemanticLocation>, c: nat, gm: seq<Polygon>)
  {
    exists l :: 0 <= l < |locations| && locations[l].newCategory == c && locations[l].geometry == gm
  }

  /** The rows of the locations table with the dwell's category, in table order. */
  function Matches(d: Dwell, locations: seq<SemanticLocations.SemanticLocation>): (r: seq<LocatedDwell>)
    ensures |r| <= |locations|
    ensures forall y :: 0 <= y < |r| ==> r[y].dwell == d && LocationGeometry(locations, d.category, r[y].geometry)
  {
    if locations == [] then []
    else
      var rest := Matches(d, locations[1..]);
      forall y | 0 <= y < |rest| ensures LocationGeometry(locations, d.category, rest[y].geometry) {
        var l :| 0 <= l < |locations[1..]| && locations[1..][l].newCategory == d.category &&
                 locations[1..][l].geometry == rest[y].geometry;
        assert locations[l + 1] == locations[1..][l];
      }
      if locations[0].newCategory == d.category then [LocatedDwell(d, locations[0].geometry)] + rest else rest
  }

  /** `merge(tiles[['new_category', 'geometry']], on='new_category')`: an inner join keeping the summary's order. */
  function InnerMerge(ds: seq<Dwell>, locations: seq<SemanticLocations.SemanticLocation>): (r: seq<LocatedDwell>)
    ensures forall y :: 0 <= y < |r| ==> r[y].dwell in ds && LocationGeometry(locations, r[y].dwell.category, r[y].geometry)
  {
    if ds == [] then []
    else
      var first := Matches(ds[0], locations);
      var rest := InnerMerge(ds[1..], locations);
      assert forall y :: 0 <= y < |rest| ==> rest[y].dwell in ds by {
        assert forall d :: d in ds[1..] ==> d in ds;
      }
      first + rest
  }

  predicate HasLocation(locations: seq<SemanticLocations.SemanticLocation>, c: nat)
  {
    exists l :: 0 <= l < |locations| && locations[l].newCategory == c
  }

  /** The summary rows whose category is in the locations table, in order. */
  function Located(ds: seq<Dwell>, locations: seq<SemanticLocations.SemanticLocation>): (r: seq<Dwell>)
    ensures forall y :: 0 <= y < |r| ==> r[y] in ds && HasLocation(locations, r[y].category)
    ensures forall x :: 0 <= x < |ds| && HasLocation(locations, ds[x].category) ==> ds[x] in r
  {
    if ds == [] then []
    else
      var rest := Located(ds[1..], locations);
      assert forall x :: 1 <= x < |ds| ==> ds[x] == ds[1..][x - 1];
      if HasLocation(locations, ds[0].category) then [ds[0]] + rest else rest
  }

  /** `summarization`: the summary joined to the polygons of the semantic locations. */
  function Summarization(points: seq<Point>, locations: seq<SemanticLocations.SemanticLocation>): (r: seq<LocatedDwell>)
    ensures forall y :: 0 <= y < |r| ==>
              r[y].dwell in Summarize(points) && LocationGeometry(locations, r[y].dwell.category, r[y].geometry)
  {
    InnerMerge(Summarize(points), locations)
  }

  predicate UniqueCategories(locations: seq<SemanticLocations.SemanticLocation>)
  {
    forall a, b :: 0 <= a < b < |locations| ==> locations[a].newCategory != locations[b].newCategory
  }

  lemma {:induction false} MatchesUnique(d: Dwell, locations: seq<SemanticLocations.SemanticLocation>)
    requires UniqueCategories(locations)
    ensures |Matches(d, locations)| == if HasLocation(locations, d.category) then 1 else 0
  {
    if locations != [] {
      var rest := locations[1..];
      MatchesUnique(d, rest);
      assert HasLocation(locations, d.category) <==>
             locations[0].newCategory == d.category || HasLocation(rest, d.category) by {
        if HasLocation(locations, d.category) {
          var l :| 0 <= l < |locations| && locations[l].newCategory == d.category;
          if l > 0 { assert rest[l - 1] == locations[l]; }
        }
        if HasLocation(rest, d.category) {
          var l :| 0 <= l < |rest| && rest[l].newCategory == d.category;
          assert locations[l + 1] == rest[l];
        }
      }
    }
  }

  /**
   * When the locations table has one row per category, as the dissolve produces, the join
   * keeps exactly the summary rows whose category is a location, in order, each once, with
   * the polygon of its location.
   */
  lemma {:induction false} InnerMergeFilters(ds: seq<Dwell>, locations: seq<SemanticLocations.SemanticLocation>)
    requires UniqueCategories(locations)
    ensures var r := InnerMerge(ds, locations);
            |r| == |Located(ds, locations)| &&
            forall y :: 0 <= y < |r| ==>
              r[y].dwell == Located(ds, locations)[y] && LocationGeometry(locations, r[y].dwell.category, r[y].geometry)
  {
    if ds != [] {
      InnerMergeFilters(ds[1..], locations);
      MatchesUnique(ds[0], locations);
    }
  }

  /** The semantic locations of the merger have one row per id, so the join is a filter. */
  lemma DissolvedCategoriesUnique(tiles: seq<SemanticContext.BowTile>, vocab: seq<string>, a: SemanticLocations.Assignment)
    requires SemanticLocations.Sized(a, |tiles|) && SemanticLocations.Uniform(a.newBow, |vocab|)
    ensures UniqueCategories(SemanticLocations.Dissolve(tiles, vocab, a))
  {
  }

  // ---------------------------------------------------------------------------
  // compute_time_part: the same aggregation with weekday names

  datatype TimePart = TimePart(
    uid: int,
    tid: int,
    category: nat,
    timeSpent: int,
    days: seq<string>,
    hours: seq<int>,
    bagOfWords: Vector,
    context: seq<string>)

  function TimePartOf(rows: seq<Point>, g: GroupKey): TimePart
    requires GroupRows(rows, g, |rows|) != []
  {
    var ix := GroupRows(rows, g, |rows|);
    assert forall x :: 0 <= x < |ix| ==> ix[x] in ix;
    TimePart(g.uid, g.tid, g.category, GroupTime(rows, g, |rows|),
             seq(|ix|, x requires 0 <= x < |ix| => DayName(rows[ix[x]].time)),
             seq(|ix|, x requires 0 <= x < |ix| => Hour(rows[ix[x]].time)),
             rows[ix[0]].newBow, rows[ix[0]].newContext)
  }

  function TimePartsOf(rows: seq<Point>, keys: seq<GroupKey>): (ps: seq<TimePart>)
    requires HasRows(rows, keys)
    ensures |ps| == |keys|
    ensures forall x :: 0 <= x < |keys| ==> ps[x] == TimePartOf(rows, keys[x])
  {
    if keys == [] then []
    else [TimePartOf(rows, keys[0])] + TimePartsOf(rows, keys[1..])
  }

  /** `compute_time_part`: sort, difference, group and aggregate, naming the weekdays. */
  function ComputeTimePart(points: seq<Point>): seq<TimePart>
  {
    var rows := SortPoints(points);
    GroupsHaveRows(rows);
    TimePartsOf(rows, Groups(rows))
  }

  /**
   * compute_time_part has the rows, time_spent, hours, bag_of_words and context of the
   * summary, and the summary's weekday numbers as names.
   */
  lemma TimePartIsSummaryWithNames(points: seq<Point>)
    ensures |ComputeTimePart(points)| == |Summarize(points)|
    ensures forall x :: 0 <= x < |Summarize(points)| ==>
              var p := ComputeTimePart(points)[x];
              var d := Summarize(points)[x];
              p.uid == d.uid && p.tid == d.tid && p.category == d.category && p.timeSpent == d.timeSpent &&
              p.hours == d.hours && p.bagOfWords == d.bagOfWords && p.context == d.context &&
              |p.days| == |d.days| &&
              forall a :: 0 <= a < |d.days| ==>
                p.days[a] == ["Monday", "Tuesday", "Wednesday", "Thursday", "Friday", "Saturday", "Sunday"][d.days[a]]
  {
    var rows := SortPoints(points);
    var gs := Groups(rows);
    GroupsHaveRows(rows);
    forall x | 0 <= x < |gs| ensures TimePartNames(TimePartOf(rows, gs[x]), DwellOf(rows, gs[x])) {
      TimePartOfDwell(rows, gs[x]);
    }
  }

  /** p is the time-part row of dwell d: the same row with the weekday numbers written as names. */
  predicate TimePartNames(p: TimePart, d: Dwell)
  {
    p.uid == d.uid && p.tid == d.tid && p.category == d.category && p.timeSpent == d.timeSpent &&
    p.hours == d.hours && p.bagOfWords == d.bagOfWords && p.context == d.context &&
    |p.days| == |d.days| &&
    forall a :: 0 <= a < |d.days| ==>
      0 <= d.days[a] < 7 && p.days[a] == ["Monday", "Tuesday", "Wednesday", "Thursday", "Friday", "Saturday", "Sunday"][d.days[a]]
  }

  lemma TimePartOfDwell(rows: seq<Point>, g: GroupKey)
    requires GroupRows(rows, g, |rows|) != []
    ensures TimePartNames(TimePartOf(rows, g), DwellOf(rows, g))
  {
  }
}
