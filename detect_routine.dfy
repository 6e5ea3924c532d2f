/**
 * Routine detection. The profile table is sorted in place by user and entropy. Each user's
 * first row, the one with the lowest entropy, is their routine candidate; their last row, the
 * one with the highest entropy, is their non-routine candidate. A candidate is kept only when
 * its taxonomy is Significant or Transit, and Significant candidates are listed first.
 */
module Routine {
  import opened Common
  import Sorting
  import Clustering
  import opened Evaluation

  // ---------------------------------------------------------------------------
  // sort_values(by=[user, 'entropy'])

  predicate UidEntropyLe(a: Profile, b: Profile)
  {
    a.uid < b.uid || (a.uid == b.uid && a.entropy <= b.entropy)
  }

  lemma UidEntropyOrder()
    ensures Sorting.Total(UidEntropyLe) && Sorting.Transitive(UidEntropyLe)
  {
  }

  function SortProfiles(table: seq<Profile>): (rows: seq<Profile>)
    ensures multiset(rows) == multiset(table) && |rows| == |table|
    ensures forall i, j :: 0 <= i < j < |rows| ==> UidEntropyLe(rows[i], rows[j])
  {
    UidEntropyOrder();
    var rows := Sorting.SortBy(table, UidEntropyLe);
    forall i, j | 0 <= i < j < |rows| ensures UidEntropyLe(rows[i], rows[j]) {
      Sorting.SortedAll(rows, UidEntropyLe, i, j);
    }
    rows
  }

  // ---------------------------------------------------------------------------
  // groupby(user).first() and .last()

  predicate HasUser(rows: seq<Profile>, u: int)
  {
    exists i :: 0 <= i < |rows| && rows[i].uid == u
  }

  /** The users of the table, ascending. */
  function Users(rows: seq<Profile>): (us: seq<int>)
    ensures forall u :: u in us <==> HasUser(rows, u)
    ensures forall x, y :: 0 <= x < y < |us| ==> us[x] < us[y]
  {
    IntOrder();
    var ids := ProfileUids(rows);
    var us := Sorting.SortedKeys(ids, IntLe);
    forall u ensures u in us <==> HasUser(rows, u) {
      if HasUser(rows, u) {
        var i :| 0 <= i < |rows| && rows[i].uid == u;
        assert ids[i] == u;
      }
    }
    us
  }

  /** The position of user u's first row. */
  function FirstIndex(rows: seq<Profile>, u: int): (i: nat)
    requires HasUser(rows, u)
    ensures i < |rows| && rows[i].uid == u
    ensures forall j :: 0 <= j < i ==> rows[j].uid != u
  {
    if rows[0].uid == u then 0
    else
      var k :| 0 <= k < |rows| && rows[k].uid == u;
      assert rows[1..][k - 1].uid == u;
      FirstIndex(rows[1..], u) + 1
  }

  /** The position of user u's last row. */
  function LastIndex(rows: seq<Profile>, u: int): (i: nat)
    requires HasUser(rows, u)
    ensures i < |rows| && rows[i].uid == u
    ensures forall j :: i < j < |rows| ==> rows[j].uid != u
  {
    var n := |rows| - 1;
    if rows[n].uid == u then n
    else
      var k :| 0 <= k < |rows| && rows[k].uid == u;
      assert rows[..n][k].uid == u;
      LastIndex(rows[..n], u)
  }

  /** `first()` on the diversity column: the first defined value among the user's rows. */
  function FirstDiversity(rows: seq<Profile>, u: int): (d: Ratio)
    ensures d.Finite? <==> exists i :: 0 <= i < |rows| && rows[i].uid == u && rows[i].diversity.Finite?
    ensures d.Finite? ==>
              exists i :: 0 <= i < |rows| && rows[i].uid == u && rows[i].diversity == d &&
                          forall j :: 0 <= j < i && rows[j].uid == u ==> rows[j].diversity.Undefined?
  {
    if rows == [] then Undefined
    else if rows[0].uid == u && rows[0].diversity.Finite? then rows[0].diversity
    else
      var d := FirstDiversity(rows[1..], u);
      assert forall i :: 1 <= i < |rows| ==> rows[1..][i - 1] == rows[i];
      if d.Finite? then
        var i :| 0 <= i < |rows[1..]| && rows[1..][i].uid == u && rows[1..][i].diversity == d &&
                 forall j :: 0 <= j < i && rows[1..][j].uid == u ==> rows[1..][j].diversity.Undefined?;
        assert rows[i + 1].uid == u && rows[i + 1].diversity == d;
        assert forall j :: 1 <= j < i + 1 ==> rows[j] == rows[1..][j - 1];
        d
      else d
  }

  /** `last()` on the diversity column: the last defined value among the user's rows. */
  function LastDiversity(rows: seq<Profile>, u: int): (d: Ratio)
    ensures d.Finite? <==> exists i :: 0 <= i < |rows| && rows[i].uid == u && rows[i].diversity.Finite?
    ensures d.Finite? ==>
              exists i :: 0 <= i < |rows| && rows[i].uid == u && rows[i].diversity == d &&
                          forall j :: i < j < |rows| && rows[j].uid == u ==> rows[j].diversity.Undefined?
  {
    if rows == [] then Undefined
    else
      var n := |rows| - 1;
      if rows[n].uid == u && rows[n].diversity.Finite? then rows[n].diversity
      else
        var d := LastDiversity(rows[..n], u);
        assert forall i :: 0 <= i < n ==> rows[..n][i] == rows[i];
        if d.Finite? then
          var i :| 0 <= i < n && rows[..n][i].uid == u && rows[..n][i].diversity == d &&
                   forall j :: i < j < n && rows[..n][j].uid == u ==> rows[..n][j].diversity.Undefined?;
          assert rows[i].uid == u && rows[i].diversity == d;
          d
        else d
  }

  /**
   * User u's row of `groupby(user).first()`: taxonomy and entropy of the user's first row,
   * which hold no missing values, and the first defined diversity.
   */
  function FirstRow(rows: seq<Profile>, u: int): Profile
    requires HasUser(rows, u)
  {
    var i := FirstIndex(rows, u);
    Profile(u, rows[i].taxonomy, rows[i].entropy, FirstDiversity(rows, u))
  }

  function LastRow(rows: seq<Profile>, u: int): Profile
    requires HasUser(rows, u)
  {
    var i := LastIndex(rows, u);
    Profile(u, rows[i].taxonomy, rows[i].entropy, LastDiversity(rows, u))
  }

  function MinEntropy(rows: seq<Profile>): (ps: seq<Profile>)
    ensures |ps| == |Users(rows)|
    ensures forall k :: 0 <= k < |ps| ==> HasUser(rows, Users(rows)[k]) && ps[k] == FirstRow(rows, Users(rows)[k])
  {
    var us := Users(rows);
    assert forall k :: 0 <= k < |us| ==> us[k] in us;
    seq(|us|, k requires 0 <= k < |us| => FirstRow(rows, us[k]))
  }

  function MaxEntropy(rows: seq<Profile>): (ps: seq<Profile>)
    ensures |ps| == |Users(rows)|
    ensures forall k :: 0 <= k < |ps| ==> HasUser(rows, Users(rows)[k]) && ps[k] == LastRow(rows, Users(rows)[k])
  {
    var us := Users(rows);
    assert forall k :: 0 <= k < |us| ==> us[k] in us;
    seq(|us|, k requires 0 <= k < |us| => LastRow(rows, us[k]))
  }

  // ---------------------------------------------------------------------------
  // Taxonomy filter and concatenation

  /** The rows with taxonomy t, in order. */
  function WithTaxonomy(ps: seq<Profile>, t: Clustering.Taxonomy): (r: seq<Profile>)
    ensures forall p :: p in r <==> p in ps && p.taxonomy == t
    ensures |r| <= |ps|
  {
    if ps == [] then []
    else
      var n := |ps| - 1;
      assert ps == ps[..n] + [ps[n]];
      WithTaxonomy(ps[..n], t) + (if ps[n].taxonomy == t then [ps[n]] else [])
  }

  /** Significant candidates, then Transit ones. */
  function Kept(candidates: seq<Profile>): seq<Profile>
  {
    WithTaxonomy(candidates, Clustering.Significant) + WithTaxonomy(candidates, Clustering.Transit)
  }

  function RoutineRows(rows: seq<Profile>): seq<Profile>
  {
    Kept(MinEntropy(rows))
  }

  function NonRoutineRows(rows: seq<Profile>): seq<Profile>
  {
    Kept(MaxEntropy(rows))
  }

  /** The table `detect_routine` sorts in place before selecting from it. */
  class ProfileTable {
    var rows: seq<Profile>

    constructor (table: seq<Profile>)
      ensures rows == table
    {
      rows := table;
    }

    method DetectRoutine() returns (routine: seq<Profile>, nonRoutine: seq<Profile>)
      modifies this
      ensures rows == SortProfiles(old(rows))
      ensures routine == RoutineRows(rows) && nonRoutine == NonRoutineRows(rows)
    {
      rows := SortProfiles(rows);
      routine := RoutineRows(rows);
      nonRoutine := NonRoutineRows(rows);
    }
  }

  // ---------------------------------------------------------------------------
  // Properties

  predicate Sorted(rows: seq<Profile>)
  {
    forall i, j :: 0 <= i < j < |rows| ==> UidEntropyLe(rows[i], rows[j])
  }

  /** In a table sorted by user and entropy, a user's first row has their lowest entropy. */
  lemma FirstRowHasLowestEntropy(rows: seq<Profile>, u: int)
    requires Sorted(rows) && HasUser(rows, u)
    ensures forall j :: 0 <= j < |rows| && rows[j].uid == u ==> FirstRow(rows, u).entropy <= rows[j].entropy
  {
    var i := FirstIndex(rows, u);
    forall j | 0 <= j < |rows| && rows[j].uid == u ensures rows[i].entropy <= rows[j].entropy {
      if i < j {
        assert UidEntropyLe(rows[i], rows[j]);
      }
    }
  }

  lemma LastRowHasHighestEntropy(rows: seq<Profile>, u: int)
    requires Sorted(rows) && HasUser(rows, u)
    ensures forall j :: 0 <= j < |rows| && rows[j].uid == u ==> rows[j].entropy <= LastRow(rows, u).entropy
  {
    var i := LastIndex(rows, u);
    forall j | 0 <= j < |rows| && rows[j].uid == u ensures rows[j].entropy <= rows[i].entropy {
      if j < i {
        assert UidEntropyLe(rows[j], rows[i]);
      }
    }
  }

  /** The kept candidates are exactly the candidates labelled Significant or Transit. */
  lemma KeptMembers(candidates: seq<Profile>, p: Profile)
    ensures p in Kept(candidates) <==>
            p in candidates && (p.taxonomy == Clustering.Significant || p.taxonomy == Clustering.Transit)
  {
  }

  /** Every Significant row comes before every Transit row. */
  lemma SignificantBeforeTransit(candidates: seq<Profile>)
    ensures var r := Kept(candidates);
            forall i, j :: 0 <= i < j < |r| ==> !(r[i].taxonomy == Clustering.Transit && r[j].taxonomy == Clustering.Significant)
  {
    var s := WithTaxonomy(candidates, Clustering.Significant);
    var t := WithTaxonomy(candidates, Clustering.Transit);
    var r := s + t;
    forall i, j | 0 <= i < j < |r| ensures !(r[i].taxonomy == Clustering.Transit && r[j].taxonomy == Clustering.Significant) {
      if i < |s| {
        assert r[i] == s[i] && s[i] in s;
      } else {
        assert r[i] == t[i - |s|] && t[i - |s|] in t;
        assert r[j] == t[j - |s|] && t[j - |s|] in t;
      }
    }
  }

  predicate UniqueUsers(ps: seq<Profile>)
  {
    forall i, j :: 0 <= i < j < |ps| ==> ps[i].uid != ps[j].uid
  }

  lemma {:induction false} WithTaxonomyUniqueUsers(ps: seq<Profile>, t: Clustering.Taxonomy)
    requires UniqueUsers(ps)
    ensures UniqueUsers(WithTaxonomy(ps, t))
  {
    if ps != [] {
      var n := |ps| - 1;
      var w := WithTaxonomy(ps[..n], t);
      assert UniqueUsers(ps[..n]);
      WithTaxonomyUniqueUsers(ps[..n], t);
      if ps[n].taxonomy == t {
        forall x | 0 <= x < |w| ensures w[x].uid != ps[n].uid {
          var k := IndexOf(ps[..n], w[x]);
          assert ps[k] == w[x];
        }
        AppendUniqueUser(w, ps[n]);
      }
    }
  }

  lemma IndexOf(ps: seq<Profile>, p: Profile) returns (k: nat)
    requires p in ps
    ensures k < |ps| && ps[k] == p
  {
    k :| 0 <= k < |ps| && ps[k] == p;
  }

  lemma AppendUniqueUser(w: seq<Profile>, p: Profile)
    requires UniqueUsers(w)
    requires forall x :: 0 <= x < |w| ==> w[x].uid != p.uid
    ensures UniqueUsers(w + [p])
  {
    var r := w + [p];
    forall x, y | 0 <= x < y < |r| ensures r[x].uid != r[y].uid {
      assert r[x] == w[x];
    }
  }

  /** Kept candidates of distinct users stay distinct: each user appears at most once. */
  lemma KeptUniqueUsers(candidates: seq<Profile>)
    requires UniqueUsers(candidates)
    ensures UniqueUsers(Kept(candidates))
  {
    var s := WithTaxonomy(candidates, Clustering.Significant);
    var t := WithTaxonomy(candidates, Clustering.Transit);
    WithTaxonomyUniqueUsers(candidates, Clustering.Significant);
    WithTaxonomyUniqueUsers(candidates, Clustering.Transit);
    var r := s + t;
    forall i, j | 0 <= i < j < |r| ensures r[i].uid != r[j].uid {
      if i < |s| && |s| <= j {
        assert r[i] == s[i] && s[i] in s;
        assert r[j] == t[j - |s|] && t[j - |s|] in t;
        var a :| 0 <= a < |candidates| && candidates[a] == r[i];
        var b :| 0 <= b < |candidates| && candidates[b] == r[j];
        assert a != b;
      }
    }
  }

  /** There is at most one routine row and at most one non-routine row per user. */
  lemma OneRowPerUser(rows: seq<Profile>)
    ensures UniqueUsers(RoutineRows(rows)) && UniqueUsers(NonRoutineRows(rows))
  {
    var us := Users(rows);
    assert UniqueUsers(MinEntropy(rows)) by {
      forall x, y | 0 <= x < y < |us| ensures MinEntropy(rows)[x].uid != MinEntropy(rows)[y].uid {
      }
    }
    assert UniqueUsers(MaxEntropy(rows)) by {
      forall x, y | 0 <= x < y < |us| ensures MaxEntropy(rows)[x].uid != MaxEntropy(rows)[y].uid {
      }
    }
    KeptUniqueUsers(MinEntropy(rows));
    KeptUniqueUsers(MaxEntropy(rows));
  }

  /**
   * A user has a routine row exactly when their lowest-entropy row is Significant or Transit,
   * and that row is the one reported.
   */
  lemma RoutineMembership(table: seq<Profile>, u: int)
    ensures var rows := SortProfiles(table);
            (exists p :: p in RoutineRows(rows) && p.uid == u) <==>
            HasUser(rows, u) &&
            (FirstRow(rows, u).taxonomy == Clustering.Significant || FirstRow(rows, u).taxonomy == Clustering.Transit)
    ensures var rows := SortProfiles(table);
            forall p :: p in RoutineRows(rows) && p.uid == u ==> p == FirstRow(rows, u)
  {
    var rows := SortProfiles(table);
    forall p | p in RoutineRows(rows) && p.uid == u
      ensures HasUser(rows, u) && p == FirstRow(rows, u) &&
              (p.taxonomy == Clustering.Significant || p.taxonomy == Clustering.Transit)
    {
      KeptCandidate(rows, p, true);
    }
    if HasUser(rows, u) &&
       (FirstRow(rows, u).taxonomy == Clustering.Significant || FirstRow(rows, u).taxonomy == Clustering.Transit) {
      UserRoutineRow(rows, u);
    }
  }

  /** A user whose first row is Significant or Transit has that row among the routine rows. */
  lemma UserRoutineRow(rows: seq<Profile>, u: int)
    requires HasUser(rows, u)
    requires FirstRow(rows, u).taxonomy == Clustering.Significant || FirstRow(rows, u).taxonomy == Clustering.Transit
    ensures FirstRow(rows, u) in RoutineRows(rows)
  {
    var ms := MinEntropy(rows);
    var us := Users(rows);
    assert u in us;
    var k :| 0 <= k < |us| && us[k] == u;
    assert ms[k] == FirstRow(rows, u) && ms[k] in ms;
    KeptMembers(ms, ms[k]);
  }

  /** A kept candidate is the first (or last) row of one of the table's users. */
  lemma KeptCandidate(rows: seq<Profile>, p: Profile, lowest: bool)
    requires p in Kept(if lowest then MinEntropy(rows) else MaxEntropy(rows))
    ensures p.taxonomy == Clustering.Significant || p.taxonomy == Clustering.Transit
    ensures HasUser(rows, p.uid)
    ensures p == if lowest then FirstRow(rows, p.uid) else LastRow(rows, p.uid)
  {
    var ms := if lowest then MinEntropy(rows) else MaxEntropy(rows);
    KeptMembers(ms, p);
    var k :| 0 <= k < |ms| && ms[k] == p;
  }

  /** Sorting keeps the rows, so the sorted table's extremes bound every row of the original. */
  lemma SortedExtremes(table: seq<Profile>, u: int)
    requires HasUser(SortProfiles(table), u)
    ensures HasUser(table, u)
    ensures forall j :: 0 <= j < |table| && table[j].uid == u ==>
              FirstRow(SortProfiles(table), u).entropy <= table[j].entropy <= LastRow(SortProfiles(table), u).entropy
  {
    var rows := SortProfiles(table);
    FirstRowHasLowestEntropy(rows, u);
    LastRowHasHighestEntropy(rows, u);
    var i := FirstIndex(rows, u);
    assert rows[i] in multiset(table);
    forall j | 0 <= j < |table| && table[j].uid == u
      ensures FirstRow(rows, u).entropy <= table[j].entropy <= LastRow(rows, u).entropy
    {
      assert table[j] in multiset(rows);
      var m :| 0 <= m < |rows| && rows[m] == table[j];
    }
  }

  /**
   * A routine row is Significant or Transit and reports the user's lowest entropy over the
   * whole table; a non-routine row reports the highest.
   */
  lemma RoutineHasLowestEntropy(table: seq<Profile>, p: Profile)
    requires p in RoutineRows(SortProfiles(table))
    ensures p.taxonomy == Clustering.Significant || p.taxonomy == Clustering.Transit
    ensures HasUser(table, p.uid)
    ensures forall j :: 0 <= j < |table| && table[j].uid == p.uid ==> p.entropy <= table[j].entropy
  {
    KeptCandidate(SortProfiles(table), p, true);
    SortedExtremes(table, p.uid);
  }

  lemma NonRoutineHasHighestEntropy(table: seq<Profile>, p: Profile)
    requires p in NonRoutineRows(SortProfiles(table))
    ensures p.taxonomy == Clustering.Significant || p.taxonomy == Clustering.Transit
    ensures HasUser(table, p.uid)
    ensures forall j :: 0 <= j < |table| && table[j].uid == p.uid ==> table[j].entropy <= p.entropy
  {
    KeptCandidate(SortProfiles(table), p, false);
    SortedExtremes(table, p.uid);
  }

  /** For a user in both outputs, the routine entropy is at most the non-routine entropy. */
  lemma RoutineBelowNonRoutine(table: seq<Profile>, p: Profile, q: Profile)
    requires p in RoutineRows(SortProfiles(table)) && q in NonRoutineRows(SortProfiles(table))
    requires p.uid == q.uid
    ensures p.entropy <= q.entropy
  {
    RoutineHasLowestEntropy(table, p);
    NonRoutineHasHighestEntropy(table, q);
    var j :| 0 <= j < |table| && table[j].uid == p.uid;
  }

  // ---------------------------------------------------------------------------
  // The column selection as written

  /** The columns of `groupby(key).first()`: the key column becomes the index. */
  function GroupedColumns(columns: seq<string>, key: string): (r: seq<string>)
    ensures forall c :: c in r <==> c in columns && c != key
  {
    if columns == [] then []
    else
      var n := |columns| - 1;
      assert columns == columns[..n] + [columns[n]];
      GroupedColumns(columns[..n], key) + (if columns[n] == key then [] else [columns[n]])
  }

  /** `frame[wanted]`: a KeyError names the first requested column the frame lacks. */
  function SelectColumns(columns: seq<string>, wanted: seq<string>): (r: Result<seq<string>, string>)
    ensures r.Success? <==> forall c :: c in wanted ==> c in columns
    ensures r.Success? ==> r.value == wanted
    ensures r.Failure? ==> r.error in wanted && r.error !in columns
  {
    if wanted == [] then Success([])
    else if wanted[0] !in columns then Failure(wanted[0])
    else
      match SelectColumns(columns, wanted[1..])
      case Failure(e) => Failure(e)
      case Success(rest) =>
        assert wanted == [wanted[0]] + wanted[1..];
        Success([wanted[0]] + rest)
  }

  const ProfileColumns: seq<string> := ["uid", "taxonomy", "entropy", "diversity"]

  /**
   * As written, the final selection asks the grouped frame for 'uid', which `first()` has moved
   * into the index: the selection fails for every table. Keeping 'uid' as a column, as the
   * rows of `RoutineRows` do, makes it succeed.
   */
  lemma UidSelectionFails()
    ensures SelectColumns(GroupedColumns(ProfileColumns, "uid"), ProfileColumns) == Failure("uid")
    ensures SelectColumns(ProfileColumns, ProfileColumns) == Success(ProfileColumns)
  {
    assert "uid" !in GroupedColumns(ProfileColumns, "uid");
  }
}
