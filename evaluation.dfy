/**
 * Entropy and diversity per (user, taxonomy). The rows of the labelled table are grouped by
 * user and taxonomy. A group's diversity count is the number of distinct terms over all of
 * its context lists, and its diversity is that count over the user's total across taxonomies.
 * Its entropy is computed from how often each location occurs in the group; the entropy
 * formula itself is a parameter.
 */
module Evaluation {
  import opened Common
  import Sorting
  import Clustering

  /** A row of the labelled table: user, taxonomy label, location id and context terms. */
  datatype Labelled = Labelled(uid: int, taxonomy: Clustering.Taxonomy, category: int, context: seq<string>)

  /** One result row, after `reset_index`: the group key and its two measures. */
  datatype Profile = Profile(uid: int, taxonomy: Clustering.Taxonomy, entropy: real, diversity: Ratio)

  // ---------------------------------------------------------------------------
  // groupby([user, taxonomy])

  datatype Key = Key(uid: int, taxonomy: Clustering.Taxonomy)

  /** Group order: by user, then by the taxonomy's position among the categorical's labels. */
  predicate KeyLe(a: Key, b: Key)
  {
    a.uid < b.uid || (a.uid == b.uid && a.taxonomy.Rank() <= b.taxonomy.Rank())
  }

  lemma KeyOrder()
    ensures Sorting.Total(KeyLe) && Sorting.Transitive(KeyLe)
  {
  }

  function KeyOf(r: Labelled): Key
  {
    Key(r.uid, r.taxonomy)
  }

  function KeysOf(rows: seq<Labelled>): (ks: seq<Key>)
    ensures |ks| == |rows| && forall i :: 0 <= i < |rows| ==> ks[i] == KeyOf(rows[i])
  {
    seq(|rows|, i requires 0 <= i < |rows| => KeyOf(rows[i]))
  }

  /** The groups, each (user, taxonomy) pair present in the table once, in group order. */
  function Keys(rows: seq<Labelled>): (ks: seq<Key>)
    ensures forall k :: k in ks <==> exists i :: 0 <= i < |rows| && KeyOf(rows[i]) == k
    ensures forall x, y :: 0 <= x < y < |ks| ==> KeyLe(ks[x], ks[y]) && ks[x] != ks[y]
  {
    KeyOrder();
    Sorting.SortedKeys(KeysOf(rows), KeyLe)
  }

  /** The rows of group k, in table order. */
  function Members(rows: seq<Labelled>, k: Key): (ms: seq<Labelled>)
    ensures forall r :: r in ms <==> r in rows && KeyOf(r) == k
  {
    if rows == [] then []
    else
      var n := |rows| - 1;
      assert rows == rows[..n] + [rows[n]];
      Members(rows[..n], k) + (if KeyOf(rows[n]) == k then [rows[n]] else [])
  }

  // ---------------------------------------------------------------------------
  // Diversity

  /** The distinct terms of all the rows' context lists. */
  function Terms(rows: seq<Labelled>): (ts: set<string>)
    ensures forall t :: t in ts <==> exists i :: 0 <= i < |rows| && t in rows[i].context
  {
    if rows == [] then {}
    else
      var n := |rows| - 1;
      assert forall i :: 0 <= i < n ==> rows[..n][i] == rows[i];
      Terms(rows[..n]) + (set t | t in rows[n].context)
  }

  /** Each group's distinct-term count, in group order. */
  function TermCounts(rows: seq<Labelled>, ks: seq<Key>): (cs: seq<int>)
    ensures |cs| == |ks| && forall i :: 0 <= i < |ks| ==> cs[i] == |Terms(Members(rows, ks[i]))|
    ensures forall i :: 0 <= i < |cs| ==> cs[i] >= 0
  {
    seq(|ks|, i requires 0 <= i < |ks| => |Terms(Members(rows, ks[i]))|)
  }

  function KeyUids(ks: seq<Key>): (us: seq<int>)
    ensures |us| == |ks| && forall i :: 0 <= i < |ks| ==> us[i] == ks[i].uid
  {
    seq(|ks|, i requires 0 <= i < |ks| => ks[i].uid)
  }

  /** The user's distinct-term counts summed over their taxonomies. */
  function UserCount(rows: seq<Labelled>, u: int): int
  {
    var ks := Keys(rows);
    Clustering.UserTotal(KeyUids(ks), TermCounts(rows, ks), u)
  }

  /**
   * Each group's count divided by its user's total: the same per-user share `calculate_relevance`
   * takes of dwell time, undefined when the total is 0.
   */
  function Diversities(rows: seq<Labelled>): (ds: seq<Ratio>)
    ensures |ds| == |Keys(rows)|
  {
    var ks := Keys(rows);
    Clustering.Relevances(KeyUids(ks), TermCounts(rows, ks))
  }

  // ---------------------------------------------------------------------------
  // Category counts for the entropy

  predicate IntLe(a: int, b: int)
  {
    a <= b
  }

  predicate CountGe(a: nat, b: nat)
  {
    a >= b
  }

  lemma IntOrder()
    ensures Sorting.Total(IntLe) && Sorting.Transitive(IntLe) && Sorting.Antisymmetric(IntLe)
  {
  }

  lemma CountOrder()
    ensures Sorting.Total(CountGe) && Sorting.Transitive(CountGe) && Sorting.Antisymmetric(CountGe)
  {
  }

  function Categories(rows: seq<Labelled>): (cs: seq<int>)
    ensures |cs| == |rows| && forall i :: 0 <= i < |rows| ==> cs[i] == rows[i].category
  {
    seq(|rows|, i requires 0 <= i < |rows| => rows[i].category)
  }

  /** The distinct categories, ascending. */
  function CategoryKeys(cats: seq<int>): (ks: seq<int>)
    ensures forall c :: c in ks <==> c in cats
    ensures forall x, y :: 0 <= x < y < |ks| ==> ks[x] < ks[y]
  {
    IntOrder();
    Sorting.SortedKeys(cats, IntLe)
  }

  /** How often each distinct category occurs, categories taken in ascending order. */
  function Counts(cats: seq<int>): (cs: seq<nat>)
    ensures var ks := CategoryKeys(cats);
            |cs| == |ks| && forall i :: 0 <= i < |ks| ==> cs[i] == multiset(cats)[ks[i]] && cs[i] > 0
  {
    var ks := CategoryKeys(cats);
    var cs := seq(|ks|, i requires 0 <= i < |ks| => Occurrences(cats, ks[i]));
    forall i | 0 <= i < |ks| ensures cs[i] > 0 {
      assert ks[i] in ks && ks[i] in multiset(cats);
    }
    cs
  }

  /** `value_counts().values`: the occurrence counts, most frequent first. */
  function Histogram(cats: seq<int>): (h: seq<nat>)
    ensures multiset(h) == multiset(Counts(cats))
    ensures forall i, j :: 0 <= i < j < |h| ==> h[i] >= h[j]
  {
    CountOrder();
    var h := Sorting.SortBy(Counts(cats), CountGe);
    forall i, j | 0 <= i < j < |h| ensures h[i] >= h[j] {
      Sorting.SortedAll(h, CountGe, i, j);
    }
    h
  }

  /** The entropy of group k, computed from its histogram of locations. */
  function GroupEntropy(rows: seq<Labelled>, k: Key, entropy: seq<nat> -> real): real
  {
    entropy(Histogram(Categories(Members(rows, k))))
  }

  /** The rows' profiles: one per group, with the group's entropy and diversity. */
  function EntropyAndDiversity(rows: seq<Labelled>, entropy: seq<nat> -> real): (ps: seq<Profile>)
    ensures |ps| == |Keys(rows)|
    ensures forall i :: 0 <= i < |ps| ==>
              ps[i] == Profile(Keys(rows)[i].uid, Keys(rows)[i].taxonomy, GroupEntropy(rows, Keys(rows)[i], entropy), Diversities(rows)[i])
  {
    var ks := Keys(rows);
    var ds := Diversities(rows);
    seq(|ks|, i requires 0 <= i < |ks| => Profile(ks[i].uid, ks[i].taxonomy, GroupEntropy(rows, ks[i], entropy), ds[i]))
  }

  // ---------------------------------------------------------------------------
  // Properties

  /** There is a profile for a (user, taxonomy) pair exactly when the table has a row with that pair. */
  lemma ProfilesCoverPairs(rows: seq<Labelled>, entropy: seq<nat> -> real, u: int, t: Clustering.Taxonomy)
    ensures var ps := EntropyAndDiversity(rows, entropy);
            (exists i :: 0 <= i < |ps| && ps[i].uid == u && ps[i].taxonomy == t) <==>
            (exists j :: 0 <= j < |rows| && rows[j].uid == u && rows[j].taxonomy == t)
  {
    var ps := EntropyAndDiversity(rows, entropy);
    if exists j :: 0 <= j < |rows| && rows[j].uid == u && rows[j].taxonomy == t {
      var j :| 0 <= j < |rows| && rows[j].uid == u && rows[j].taxonomy == t;
      var i := RowProfile(rows, entropy, j);
    }
    if exists i :: 0 <= i < |ps| && ps[i].uid == u && ps[i].taxonomy == t {
      var i :| 0 <= i < |ps| && ps[i].uid == u && ps[i].taxonomy == t;
      var j := ProfileRow(rows, entropy, i);
    }
  }

  /** The profile of the group of row j. */
  lemma RowProfile(rows: seq<Labelled>, entropy: seq<nat> -> real, j: nat) returns (i: nat)
    requires j < |rows|
    ensures i < |EntropyAndDiversity(rows, entropy)|
    ensures EntropyAndDiversity(rows, entropy)[i].uid == rows[j].uid
    ensures EntropyAndDiversity(rows, entropy)[i].taxonomy == rows[j].taxonomy
  {
    var ks := Keys(rows);
    assert KeyOf(rows[j]) in ks;
    i :| 0 <= i < |ks| && ks[i] == KeyOf(rows[j]);
    ProfileKey(rows, entropy, i);
  }

  /** A row of the group of profile i. */
  lemma ProfileRow(rows: seq<Labelled>, entropy: seq<nat> -> real, i: nat) returns (j: nat)
    requires i < |EntropyAndDiversity(rows, entropy)|
    ensures j < |rows|
    ensures EntropyAndDiversity(rows, entropy)[i].uid == rows[j].uid
    ensures EntropyAndDiversity(rows, entropy)[i].taxonomy == rows[j].taxonomy
  {
    var ks := Keys(rows);
    ProfileKey(rows, entropy, i);
    assert ks[i] in ks;
    j :| 0 <= j < |rows| && KeyOf(rows[j]) == ks[i];
  }

  /** Profile i carries the user and taxonomy of group i. */
  lemma ProfileKey(rows: seq<Labelled>, entropy: seq<nat> -> real, i: nat)
    requires i < |Keys(rows)|
    ensures i < |EntropyAndDiversity(rows, entropy)|
    ensures EntropyAndDiversity(rows, entropy)[i].uid == Keys(rows)[i].uid
    ensures EntropyAndDiversity(rows, entropy)[i].taxonomy == Keys(rows)[i].taxonomy
  {
  }

  /** Profiles come in group order, by user and then by taxonomy, and no pair repeats. */
  lemma ProfilesOrdered(rows: seq<Labelled>, entropy: seq<nat> -> real)
    ensures var ps := EntropyAndDiversity(rows, entropy);
            forall x, y :: 0 <= x < y < |ps| ==>
              ps[x].uid < ps[y].uid || (ps[x].uid == ps[y].uid && ps[x].taxonomy.Rank() < ps[y].taxonomy.Rank())
  {
    var ps := EntropyAndDiversity(rows, entropy);
    var ks := Keys(rows);
    forall x, y | 0 <= x < y < |ps|
      ensures ps[x].uid < ps[y].uid || (ps[x].uid == ps[y].uid && ps[x].taxonomy.Rank() < ps[y].taxonomy.Rank())
    {
      assert KeyLe(ks[x], ks[y]) && ks[x] != ks[y];
      if ks[x].taxonomy.Rank() == ks[y].taxonomy.Rank() {
        Clustering.RankInjective(ks[x].taxonomy, ks[y].taxonomy);
      }
    }
  }

  /** A group's diversity count is the number of distinct terms across its rows' context lists. */
  lemma DiversityCountIsDistinctTerms(rows: seq<Labelled>, k: Key, term: string)
    ensures term in Terms(Members(rows, k)) <==>
            exists j :: 0 <= j < |rows| && KeyOf(rows[j]) == k && term in rows[j].context
  {
    var ms := Members(rows, k);
    if term in Terms(ms) {
      var i :| 0 <= i < |ms| && term in ms[i].context;
      assert ms[i] in rows;
    }
    if exists j :: 0 <= j < |rows| && KeyOf(rows[j]) == k && term in rows[j].context {
      var j :| 0 <= j < |rows| && KeyOf(rows[j]) == k && term in rows[j].context;
      assert rows[j] in ms;
    }
  }

  /**
   * Diversity is undefined exactly when the user's total count is 0; otherwise it lies in
   * [0, 1] and the user's diversities add up to 1.
   */
  lemma DiversityIsShare(rows: seq<Labelled>, entropy: seq<nat> -> real, i: nat)
    requires i < |EntropyAndDiversity(rows, entropy)|
    ensures var p := EntropyAndDiversity(rows, entropy)[i];
            (p.diversity.Undefined? <==> UserCount(rows, p.uid) == 0) &&
            (p.diversity.Finite? ==> 0.0 <= p.diversity.value <= 1.0)
  {
    var ks := Keys(rows);
    var p := EntropyAndDiversity(rows, entropy)[i];
    ProfileDiversity(rows, entropy, i);
    CountShare(KeyUids(ks), TermCounts(rows, ks), i, p.diversity, UserCount(rows, p.uid));
  }

  /** A share of non-negative counts is undefined exactly on a zero total, and otherwise in [0, 1]. */
  lemma CountShare(us: seq<int>, cs: seq<int>, i: nat, d: Ratio, total: int)
    requires |us| == |cs| && i < |us|
    requires forall j :: 0 <= j < |cs| ==> cs[j] >= 0
    requires d == Clustering.Relevance(us, cs, i) && total == Clustering.UserTotal(us, cs, us[i])
    ensures d.Undefined? <==> total == 0
    ensures d.Finite? ==> 0.0 <= d.value <= 1.0
  {
    Clustering.RelevanceInUnitInterval(us, cs, i);
  }

  /** A profile's diversity is its group's share of the user's count. */
  lemma ProfileDiversity(rows: seq<Labelled>, entropy: seq<nat> -> real, i: nat)
    requires i < |EntropyAndDiversity(rows, entropy)|
    ensures var ks := Keys(rows);
            var p := EntropyAndDiversity(rows, entropy)[i];
            p.uid == KeyUids(ks)[i] &&
            p.diversity == Clustering.Relevance(KeyUids(ks), TermCounts(rows, ks), i) &&
            UserCount(rows, p.uid) == Clustering.UserTotal(KeyUids(ks), TermCounts(rows, ks), KeyUids(ks)[i])
  {
    var ks := Keys(rows);
    var cs := TermCounts(rows, ks);
    var us := KeyUids(ks);
    assert Diversities(rows)[i] == Clustering.Relevances(us, cs)[i];
  }

  function ProfileUids(ps: seq<Profile>): (us: seq<int>)
    ensures |us| == |ps| && forall i :: 0 <= i < |ps| ==> us[i] == ps[i].uid
  {
    seq(|ps|, i requires 0 <= i < |ps| => ps[i].uid)
  }

  function ProfileDiversities(ps: seq<Profile>): (ds: seq<Ratio>)
    ensures |ds| == |ps| && forall i :: 0 <= i < |ps| ==> ds[i] == ps[i].diversity
  {
    seq(|ps|, i requires 0 <= i < |ps| => ps[i].diversity)
  }

  lemma DiversitySumsToOne(rows: seq<Labelled>, entropy: seq<nat> -> real, u: int)
    requires UserCount(rows, u) != 0
    ensures var ps := EntropyAndDiversity(rows, entropy);
            SumReal(Clustering.UserRelevances(ProfileUids(ps), ProfileDiversities(ps), u)) == 1.0
  {
    var ps := EntropyAndDiversity(rows, entropy);
    var ks := Keys(rows);
    var cs := TermCounts(rows, ks);
    assert ProfileUids(ps) == KeyUids(ks);
    assert ProfileDiversities(ps) == Clustering.Relevances(KeyUids(ks), cs);
    Clustering.RelevanceSumsToOne(KeyUids(ks), cs, u);
  }

  /** A group whose context lists are all empty counts 0 terms, so its diversity is 0 (or undefined with the user's total). */
  lemma EmptyContextsGiveZero(rows: seq<Labelled>, entropy: seq<nat> -> real, i: nat)
    requires i < |EntropyAndDiversity(rows, entropy)|
    requires forall j :: 0 <= j < |rows| && KeyOf(rows[j]) == Keys(rows)[i] ==> rows[j].context == []
    ensures var p := EntropyAndDiversity(rows, entropy)[i];
            p.diversity == (if UserCount(rows, p.uid) == 0 then Undefined else Finite(0.0))
  {
    var ks := Keys(rows);
    var cs := TermCounts(rows, ks);
    NoTerms(rows, ks[i]);
    ProfileDiversity(rows, entropy, i);
    Clustering.ZeroRelevance(KeyUids(ks), cs, i);
  }

  lemma NoTerms(rows: seq<Labelled>, k: Key)
    requires forall j :: 0 <= j < |rows| && KeyOf(rows[j]) == k ==> rows[j].context == []
    ensures Terms(Members(rows, k)) == {}
  {
  }

  /** Reordering the rows of a group leaves its category counts, and so its entropy, unchanged. */
  lemma CountsIgnoreRowOrder(a: seq<int>, b: seq<int>)
    requires multiset(a) == multiset(b)
    ensures Counts(a) == Counts(b)
  {
    IntOrder();
    forall x ensures x in a <==> x in b {
      assert x in a <==> x in multiset(a);
      assert x in b <==> x in multiset(b);
    }
    Sorting.SortedKeysDetermined(a, b, IntLe);
    assert CategoryKeys(a) == CategoryKeys(b);
  }

  /**
   * The entropy sees only the occurrence counts: two groups whose locations occur equally often,
   * whatever the locations are, get the same histogram and so the same entropy.
   */
  lemma EntropyDependsOnlyOnCounts(a: seq<int>, b: seq<int>, entropy: seq<nat> -> real)
    requires multiset(Counts(a)) == multiset(Counts(b))
    ensures Histogram(a) == Histogram(b)
    ensures entropy(Histogram(a)) == entropy(Histogram(b))
  {
    CountOrder();
    var ha := Histogram(a);
    var hb := Histogram(b);
    assert Sorting.SortedBy(ha, CountGe);
    assert Sorting.SortedBy(hb, CountGe);
    Sorting.SortedPermutationsEqual(ha, hb, CountGe);
  }
}
