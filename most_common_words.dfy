/**
 * The term pivot. The labelled table is summed per (user, taxonomy); the result is a table
 * with one row per user and one column per vocabulary term and taxonomy. A cell holds entry i
 * of the pair's summed bag_of_words, where i is the term's vocabulary position, or 0 where
 * the pair is absent. The bags are Python lists, so the sum concatenates them and entry i is
 * the count in the pair's first location; the summed bag is therefore an input here.
 */
module MostCommonWords {
  import opened Common
  import Sorting
  import Clustering
  import Evaluation

  /** A summed bag_of_words cell: a plain number when no vector was summed, else the vector. */
  datatype BagValue = Scalar(n: int) | Vector(counts: seq<int>)

  /** A row of the per-(user, taxonomy) sum. */
  datatype Aggregate = Aggregate(uid: int, taxonomy: Clustering.Taxonomy, bag: BagValue)

  /** A column of the pivot: the user id, or one term under one taxonomy. */
  datatype Column = Uid | Term(name: string, taxonomy: Clustering.Taxonomy)
  {
    /** The column's label in the written table. */
    function Label(): string
    {
      match this
      case Uid => "uid"
      case Term(n, t) => n + "_" + t.Name()
    }
  }

  /** Indexing a summed vector past its end. */
  datatype PivotError = IndexError(uid: int, taxonomy: Clustering.Taxonomy, position: nat)

  datatype Table = Table(columns: seq<Column>, rows: seq<map<Column, int>>)

  // ---------------------------------------------------------------------------
  // Columns

  function TaxonomiesOf(frame: seq<Evaluation.Key>): (ts: seq<Clustering.Taxonomy>)
    ensures |ts| == |frame| && forall i :: 0 <= i < |frame| ==> ts[i] == frame[i].taxonomy
  {
    seq(|frame|, i requires 0 <= i < |frame| => frame[i].taxonomy)
  }

  /** One column per term and taxonomy, term-major. */
  function TermColumns(names: seq<string>, taxa: seq<Clustering.Taxonomy>): (cs: seq<Column>)
    ensures forall c :: c in cs <==> c.Term? && c.name in names && c.taxonomy in taxa
  {
    if names == [] then []
    else
      var first := seq(|taxa|, j requires 0 <= j < |taxa| => Term(names[0], taxa[j]));
      forall c: Column | c.Term? && c.name == names[0] && c.taxonomy in taxa ensures c in first {
        var j :| 0 <= j < |taxa| && taxa[j] == c.taxonomy;
        assert first[j] == c;
      }
      assert names == [names[0]] + names[1..];
      first + TermColumns(names[1..], taxa)
  }

  /** 'uid', then a column for every term and every taxonomy value of the frame. */
  function Header(names: seq<string>, frame: seq<Evaluation.Key>): seq<Column>
  {
    [Uid] + TermColumns(names, Unique(TaxonomiesOf(frame)))
  }

  // ---------------------------------------------------------------------------
  // groupby([user, taxonomy])['bag_of_words'].sum()

  /** The per-group sums in group order; the sum of each group's vectors is given as `bagOf`. */
  function Aggregated(frame: seq<Evaluation.Key>, bagOf: Evaluation.Key -> BagValue): (df: seq<Aggregate>)
    ensures forall i :: 0 <= i < |df| ==>
              Evaluation.Key(df[i].uid, df[i].taxonomy) in frame && df[i].bag == bagOf(Evaluation.Key(df[i].uid, df[i].taxonomy))
    ensures forall k :: k in frame ==> exists i :: 0 <= i < |df| && df[i].uid == k.uid && df[i].taxonomy == k.taxonomy
    ensures forall i, j :: 0 <= i < j < |df| ==> df[i].uid != df[j].uid || df[i].taxonomy != df[j].taxonomy
  {
    Evaluation.KeyOrder();
    var ks := Sorting.SortedKeys(frame, Evaluation.KeyLe);
    AggregateRowsKeys(frame, ks, bagOf);
    AggregateRows(ks, bagOf)
  }

  /** One summed row per key, in the keys' order. */
  function AggregateRows(ks: seq<Evaluation.Key>, bagOf: Evaluation.Key -> BagValue): (df: seq<Aggregate>)
    ensures |df| == |ks|
    ensures forall i :: 0 <= i < |ks| ==> df[i] == Aggregate(ks[i].uid, ks[i].taxonomy, bagOf(ks[i]))
  {
    seq(|ks|, i requires 0 <= i < |ks| => Aggregate(ks[i].uid, ks[i].taxonomy, bagOf(ks[i])))
  }

  /** Rows built from the distinct keys of the frame cover its pairs once each. */
  lemma AggregateRowsKeys(frame: seq<Evaluation.Key>, ks: seq<Evaluation.Key>, bagOf: Evaluation.Key -> BagValue)
    requires forall g :: g in ks <==> g in frame
    requires forall x, y :: 0 <= x < y < |ks| ==> ks[x] != ks[y]
    ensures var df := AggregateRows(ks, bagOf);
            forall i :: 0 <= i < |df| ==>
              Evaluation.Key(df[i].uid, df[i].taxonomy) in frame && df[i].bag == bagOf(Evaluation.Key(df[i].uid, df[i].taxonomy))
    ensures var df := AggregateRows(ks, bagOf);
            forall k :: k in frame ==> exists i :: 0 <= i < |df| && df[i].uid == k.uid && df[i].taxonomy == k.taxonomy
    ensures var df := AggregateRows(ks, bagOf);
            forall i, j :: 0 <= i < j < |df| ==> df[i].uid != df[j].uid || df[i].taxonomy != df[j].taxonomy
  {
    var df := AggregateRows(ks, bagOf);
    forall i | 0 <= i < |df|
      ensures Evaluation.Key(df[i].uid, df[i].taxonomy) in frame && df[i].bag == bagOf(Evaluation.Key(df[i].uid, df[i].taxonomy))
    {
      assert Evaluation.Key(df[i].uid, df[i].taxonomy) == ks[i] && ks[i] in ks;
    }
    forall k | k in frame ensures exists i :: 0 <= i < |df| && df[i].uid == k.uid && df[i].taxonomy == k.taxonomy {
      var i :| 0 <= i < |ks| && ks[i] == k;
      assert df[i].uid == k.uid && df[i].taxonomy == k.taxonomy;
    }
    forall i, j | 0 <= i < j < |df| ensures df[i].uid != df[j].uid || df[i].taxonomy != df[j].taxonomy {
      assert ks[i] != ks[j];
      assert ks[i] == Evaluation.Key(df[i].uid, df[i].taxonomy) && ks[j] == Evaluation.Key(df[j].uid, df[j].taxonomy);
    }
  }

  function UidsOf(df: seq<Aggregate>): (us: seq<int>)
    ensures |us| == |df| && forall i :: 0 <= i < |df| ==> us[i] == df[i].uid
  {
    seq(|df|, i requires 0 <= i < |df| => df[i].uid)
  }

  function TaxaOf(df: seq<Aggregate>): (ts: seq<Clustering.Taxonomy>)
    ensures |ts| == |df| && forall i :: 0 <= i < |df| ==> ts[i] == df[i].taxonomy
  {
    seq(|df|, i requires 0 <= i < |df| => df[i].taxonomy)
  }

  /** `df[(user == u) & (cluster == t)].iloc[0]`, when there is such a row. */
  function Find(df: seq<Aggregate>, u: int, t: Clustering.Taxonomy): (r: Option<BagValue>)
    ensures r.Some? <==> exists i :: 0 <= i < |df| && df[i].uid == u && df[i].taxonomy == t
    ensures r.Some? ==> exists i :: 0 <= i < |df| && df[i].uid == u && df[i].taxonomy == t && df[i].bag == r.value
  {
    if df == [] then None
    else if df[0].uid == u && df[0].taxonomy == t then Some(df[0].bag)
    else
      assert forall i :: 1 <= i < |df| ==> df[1..][i - 1] == df[i];
      Find(df[1..], u, t)
  }

  /** The vector user u summed for taxonomy t, if the sum is a vector. */
  function VectorOf(df: seq<Aggregate>, u: int, t: Clustering.Taxonomy): Option<seq<int>>
  {
    match Find(df, u, t)
    case Some(Vector(v)) => Some(v)
    case _ => None
  }

  /** The position of the last occurrence of x in s. */
  function LastIndexOf<T(==)>(s: seq<T>, x: T): (i: nat)
    requires x in s
    ensures i < |s| && s[i] == x && forall j :: i < j < |s| ==> s[j] != x
  {
    var n := |s| - 1;
    if s[n] == x then n
    else
      assert x in s[..n] by {
        var k :| 0 <= k < |s| && s[k] == x;
        assert s[..n][k] == x;
      }
      LastIndexOf(s[..n], x)
  }

  /** Some summed vector is too short to index with every term. */
  predicate ShortVector(df: seq<Aggregate>, names: seq<string>)
  {
    exists i :: 0 <= i < |df| && df[i].bag.Vector? && |df[i].bag.counts| < |names|
  }

  /** The vector of user u for taxonomy t, if any, can be indexed with every term. */
  predicate LongEnough(df: seq<Aggregate>, names: seq<string>, u: int, t: Clustering.Taxonomy)
  {
    VectorOf(df, u, t).Some? ==> |VectorOf(df, u, t).value| >= |names|
  }

  /**
   * The final content of user u's cell in column c: the user id, or the vector entry of the
   * term (the last position holding that name, since a later write replaces an earlier one),
   * or the 0 `fillna` writes where nothing was written.
   */
  function Cell(df: seq<Aggregate>, names: seq<string>, u: int, c: Column): int
  {
    match c
    case Uid => u
    case Term(n, t) =>
      if n in names && VectorOf(df, u, t).Some? && |VectorOf(df, u, t).value| >= |names| then
        VectorOf(df, u, t).value[LastIndexOf(names, n)]
      else 0
  }

  /** `fillna(0)` over the table's columns. */
  function Fill(columns: seq<Column>, data: map<Column, int>): (row: map<Column, int>)
    ensures forall c :: c in row <==> c in columns
    ensures forall c :: c in columns ==> row[c] == if c in data then data[c] else 0
  {
    map c | c in columns :: if c in data then data[c] else 0
  }

  /** The dictionary of user u once the taxonomies ts have been visited. */
  ghost predicate Holds(data: map<Column, int>, df: seq<Aggregate>, names: seq<string>, u: int, ts: seq<Clustering.Taxonomy>)
  {
    Uid in data && data[Uid] == u &&
    (forall c: Column :: c.Term? ==> (c in data <==> c.name in names && c.taxonomy in ts && VectorOf(df, u, c.taxonomy).Some?)) &&
    (forall t :: t in ts ==> LongEnough(df, names, u, t)) &&
    (forall c :: c in data && c.Term? ==> data[c] == Cell(df, names, u, c))
  }

  /** Find on the summed table returns the row of the pair: keys are distinct. */
  lemma FindRow(df: seq<Aggregate>, i: nat)
    requires i < |df|
    requires forall x, y :: 0 <= x < y < |df| ==> df[x].uid != df[y].uid || df[x].taxonomy != df[y].taxonomy
    ensures Find(df, df[i].uid, df[i].taxonomy) == Some(df[i].bag)
  {
    var r := Find(df, df[i].uid, df[i].taxonomy);
    var x :| 0 <= x < |df| && df[x].uid == df[i].uid && df[x].taxonomy == df[i].taxonomy && df[x].bag == r.value;
    assert x == i;
  }

  /** The row looked up for (u, t) holds the sum of the pair's vectors; there is none for a pair absent from the frame. */
  lemma FindAggregated(frame: seq<Evaluation.Key>, bagOf: Evaluation.Key -> BagValue, u: int, t: Clustering.Taxonomy)
    ensures Find(Aggregated(frame, bagOf), u, t) ==
            if Evaluation.Key(u, t) in frame then Some(bagOf(Evaluation.Key(u, t))) else None
  {
    var df := Aggregated(frame, bagOf);
    if Evaluation.Key(u, t) in frame {
      var i :| 0 <= i < |df| && df[i].uid == u && df[i].taxonomy == t;
      FindRow(df, i);
    }
  }

  /** Appending y moves the last occurrence of y to the end and keeps every other one. */
  lemma LastIndexOfSnoc<T>(s: seq<T>, y: T, x: T)
    requires x in s + [y]
    ensures x != y ==> x in s && LastIndexOf(s + [y], x) == LastIndexOf(s, x)
    ensures x == y ==> LastIndexOf(s + [y], x) == |s|
  {
    var t := s + [y];
    if x != y {
      var k :| 0 <= k < |t| && t[k] == x;
      assert s[k] == x;
      var a := LastIndexOf(t, x);
      var b := LastIndexOf(s, x);
      assert t[b] == x;
      assert a < |s|;
      assert s[a] == x;
    }
  }

  // ---------------------------------------------------------------------------
  // Properties of the pivot's columns and cells

  /** The header holds 'uid' and exactly the (term, taxonomy) pairs of the vocabulary and the frame. */
  lemma HeaderColumns(names: seq<string>, frame: seq<Evaluation.Key>, c: Column)
    ensures c in Header(names, frame) <==>
            c == Uid || (c.Term? && c.name in names && exists k :: k in frame && k.taxonomy == c.taxonomy)
  {
    var ts := TaxonomiesOf(frame);
    var u := Unique(ts);
    if c.Term? {
      if c.taxonomy in u {
        var j :| 0 <= j < |u| && u[j] == c.taxonomy;
        var x :| 0 <= x < |ts| && ts[x] == u[j];
        assert frame[x] in frame;
      }
      if k :| k in frame && k.taxonomy == c.taxonomy {
        var x :| 0 <= x < |frame| && frame[x] == k;
        assert ts[x] in u;
      }
    }
  }

  /** Without repeated taxonomies and terms, no column is listed twice. */
  lemma {:induction false} TermColumnsDistinct(names: seq<string>, taxa: seq<Clustering.Taxonomy>)
    requires Distinct(names) && Distinct(taxa)
    ensures Distinct(TermColumns(names, taxa))
  {
    if names != [] {
      var first := seq(|taxa|, j requires 0 <= j < |taxa| => Term(names[0], taxa[j]));
      var rest := TermColumns(names[1..], taxa);
      TermColumnsDistinct(names[1..], taxa);
      assert names[0] !in names[1..];
      assert TermColumns(names, taxa) == first + rest;
      forall x, y | 0 <= x < y < |first + rest| ensures (first + rest)[x] != (first + rest)[y] {
        if y >= |first| && x < |first| {
          assert (first + rest)[y] in rest;
        }
      }
    }
  }

  /** Every column is listed once when the vocabulary has no repeated term. */
  lemma HeaderDistinct(names: seq<string>, frame: seq<Evaluation.Key>)
    requires Distinct(names)
    ensures Distinct(Header(names, frame))
  {
    var tc := TermColumns(names, Unique(TaxonomiesOf(frame)));
    TermColumnsDistinct(names, Unique(TaxonomiesOf(frame)));
    assert Uid !in tc;
    assert Header(names, frame) == [Uid] + tc;
  }

  /** If a + x == b + y and x is not longer than y, then x is the tail of y. */
  lemma SuffixOf(a: string, x: string, b: string, y: string)
    requires a + x == b + y && |x| <= |y|
    ensures x == y[|y| - |x|..]
    ensures x != [] ==> x[0] == y[|y| - |x|]
  {
    var n := |a + x|;
    forall i | 0 <= i < |x| ensures x[i] == y[|y| - |x| + i] {
      assert (a + x)[|a| + i] == (b + y)[|b| + |y| - |x| + i];
    }
  }

  lemma NameLength(t: Clustering.Taxonomy)
    ensures |t.Name()| >= 17
  {
  }

  /** Term labels whose taxonomy names end differently cannot coincide. */
  lemma LabelsDiffer(n: string, p: string, m: string, q: string)
    requires |p| < |q| && q[|q| - |p| - 1] != '_'
    ensures n + "_" + p != m + "_" + q
  {
    if n + "_" + p == m + "_" + q {
      assert n + "_" + p == n + ("_" + p) && m + "_" + q == m + ("_" + q);
      SuffixOf(n, "_" + p, m, "_" + q);
    }
  }

  /** Term labels with the same taxonomy name coincide only for the same term. */
  lemma SameSuffix(n: string, m: string, p: string)
    requires n + "_" + p == m + "_" + p
    ensures n == m
  {
    assert n == (n + "_" + p)[..|n|];
    assert m == (m + "_" + p)[..|m|];
  }

  /** Distinct columns get distinct labels, so the written table never merges two columns. */
  lemma LabelInjective(c: Column, d: Column)
    requires c.Label() == d.Label()
    ensures c == d
  {
    match (c, d)
    case (Term(n, s), Term(m, t)) =>
      TermLabelsInjective(n, s, m, t);
    case (Term(n, s), Uid) =>
      NameLength(s);
    case (Uid, Term(m, t)) =>
      NameLength(t);
    case (Uid, Uid) =>
  }

  /** Two term labels coincide only for the same term under the same taxonomy. */
  lemma TermLabelsInjective(n: string, s: Clustering.Taxonomy, m: string, t: Clustering.Taxonomy)
    requires n + "_" + s.Name() == m + "_" + t.Name()
    ensures n == m && s == t
  {
    NoUnderscore(s);
    NoUnderscore(t);
    SplitLabel(n, s.Name(), m, t.Name());
    if s != t {
      NamesDiffer(s, t);
    }
  }

  /** No taxonomy name contains '_'. */
  lemma NoUnderscore(t: Clustering.Taxonomy)
    ensures '_' !in t.Name()
  {
  }

  /** Different taxonomies have names of different lengths. */
  lemma NamesDiffer(s: Clustering.Taxonomy, t: Clustering.Taxonomy)
    requires s != t
    ensures s.Name() != t.Name()
  {
    assert |s.Name()| != |t.Name()|;
  }

  /**
   * Labels n_p and m_q, where neither p nor q holds '_', split the same way only when the
   * terms and the suffixes agree.
   */
  lemma SplitLabel(n: string, p: string, m: string, q: string)
    requires n + "_" + p == m + "_" + q
    requires '_' !in p && '_' !in q
    ensures n == m && p == q
  {
    if |p| < |q| {
      assert q[|q| - |p| - 1] in q;
      LabelsDiffer(n, p, m, q);
    } else if |q| < |p| {
      assert p[|p| - |q| - 1] in p;
      LabelsDiffer(m, q, n, p);
    } else {
      SuffixOf(n + "_", p, m + "_", q);
      assert n + "_" + p == (n + "_") + p && m + "_" + q == (m + "_") + q;
      assert |n| == |m|;
      SameSuffix(n, m, p);
    }
  }

  /** With a vocabulary of distinct terms, the written header repeats no label. */
  lemma HeaderLabelsDistinct(names: seq<string>, frame: seq<Evaluation.Key>)
    requires Distinct(names)
    ensures var h := Header(names, frame); forall i, j :: 0 <= i < j < |h| ==> h[i].Label() != h[j].Label()
  {
    var h := Header(names, frame);
    HeaderDistinct(names, frame);
    forall i, j | 0 <= i < j < |h| ensures h[i].Label() != h[j].Label() {
      if h[i].Label() == h[j].Label() {
        LabelInjective(h[i], h[j]);
      }
    }
  }

  /** The pivot has a row for exactly the users of the frame. */
  lemma PivotUsers(frame: seq<Evaluation.Key>, bagOf: Evaluation.Key -> BagValue, u: int)
    ensures u in Unique(UidsOf(Aggregated(frame, bagOf))) <==> exists k :: k in frame && k.uid == u
  {
    var df := Aggregated(frame, bagOf);
    var us := UidsOf(df);
    if u in Unique(us) {
      var x :| 0 <= x < |Unique(us)| && Unique(us)[x] == u;
      var i :| 0 <= i < |us| && us[i] == u;
      assert Evaluation.Key(df[i].uid, df[i].taxonomy) in frame;
    }
    if k :| k in frame && k.uid == u {
      var i :| 0 <= i < |df| && df[i].uid == k.uid && df[i].taxonomy == k.taxonomy;
      assert us[i] in Unique(us);
    }
  }

  /**
   * The cell of term names[i] under taxonomy t: with a vocabulary of distinct terms, it is the
   * i-th entry of the user's summed vector for t when that vector covers the vocabulary, and 0
   * when the user has no locations of that taxonomy or the sum is a plain number.
   */
  lemma CellOfFrame(frame: seq<Evaluation.Key>, bagOf: Evaluation.Key -> BagValue, names: seq<string>,
                    u: int, t: Clustering.Taxonomy, i: nat)
    requires Distinct(names) && i < |names|
    ensures var df, k := Aggregated(frame, bagOf), Evaluation.Key(u, t);
            Cell(df, names, u, Term(names[i], t)) ==
              if k in frame && bagOf(k).Vector? && |bagOf(k).counts| >= |names| then bagOf(k).counts[i] else 0
  {
    FindAggregated(frame, bagOf, u, t);
    assert names[i] in names;
    var j := LastIndexOf(names, names[i]);
    assert j == i;
  }

  // ---------------------------------------------------------------------------
  // save_most_common_words

  /**
   * The innermost loop: user_data[name_t] = bag[i] for every term in order. It fails with an
   * IndexError at the first position past the end of a vector shorter than the vocabulary.
   */
  method WriteTerms(data: map<Column, int>, names: seq<string>, u: int, t: Clustering.Taxonomy, v: seq<int>)
    returns (r: Result<map<Column, int>, PivotError>)
    ensures r.Failure? <==> |v| < |names|
    ensures r.Failure? ==> r.error == IndexError(u, t, |v|)
    ensures r.Success? ==> forall c :: c in r.value <==> c in data || (c.Term? && c.taxonomy == t && c.name in names)
    ensures r.Success? ==> forall c :: c in data && !(c.Term? && c.taxonomy == t) ==> r.value[c] == data[c]
    ensures r.Success? ==> forall n :: n in names ==> r.value[Term(n, t)] == v[LastIndexOf(names, n)]
  {
    var out := data;
    var i := 0;
    while i < |names|
      invariant i <= |names| && i <= |v|
      invariant forall c :: c in out <==> c in data || (c.Term? && c.taxonomy == t && c.name in names[..i])
      invariant forall c :: c in data && !(c.Term? && c.taxonomy == t) ==> out[c] == data[c]
      invariant forall n :: n in names[..i] ==> out[Term(n, t)] == v[LastIndexOf(names[..i], n)]
    {
      if i >= |v| {
        return Failure(IndexError(u, t, i));
      }
      assert names[..i + 1] == names[..i] + [names[i]];
      forall n | n in names[..i + 1]
        ensures n != names[i] ==> n in names[..i] && LastIndexOf(names[..i + 1], n) == LastIndexOf(names[..i], n)
        ensures n == names[i] ==> LastIndexOf(names[..i + 1], n) == i
      {
        LastIndexOfSnoc(names[..i], names[i], n);
      }
      out := out[Term(names[i], t) := v[i]];
      i := i + 1;
    }
    assert names[..i] == names;
    return Success(out);
  }

  /**
   * The loop over taxonomies for one user: the dictionary {'uid': u} extended with the terms of
   * every taxonomy for which the user's summed bag is a vector.
   */
  method UserData(df: seq<Aggregate>, names: seq<string>, u: int, taxa: seq<Clustering.Taxonomy>)
    returns (r: Result<map<Column, int>, PivotError>)
    requires Distinct(taxa)
    ensures r.Failure? <==> exists t :: t in taxa && !LongEnough(df, names, u, t)
    ensures r.Failure? ==>
              r.error.uid == u && r.error.taxonomy in taxa && VectorOf(df, u, r.error.taxonomy).Some? &&
              |VectorOf(df, u, r.error.taxonomy).value| == r.error.position < |names|
    ensures r.Success? ==> Holds(r.value, df, names, u, taxa)
  {
    var data := map[Uid := u];
    var j := 0;
    while j < |taxa|
      invariant j <= |taxa|
      invariant Holds(data, df, names, u, taxa[..j])
    {
      var t := taxa[j];
      assert taxa[..j + 1] == taxa[..j] + [t];
      assert t !in taxa[..j];
      var found := Find(df, u, t);
      if found.Some? && found.value.Vector? {
        var v := found.value.counts;
        assert VectorOf(df, u, t) == Some(v);
        var w := WriteTerms(data, names, u, t, v);
        if w.Failure? {
          assert t in taxa && !LongEnough(df, names, u, t);
          return Failure(w.error);
        }
        data := w.value;
      } else {
        assert VectorOf(df, u, t).None?;
      }
      j := j + 1;
    }
    assert taxa[..j] == taxa;
    return Success(data);
  }

  /** After fillna(0), a visited user's row holds Cell in every column of the header. */
  lemma FilledRow(df: seq<Aggregate>, names: seq<string>, u: int, taxa: seq<Clustering.Taxonomy>,
                  data: map<Column, int>, columns: seq<Column>)
    requires Holds(data, df, names, u, taxa)
    requires forall i :: 0 <= i < |df| ==> df[i].taxonomy in taxa
    ensures forall c :: c in columns ==> Fill(columns, data)[c] == Cell(df, names, u, c)
  {
    forall c | c in columns ensures Fill(columns, data)[c] == Cell(df, names, u, c) {
      if c.Term? && c !in data && VectorOf(df, u, c.taxonomy).Some? {
        var x :| 0 <= x < |df| && df[x].uid == u && df[x].taxonomy == c.taxonomy;
        assert c.taxonomy in taxa;
      }
    }
  }

  /** Row k belongs to users[k] and holds Cell in every column of the table, and in no other. */
  ghost predicate Pivot(df: seq<Aggregate>, names: seq<string>, users: seq<int>, table: Table)
  {
    |table.rows| == |users| &&
    forall k :: 0 <= k < |users| ==>
      (forall c :: c in table.rows[k] <==> c in table.columns) &&
      (forall c :: c in table.columns ==> table.rows[k][c] == Cell(df, names, users[k], c))
  }

  /** When every visited pair has a long enough vector, no summed vector is short. */
  lemma NoShortVector(df: seq<Aggregate>, names: seq<string>, users: seq<int>, taxa: seq<Clustering.Taxonomy>)
    requires forall x, y :: 0 <= x < y < |df| ==> df[x].uid != df[y].uid || df[x].taxonomy != df[y].taxonomy
    requires forall i :: 0 <= i < |df| ==> df[i].uid in users && df[i].taxonomy in taxa
    requires forall u, t :: u in users && t in taxa ==> LongEnough(df, names, u, t)
    ensures !ShortVector(df, names)
  {
    forall i | 0 <= i < |df| && df[i].bag.Vector? ensures |df[i].bag.counts| >= |names| {
      FindRow(df, i);
      assert LongEnough(df, names, df[i].uid, df[i].taxonomy);
    }
  }

  /** The error is a summed vector of the table. */
  ghost predicate Reports(df: seq<Aggregate>, names: seq<string>, e: PivotError)
  {
    exists i :: 0 <= i < |df| && df[i].uid == e.uid && df[i].taxonomy == e.taxonomy &&
                df[i].bag.Vector? && |df[i].bag.counts| == e.position < |names|
  }

  /** An IndexError raised on a user's vector names a short vector of the table. */
  lemma ShortReported(df: seq<Aggregate>, names: seq<string>, e: PivotError)
    requires VectorOf(df, e.uid, e.taxonomy).Some? && |VectorOf(df, e.uid, e.taxonomy).value| == e.position < |names|
    ensures Reports(df, names, e) && ShortVector(df, names)
  {
    var v := VectorOf(df, e.uid, e.taxonomy).value;
    var i :| 0 <= i < |df| && df[i].uid == e.uid && df[i].taxonomy == e.taxonomy && df[i].bag == Vector(v);
  }

  /** The dictionaries built so far belong, in order, to the first users. */
  ghost predicate AllHold(rows: seq<map<Column, int>>, df: seq<Aggregate>, names: seq<string>, users: seq<int>,
                          taxa: seq<Clustering.Taxonomy>)
  {
    |rows| <= |users| && forall x :: 0 <= x < |rows| ==> Holds(rows[x], df, names, users[x], taxa)
  }

  lemma AllHoldSnoc(rows: seq<map<Column, int>>, data: map<Column, int>, df: seq<Aggregate>, names: seq<string>,
                    users: seq<int>, taxa: seq<Clustering.Taxonomy>)
    requires AllHold(rows, df, names, users, taxa) && |rows| < |users|
    requires Holds(data, df, names, users[|rows|], taxa)
    ensures AllHold(rows + [data], df, names, users, taxa)
  {
    var next := rows + [data];
    forall x | 0 <= x < |next| ensures Holds(next[x], df, names, users[x], taxa) {
      if x < |rows| {
        assert next[x] == rows[x];
      }
    }
  }

  /** Every summed row's user and taxonomy are among those listed. */
  lemma PairsListed(df: seq<Aggregate>)
    ensures forall i :: 0 <= i < |df| ==> df[i].uid in Unique(UidsOf(df)) && df[i].taxonomy in Unique(TaxaOf(df))
  {
    forall i | 0 <= i < |df| ensures df[i].uid in Unique(UidsOf(df)) && df[i].taxonomy in Unique(TaxaOf(df)) {
      assert UidsOf(df)[i] in UidsOf(df) && TaxaOf(df)[i] in TaxaOf(df);
    }
  }

  /** Once every user's dictionary is complete, every visited pair had a long enough vector. */
  lemma AllLongEnough(df: seq<Aggregate>, names: seq<string>, users: seq<int>, taxa: seq<Clustering.Taxonomy>,
                      rows: seq<map<Column, int>>)
    requires |rows| == |users| && AllHold(rows, df, names, users, taxa)
    ensures forall u, t :: u in users && t in taxa ==> LongEnough(df, names, u, t)
  {
    forall u, t | u in users && t in taxa ensures LongEnough(df, names, u, t) {
      var x :| 0 <= x < |users| && users[x] == u;
      assert Holds(rows[x], df, names, u, taxa);
    }
  }

  /** `fillna(0)` over every row. */
  function FillAll(columns: seq<Column>, rows: seq<map<Column, int>>): (filled: seq<map<Column, int>>)
    ensures |filled| == |rows| && forall x :: 0 <= x < |rows| ==> filled[x] == Fill(columns, rows[x])
  {
    seq(|rows|, x requires 0 <= x < |rows| => Fill(columns, rows[x]))
  }

  /** Once every user's dictionary is complete, no vector is short and the filled rows are the pivot. */
  lemma Assemble(df: seq<Aggregate>, names: seq<string>, users: seq<int>, taxa: seq<Clustering.Taxonomy>,
                 rows: seq<map<Column, int>>, columns: seq<Column>)
    requires forall x, y :: 0 <= x < y < |df| ==> df[x].uid != df[y].uid || df[x].taxonomy != df[y].taxonomy
    requires users == Unique(UidsOf(df)) && taxa == Unique(TaxaOf(df))
    requires |rows| == |users| && AllHold(rows, df, names, users, taxa)
    ensures !ShortVector(df, names)
    ensures Pivot(df, names, users, Table(columns, FillAll(columns, rows)))
  {
    PairsListed(df);
    AllLongEnough(df, names, users, taxa, rows);
    NoShortVector(df, names, users, taxa);
    FilledPivot(df, names, users, taxa, rows, columns);
  }

  /** Filling the complete dictionaries gives the pivot. */
  lemma FilledPivot(df: seq<Aggregate>, names: seq<string>, users: seq<int>, taxa: seq<Clustering.Taxonomy>,
                    rows: seq<map<Column, int>>, columns: seq<Column>)
    requires forall i :: 0 <= i < |df| ==> df[i].taxonomy in taxa
    requires |rows| == |users| && AllHold(rows, df, names, users, taxa)
    ensures Pivot(df, names, users, Table(columns, FillAll(columns, rows)))
  {
    var filled := FillAll(columns, rows);
    forall k | 0 <= k < |users|
      ensures forall c :: c in filled[k] <==> c in columns
      ensures forall c :: c in columns ==> filled[k][c] == Cell(df, names, users[k], c)
    {
      FilledRow(df, names, users[k], taxa, rows[k], columns);
    }
  }

  /**
   * save_most_common_words: one row per user of the summed table, in order of first
   * appearance, with the header's columns; it fails exactly when some summed vector is
   * shorter than the vocabulary, reporting such a vector.
   */
  method SaveMostCommonWords(frame: seq<Evaluation.Key>, names: seq<string>, bagOf: Evaluation.Key -> BagValue)
    returns (r: Result<Table, PivotError>)
    ensures r.Failure? <==> ShortVector(Aggregated(frame, bagOf), names)
    ensures r.Failure? ==> Reports(Aggregated(frame, bagOf), names, r.error)
    ensures r.Success? ==>
              var df := Aggregated(frame, bagOf);
              r.value.columns == Header(names, frame) && Pivot(df, names, Unique(UidsOf(df)), r.value)
  {
    var df := Aggregated(frame, bagOf);
    var columns := Header(names, frame);
    var users := Unique(UidsOf(df));
    var taxa := Unique(TaxaOf(df));
    var rows: seq<map<Column, int>> := [];
    var k := 0;
    while k < |users|
      invariant k <= |users| && |rows| == k
      invariant AllHold(rows, df, names, users, taxa)
    {
      var data := UserData(df, names, users[k], taxa);
      if data.Failure? {
        ShortReported(df, names, data.error);
        return Failure(data.error);
      }
      AllHoldSnoc(rows, data.value, df, names, users, taxa);
      rows := rows + [data.value];
      k := k + 1;
    }
    var filled := FillAll(columns, rows);
    Assemble(df, names, users, taxa, rows, columns);
    r := Success(Table(columns, filled));
  }
}
