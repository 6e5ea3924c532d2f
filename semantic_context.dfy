/**
 * Tile signature builder: turns the enriched tile table (one row per tile and
 * overlapping feature label) into one bag-of-words vector per tile over a sorted
 * vocabulary of normalised labels.
 */
module SemanticContext {
  import opened Common
  import Sorting

  /** A row of the enriched tile table; a tile appears once per overlapping feature, or once with no label. */
  datatype EnrichedTile = EnrichedTile(locationID: int, geometry: Option<Polygon>, category: Option<string>)

  /** A row without missing values. */
  datatype LabelledTile = LabelledTile(locationID: int, geometry: Polygon, category: string)

  /** A row of the output: the tile, its joined labels and its term counts. */
  datatype BowTile = BowTile(locationID: int, geometry: Polygon, context: string, bow: Vector)

  /** CountVectorizer refuses to fit when no document yields a token. */
  datatype BowError = EmptyVocabulary

  predicate Complete(t: EnrichedTile)
  {
    t.geometry.Some? && t.category.Some?
  }

  /** A complete row without its option wrappers. */
  function Labelled(t: EnrichedTile): LabelledTile
    requires Complete(t)
  {
    LabelledTile(t.locationID, t.geometry.value, t.category.value)
  }

  /** `dropna`: the complete rows, each once and in table order. */
  function DropMissing(tiles: seq<EnrichedTile>): (r: seq<LabelledTile>)
    ensures |r| <= |tiles|
    ensures forall i :: 0 <= i < |tiles| && Complete(tiles[i]) ==>
              LabelledTile(tiles[i].locationID, tiles[i].geometry.value, tiles[i].category.value) in r
    ensures forall k :: 0 <= k < |r| ==>
              EnrichedTile(r[k].locationID, Some(r[k].geometry), Some(r[k].category)) in tiles
  {
    if tiles == [] then []
    else
      var n := |tiles| - 1;
      var rest := DropMissing(tiles[..n]);
      assert forall i :: 0 <= i < n ==> tiles[..n][i] == tiles[i];
      assert forall t :: t in tiles[..n] ==> t in tiles;
      var t := tiles[n];
      if Complete(t) then rest + [Labelled(t)] else rest
  }

  /** Row x of the result is the x-th complete row: `dropna` keeps table order and multiplicity. */
  lemma {:induction false} DropMissingInOrder(tiles: seq<EnrichedTile>)
    ensures |DropMissing(tiles)| == |Where(tiles, Complete)|
    ensures forall x :: 0 <= x < |DropMissing(tiles)| ==>
              DropMissing(tiles)[x] == Labelled(tiles[Where(tiles, Complete)[x]])
  {
    if tiles != [] {
      var n := |tiles| - 1;
      var init := tiles[..n];
      DropMissingInOrder(init);
      var rest := DropMissing(init);
      var ks := Where(init, Complete);
      var r := DropMissing(tiles);
      var all := Where(tiles, Complete);
      assert all == if Complete(tiles[n]) then ks + [n] else ks;
      assert r == rest + (if Complete(tiles[n]) then [Labelled(tiles[n])] else []);
      forall x | 0 <= x < |r| ensures r[x] == Labelled(tiles[all[x]]) {
        if x < |rest| {
          assert r[x] == rest[x] && all[x] == ks[x] && tiles[ks[x]] == init[ks[x]];
        } else {
          assert r[x] == Labelled(tiles[n]) && all[x] == n;
        }
      }
    }
  }

  // ---------------------------------------------------------------------------
  // Label normalisation

  /** `str.replace(from, to)` for a one-character pattern. */
  function ReplaceChar(s: string, from: char, to: char): (r: string)
    ensures |r| == |s|
    ensures forall i :: 0 <= i < |s| ==> r[i] == (if s[i] == from then to else s[i])
  {
    if s == [] then [] else [if s[0] == from then to else s[0]] + ReplaceChar(s[1..], from, to)
  }

  predicate IsSeparator(c: char)
  {
    c == ' ' || c == ',' || c == '-'
  }

  /** The three successive replacements: space, comma and hyphen each become an underscore. */
  function NormalizeLabel(s: string): (r: string)
    ensures |r| == |s|
    ensures forall i :: 0 <= i < |s| ==> r[i] == (if IsSeparator(s[i]) then '_' else s[i])
    ensures forall i :: 0 <= i < |r| ==> !IsSeparator(r[i])
  {
    ReplaceChar(ReplaceChar(ReplaceChar(s, ' ', '_'), ',', '_'), '-', '_')
  }

  function NormalizeColumn(rows: seq<LabelledTile>): (r: seq<LabelledTile>)
    ensures |r| == |rows|
    ensures forall i :: 0 <= i < |rows| ==>
              r[i] == rows[i].(category := NormalizeLabel(rows[i].category))
  {
    seq(|rows|, i requires 0 <= i < |rows| => rows[i].(category := NormalizeLabel(rows[i].category)))
  }

  // ---------------------------------------------------------------------------
  // Per-tile context

  /** `' '.join(labels)`. */
  function Join(labels: seq<string>): string
  {
    if labels == [] then ""
    else if |labels| == 1 then labels[0]
    else labels[0] + " " + Join(labels[1..])
  }

  /** The positions of the rows of tile `id`, in row order. */
  function RowsOf(rows: seq<LabelledTile>, id: int): seq<nat>
  {
    Where(rows, (t: LabelledTile) => t.locationID == id)
  }

  /** The labels of the rows carrying `id`: every one of them, in row order. */
  function LabelsOf(rows: seq<LabelledTile>, id: int): (r: seq<string>)
    ensures |r| <= |rows|
    ensures forall k :: 0 <= k < |r| ==> exists i :: 0 <= i < |rows| && rows[i].locationID == id && rows[i].category == r[k]
  {
    if rows == [] then []
    else
      var n := |rows| - 1;
      var rest := LabelsOf(rows[..n], id);
      assert forall i :: 0 <= i < n ==> rows[..n][i] == rows[i];
      if rows[n].locationID == id then rest + [rows[n].category] else rest
  }

  /** Label x of tile `id` is the label of its x-th row in table order. */
  lemma {:induction false} LabelsInRowOrder(rows: seq<LabelledTile>, id: int)
    ensures |LabelsOf(rows, id)| == |RowsOf(rows, id)|
    ensures forall x :: 0 <= x < |LabelsOf(rows, id)| ==>
              LabelsOf(rows, id)[x] == rows[RowsOf(rows, id)[x]].category
  {
    if rows != [] {
      var n := |rows| - 1;
      var init := rows[..n];
      LabelsInRowOrder(init, id);
      var rest := LabelsOf(init, id);
      var ks := RowsOf(init, id);
      var r := LabelsOf(rows, id);
      var all := RowsOf(rows, id);
      assert all == if rows[n].locationID == id then ks + [n] else ks;
      assert r == rest + (if rows[n].locationID == id then [rows[n].category] else []);
      forall x | 0 <= x < |r| ensures r[x] == rows[all[x]].category {
        if x < |rest| {
          assert r[x] == rest[x] && all[x] == ks[x] && rows[ks[x]] == init[ks[x]];
        } else {
          assert r[x] == rows[n].category && all[x] == n;
        }
      }
    }
  }

  /** Every label of tile `id` is among its labels. */
  lemma {:induction false} LabelsComplete(rows: seq<LabelledTile>, id: int)
    ensures forall i :: 0 <= i < |rows| && rows[i].locationID == id ==> rows[i].category in LabelsOf(rows, id)
  {
    LabelsInRowOrder(rows, id);
    var r := LabelsOf(rows, id);
    var ks := RowsOf(rows, id);
    forall i | 0 <= i < |rows| && rows[i].locationID == id ensures rows[i].category in r {
      var x :| 0 <= x < |ks| && ks[x] == i;
      assert r[x] == rows[i].category;
    }
  }

  /** The context of tile `id`: its labels joined by single spaces. */
  function ContextOf(rows: seq<LabelledTile>, id: int): string
  {
    Join(LabelsOf(rows, id))
  }

  // ---------------------------------------------------------------------------
  // Tokenisation (CountVectorizer: lower-case, tokens of two or more characters)

  /** Length of the run of non-space characters that starts `s`. */
  function RunLength(s: string): (n: nat)
    ensures n <= |s|
    ensures forall i :: 0 <= i < n ==> s[i] != ' '
    ensures n < |s| ==> s[n] == ' '
  {
    if s == [] || s[0] == ' ' then 0 else 1 + RunLength(s[1..])
  }

  /** The maximal runs of non-space characters of `s`, left to right. */
  function Words(s: string): (r: seq<string>)
    ensures forall k :: 0 <= k < |r| ==> r[k] != [] && ' ' !in r[k]
    decreases |s|
  {
    if s == [] then []
    else if s[0] == ' ' then Words(s[1..])
    else
      var n := RunLength(s);
      assert forall i :: 0 <= i < n ==> s[..n][i] == s[i];
      [s[..n]] + Words(s[n..])
  }

  function LowerChar(c: char): (d: char)
    ensures !('A' <= d <= 'Z')
  {
    if 'A' <= c <= 'Z' then (c as int + 32) as char else c
  }

  function Lower(s: string): (r: string)
    ensures |r| == |s|
    ensures forall i :: 0 <= i < |s| ==> r[i] == LowerChar(s[i])
  {
    if s == [] then [] else [LowerChar(s[0])] + Lower(s[1..])
  }

  predicate LongWord(w: string)
  {
    |w| >= 2
  }

  /** The lower-cased words of at least two characters, in order. */
  function TokensOfWords(words: seq<string>): (r: seq<string>)
    ensures |r| == |Where(words, LongWord)|
    ensures forall k :: 0 <= k < |r| ==> |r[k]| >= 2
  {
    if words == [] then []
    else
      var n := |words| - 1;
      var w := words[n];
      var rest := TokensOfWords(words[..n]);
      assert forall i :: 0 <= i < n ==> words[..n][i] == words[i];
      var ks := Where(words[..n], LongWord);
      assert Where(words, LongWord) == if LongWord(w) then ks + [n] else ks;
      rest + (if LongWord(w) then [Lower(w)] else [])
  }

  /** Token x is the lower-cased form of the x-th word of two or more characters. */
  lemma {:induction false} TokensOfWordsInOrder(words: seq<string>)
    ensures forall x :: 0 <= x < |TokensOfWords(words)| ==>
              TokensOfWords(words)[x] == Lower(words[Where(words, LongWord)[x]])
  {
    if words != [] {
      var n := |words| - 1;
      var init := words[..n];
      TokensOfWordsInOrder(init);
      var rest := TokensOfWords(init);
      var ks := Where(init, LongWord);
      var r := TokensOfWords(words);
      var all := Where(words, LongWord);
      assert all == if LongWord(words[n]) then ks + [n] else ks;
      assert r == rest + (if LongWord(words[n]) then [Lower(words[n])] else []);
      forall x | 0 <= x < |r| ensures r[x] == Lower(words[all[x]]) {
        if x < |rest| {
          assert r[x] == rest[x] && all[x] == ks[x] && words[ks[x]] == init[ks[x]];
        } else {
          assert r[x] == Lower(words[n]) && all[x] == n;
        }
      }
    }
  }

  /** Every word of two or more characters yields its lower-cased token, and every token comes from such a word. */
  lemma {:induction false} TokensOfWordsMembers(words: seq<string>)
    ensures forall w :: w in words && |w| >= 2 ==> Lower(w) in TokensOfWords(words)
    ensures forall t :: t in TokensOfWords(words) ==> exists w :: w in words && |w| >= 2 && t == Lower(w)
  {
    var r := TokensOfWords(words);
    var ks := Where(words, LongWord);
    TokensOfWordsInOrder(words);
    forall w | w in words && |w| >= 2 ensures Lower(w) in r {
      var i :| 0 <= i < |words| && words[i] == w;
      var x :| 0 <= x < |ks| && ks[x] == i;
      assert r[x] == Lower(w);
    }
    forall t | t in r ensures exists w :: w in words && |w| >= 2 && t == Lower(w) {
      var x :| 0 <= x < |r| && r[x] == t;
      assert words[ks[x]] in words;
    }
  }

  function Tokens(context: string): seq<string>
  {
    TokensOfWords(Words(context))
  }

  /** Every token of every context, in order. */
  function AllTokens(contexts: seq<string>): seq<string>
  {
    if contexts == [] then [] else AllTokens(contexts[..|contexts| - 1]) + Tokens(contexts[|contexts| - 1])
  }

  lemma {:induction false} AllTokensMember(contexts: seq<string>, t: string)
    ensures t in AllTokens(contexts) <==> exists c :: c in contexts && t in Tokens(c)
    decreases |contexts|
  {
    if contexts != [] {
      var n := |contexts| - 1;
      AllTokensMember(contexts[..n], t);
      var init := AllTokens(contexts[..n]);
      var last := Tokens(contexts[n]);
      assert AllTokens(contexts) == init + last;
      assert t in init + last <==> t in init || t in last;
      assert contexts == contexts[..n] + [contexts[n]];
      assert forall c :: c in contexts <==> c in contexts[..n] || c == contexts[n];
    }
  }

  // ---------------------------------------------------------------------------
  // Vocabulary: code-point order on strings

  predicate LexLe(a: string, b: string)
  {
    if a == [] then true
    else if b == [] then false
    else if a[0] != b[0] then a[0] < b[0]
    else LexLe(a[1..], b[1..])
  }

  lemma {:induction false} LexLeTotal(a: string, b: string)
    ensures LexLe(a, b) || LexLe(b, a)
    decreases |a|
  {
    if a != [] && b != [] && a[0] == b[0] {
      LexLeTotal(a[1..], b[1..]);
    }
  }

  lemma {:induction false} LexLeTransitive(a: string, b: string, c: string)
    requires LexLe(a, b) && LexLe(b, c)
    ensures LexLe(a, c)
    decreases |a|
  {
    if a != [] && b != [] && c != [] && a[0] == b[0] && b[0] == c[0] {
      LexLeTransitive(a[1..], b[1..], c[1..]);
    }
  }

  lemma {:induction false} LexLeAntisymmetric(a: string, b: string)
    requires LexLe(a, b) && LexLe(b, a)
    ensures a == b
    decreases |a|
  {
    if a != [] && b != [] {
      LexLeAntisymmetric(a[1..], b[1..]);
      assert a == [a[0]] + a[1..] && b == [b[0]] + b[1..];
    }
  }

  lemma LexOrder()
    ensures Sorting.Total(LexLe)
    ensures Sorting.Transitive(LexLe)
  {
    forall a, b ensures LexLe(a, b) || LexLe(b, a) {
      LexLeTotal(a, b);
    }
    forall a, b, c | LexLe(a, b) && LexLe(b, c) ensures LexLe(a, c) {
      LexLeTransitive(a, b, c);
    }
  }

  /** `get_feature_names_out()`: the distinct tokens of all contexts in code-point order. */
  function Vocabulary(contexts: seq<string>): (v: seq<string>)
    ensures forall t :: t in v <==> exists c :: c in contexts && t in Tokens(c)
    ensures forall i, j :: 0 <= i < j < |v| ==> LexLe(v[i], v[j]) && v[i] != v[j]
  {
    LexOrder();
    var all := AllTokens(contexts);
    var u := Unique(all);
    var v := Sorting.SortBy(u, LexLe);
    forall t ensures t in v <==> exists c :: c in contexts && t in Tokens(c) {
      AllTokensMember(contexts, t);
      assert t in v <==> multiset(v)[t] > 0;
      if t in all {
        var i :| 0 <= i < |all| && all[i] == t;
        assert t in u;
      }
    }
    PermutationKeepsDistinct(u, v);
    forall i, j | 0 <= i < j < |v| ensures LexLe(v[i], v[j]) {
      Sorting.SortedAll(v, LexLe, i, j);
    }
    v
  }

  /** Term counts of one context: entry k counts the occurrences of vocabulary term k. */
  function BagOfWords(vocab: seq<string>, context: string): (v: Vector)
    ensures |v| == |vocab|
    ensures forall k :: 0 <= k < |vocab| ==> v[k] == multiset(Tokens(context))[vocab[k]]
  {
    seq(|vocab|, k requires 0 <= k < |vocab| => Occurrences(Tokens(context), vocab[k]))
  }

  // ---------------------------------------------------------------------------
  // Deduplication by locationID

  function IdColumn(rows: seq<LabelledTile>): (ids: seq<int>)
    ensures |ids| == |rows|
    ensures forall i :: 0 <= i < |rows| ==> ids[i] == rows[i].locationID
  {
    seq(|rows|, i requires 0 <= i < |rows| => rows[i].locationID)
  }

  /** Index of the first occurrence of `id`. */
  function FirstOf(ids: seq<int>, id: int): (i: nat)
    requires id in ids
    ensures i < |ids| && ids[i] == id && id !in ids[..i]
  {
    if ids[0] == id then 0
    else
      var j := FirstOf(ids[1..], id);
      assert ids[..j + 1] == [ids[0]] + ids[1..][..j];
      1 + j
  }

  lemma FirstOfUnique(ids: seq<int>, id: int, i: nat)
    requires i < |ids| && ids[i] == id && id !in ids[..i]
    ensures FirstOf(ids, id) == i
  {
  }

  /** The output row of tile `id`: first row's geometry, the tile's context and its term counts. */
  function TileRow(rows: seq<LabelledTile>, vocab: seq<string>, id: int): BowTile
    requires id in IdColumn(rows)
  {
    var context := ContextOf(rows, id);
    BowTile(id, rows[FirstOf(IdColumn(rows), id)].geometry, context, BagOfWords(vocab, context))
  }

  /**
   * The table after the context and bow columns are added: every row gets the context of its
   * locationID (assignment aligned on the locationID index) and the counts of that context.
   */
  function WithBow(rows: seq<LabelledTile>, vocab: seq<string>): (r: seq<BowTile>)
    ensures |r| == |rows|
    ensures forall i :: 0 <= i < |rows| ==>
              var context := ContextOf(rows, rows[i].locationID);
              r[i] == BowTile(rows[i].locationID, rows[i].geometry, context, BagOfWords(vocab, context))
  {
    seq(|rows|, i requires 0 <= i < |rows| =>
      var context := ContextOf(rows, rows[i].locationID);
      BowTile(rows[i].locationID, rows[i].geometry, context, BagOfWords(vocab, context)))
  }

  function BowIds(rows: seq<BowTile>): (ids: seq<int>)
    ensures |ids| == |rows|
    ensures forall i :: 0 <= i < |rows| ==> ids[i] == rows[i].locationID
  {
    seq(|rows|, i requires 0 <= i < |rows| => rows[i].locationID)
  }

  /** `drop_duplicates(subset='locationID')`: the first row of each locationID, in table order. */
  function DropDuplicates(rows: seq<BowTile>): (r: seq<BowTile>)
    ensures BowIds(r) == Unique(BowIds(rows))
    ensures forall k :: 0 <= k < |r| ==>
              r[k].locationID in BowIds(rows) && r[k] == rows[FirstOf(BowIds(rows), r[k].locationID)]
  {
    if rows == [] then []
    else
      var n := |rows| - 1;
      var ids := BowIds(rows);
      var rest := DropDuplicates(rows[..n]);
      assert BowIds(rows[..n]) == ids[..n];
      forall k | 0 <= k < |rest|
        ensures rest[k].locationID in ids && rest[k] == rows[FirstOf(ids, rest[k].locationID)]
      {
        var id := rest[k].locationID;
        var f := FirstOf(ids[..n], id);
        assert ids[..n][..f] == ids[..f];
        FirstOfUnique(ids, id, f);
      }
      if rows[n].locationID in BowIds(rest) then rest
      else
        var id := rows[n].locationID;
        assert id !in ids[..n];
        FirstOfUnique(ids, id, n);
        assert BowIds(rest + [rows[n]]) == BowIds(rest) + [id];
        rest + [rows[n]]
  }

  /** All rows of a tile carry the same context and the same bow vector, so keeping one loses nothing. */
  lemma SameTileSameBow(rows: seq<LabelledTile>, vocab: seq<string>, i: nat, j: nat)
    requires i < |rows| && j < |rows|
    requires rows[i].locationID == rows[j].locationID
    ensures WithBow(rows, vocab)[i].context == WithBow(rows, vocab)[j].context
    ensures WithBow(rows, vocab)[i].bow == WithBow(rows, vocab)[j].bow
  {
  }

  // ---------------------------------------------------------------------------
  // One normalised label is one term

  /** Splitting joined, space-free labels gives back the non-empty labels. */
  lemma {:induction false} WordsOfJoin(labels: seq<string>)
    requires forall k :: 0 <= k < |labels| ==> ' ' !in labels[k]
    ensures Words(Join(labels)) == NonEmpty(labels)
    decreases |labels|
  {
    if |labels| == 1 {
      WordsOfWord(labels[0], "");
      assert labels[0] + "" == labels[0];
    } else if |labels| > 1 {
      WordsOfJoin(labels[1..]);
      WordsOfWord(labels[0], " " + Join(labels[1..]));
      assert labels[0] + " " + Join(labels[1..]) == labels[0] + (" " + Join(labels[1..]));
      assert Words(" " + Join(labels[1..])) == Words(Join(labels[1..])) by {
        assert (" " + Join(labels[1..]))[1..] == Join(labels[1..]);
      }
    }
  }

  function NonEmpty(labels: seq<string>): seq<string>
  {
    if labels == [] then [] else (if labels[0] == [] then [] else [labels[0]]) + NonEmpty(labels[1..])
  }

  /** A space-free word followed by text that is empty or starts with a space. */
  lemma {:induction false} WordsOfWord(w: string, rest: string)
    requires ' ' !in w
    requires rest == [] || rest[0] == ' '
    ensures Words(w + rest) == (if w == [] then [] else [w]) + Words(rest)
  {
    if w != [] {
      var s := w + rest;
      RunLengthOfWord(w, rest);
      assert s[..|w|] == w;
      assert s[|w|..] == rest;
    } else {
      assert w + rest == rest;
    }
  }

  lemma {:induction false} RunLengthOfWord(w: string, rest: string)
    requires ' ' !in w
    requires rest == [] || rest[0] == ' '
    ensures RunLength(w + rest) == |w|
    decreases |w|
  {
    if w != [] {
      assert (w + rest)[1..] == w[1..] + rest;
      RunLengthOfWord(w[1..], rest);
    } else {
      assert w + rest == rest;
    }
  }

  /** The tokens of a tile are its non-empty labels of two or more characters, lower-cased, in row order. */
  lemma TileTokens(rows: seq<LabelledTile>, id: int)
    requires forall i :: 0 <= i < |rows| ==> ' ' !in rows[i].category
    ensures Tokens(ContextOf(rows, id)) == TokensOfWords(NonEmpty(LabelsOf(rows, id)))
  {
    var labels := LabelsOf(rows, id);
    forall k | 0 <= k < |labels| ensures ' ' !in labels[k] {
      var i :| 0 <= i < |rows| && rows[i].locationID == id && rows[i].category == labels[k];
    }
    WordsOfJoin(labels);
  }

  // ---------------------------------------------------------------------------
  // The whole stage

  /**
   * `calculate_bow`: drop incomplete rows, normalise the labels, give every row its tile's
   * context and term counts, then keep the first row of each tile.
   */
  method CalculateBow(tiles: seq<EnrichedTile>) returns (r: Result<(seq<BowTile>, seq<string>), BowError>)
    ensures var rows := NormalizeColumn(DropMissing(tiles));
            var vocab := Vocabulary(seq(|rows|, i requires 0 <= i < |rows| => ContextOf(rows, rows[i].locationID)));
            && (r.Failure? <==> vocab == [])
            && (r.Success? ==> r.value.1 == vocab)
            && (r.Success? ==> |r.value.0| == |Unique(IdColumn(rows))|)
            && (r.Success? ==> forall k :: 0 <= k < |r.value.0| ==>
                  r.value.0[k].locationID == Unique(IdColumn(rows))[k] &&
                  r.value.0[k] == TileRow(rows, vocab, r.value.0[k].locationID))
  {
    var rows := NormalizeCategories(DropMissing(tiles));
    var contexts := seq(|rows|, i requires 0 <= i < |rows| => ContextOf(rows, rows[i].locationID));
    var vocab := Vocabulary(contexts);
    if vocab == [] {
      return Failure(EmptyVocabulary);
    }
    var out := DropDuplicates(WithBow(rows, vocab));
    OneRowPerTile(rows, vocab);
    r := Success((out, vocab));
  }

  /** The label column rewritten by the three successive replacements. */
  method NormalizeCategories(rows: seq<LabelledTile>) returns (out: seq<LabelledTile>)
    ensures out == NormalizeColumn(rows)
  {
    var labels := seq(|rows|, i requires 0 <= i < |rows| => rows[i].category);
    labels := seq(|labels|, i requires 0 <= i < |labels| => ReplaceChar(labels[i], ' ', '_'));
    labels := seq(|labels|, i requires 0 <= i < |labels| => ReplaceChar(labels[i], ',', '_'));
    labels := seq(|labels|, i requires 0 <= i < |labels| => ReplaceChar(labels[i], '-', '_'));
    out := seq(|rows|, i requires 0 <= i < |rows| => rows[i].(category := labels[i]));
  }

  /** After deduplication there is one row per tile, in order of first appearance, carrying the tile's row. */
  lemma OneRowPerTile(rows: seq<LabelledTile>, vocab: seq<string>)
    ensures var out := DropDuplicates(WithBow(rows, vocab));
            && |out| == |Unique(IdColumn(rows))|
            && forall k :: 0 <= k < |out| ==>
                 out[k].locationID == Unique(IdColumn(rows))[k] &&
                 out[k] == TileRow(rows, vocab, out[k].locationID)
  {
    var table := WithBow(rows, vocab);
    assert BowIds(table) == IdColumn(rows);
  }
}
