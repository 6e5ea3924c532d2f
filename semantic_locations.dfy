/**
 * Greedy semantic-location merger. Tiles are walked in index order; each still
 * unassigned tile that has similar neighbours claims itself and all of them under a
 * fresh category id (overwriting ids the neighbours already had), leftovers get
 * singleton ids, and the tiles of one id are dissolved into one semantic location.
 * The merge is one hop and order dependent; it is not a transitive closure.
 */
module SemanticLocations {
  import opened Common
  import SemanticContext

  // ---------------------------------------------------------------------------
  // Similarity relation and neighbour lists

  /**
   * `above[i][j]` stands for "the cosine similarity of tiles i and j exceeds the threshold";
   * the matrix is square, one row and one column per tile.
   */
  predicate IsSquare(above: seq<seq<bool>>)
  {
    forall i :: 0 <= i < |above| ==> |above[i]| == |above|
  }

  predicate Symmetric(above: seq<seq<bool>>)
    requires IsSquare(above)
  {
    forall i, j :: 0 <= i < |above| && 0 <= j < |above| ==> above[i][j] == above[j][i]
  }

  /** The tiles j < k, other than i, that are similar to i, in increasing order. */
  function NeighboursBelow(above: seq<seq<bool>>, i: nat, k: nat): seq<nat>
    requires IsSquare(above) && i < |above| && k <= |above|
  {
    if k == 0 then []
    else NeighboursBelow(above, i, k - 1) + (if k - 1 != i && above[i][k - 1] then [k - 1] else [])
  }

  /** The list holds exactly the similar tiles below k. */
  lemma {:induction false} NeighboursBelowMembers(above: seq<seq<bool>>, i: nat, k: nat)
    requires IsSquare(above) && i < |above| && k <= |above|
    ensures forall j: nat :: j in NeighboursBelow(above, i, k) <==> j < k && j != i && above[i][j]
  {
    if k > 0 {
      var l := NeighboursBelow(above, i, k - 1);
      NeighboursBelowMembers(above, i, k - 1);
      if k - 1 != i && above[i][k - 1] {
        AppendMembers(l, k - 1);
      }
    }
  }

  /** The list is in increasing order, every entry below k. */
  lemma {:induction false} NeighboursBelowIncreasing(above: seq<seq<bool>>, i: nat, k: nat)
    requires IsSquare(above) && i < |above| && k <= |above|
    ensures StrictlyIncreasing(NeighboursBelow(above, i, k))
    ensures forall x :: 0 <= x < |NeighboursBelow(above, i, k)| ==> NeighboursBelow(above, i, k)[x] < k
  {
    if k > 0 {
      NeighboursBelowIncreasing(above, i, k - 1);
    }
  }

  /** Tile i's neighbour list: every other tile similar to it, in increasing index order. */
  function Neighbours(above: seq<seq<bool>>, i: nat): (l: seq<nat>)
    requires IsSquare(above) && i < |above|
    ensures StrictlyIncreasing(l)
    ensures forall j: nat :: j in l <==> j < |above| && j != i && above[i][j]
  {
    NeighboursBelowMembers(above, i, |above|);
    NeighboursBelowIncreasing(above, i, |above|);
    NeighboursBelow(above, i, |above|)
  }

  /** The dictionary of neighbour lists: only tiles with a non-empty list are keys (seeds). */
  function SimilarMap(above: seq<seq<bool>>): map<nat, seq<nat>>
    requires IsSquare(above)
  {
    map i: nat | i < |above| && Neighbours(above, i) != [] :: Neighbours(above, i)
  }

  /** The comprehension that lists tile idx's neighbours. */
  method NeighbourList(above: seq<seq<bool>>, idx: nat) returns (l: seq<nat>)
    requires IsSquare(above) && idx < |above|
    ensures l == Neighbours(above, idx)
  {
    l := [];
    var j := 0;
    while j < |above|
      invariant 0 <= j <= |above|
      invariant l == NeighboursBelow(above, idx, j)
    {
      if above[idx][j] && j != idx {
        l := l + [j];
      }
      j := j + 1;
    }
  }

  /** The loop that fills the `similar_polygons` dictionary. */
  method SimilarPolygons(above: seq<seq<bool>>) returns (similar: map<nat, seq<nat>>)
    requires IsSquare(above)
    ensures similar == SimilarMap(above)
  {
    similar := map[];
    var idx := 0;
    while idx < |above|
      invariant 0 <= idx <= |above|
      invariant similar == map i: nat | i < idx && Neighbours(above, i) != [] :: Neighbours(above, i)
    {
      var l := NeighbourList(above, idx);
      if l != [] {
        similar := similar[idx := l];
      }
      idx := idx + 1;
    }
  }

  // ---------------------------------------------------------------------------
  // The conjunctive combined vector

  /** Every bow vector has one entry per vocabulary term. */
  predicate Uniform(bow: seq<Vector>, m: nat)
  {
    forall i :: 0 <= i < |bow| ==> |bow[i]| == m
  }

  predicate AllNonzero(bow: seq<Vector>, members: seq<nat>, k: nat)
    requires forall x :: x in members ==> x < |bow| && k < |bow[x]|
  {
    forall x :: x in members ==> bow[x][k] != 0
  }

  /** Sum of the members' entries at position k. */
  function ColumnSum(bow: seq<Vector>, members: seq<nat>, k: nat): (r: nat)
    requires forall x :: x in members ==> x < |bow| && k < |bow[x]|
    ensures forall x :: x in members ==> bow[x][k] <= r
  {
    if members == [] then 0
    else
      assert members[0] in members;
      assert forall x :: x in members[1..] ==> x in members;
      bow[members[0]][k] + ColumnSum(bow, members[1..], k)
  }

  /**
   * `np.where((arrays != 0).all(axis=0), arrays.sum(axis=0), 0)`: the column sum where every
   * member is nonzero, else 0.
   */
  function Combined(bow: seq<Vector>, members: seq<nat>, m: nat): (v: Vector)
    requires Uniform(bow, m)
    requires forall x :: x in members ==> x < |bow|
    ensures |v| == m
    ensures forall k :: 0 <= k < m ==> v[k] == (if AllNonzero(bow, members, k) then ColumnSum(bow, members, k) else 0)
    ensures members != [] ==> forall k :: 0 <= k < m ==> (v[k] != 0 <==> AllNonzero(bow, members, k))
  {
    seq(m, k requires 0 <= k < m =>
      if AllNonzero(bow, members, k) then ColumnSum(bow, members, k) else 0)
  }

  // ---------------------------------------------------------------------------
  // Category assignment as a specification

  /** The columns `new_category` and `new_bag_of_words`, and the category counter. */
  datatype Assignment = Assignment(category: seq<int>, newBow: seq<Vector>, next: nat)

  predicate ValidSimilar(n: nat, similar: map<nat, seq<nat>>)
  {
    forall i :: i in similar ==> i < n && forall j :: j in similar[i] ==> j < n && j != i
  }

  predicate Sized(a: Assignment, n: nat)
  {
    |a.category| == n && |a.newBow| == n
  }

  /** One turn of the first loop: an unassigned seed claims itself and its neighbours under a fresh id. */
  function SeedStep(bow: seq<Vector>, m: nat, similar: map<nat, seq<nat>>, a: Assignment, idx: nat): (r: Assignment)
    requires Uniform(bow, m) && ValidSimilar(|bow|, similar)
    requires Sized(a, |bow|) && idx < |bow|
    ensures Sized(r, |bow|)
  {
    var n := |bow|;
    if idx in similar && a.category[idx] == -1 then
      var members := [idx] + similar[idx];
      var v := Combined(bow, members, m);
      Assignment(
        seq(n, j requires 0 <= j < n => if j in members then a.next as int else a.category[j]),
        seq(n, j requires 0 <= j < n => if j in similar[idx] then v else a.newBow[j]),
        a.next + 1)
    else a
  }

  /**
   * A seed still at -1 gives itself and every neighbour the next id and advances the counter;
   * the neighbours get the combined vector while the seed keeps its own, and every other tile
   * is left alone. Any other tile changes nothing.
   */
  lemma SeedStepEffect(bow: seq<Vector>, m: nat, similar: map<nat, seq<nat>>, a: Assignment, idx: nat)
    requires Uniform(bow, m) && ValidSimilar(|bow|, similar)
    requires Sized(a, |bow|) && idx < |bow|
    ensures !(idx in similar && a.category[idx] == -1) ==> SeedStep(bow, m, similar, a, idx) == a
    ensures idx in similar && a.category[idx] == -1 ==>
              var r := SeedStep(bow, m, similar, a, idx);
              r.next == a.next + 1 &&
              r.category[idx] == a.next as int && r.newBow[idx] == a.newBow[idx] &&
              (forall j :: j in similar[idx] ==>
                 r.category[j] == a.next as int && r.newBow[j] == Combined(bow, [idx] + similar[idx], m)) &&
              (forall j :: 0 <= j < |bow| && j != idx && j !in similar[idx] ==>
                 r.category[j] == a.category[j] && r.newBow[j] == a.newBow[j])
  {
  }

  /** Every tile at -1 and its own bow vector, counter at 0. */
  function Initial(bow: seq<Vector>): (a: Assignment)
    ensures Sized(a, |bow|)
  {
    Assignment(seq(|bow|, _ => -1), bow, 0)
  }

  /** The state after the first loop has visited tiles 0 .. k-1. */
  function SeedPass(bow: seq<Vector>, m: nat, similar: map<nat, seq<nat>>, k: nat): (a: Assignment)
    requires Uniform(bow, m) && ValidSimilar(|bow|, similar) && k <= |bow|
    ensures Sized(a, |bow|)
  {
    if k == 0 then Initial(bow) else SeedStep(bow, m, similar, SeedPass(bow, m, similar, k - 1), k - 1)
  }

  /** One turn of the second loop: a tile still at -1 gets the next id and its own vector. */
  function SingletonStep(bow: seq<Vector>, a: Assignment, idx: nat): (r: Assignment)
    requires Sized(a, |bow|) && idx < |bow|
    ensures Sized(r, |bow|)
  {
    if a.category[idx] == -1 then
      Assignment(a.category[idx := a.next], a.newBow[idx := bow[idx]], a.next + 1)
    else a
  }

  /**
   * A tile still at -1 gets the next id and its original vector and advances the counter;
   * every other tile, and an already assigned tile, is left alone.
   */
  lemma SingletonStepEffect(bow: seq<Vector>, a: Assignment, idx: nat)
    requires Sized(a, |bow|) && idx < |bow|
    ensures var r := SingletonStep(bow, a, idx);
            r.next == a.next + (if a.category[idx] == -1 then 1 else 0) &&
            (a.category[idx] == -1 ==> r.category[idx] == a.next as int && r.newBow[idx] == bow[idx]) &&
            forall j :: 0 <= j < |bow| && (j != idx || a.category[idx] != -1) ==>
              r.category[j] == a.category[j] && r.newBow[j] == a.newBow[j]
  {
  }

  function SingletonPass(bow: seq<Vector>, a: Assignment, k: nat): (r: Assignment)
    requires Sized(a, |bow|) && k <= |bow|
    ensures Sized(r, |bow|)
  {
    if k == 0 then a else SingletonStep(bow, SingletonPass(bow, a, k - 1), k - 1)
  }

  /** The two loops of `merge_locations`. */
  function Merge(bow: seq<Vector>, m: nat, similar: map<nat, seq<nat>>): (a: Assignment)
    requires Uniform(bow, m) && ValidSimilar(|bow|, similar)
    ensures Sized(a, |bow|)
  {
    SingletonPass(bow, SeedPass(bow, m, similar, |bow|), |bow|)
  }

  // ---------------------------------------------------------------------------
  // Category assignment as the source does it: in-place writes into the table's columns

  method AssignCategories(bow: seq<Vector>, m: nat, similar: map<nat, seq<nat>>)
    returns (category: seq<int>, newBow: seq<Vector>, count: nat)
    requires Uniform(bow, m) && ValidSimilar(|bow|, similar)
    ensures Assignment(category, newBow, count) == Merge(bow, m, similar)
  {
    var n := |bow|;
    var cat := new int[n](_ => -1);
    var nbw := new Vector[n](i requires 0 <= i < n => bow[i]);
    var next: nat := 0;
    assert Assignment(cat[..], nbw[..], next) == Initial(bow);
    var idx := 0;
    while idx < n
      invariant 0 <= idx <= n
      invariant Assignment(cat[..], nbw[..], next) == SeedPass(bow, m, similar, idx)
    {
      next := SeedTurn(bow, m, similar, cat, nbw, next, idx);
      idx := idx + 1;
    }
    idx := 0;
    ghost var seeded := Assignment(cat[..], nbw[..], next);
    while idx < n
      invariant 0 <= idx <= n
      invariant Assignment(cat[..], nbw[..], next) == SingletonPass(bow, seeded, idx)
    {
      next := SingletonTurn(bow, cat, nbw, next, idx);
      idx := idx + 1;
    }
    category, newBow, count := cat[..], nbw[..], next;
  }

  /** One turn of the first loop, written into the two columns in place. */
  method SeedTurn(bow: seq<Vector>, m: nat, similar: map<nat, seq<nat>>, cat: array<int>, nbw: array<Vector>, next: nat, idx: nat)
    returns (next': nat)
    requires Uniform(bow, m) && ValidSimilar(|bow|, similar)
    requires cat.Length == |bow| && nbw.Length == |bow| && idx < |bow|
    modifies cat, nbw
    ensures Assignment(cat[..], nbw[..], next') == SeedStep(bow, m, similar, Assignment(old(cat[..]), old(nbw[..]), next), idx)
  {
    var n := |bow|;
    next' := next;
    if idx in similar && cat[idx] == -1 {
      var members := [idx] + similar[idx];
      forall j | 0 <= j < n && j in members {
        cat[j] := next;
      }
      var v := Combined(bow, members, m);
      forall j | 0 <= j < n && j in similar[idx] {
        nbw[j] := v;
      }
      next' := next + 1;
    }
  }

  /** One turn of the second loop, written into the two columns in place. */
  method SingletonTurn(bow: seq<Vector>, cat: array<int>, nbw: array<Vector>, next: nat, idx: nat)
    returns (next': nat)
    requires cat.Length == |bow| && nbw.Length == |bow| && idx < |bow|
    modifies cat, nbw
    ensures Assignment(cat[..], nbw[..], next') == SingletonStep(bow, Assignment(old(cat[..]), old(nbw[..]), next), idx)
  {
    next' := next;
    if cat[idx] == -1 {
      cat[idx] := next;
      nbw[idx] := bow[idx];
      next' := next + 1;
    }
  }

  // ---------------------------------------------------------------------------
  // Properties of the assignment

  /** Every id is -1 or one already issued. */
  predicate InRange(a: Assignment)
  {
    forall i :: 0 <= i < |a.category| ==> a.category[i] == -1 || 0 <= a.category[i] < a.next
  }

  lemma {:induction false} SeedPassInRange(bow: seq<Vector>, m: nat, similar: map<nat, seq<nat>>, k: nat)
    requires Uniform(bow, m) && ValidSimilar(|bow|, similar) && k <= |bow|
    ensures InRange(SeedPass(bow, m, similar, k))
  {
    if k > 0 {
      SeedPassInRange(bow, m, similar, k - 1);
    }
  }

  lemma {:induction false} SingletonPassCovers(bow: seq<Vector>, a: Assignment, k: nat)
    requires Sized(a, |bow|) && k <= |bow| && InRange(a)
    ensures InRange(SingletonPass(bow, a, k))
    ensures forall i :: 0 <= i < k ==> SingletonPass(bow, a, k).category[i] != -1
    ensures SingletonPass(bow, a, k).next >= a.next
  {
    if k > 0 {
      SingletonPassCovers(bow, a, k - 1);
    }
  }

  /** After both loops every tile has exactly one id, issued consecutively from 0. */
  lemma MergePartitions(bow: seq<Vector>, m: nat, similar: map<nat, seq<nat>>)
    requires Uniform(bow, m) && ValidSimilar(|bow|, similar)
    ensures var a := Merge(bow, m, similar);
            forall i :: 0 <= i < |bow| ==> 0 <= a.category[i] < a.next
  {
    SeedPassInRange(bow, m, similar, |bow|);
    SingletonPassCovers(bow, SeedPass(bow, m, similar, |bow|), |bow|);
  }

  lemma {:induction false} SeedPassWithoutSeeds(bow: seq<Vector>, m: nat, k: nat)
    requires Uniform(bow, m) && k <= |bow|
    ensures SeedPass(bow, m, map[], k) == Initial(bow)
  {
    if k > 0 {
      SeedPassWithoutSeeds(bow, m, k - 1);
    }
  }

  lemma {:induction false} SingletonPassFromInitial(bow: seq<Vector>, k: nat)
    requires k <= |bow|
    ensures SingletonPass(bow, Initial(bow), k)
            == Assignment(seq(|bow|, i requires 0 <= i < |bow| => if i < k then i else -1), bow, k)
  {
    if k > 0 {
      SingletonPassFromInitial(bow, k - 1);
      var prev := SingletonPass(bow, Initial(bow), k - 1);
      assert prev.newBow[k - 1 := bow[k - 1]] == bow;
    }
  }

  /** With no pair above the threshold, tile i gets id i and keeps its own vector. */
  lemma NoSimilarPairsGivesSingletons(bow: seq<Vector>, m: nat, above: seq<seq<bool>>)
    requires Uniform(bow, m) && IsSquare(above) && |above| == |bow|
    requires forall i, j :: 0 <= i < |above| && 0 <= j < |above| && i != j ==> !above[i][j]
    ensures SimilarMap(above) == map[]
    ensures Merge(bow, m, SimilarMap(above))
            == Assignment(seq(|bow|, i requires 0 <= i < |bow| => i), bow, |bow|)
  {
    forall i | 0 <= i < |above| ensures Neighbours(above, i) == [] {
      NoNeighboursBelow(above, i, |above|);
    }
    SeedPassWithoutSeeds(bow, m, |bow|);
    SingletonPassFromInitial(bow, |bow|);
  }

  lemma {:induction false} NoNeighboursBelow(above: seq<seq<bool>>, i: nat, k: nat)
    requires IsSquare(above) && i < |above| && k <= |above|
    requires forall j :: 0 <= j < |above| && j != i ==> !above[i][j]
    ensures NeighboursBelow(above, i, k) == []
  {
    if k > 0 {
      NoNeighboursBelow(above, i, k - 1);
    }
  }

  lemma SimilarMapValid(above: seq<seq<bool>>)
    requires IsSquare(above)
    ensures ValidSimilar(|above|, SimilarMap(above))
    ensures forall i, j :: i in SimilarMap(above) && 0 <= j < |above| ==>
              (j in SimilarMap(above)[i] <==> j != i && above[i][j])
    ensures forall i :: 0 <= i < |above| && i !in SimilarMap(above) ==>
              forall j :: 0 <= j < |above| && j != i ==> !above[i][j]
  {
    forall i | 0 <= i < |above| && i !in SimilarMap(above)
      ensures forall j :: 0 <= j < |above| && j != i ==> !above[i][j]
    {
      forall j | 0 <= j < |above| && j != i ensures !above[i][j] {
      }
    }
  }

  /** A tile still at -1 has never been written and holds its own vector. */
  predicate UnassignedKeepOwn(bow: seq<Vector>, a: Assignment)
    requires Sized(a, |bow|)
  {
    forall i :: 0 <= i < |bow| && a.category[i] == -1 ==> a.newBow[i] == bow[i]
  }

  /** Id c is still held by the seed s: s has id c, its own vector, and all its neighbours are assigned. */
  predicate SeedHolds(bow: seq<Vector>, similar: map<nat, seq<nat>>, a: Assignment, c: nat, s: nat)
    requires Sized(a, |bow|)
  {
    s < |bow| && a.category[s] == c && a.newBow[s] == bow[s] && s in similar &&
    forall j :: j in similar[s] ==> j < |bow| && a.category[j] != -1
  }

  ghost predicate SeedHeld(bow: seq<Vector>, similar: map<nat, seq<nat>>, a: Assignment, c: nat)
    requires Sized(a, |bow|)
  {
    exists s: nat :: SeedHolds(bow, similar, a, c, s)
  }

  ghost predicate SeedsHeld(bow: seq<Vector>, similar: map<nat, seq<nat>>, a: Assignment)
    requires Sized(a, |bow|)
  {
    forall c: nat :: c < a.next ==> SeedHeld(bow, similar, a, c)
  }

  /** Id c is still held by the tile s, which keeps its own vector. */
  predicate Holds(bow: seq<Vector>, a: Assignment, c: nat, s: nat)
    requires Sized(a, |bow|)
  {
    s < |bow| && a.category[s] == c && a.newBow[s] == bow[s]
  }

  ghost predicate IdHeld(bow: seq<Vector>, a: Assignment, c: nat)
    requires Sized(a, |bow|)
  {
    exists s: nat :: Holds(bow, a, c, s)
  }

  ghost predicate IdsHeld(bow: seq<Vector>, a: Assignment)
    requires Sized(a, |bow|)
  {
    forall c: nat :: c < a.next ==> IdHeld(bow, a, c)
  }

  lemma SeedStepHoldsSeeds(bow: seq<Vector>, m: nat, above: seq<seq<bool>>, a: Assignment, idx: nat)
    requires Uniform(bow, m) && IsSquare(above) && |above| == |bow| && Symmetric(above)
    requires ValidSimilar(|bow|, SimilarMap(above))
    requires Sized(a, |bow|) && idx < |bow|
    requires InRange(a) && UnassignedKeepOwn(bow, a) && SeedsHeld(bow, SimilarMap(above), a)
    ensures var r := SeedStep(bow, m, SimilarMap(above), a, idx);
            InRange(r) && UnassignedKeepOwn(bow, r) && SeedsHeld(bow, SimilarMap(above), r)
  {
    var similar := SimilarMap(above);
    var r := SeedStep(bow, m, similar, a, idx);
    if idx in similar && a.category[idx] == -1 {
      forall c: nat | c < r.next
        ensures SeedHeld(bow, similar, r, c)
      {
        if c < a.next {
          assert SeedHeld(bow, similar, a, c);
          var s: nat :| SeedHolds(bow, similar, a, c, s);
          assert SeedHolds(bow, similar, r, c, s);
        } else {
          assert idx !in similar[idx];
          assert SeedHolds(bow, similar, r, c, idx);
        }
      }
    }
  }

  lemma {:induction false} SeedPassHoldsSeeds(bow: seq<Vector>, m: nat, above: seq<seq<bool>>, k: nat)
    requires Uniform(bow, m) && IsSquare(above) && |above| == |bow| && Symmetric(above)
    requires k <= |bow|
    ensures ValidSimilar(|bow|, SimilarMap(above))
    ensures InRange(SeedPass(bow, m, SimilarMap(above), k))
    ensures UnassignedKeepOwn(bow, SeedPass(bow, m, SimilarMap(above), k))
    ensures SeedsHeld(bow, SimilarMap(above), SeedPass(bow, m, SimilarMap(above), k))
  {
    SimilarMapIsValid(above);
    if k > 0 {
      var similar := SimilarMap(above);
      SeedPassHoldsSeeds(bow, m, above, k - 1);
      var prev := SeedPass(bow, m, similar, k - 1);
      assert SeedPass(bow, m, similar, k) == SeedStep(bow, m, similar, prev, k - 1);
      SeedStepHoldsSeeds(bow, m, above, prev, k - 1);
    }
  }

  lemma SimilarMapIsValid(above: seq<seq<bool>>)
    requires IsSquare(above)
    ensures ValidSimilar(|above|, SimilarMap(above))
  {
    SimilarMapValid(above);
  }

  lemma SingletonStepHoldsIds(bow: seq<Vector>, a: Assignment, idx: nat)
    requires Sized(a, |bow|) && idx < |bow| && InRange(a) && IdsHeld(bow, a)
    ensures InRange(SingletonStep(bow, a, idx)) && IdsHeld(bow, SingletonStep(bow, a, idx))
  {
    var r := SingletonStep(bow, a, idx);
    forall c: nat | c < r.next
      ensures IdHeld(bow, r, c)
    {
      if c < a.next {
        assert IdHeld(bow, a, c);
        var s: nat :| Holds(bow, a, c, s);
        assert Holds(bow, r, c, s);
      } else {
        assert Holds(bow, r, c, idx);
      }
    }
  }

  lemma {:induction false} SingletonPassHoldsIds(bow: seq<Vector>, a: Assignment, k: nat)
    requires Sized(a, |bow|) && k <= |bow| && InRange(a) && IdsHeld(bow, a)
    ensures InRange(SingletonPass(bow, a, k)) && IdsHeld(bow, SingletonPass(bow, a, k))
  {
    if k > 0 {
      SingletonPassHoldsIds(bow, a, k - 1);
      SingletonStepHoldsIds(bow, SingletonPass(bow, a, k - 1), k - 1);
    }
  }

  /**
   * With a symmetric similarity relation no processed seed is overwritten later: every id
   * 0 .. count-1 keeps at least one member, and that member still holds its own vector.
   */
  lemma SymmetricMergeKeepsEveryId(bow: seq<Vector>, m: nat, above: seq<seq<bool>>)
    requires Uniform(bow, m) && IsSquare(above) && |above| == |bow| && Symmetric(above)
    ensures ValidSimilar(|bow|, SimilarMap(above))
    ensures IdsHeld(bow, Merge(bow, m, SimilarMap(above)))
  {
    var similar := SimilarMap(above);
    SeedPassHoldsSeeds(bow, m, above, |bow|);
    var a := SeedPass(bow, m, similar, |bow|);
    forall c: nat | c < a.next ensures IdHeld(bow, a, c) {
      assert SeedHeld(bow, similar, a, c);
      var s: nat :| SeedHolds(bow, similar, a, c, s);
      assert Holds(bow, a, c, s);
    }
    SingletonPassHoldsIds(bow, a, |bow|);
  }

  /** Only a neighbour of a seed can hold a combined vector; every other tile keeps its own bow. */
  predicate OwnOrCombined(bow: seq<Vector>, m: nat, similar: map<nat, seq<nat>>, a: Assignment)
    requires Uniform(bow, m) && ValidSimilar(|bow|, similar) && Sized(a, |bow|)
  {
    forall i :: 0 <= i < |bow| ==>
      a.newBow[i] == bow[i] ||
      exists s :: s in similar && i in similar[s] && a.newBow[i] == Combined(bow, [s] + similar[s], m)
  }

  lemma {:induction false} SeedPassOwnOrCombined(bow: seq<Vector>, m: nat, similar: map<nat, seq<nat>>, k: nat)
    requires Uniform(bow, m) && ValidSimilar(|bow|, similar) && k <= |bow|
    ensures OwnOrCombined(bow, m, similar, SeedPass(bow, m, similar, k))
  {
    if k > 0 {
      SeedPassOwnOrCombined(bow, m, similar, k - 1);
    }
  }

  lemma {:induction false} SingletonPassOwnOrCombined(bow: seq<Vector>, m: nat, similar: map<nat, seq<nat>>, a: Assignment, k: nat)
    requires Uniform(bow, m) && ValidSimilar(|bow|, similar) && Sized(a, |bow|) && k <= |bow|
    requires OwnOrCombined(bow, m, similar, a)
    ensures OwnOrCombined(bow, m, similar, SingletonPass(bow, a, k))
  {
    if k > 0 {
      SingletonPassOwnOrCombined(bow, m, similar, a, k - 1);
    }
  }

  /** The combined vector is written only to neighbours of a seed: seeds and singletons keep their own bow. */
  lemma MergeWritesCombinedOnlyToNeighbours(bow: seq<Vector>, m: nat, similar: map<nat, seq<nat>>)
    requires Uniform(bow, m) && ValidSimilar(|bow|, similar)
    ensures OwnOrCombined(bow, m, similar, Merge(bow, m, similar))
  {
    SeedPassOwnOrCombined(bow, m, similar, |bow|);
    SingletonPassOwnOrCombined(bow, m, similar, SeedPass(bow, m, similar, |bow|), |bow|);
  }

  /** Every vector in `new_bag_of_words` still has one entry per vocabulary term. */
  lemma MergeUniform(bow: seq<Vector>, m: nat, similar: map<nat, seq<nat>>)
    requires Uniform(bow, m) && ValidSimilar(|bow|, similar)
    ensures Uniform(Merge(bow, m, similar).newBow, m)
  {
    MergeWritesCombinedOnlyToNeighbours(bow, m, similar);
  }

  // ---------------------------------------------------------------------------
  // Dissolving tiles by id

  /** The tiles i < k whose id is c, in increasing order. */
  function MembersBelow(category: seq<int>, c: int, k: nat): (ms: seq<nat>)
    requires k <= |category|
    ensures StrictlyIncreasing(ms)
    ensures forall i: nat :: i in ms <==> i < k && category[i] == c
    ensures forall x :: 0 <= x < |ms| ==> ms[x] < k && category[ms[x]] == c
  {
    if k == 0 then []
    else
      var ms := MembersBelow(category, c, k - 1);
      if category[k - 1] == c then
        AppendMembers(ms, k - 1);
        ms + [k - 1]
      else ms
  }

  /** The rows of one group of `dissolve(by='new_category')`, in table order. */
  function Members(category: seq<int>, c: int): seq<nat>
  {
    MembersBelow(category, c, |category|)
  }

  /** The row whose attributes the group keeps: the first one in table order. */
  function FirstMember(category: seq<int>, c: int): (f: nat)
    requires Members(category, c) != []
    ensures f < |category| && category[f] == c
    ensures forall i :: 0 <= i < f ==> category[i] != c
  {
    var ms := Members(category, c);
    assert ms[0] in ms;
    assert forall a :: 0 <= a < |ms| ==> ms[a] in ms;
    ms[0]
  }

  /** One row of the dissolved table. */
  datatype SemanticLocation = SemanticLocation(
    newCategory: nat,
    locationID: int,
    geometry: seq<Polygon>,  // the member polygons; their union is not modelled
    context: string,
    bow: Vector,
    newBagOfWords: Vector,
    newContext: seq<string>)

  /** The positions where v is positive, in increasing order. */
  function Positives(v: Vector): (ks: seq<nat>)
    ensures StrictlyIncreasing(ks)
    ensures forall x :: 0 <= x < |ks| ==> ks[x] < |v| && v[ks[x]] > 0
    ensures forall k: nat :: k in ks <==> k < |v| && v[k] > 0
  {
    Where(v, (c: nat) => c > 0)
  }

  /** The vocabulary terms at the positions where v is positive, in vocabulary order. */
  function NewContext(vocab: seq<string>, v: Vector): (r: seq<string>)
    requires |v| <= |vocab|
    ensures |r| == |Positives(v)| <= |v|
    ensures forall x :: 0 <= x < |r| ==> r[x] == vocab[Positives(v)[x]]
    ensures forall t :: t in r <==> exists k :: 0 <= k < |v| && v[k] > 0 && vocab[k] == t
  {
    if v == [] then []
    else
      var n := |v| - 1;
      var r := NewContext(vocab, v[..n]);
      var ks := Positives(v[..n]);
      assert forall k :: 0 <= k < n ==> v[..n][k] == v[k];
      assert Positives(v) == if v[n] > 0 then ks + [n] else ks;
      if v[n] > 0 then r + [vocab[n]] else r
  }

  /** The group of id c: the first member's attributes and every member's polygon. */
  function LocationOf(tiles: seq<SemanticContext.BowTile>, vocab: seq<string>, a: Assignment, c: nat): (loc: SemanticLocation)
    requires Sized(a, |tiles|) && Uniform(a.newBow, |vocab|) && Members(a.category, c) != []
    ensures loc.newCategory == c
    ensures var f := FirstMember(a.category, c);
            loc.locationID == tiles[f].locationID && loc.context == tiles[f].context &&
            loc.bow == tiles[f].bow && loc.newBagOfWords == a.newBow[f]
    ensures forall i :: 0 <= i < |tiles| && a.category[i] == c ==> tiles[i].geometry in loc.geometry
    ensures forall g :: g in loc.geometry ==> exists i :: 0 <= i < |tiles| && a.category[i] == c && tiles[i].geometry == g
    ensures forall t :: t in loc.newContext <==> exists k :: 0 <= k < |vocab| && loc.newBagOfWords[k] > 0 && vocab[k] == t
  {
    var f := FirstMember(a.category, c);
    var geometry := MemberGeometries(tiles, a.category, c);
    SemanticLocation(c, tiles[f].locationID, geometry, tiles[f].context, tiles[f].bow,
                     a.newBow[f], NewContext(vocab, a.newBow[f]))
  }

  /** The polygons of the members of group c, in table order. */
  function MemberGeometries(tiles: seq<SemanticContext.BowTile>, category: seq<int>, c: nat): (gs: seq<Polygon>)
    requires |category| == |tiles|
    ensures |gs| == |Members(category, c)|
    ensures forall j :: 0 <= j < |gs| ==> gs[j] == tiles[Members(category, c)[j]].geometry
    ensures forall i :: 0 <= i < |tiles| && category[i] == c ==> tiles[i].geometry in gs
    ensures forall g :: g in gs ==> exists i :: 0 <= i < |tiles| && category[i] == c && tiles[i].geometry == g
  {
    var ms := Members(category, c);
    AppendMembers(ms, 0);
    var gs := seq(|ms|, j requires 0 <= j < |ms| => tiles[ms[j]].geometry);
    forall i | 0 <= i < |tiles| && category[i] == c ensures tiles[i].geometry in gs {
      assert i in ms;
      var j :| 0 <= j < |ms| && ms[j] == i;
      assert gs[j] == tiles[i].geometry;
    }
    gs
  }

  /** The ids below k that have at least one member, in increasing order. */
  function GroupIdsBelow(category: seq<int>, k: nat): (ids: seq<nat>)
    ensures StrictlyIncreasing(ids)
    ensures forall c: nat :: c in ids <==> c < k && Members(category, c) != []
    ensures forall x :: 0 <= x < |ids| ==> ids[x] < k && Members(category, ids[x]) != []
  {
    if k == 0 then []
    else
      var ids := GroupIdsBelow(category, k - 1);
      if Members(category, k - 1) != [] then
        AppendMembers(ids, k - 1);
        ids + [k - 1]
      else ids
  }

  /**
   * `dissolve(by='new_category', as_index=False)` followed by the `new_context` column:
   * one row per id that has members, in increasing id order, each built from its group.
   */
  function Dissolve(tiles: seq<SemanticContext.BowTile>, vocab: seq<string>, a: Assignment): (r: seq<SemanticLocation>)
    requires Sized(a, |tiles|) && Uniform(a.newBow, |vocab|)
    ensures |r| == |GroupIdsBelow(a.category, a.next)| <= a.next
    ensures forall x :: 0 <= x < |r| ==>
              r[x].newCategory == GroupIdsBelow(a.category, a.next)[x] &&
              r[x] == LocationOf(tiles, vocab, a, r[x].newCategory)
  {
    var ids := GroupIdsBelow(a.category, a.next);
    IdsBounded(ids, a.next);
    seq(|ids|, x requires 0 <= x < |ids| => LocationOf(tiles, vocab, a, ids[x]))
  }

  /** A strictly increasing list of ids below n has at most n entries. */
  lemma {:induction false} IdsBounded(ids: seq<nat>, n: nat)
    requires StrictlyIncreasing(ids)
    requires forall x :: 0 <= x < |ids| ==> ids[x] < n
    ensures |ids| <= n
  {
    if ids != [] {
      var init := ids[..|ids| - 1];
      IdsBounded(init, ids[|ids| - 1]);
    }
  }

  function Bows(tiles: seq<SemanticContext.BowTile>): (bow: seq<Vector>)
    ensures |bow| == |tiles|
    ensures forall i :: 0 <= i < |tiles| ==> bow[i] == tiles[i].bow
  {
    seq(|tiles|, i requires 0 <= i < |tiles| => tiles[i].bow)
  }

  /** The semantic locations of a set of tiles, given which pairs are similar enough. */
  function MergedLocations(tiles: seq<SemanticContext.BowTile>, vocab: seq<string>, above: seq<seq<bool>>): seq<SemanticLocation>
    requires Uniform(Bows(tiles), |vocab|) && IsSquare(above) && |above| == |tiles|
  {
    SimilarMapValid(above);
    MergeUniform(Bows(tiles), |vocab|, SimilarMap(above));
    Dissolve(tiles, vocab, Merge(Bows(tiles), |vocab|, SimilarMap(above)))
  }

  /** `merge_locations`: neighbour lists, the two assignment loops, then the dissolve. */
  method MergeLocations(tiles: seq<SemanticContext.BowTile>, vocab: seq<string>, above: seq<seq<bool>>)
    returns (locations: seq<SemanticLocation>)
    requires Uniform(Bows(tiles), |vocab|) && IsSquare(above) && |above| == |tiles|
    ensures locations == MergedLocations(tiles, vocab, above)
  {
    var similar := SimilarPolygons(above);
    SimilarMapValid(above);
    var category, newBow, count := AssignCategories(Bows(tiles), |vocab|, similar);
    MergeUniform(Bows(tiles), |vocab|, similar);
    locations := Dissolve(tiles, vocab, Assignment(category, newBow, count));
  }

  // ---------------------------------------------------------------------------
  // Properties of the merged table

  /** A symmetric relation leaves no id empty: one semantic location per id, in id order. */
  lemma SymmetricMergeIsDense(tiles: seq<SemanticContext.BowTile>, vocab: seq<string>, above: seq<seq<bool>>)
    requires Uniform(Bows(tiles), |vocab|) && IsSquare(above) && |above| == |tiles| && Symmetric(above)
    ensures var r := MergedLocations(tiles, vocab, above);
            forall x :: 0 <= x < |r| ==> r[x].newCategory == x
    ensures |MergedLocations(tiles, vocab, above)| == Merge(Bows(tiles), |vocab|, SimilarMap(above)).next
  {
    var bow := Bows(tiles);
    SimilarMapValid(above);
    MergeUniform(bow, |vocab|, SimilarMap(above));
    var a := Merge(bow, |vocab|, SimilarMap(above));
    SymmetricMergeKeepsEveryId(bow, |vocab|, above);
    forall c: nat | c < a.next ensures Members(a.category, c) != [] {
      assert IdHeld(bow, a, c);
      var s: nat :| Holds(bow, a, c, s);
      assert s in Members(a.category, c);
    }
    DenseIds(tiles, vocab, a);
  }

  lemma DenseIds(tiles: seq<SemanticContext.BowTile>, vocab: seq<string>, a: Assignment)
    requires Sized(a, |tiles|) && Uniform(a.newBow, |vocab|)
    requires forall c: nat :: c < a.next ==> Members(a.category, c) != []
    ensures var r := Dissolve(tiles, vocab, a);
            |r| == a.next && forall x :: 0 <= x < |r| ==> r[x].newCategory == x
  {
    var ids := GroupIdsBelow(a.category, a.next);
    assert forall x :: 0 <= x < |ids| ==> ids[x] in ids;
    IncreasingCover(ids, a.next);
  }

  /** A strictly increasing list of ids below n that contains all of them is exactly 0 .. n-1. */
  lemma {:induction false} IncreasingCover(ids: seq<nat>, n: nat)
    requires StrictlyIncreasing(ids)
    requires forall x :: 0 <= x < |ids| ==> ids[x] < n
    requires forall c: nat :: c < n ==> c in ids
    ensures |ids| == n && forall x :: 0 <= x < |ids| ==> ids[x] == x
  {
    if n > 0 {
      assert n - 1 in ids;
      var last := ids[|ids| - 1];
      assert last == n - 1 by {
        var x :| 0 <= x < |ids| && ids[x] == n - 1;
        assert ids[x] <= last;
      }
      var init := ids[..|ids| - 1];
      forall c: nat | c < n - 1 ensures c in init {
        assert c in ids;
        var x :| 0 <= x < |ids| && ids[x] == c;
        assert x != |ids| - 1;
        assert init[x] == c;
      }
      IncreasingCover(init, n - 1);
    } else {
      IdsBounded(ids, 0);
    }
  }

  /** With no pair above the threshold, each semantic location is exactly one tile, in tile order. */
  lemma NoSimilarPairsKeepTiles(tiles: seq<SemanticContext.BowTile>, vocab: seq<string>, above: seq<seq<bool>>)
    requires Uniform(Bows(tiles), |vocab|) && IsSquare(above) && |above| == |tiles|
    requires forall i, j :: 0 <= i < |above| && 0 <= j < |above| && i != j ==> !above[i][j]
    ensures var r := MergedLocations(tiles, vocab, above);
            |r| == |tiles| &&
            forall i :: 0 <= i < |tiles| ==>
              r[i].newCategory == i && r[i].locationID == tiles[i].locationID &&
              r[i].geometry == [tiles[i].geometry] && r[i].newBagOfWords == tiles[i].bow
  {
    var bow := Bows(tiles);
    NoSimilarPairsGivesSingletons(bow, |vocab|, above);
    SimilarMapValid(above);
    MergeUniform(bow, |vocab|, SimilarMap(above));
    var a := Merge(bow, |vocab|, SimilarMap(above));
    SingletonsDissolve(tiles, vocab, a);
  }

  /** When tile i has id i, for every i, dissolving keeps one location per tile, in tile order. */
  lemma SingletonsDissolve(tiles: seq<SemanticContext.BowTile>, vocab: seq<string>, a: Assignment)
    requires Sized(a, |tiles|) && Uniform(a.newBow, |vocab|) && a.next == |tiles|
    requires forall i :: 0 <= i < |tiles| ==> a.category[i] == i
    ensures var r := Dissolve(tiles, vocab, a);
            |r| == |tiles| &&
            forall i :: 0 <= i < |tiles| ==>
              r[i].newCategory == i && r[i].locationID == tiles[i].locationID &&
              r[i].geometry == [tiles[i].geometry] && r[i].newBagOfWords == a.newBow[i]
  {
    var r := Dissolve(tiles, vocab, a);
    SingletonIds(tiles, vocab, a);
    forall i | 0 <= i < |tiles|
      ensures r[i].newCategory == i && r[i].locationID == tiles[i].locationID &&
              r[i].geometry == [tiles[i].geometry] && r[i].newBagOfWords == a.newBow[i]
    {
      OnlyMember(a.category, i);
      SingletonLocation(tiles, vocab, a, i);
      assert r[i] == LocationOf(tiles, vocab, a, i);
    }
  }

  lemma SingletonIds(tiles: seq<SemanticContext.BowTile>, vocab: seq<string>, a: Assignment)
    requires Sized(a, |tiles|) && Uniform(a.newBow, |vocab|) && a.next == |tiles|
    requires forall i :: 0 <= i < |tiles| ==> a.category[i] == i
    ensures var r := Dissolve(tiles, vocab, a);
            |r| == |tiles| && forall x :: 0 <= x < |r| ==> r[x].newCategory == x
  {
    forall c: nat | c < a.next ensures Members(a.category, c) != [] {
      OnlyMember(a.category, c);
    }
    DenseIds(tiles, vocab, a);
  }

  /** The location of id i is tile i alone, with its own vector. */
  predicate SingleTile(tiles: seq<SemanticContext.BowTile>, vocab: seq<string>, a: Assignment, i: nat)
    requires Sized(a, |tiles|) && Uniform(a.newBow, |vocab|) && i < |tiles| && Members(a.category, i) != []
  {
    var loc := LocationOf(tiles, vocab, a, i);
    loc.newCategory == i && loc.locationID == tiles[i].locationID &&
    loc.geometry == [tiles[i].geometry] && loc.newBagOfWords == a.newBow[i]
  }

  lemma SingletonLocation(tiles: seq<SemanticContext.BowTile>, vocab: seq<string>, a: Assignment, i: nat)
    requires Sized(a, |tiles|) && Uniform(a.newBow, |vocab|) && i < |tiles| && Members(a.category, i) == [i]
    ensures SingleTile(tiles, vocab, a, i)
  {
    assert MemberGeometries(tiles, a.category, i) == [tiles[i].geometry];
  }

  lemma OnlyMember(category: seq<int>, c: nat)
    requires c < |category| && forall i :: 0 <= i < |category| ==> category[i] == i
    ensures Members(category, c) == [c]
  {
    OnlyMemberBelow(category, c, |category|);
  }

  lemma {:induction false} OnlyMemberBelow(category: seq<int>, c: nat, k: nat)
    requires k <= |category| && forall i :: 0 <= i < |category| ==> category[i] == i
    ensures MembersBelow(category, c, k) == if c < k then [c] else []
  {
    if k > 0 {
      OnlyMemberBelow(category, c, k - 1);
    }
  }

  /**
   * The dissolve keeps the first member's `new_bag_of_words`. When that member is the seed,
   * which keeps its own vector, the combined vector written to the neighbours is dropped:
   * two similar tiles with vectors [1, 1] and [1, 2] merge into one location whose vector is
   * still [1, 1], not the combined [2, 3].
   */
  lemma DissolveKeepsSeedVector(tiles: seq<SemanticContext.BowTile>, above: seq<seq<bool>>)
    requires |tiles| == 2 && tiles[0].bow == [1, 1] && tiles[1].bow == [1, 2]
    requires above == [[true, true], [true, true]]
    ensures Merge(Bows(tiles), 2, SimilarMap(above)).newBow[1] == [2, 3]
    ensures var r := MergedLocations(tiles, ["a", "b"], above);
            |r| == 1 && r[0].locationID == tiles[0].locationID && r[0].newBagOfWords == [1, 1]
  {
    PairIsSimilar(above);
    SimilarMapValid(above);
    PairBows(tiles);
    PairLocations(tiles, ["a", "b"], SimilarMap(above));
    MergedLocationsUnfold(tiles, ["a", "b"], above);
  }

  lemma MergedLocationsUnfold(tiles: seq<SemanticContext.BowTile>, vocab: seq<string>, above: seq<seq<bool>>)
    requires Uniform(Bows(tiles), |vocab|) && IsSquare(above) && |above| == |tiles|
    ensures ValidSimilar(|tiles|, SimilarMap(above))
    ensures Uniform(Merge(Bows(tiles), |vocab|, SimilarMap(above)).newBow, |vocab|)
    ensures MergedLocations(tiles, vocab, above) == Dissolve(tiles, vocab, Merge(Bows(tiles), |vocab|, SimilarMap(above)))
  {
    SimilarMapValid(above);
    MergeUniform(Bows(tiles), |vocab|, SimilarMap(above));
  }

  /** The pair example once the neighbour lists are known. */
  lemma PairLocations(tiles: seq<SemanticContext.BowTile>, vocab: seq<string>, similar: map<nat, seq<nat>>)
    requires |tiles| == 2 && tiles[0].bow == [1, 1] && tiles[1].bow == [1, 2] && |vocab| == 2
    requires similar == map[0 := [1], 1 := [0]]
    requires Uniform(Bows(tiles), 2) && ValidSimilar(2, similar)
    ensures Merge(Bows(tiles), 2, similar) == Assignment([0, 0], [[1, 1], [2, 3]], 1)
    ensures var r := Dissolve(tiles, vocab, Assignment([0, 0], [[1, 1], [2, 3]], 1));
            |r| == 1 && r[0].locationID == tiles[0].locationID && r[0].newBagOfWords == [1, 1]
  {
    PairBows(tiles);
    PairMerge(Bows(tiles));
    PairDissolve(tiles, vocab, Assignment([0, 0], [[1, 1], [2, 3]], 1));
  }

  lemma PairBows(tiles: seq<SemanticContext.BowTile>)
    requires |tiles| == 2 && tiles[0].bow == [1, 1] && tiles[1].bow == [1, 2]
    ensures Bows(tiles) == [[1, 1], [1, 2]]
    ensures Uniform(Bows(tiles), 2)
  {
    var bow := Bows(tiles);
    assert bow[0] == [1, 1] && bow[1] == [1, 2];
  }

  lemma PairIsSimilar(above: seq<seq<bool>>)
    requires above == [[true, true], [true, true]]
    ensures SimilarMap(above) == map[0 := [1], 1 := [0]]
  {
    assert Neighbours(above, 0) == [1] by {
      assert NeighboursBelow(above, 0, 1) == [];
    }
    assert Neighbours(above, 1) == [0] by {
      assert NeighboursBelow(above, 1, 1) == [0];
    }
    var m := SimilarMap(above);
    assert m.Keys == {0, 1};
  }

  lemma PairMerge(bow: seq<Vector>)
    requires bow == [[1, 1], [1, 2]]
    ensures Merge(bow, 2, map[0 := [1], 1 := [0]]) == Assignment([0, 0], [[1, 1], [2, 3]], 1)
  {
    var similar := map[0 := [1], 1 := [0]];
    var s1 := Assignment([0, 0], [[1, 1], [2, 3]], 1);
    PairFirstSeed(bow);
    assert SeedPass(bow, 2, similar, 2) == s1;
    assert SingletonPass(bow, s1, 1) == s1;
  }

  lemma PairCombined(bow: seq<Vector>)
    requires bow == [[1, 1], [1, 2]]
    ensures Combined(bow, [0, 1], 2) == [2, 3]
  {
    assert [0, 1][1..] == [1] && [1][1..] == [];
    assert ColumnSum(bow, [], 0) == 0 && ColumnSum(bow, [], 1) == 0;
    assert ColumnSum(bow, [1], 0) == 1 && ColumnSum(bow, [1], 1) == 2;
    assert ColumnSum(bow, [0, 1], 0) == 2 && ColumnSum(bow, [0, 1], 1) == 3;
    assert AllNonzero(bow, [0, 1], 0) && AllNonzero(bow, [0, 1], 1);
    var v := Combined(bow, [0, 1], 2);
    assert v[0] == 2 && v[1] == 3;
  }

  /** Tile 0 is the seed: it claims tile 1 and writes the combined [2, 3] there. */
  lemma PairFirstSeed(bow: seq<Vector>)
    requires bow == [[1, 1], [1, 2]]
    ensures SeedPass(bow, 2, map[0 := [1], 1 := [0]], 1) == Assignment([0, 0], [[1, 1], [2, 3]], 1)
  {
    var similar := map[0 := [1], 1 := [0]];
    PairCombined(bow);
    assert SeedPass(bow, 2, similar, 0) == Initial(bow);
    var s1 := SeedPass(bow, 2, similar, 1);
    assert s1 == SeedStep(bow, 2, similar, Initial(bow), 0);
    assert s1.category[0] == 0 && s1.category[1] == 0;
    assert s1.newBow[0] == [1, 1] && s1.newBow[1] == [2, 3];
  }

  lemma PairDissolve(tiles: seq<SemanticContext.BowTile>, vocab: seq<string>, a: Assignment)
    requires |tiles| == 2 && |vocab| == 2 && a == Assignment([0, 0], [[1, 1], [2, 3]], 1)
    ensures var r := Dissolve(tiles, vocab, a);
            |r| == 1 && r[0].locationID == tiles[0].locationID && r[0].newBagOfWords == [1, 1]
  {
    PairMembers(a.category);
    DenseIds(tiles, vocab, a);
    var r := Dissolve(tiles, vocab, a);
    assert r[0] == LocationOf(tiles, vocab, a, 0);
  }

  lemma PairMembers(category: seq<int>)
    requires category == [0, 0]
    ensures Members(category, 0) == [0, 1] && FirstMember(category, 0) == 0
  {
    assert MembersBelow(category, 0, 1) == [0];
  }

  /** A tile's own vector names exactly the vocabulary terms of its context. */
  lemma OwnVectorContext(vocab: seq<string>, context: string)
    ensures forall t :: t in NewContext(vocab, SemanticContext.BagOfWords(vocab, context)) <==>
              t in vocab && t in SemanticContext.Tokens(context)
  {
    var v := SemanticContext.BagOfWords(vocab, context);
    forall t | t in vocab && t in SemanticContext.Tokens(context)
      ensures t in NewContext(vocab, v)
    {
      var k :| 0 <= k < |vocab| && vocab[k] == t;
      assert v[k] > 0;
    }
  }
}
