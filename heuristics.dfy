/**
 * The two cached heuristic values of a puzzle state, as functions of the
 * row-major linearisation: the number of cells (the blank included) that
 * differ from the goal, and the sum over tiles 1..8 of the distance between
 * a tile's linear index and its goal index.
 */
module Heuristics {
  import opened Board

  /** Linear search: the first index holding tile, or -1 when it is absent. */
  function FindPos(tile: int, s: seq<int>): (r: int)
    ensures -1 <= r < |s|
  {
    if |s| == 0 then -1
    else if s[0] == tile then 0
    else
      var p := FindPos(tile, s[1..]);
      if p == -1 then -1 else p + 1
  }

  /** FindPos finds the first occurrence, and -1 exactly when the tile is absent. */
  lemma {:induction false} FindPosFirst(tile: int, s: seq<int>)
    ensures FindPos(tile, s) == -1 <==> tile !in s
    ensures 0 <= FindPos(tile, s) ==> s[FindPos(tile, s)] == tile && tile !in s[..FindPos(tile, s)]
  {
    if |s| > 0 && s[0] != tile {
      FindPosFirst(tile, s[1..]);
      assert s == [s[0]] + s[1..];
      var p := FindPos(tile, s[1..]);
      if p != -1 {
        assert s[..p + 1] == [s[0]] + s[1..][..p];
      }
    }
  }

  /** Distance of a tile from its goal index, which equals the tile's own identifier. */
  function CalculateDistance(tile: int, s: seq<int>): (r: int)
    ensures r >= 0
    ensures r == 0 <==> FindPos(tile, s) == tile
    ensures FindPos(tile, s) == tile + r || FindPos(tile, s) == tile - r
  {
    var position := FindPos(tile, s);
    if tile != position then
      if position > tile then position - tile else tile - position
    else 0
  }

  /** Number of indices i < k whose value differs from i. */
  function MisplacedUpTo(s: seq<int>, k: int): (r: int)
    requires 0 <= k <= |s|
    ensures 0 <= r <= k
  {
    if k == 0 then 0
    else MisplacedUpTo(s, k - 1) + (if s[k - 1] != k - 1 then 1 else 0)
  }

  /** The count up to k is 0 exactly when every index below k holds itself. */
  lemma {:induction false} MisplacedUpToZero(s: seq<int>, k: int)
    requires 0 <= k <= |s|
    ensures MisplacedUpTo(s, k) == 0 <==> forall i :: 0 <= i < k ==> s[i] == i
  {
    if k > 0 {
      MisplacedUpToZero(s, k - 1);
    }
  }

  /** The misplaced-count heuristic, over all cells, the blank included. */
  function Misplaced(s: seq<int>): (r: int)
    ensures 0 <= r <= |s|
  {
    MisplacedUpTo(s, |s|)
  }

  /** The tile's first occurrence is at its goal index. */
  predicate InPlace(tile: int, s: seq<int>) {
    FindPos(tile, s) == tile
  }

  /** Sum of CalculateDistance over the tiles 1 .. t - 1. */
  function DistanceUpTo(s: seq<int>, t: int): (r: int)
    requires t >= 1
    ensures r >= 0
  {
    if t == 1 then 0
    else DistanceUpTo(s, t - 1) + CalculateDistance(t - 1, s)
  }

  /** The sum up to t is 0 exactly when every tile below t is found at its goal index. */
  lemma {:induction false} DistanceUpToZero(s: seq<int>, t: int)
    requires t >= 1
    ensures DistanceUpTo(s, t) == 0 <==> forall tile :: 1 <= tile < t ==> InPlace(tile, s)
  {
    if t > 1 {
      DistanceUpToZero(s, t - 1);
      assert CalculateDistance(t - 1, s) == 0 <==> InPlace(t - 1, s);
    }
  }

  /** The distance heuristic: linear-index displacement summed over tiles 1..8. */
  function Distance(s: seq<int>): (r: int)
    ensures r >= 0
  {
    DistanceUpTo(s, Cells)
  }

  /** A misplaced count of 0 means exactly the goal layout. */
  lemma MisplacedZeroIffGoal(s: seq<int>)
    requires |s| == Cells
    ensures Misplaced(s) == 0 <==> s == Goal()
  {
    MisplacedUpToZero(s, |s|);
    if Misplaced(s) == 0 {
      assert forall i :: 0 <= i < Cells ==> s[i] == Goal()[i];
    }
  }

  /** For a permutation, a distance of 0 alone already means the goal layout. */
  lemma DistanceZeroIffGoal(s: seq<int>)
    requires IsPermutation(s)
    ensures Distance(s) == 0 <==> s == Goal()
  {
    DistanceUpToZero(s, Cells);
    if Distance(s) == 0 {
      forall tile | 1 <= tile < Cells ensures s[tile] == tile {
        assert InPlace(tile, s);
        FindPosFirst(tile, s);
      }
      forall tile | 1 <= tile < Cells ensures s[0] != Goal()[tile] {
        assert s[0] != s[tile];
      }
      assert Goal()[s[0]] == s[0];
      assert forall i :: 0 <= i < Cells ==> s[i] == Goal()[i];
    } else {
      GoalDistanceZero();
    }
  }

  /** Both heuristics vanish on the goal layout. */
  lemma GoalDistanceZero()
    ensures Misplaced(Goal()) == 0 && Distance(Goal()) == 0
  {
    var g := Goal();
    MisplacedUpToZero(g, Cells);
    DistanceUpToZero(g, Cells);
    forall tile | 1 <= tile < Cells ensures InPlace(tile, g) {
      FindPosFirst(tile, g);
      var p := FindPos(tile, g);
      assert tile in g by {
        assert g[tile] == tile;
      }
      assert g[p] == tile;
    }
  }

  /** The goal test on the cached values: both are 0 exactly on the goal layout. */
  lemma SolvedIffGoal(s: seq<int>)
    requires |s| == Cells
    ensures (Misplaced(s) == 0 && Distance(s) == 0) <==> s == Goal()
  {
    MisplacedZeroIffGoal(s);
    GoalDistanceZero();
  }
}
