/**
 * The 3x3 sliding-tile board as a value: the goal layout, the position of
 * the blank, the four moves of the blank, the array hash of the row-major
 * linearisation, and the retry loop that scrambles a board from a sequence
 * of random draws.
 *
 * A board is represented by its row-major linearisation: the cell in row y
 * and column x is at index N * y + x.
 */
module Board {

  /** Side of the grid. */
  const N: int := 3

  /** Number of cells. */
  const Cells: int := N * N

  /** The blank's coordinate: x is the column, y the row. */
  datatype Position = Position(x: int, y: int)

  /** The four directions in which the blank can move. */
  datatype Move = GoUp | GoDown | GoLeft | GoRight

  /** The order in which the directions are enumerated. */
  const MoveOrder: seq<Move> := [GoUp, GoDown, GoLeft, GoRight]

  /** The label a child gets for the move that produced it. */
  function MoveName(m: Move): (name: string)
    ensures |name| > 0
  {
    match m
    case GoUp => "GOUP"
    case GoDown => "GODOWN"
    case GoLeft => "GOLEFT"
    case GoRight => "GORIGHT"
  }

  /** Distinct directions get distinct labels, so a path can be read back from its labels. */
  lemma MoveNamesDistinct(m1: Move, m2: Move)
    ensures MoveName(m1) == MoveName(m2) <==> m1 == m2
  {
  }

  /** A board together with the stored position of its blank. */
  datatype Tiles = Tiles(cells: seq<int>, zero: Position)

  predicate InGrid(p: Position) {
    0 <= p.x < N && 0 <= p.y < N
  }

  /** Row-major index of a cell. */
  function Index(p: Position): (i: int)
    requires InGrid(p)
    ensures 0 <= i < Cells
  {
    N * p.y + p.x
  }

  /** The board has nine cells and its stored blank lies on the grid. */
  predicate Shaped(t: Tiles) {
    |t.cells| == Cells && InGrid(t.zero)
  }

  /** Every identifier 0..8 occurs exactly once. */
  predicate IsPermutation(s: seq<int>) {
    && |s| == Cells
    && (forall i :: 0 <= i < |s| ==> 0 <= s[i] < Cells)
    && (forall i, j :: 0 <= i < j < |s| ==> s[i] != s[j])
  }

  /** The invariants of a puzzle state: a permutation whose stored blank holds 0. */
  predicate WellFormed(t: Tiles) {
    Shaped(t) && IsPermutation(t.cells) && t.cells[Index(t.zero)] == 0
  }

  /** The solved layout: identifiers 0..8 in row-major order. */
  function Goal(): (g: seq<int>)
    ensures |g| == Cells
    ensures forall i :: 0 <= i < Cells ==> g[i] == i
  {
    seq(Cells, i => i)
  }

  /** The solved state, with the blank at (0, 0). */
  function GoalTiles(): (t: Tiles)
    ensures WellFormed(t)
  {
    Tiles(Goal(), Position(0, 0))
  }

  /** A move is legal unless the blank is already on that edge, that is exactly when the neighbour is on the grid. */
  predicate Legal(z: Position, m: Move): (b: bool)
    ensures InGrid(z) ==> (b <==> InGrid(Neighbour(z, m)))
  {
    match m
    case GoUp => z.y > 0
    case GoDown => z.y < N - 1
    case GoLeft => z.x > 0
    case GoRight => z.x < N - 1
  }

  /** The cell the blank moves to: one step along one axis. */
  function Neighbour(z: Position, m: Move): (r: Position)
    ensures (r.x == z.x && (r.y == z.y - 1 || r.y == z.y + 1)) || (r.y == z.y && (r.x == z.x - 1 || r.x == z.x + 1))
  {
    match m
    case GoUp => z.(y := z.y - 1)
    case GoDown => z.(y := z.y + 1)
    case GoLeft => z.(x := z.x - 1)
    case GoRight => z.(x := z.x + 1)
  }

  /** Exchange the values at two indices. */
  function SwapCells(s: seq<int>, i: int, j: int): (r: seq<int>)
    requires 0 <= i < |s| && 0 <= j < |s|
    ensures |r| == |s|
    ensures r[i] == s[j] && r[j] == s[i]
    ensures forall k :: 0 <= k < |s| && k != i && k != j ==> r[k] == s[k]
  {
    s[i := s[j]][j := s[i]]
  }

  /** The state after a legal move: the blank's coordinate steps to the neighbour and the two cells are exchanged. */
  function Moved(t: Tiles, m: Move): (r: Tiles)
    requires Shaped(t) && Legal(t.zero, m)
    ensures Shaped(r)
  {
    var z := Neighbour(t.zero, m);
    Tiles(SwapCells(t.cells, Index(z), Index(t.zero)), z)
  }

  /** The blank steps by exactly one cell in the named direction; only the two exchanged cells change. */
  lemma MovedSteps(t: Tiles, m: Move)
    requires Shaped(t) && Legal(t.zero, m)
    ensures var r := Moved(t, m);
      && InGrid(r.zero)
      && (m == GoUp ==> r.zero == Position(t.zero.x, t.zero.y - 1))
      && (m == GoDown ==> r.zero == Position(t.zero.x, t.zero.y + 1))
      && (m == GoLeft ==> r.zero == Position(t.zero.x - 1, t.zero.y))
      && (m == GoRight ==> r.zero == Position(t.zero.x + 1, t.zero.y))
      && r.cells[Index(r.zero)] == t.cells[Index(t.zero)]
      && r.cells[Index(t.zero)] == t.cells[Index(r.zero)]
      && (forall k :: 0 <= k < Cells && k != Index(t.zero) && k != Index(r.zero) ==> r.cells[k] == t.cells[k])
  {
  }

  /** A legal move keeps the board a permutation and the blank where the stored position says. */
  lemma MovedWellFormed(t: Tiles, m: Move)
    requires WellFormed(t) && Legal(t.zero, m)
    ensures WellFormed(Moved(t, m))
  {
    var r := Moved(t, m);
    var a, b := Index(r.zero), Index(t.zero);
    assert a != b;
    forall i, j | 0 <= i < j < Cells ensures r.cells[i] != r.cells[j] {
      var i' := if i == a then b else if i == b then a else i;
      var j' := if j == a then b else if j == b then a else j;
      assert r.cells[i] == t.cells[i'] && r.cells[j] == t.cells[j'];
      assert i' != j';
      if i' < j' {
        assert t.cells[i'] != t.cells[j'];
      } else {
        assert t.cells[j'] != t.cells[i'];
      }
    }
  }

  function Opposite(m: Move): Move {
    match m
    case GoUp => GoDown
    case GoDown => GoUp
    case GoLeft => GoRight
    case GoRight => GoLeft
  }

  /** The opposite move is legal afterwards and undoes the move exactly. */
  lemma MovedUndo(t: Tiles, m: Move)
    requires Shaped(t) && Legal(t.zero, m)
    ensures Legal(Moved(t, m).zero, Opposite(m))
    ensures Moved(Moved(t, m), Opposite(m)) == t
  {
    var r := Moved(t, m);
    assert Neighbour(r.zero, Opposite(m)) == t.zero;
    var back := Moved(r, Opposite(m));
    assert back.cells == t.cells by {
      forall k | 0 <= k < Cells ensures back.cells[k] == t.cells[k] {
      }
    }
  }

  /** The legal moves from a position, in enumeration order. */
  function LegalMoves(z: Position): (ms: seq<Move>)
    ensures |ms| <= |MoveOrder|
  {
    LegalAmong(z, MoveOrder)
  }

  /** The legal directions among ms, in the order of ms. */
  function LegalAmong(z: Position, ms: seq<Move>): (r: seq<Move>)
    ensures |r| <= |ms|
  {
    if ms == [] then []
    else if Legal(z, ms[0]) then [ms[0]] + LegalAmong(z, ms[1..])
    else LegalAmong(z, ms[1..])
  }

  /** LegalAmong keeps exactly the legal directions of ms. */
  lemma {:induction false} LegalAmongExact(z: Position, ms: seq<Move>)
    ensures forall m :: m in LegalAmong(z, ms) <==> m in ms && Legal(z, m)
  {
    if ms != [] {
      LegalAmongExact(z, ms[1..]);
      assert ms == [ms[0]] + ms[1..];
    }
  }

  /** A direction is among the legal moves exactly when it is legal. */
  lemma LegalMovesExact(z: Position)
    ensures forall m :: m in LegalMoves(z) <==> Legal(z, m)
  {
    LegalAmongExact(z, MoveOrder);
  }

  /** Enumerating one more direction appends it exactly when it is legal. */
  lemma {:induction false} LegalAmongSnoc(z: Position, ms: seq<Move>, m: Move)
    ensures LegalAmong(z, ms + [m]) == LegalAmong(z, ms) + (if Legal(z, m) then [m] else [])
  {
    if ms == [] {
      assert ms + [m] == [m];
      assert [m][1..] == [];
    } else {
      assert (ms + [m])[0] == ms[0];
      assert (ms + [m])[1..] == ms[1..] + [m];
      LegalAmongSnoc(z, ms[1..], m);
    }
  }

  /** How many of the two coordinates lie on the border of the grid. */
  function BorderCount(z: Position): int {
    (if z.x == 0 || z.x == N - 1 then 1 else 0) + (if z.y == 0 || z.y == N - 1 then 1 else 0)
  }

  /** Two successors from a corner, three from an edge, four from the centre. */
  lemma LegalMovesCount(z: Position)
    requires InGrid(z)
    ensures |LegalMoves(z)| == 4 - BorderCount(z)
    ensures BorderCount(z) == 2 ==> |LegalMoves(z)| == 2
    ensures BorderCount(z) == 1 ==> |LegalMoves(z)| == 3
    ensures z == Position(1, 1) ==> |LegalMoves(z)| == 4
  {
    assert MoveOrder[1..] == [GoDown, GoLeft, GoRight];
    assert MoveOrder[2..] == [GoLeft, GoRight];
    assert MoveOrder[3..] == [GoRight];
    assert MoveOrder[4..] == [];
  }

  /** The outcome of a scramble: the final state, the number of successful moves and the number of draws consumed. */
  datatype ShuffleRun = ShuffleRun(tiles: Tiles, moves: int, used: int)

  /** A run preceded by the given numbers of successful moves and consumed draws. */
  function Shift(r: ShuffleRun, moves: int, used: int): ShuffleRun {
    ShuffleRun(r.tiles, r.moves + moves, r.used + used)
  }

  /**
   * Scrambling from draw k on: each draw is a direction; a legal one is
   * applied and counts towards rCount, an illegal one is consumed without
   * effect. It stops after rCount successes or when the draws run out.
   */
  function Shuffled(t: Tiles, rCount: int, draws: seq<Move>, k: int): (r: ShuffleRun)
    requires Shaped(t) && 0 <= k <= |draws|
    ensures Shaped(r.tiles)
    ensures 0 <= r.used <= |draws| - k
    decreases |draws| - k
  {
    if rCount <= 0 || k == |draws| then ShuffleRun(t, 0, 0)
    else
      var m := draws[k];
      if Legal(t.zero, m) then Shift(Shuffled(Moved(t, m), rCount - 1, draws, k + 1), 1, 1)
      else Shift(Shuffled(t, rCount, draws, k + 1), 0, 1)
  }

  /**
   * A scramble that has made i successful moves with the first used draws
   * and reached t ends where total does.
   */
  ghost predicate ShuffleProgress(total: ShuffleRun, t: Tiles, rCount: int, draws: seq<Move>, i: int, used: int)
    requires Shaped(t) && 0 <= used <= |draws|
  {
    total == Shift(Shuffled(t, rCount - i, draws, used), i, used)
  }

  /** The next draw advances a scramble in progress by one step. */
  lemma ShuffleAdvance(total: ShuffleRun, t: Tiles, rCount: int, draws: seq<Move>, i: int, used: int)
    requires Shaped(t) && 0 <= used < |draws| && i < rCount
    requires ShuffleProgress(total, t, rCount, draws, i, used)
    ensures Legal(t.zero, draws[used]) ==> ShuffleProgress(total, Moved(t, draws[used]), rCount, draws, i + 1, used + 1)
    ensures !Legal(t.zero, draws[used]) ==> ShuffleProgress(total, t, rCount, draws, i, used + 1)
  {
  }

  /** A scramble in progress that may stop has ended. */
  lemma ShuffleDone(total: ShuffleRun, t: Tiles, rCount: int, draws: seq<Move>, i: int, used: int)
    requires Shaped(t) && 0 <= used <= |draws| && (i >= rCount || used == |draws|)
    requires ShuffleProgress(total, t, rCount, draws, i, used)
    ensures total == ShuffleRun(t, i, used)
  {
  }

  /** At most rCount moves succeed, and never a negative number. */
  lemma {:induction false} ShuffledBound(t: Tiles, rCount: int, draws: seq<Move>, k: int)
    requires Shaped(t) && 0 <= k <= |draws|
    ensures 0 <= Shuffled(t, rCount, draws, k).moves <= (if rCount < 0 then 0 else rCount)
    decreases |draws| - k
  {
    if rCount > 0 && k < |draws| {
      var m := draws[k];
      if Legal(t.zero, m) {
        ShuffledBound(Moved(t, m), rCount - 1, draws, k + 1);
      } else {
        ShuffledBound(t, rCount, draws, k + 1);
      }
    }
  }

  /** Fewer than rCount successes means every draw was consumed. */
  lemma {:induction false} ShuffledExhausts(t: Tiles, rCount: int, draws: seq<Move>, k: int)
    requires Shaped(t) && 0 <= k <= |draws|
    ensures Shuffled(t, rCount, draws, k).moves < rCount ==> Shuffled(t, rCount, draws, k).used == |draws| - k
    decreases |draws| - k
  {
    if rCount > 0 && k < |draws| {
      var m := draws[k];
      if Legal(t.zero, m) {
        ShuffledExhausts(Moved(t, m), rCount - 1, draws, k + 1);
      } else {
        ShuffledExhausts(t, rCount, draws, k + 1);
      }
    }
  }

  /** No success leaves the board as it was. */
  lemma {:induction false} ShuffledIdle(t: Tiles, rCount: int, draws: seq<Move>, k: int)
    requires Shaped(t) && 0 <= k <= |draws|
    ensures Shuffled(t, rCount, draws, k).moves == 0 ==> Shuffled(t, rCount, draws, k).tiles == t
    decreases |draws| - k
  {
    if rCount > 0 && k < |draws| {
      var m := draws[k];
      if Legal(t.zero, m) {
        ShuffledBound(Moved(t, m), rCount - 1, draws, k + 1);
      } else {
        ShuffledIdle(t, rCount, draws, k + 1);
      }
    }
  }

  /** Scrambling keeps the board a permutation with the blank at its stored position. */
  lemma {:induction false} ShuffledWellFormed(t: Tiles, rCount: int, draws: seq<Move>, k: int)
    requires WellFormed(t) && 0 <= k <= |draws|
    ensures WellFormed(Shuffled(t, rCount, draws, k).tiles)
    decreases |draws| - k
  {
    if rCount <= 0 || k == |draws| {
    } else {
      var m := draws[k];
      if Legal(t.zero, m) {
        var next := Moved(t, m);
        MovedWellFormed(t, m);
        ShuffledWellFormed(next, rCount - 1, draws, k + 1);
        assert Shuffled(t, rCount, draws, k).tiles == Shuffled(next, rCount - 1, draws, k + 1).tiles;
      } else {
        ShuffledWellFormed(t, rCount, draws, k + 1);
        assert Shuffled(t, rCount, draws, k).tiles == Shuffled(t, rCount, draws, k + 1).tiles;
      }
    }
  }

  /** Java's int arithmetic: reduce to the signed 32-bit range. */
  function WrapInt(v: int): (r: int)
    ensures -0x8000_0000 <= r < 0x8000_0000
    ensures (r - v) % 0x1_0000_0000 == 0
  {
    (v + 0x8000_0000) % 0x1_0000_0000 - 0x8000_0000
  }

  /** java.util.Arrays.hashCode of a byte array: 1, then 31 * h + b per element, in 32-bit int arithmetic. */
  function ArraysHashCode(s: seq<int>): (h: int)
    ensures -0x8000_0000 <= h < 0x8000_0000
  {
    if s == [] then 1 else WrapInt(31 * ArraysHashCode(s[..|s| - 1]) + s[|s| - 1])
  }
}
