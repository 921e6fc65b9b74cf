/**
 * The puzzle state a best-first search expands: a 3x3 board updated in
 * place, the stored position of the blank, the two cached heuristic values
 * and the label of the move that produced the state.
 */
module PuzzleState {
  import opened Board
  import opened Heuristics

  class Puzzle {
    /** board[y, x] is the tile in row y and column x. */
    var board: array2<int>
    var zero: Position
    var misplaced: int
    var distance: int
    /** The edge label a successor carries for path reconstruction. */
    var moveName: string

    /** The row-major linearisation of board. */
    ghost var cells: seq<int>

    /** The board is 3x3, the stored blank lies on it and cells is its linearisation. */
    ghost predicate Valid()
      reads this`board, this`zero, this`cells, board
    {
      && board.Length0 == N && board.Length1 == N
      && InGrid(zero)
      && |cells| == Cells
      && forall i, j :: 0 <= i < N && 0 <= j < N ==> board[i, j] == cells[N * i + j]
    }

    /** The board and blank position as a value. */
    ghost function Model(): Tiles
      reads this`cells, this`zero
    {
      Tiles(cells, zero)
    }

    /** The board is a permutation of 0..8 and 0 sits at the stored blank position. */
    ghost predicate Sound()
      reads this`cells, this`zero
    {
      WellFormed(Model())
    }

    /** The cached values agree with their defining formulas. */
    ghost predicate CacheFresh()
      reads this`misplaced, this`distance, this`cells
    {
      |cells| == Cells && misplaced == Misplaced(cells) && distance == Distance(cells)
    }

    /** A fresh 3x3 board filled row-major with 0..8. */
    static method MakeAndFillTheBoard() returns (b: array2<int>)
      ensures fresh(b) && b.Length0 == N && b.Length1 == N
      ensures forall i, j :: 0 <= i < N && 0 <= j < N ==> b[i, j] == N * i + j
    {
      b := new int[N, N];
      var value := 0;
      for i := 0 to N
        invariant value == N * i
        invariant forall i', j :: 0 <= i' < i && 0 <= j < N ==> b[i', j] == N * i' + j
      {
        for j := 0 to N
          invariant value == N * i + j
          invariant forall i', j' :: 0 <= i' < i && 0 <= j' < N ==> b[i', j'] == N * i' + j'
          invariant forall j' :: 0 <= j' < j ==> b[i, j'] == N * i + j'
        {
          b[i, j] := value;
          value := value + 1;
        }
      }
    }

    /** The solved state. */
    constructor ()
      ensures Valid() && fresh(board)
      ensures Model() == GoalTiles() && misplaced == 0 && distance == 0
      ensures Sound() && CacheFresh()
    {
      var b := MakeAndFillTheBoard();
      board := b;
      cells := Goal();
      zero := Position(0, 0);
      misplaced, distance := 0, 0;
      moveName := "";
      new;
      GoalDistanceZero();
    }

    /** A copy of parent that shares no array with it. */
    constructor Copy(parent: Puzzle)
      requires parent.Valid()
      ensures Valid() && fresh(board)
      ensures Model() == parent.Model()
      ensures misplaced == parent.misplaced && distance == parent.distance
    {
      var b := new int[N, N];
      for i := 0 to N
        invariant forall i', j :: 0 <= i' < i && 0 <= j < N ==> b[i', j] == parent.board[i', j]
      {
        for j := 0 to N
          invariant forall i', j' :: 0 <= i' < i && 0 <= j' < N ==> b[i', j'] == parent.board[i', j']
          invariant forall j' :: 0 <= j' < j ==> b[i, j'] == parent.board[i, j']
        {
          b[i, j] := parent.board[i, j];
        }
      }
      board := b;
      cells := parent.cells;
      zero := parent.zero;
      distance := parent.distance;
      misplaced := parent.misplaced;
      moveName := "";
    }

    /** Exchange the cells (x1, y1) and (x2, y2). */
    method Swap(x1: int, y1: int, x2: int, y2: int)
      requires Valid()
      requires 0 <= x1 < N && 0 <= y1 < N && 0 <= x2 < N && 0 <= y2 < N
      modifies this`cells, board
      ensures Valid()
      ensures board[y1, x1] == old(board[y2, x2]) && board[y2, x2] == old(board[y1, x1])
      ensures forall i, j :: 0 <= i < N && 0 <= j < N && (i, j) != (y1, x1) && (i, j) != (y2, x2) ==>
        board[i, j] == old(board[i, j])
      ensures cells == SwapCells(old(cells), N * y1 + x1, N * y2 + x2)
    {
      var tmp := board[y1, x1];
      board[y1, x1] := board[y2, x2];
      board[y2, x2] := tmp;
      cells := SwapCells(cells, N * y1 + x1, N * y2 + x2);
    }

    /** Exchange the cells at two positions. */
    method SwapPositions(p1: Position, p2: Position)
      requires Valid() && InGrid(p1) && InGrid(p2)
      modifies this`cells, board
      ensures Valid()
      ensures cells == SwapCells(old(cells), Index(p1), Index(p2))
    {
      Swap(p1.x, p1.y, p2.x, p2.y);
    }

    /**
     * Move the blank one cell in direction m. On the edge nothing changes and
     * the result is false; otherwise the blank is exchanged with its neighbour
     * and the cached values are recomputed.
     */
    method Move(m: Move) returns (ok: bool)
      requires Valid()
      modifies this, board
      ensures Valid() && board == old(board) && moveName == old(moveName)
      ensures ok == Legal(old(zero), m)
      ensures ok ==> Model() == Moved(old(Model()), m) && CacheFresh()
      ensures !ok ==> unchanged(this) && unchanged(board)
      ensures old(Sound()) ==> Sound()
    {
      ghost var before := Model();
      var elder := zero;
      // Every case that does not return swaps the blank with the cell it moved from.
      match m {
        case GoUp =>
          if zero.y > 0 { zero := zero.(y := zero.y - 1); } else { return false; }
        case GoDown =>
          if zero.y < N - 1 { zero := zero.(y := zero.y + 1); } else { return false; }
        case GoLeft =>
          if zero.x > 0 { zero := zero.(x := zero.x - 1); } else { return false; }
        case GoRight =>
          if zero.x < N - 1 { zero := zero.(x := zero.x + 1); } else { return false; }
      }
      assert Legal(elder, m) && zero == Neighbour(elder, m);
      SwapPositions(zero, elder);
      RefreshPuzzlePieces();
      if old(Sound()) {
        MovedWellFormed(before, m);
      }
      return true;
    }

    /** Apply draws in order until rCount moves have succeeded; an illegal draw is consumed and retried. */
    method Shuffle(rCount: int, draws: seq<Move>) returns (moves: int, used: int)
      requires Valid()
      modifies this, board
      ensures Valid() && board == old(board) && moveName == old(moveName)
      ensures var r := Shuffled(old(Model()), rCount, draws, 0);
        Model() == r.tiles && moves == r.moves && used == r.used
      ensures moves == 0 ==> misplaced == old(misplaced) && distance == old(distance)
      ensures moves >= 0
      ensures moves > 0 ==> CacheFresh()
      ensures old(CacheFresh()) ==> CacheFresh()
      ensures old(Sound()) ==> Sound()
    {
      ghost var start := Model();
      ghost var total := Shuffled(start, rCount, draws, 0);
      ghost var t := start;
      var i := 0;
      used := 0;
      while i < rCount && used < |draws|
        invariant Valid() && board == old(board) && moveName == old(moveName)
        invariant Model() == t && Shaped(t)
        invariant 0 <= i && 0 <= used <= |draws|
        invariant ShuffleProgress(total, t, rCount, draws, i, used)
        invariant i == 0 ==> misplaced == old(misplaced) && distance == old(distance)
        invariant i > 0 ==> CacheFresh()
        decreases |draws| - used
      {
        ShuffleAdvance(total, t, rCount, draws, i, used);
        var ok := Move(draws[used]);
        if ok {
          t := Moved(t, draws[used]);
          i := i + 1;
        }
        used := used + 1;
      }
      ShuffleDone(total, t, rCount, draws, i, used);
      ShuffledBound(start, rCount, draws, 0);
      ShuffledIdle(start, rCount, draws, 0);
      if old(Sound()) {
        ShuffledWellFormed(start, rCount, draws, 0);
      }
      moves := i;
    }

    /** A state scrambled from the solved one by a sequence of drawn directions. */
    constructor Scrambled(randomCount: int, draws: seq<Move>)
      ensures Valid() && fresh(board)
      ensures Model() == Shuffled(GoalTiles(), randomCount, draws, 0).tiles
      ensures Sound() && CacheFresh()
    {
      var b := MakeAndFillTheBoard();
      board := b;
      cells := Goal();
      zero := Position(0, 0);
      misplaced, distance := 0, 0;
      moveName := "";
      new;
      GoalDistanceZero();
      var moves, used := Shuffle(randomCount, draws);
    }

    /** Recompute the number of cells, the blank included, that differ from their row-major index. */
    method RefreshMisplacedPuzzlePieces()
      requires Valid()
      modifies this`misplaced
      ensures misplaced == Misplaced(cells)
    {
      misplaced := 0;
      var value := 0;
      for i := 0 to N
        invariant value == N * i
        invariant misplaced == MisplacedUpTo(cells, value)
      {
        var j := 0;
        while j < N
          invariant 0 <= j <= N
          invariant value == N * i + j
          invariant misplaced == MisplacedUpTo(cells, value)
        {
          if board[i, j] != value {
            misplaced := misplaced + 1;
          }
          value := value + 1;
          j := j + 1;
        }
      }
    }

    /** Recompute the sum over tiles 1..8 of the distance between their linear index and their identifier. */
    method RefreshDistance()
      requires Valid()
      modifies this`distance
      ensures distance == Distance(cells)
    {
      distance := 0;
      var boardCopy := Linearised();
      for tile := 1 to Cells
        invariant boardCopy[..] == cells
        invariant distance == DistanceUpTo(cells, tile)
      {
        distance := distance + CalculateDistance(tile, boardCopy[..]);
      }
    }

    /** A fresh array holding the row-major linearisation of the board. */
    method Linearised() returns (linear: array<int>)
      requires Valid()
      ensures fresh(linear) && linear[..] == cells
    {
      linear := new int[Cells];
      var value := 0;
      for i := 0 to N
        invariant value == N * i
        invariant forall k :: 0 <= k < value ==> linear[k] == cells[k]
      {
        for j := 0 to N
          invariant value == N * i + j
          invariant forall k :: 0 <= k < value ==> linear[k] == cells[k]
        {
          linear[value] := board[i, j];
          value := value + 1;
        }
      }
    }

    /** Recompute both cached values. */
    method RefreshPuzzlePieces()
      requires Valid()
      modifies this`misplaced, this`distance
      ensures CacheFresh()
    {
      RefreshMisplacedPuzzlePieces();
      RefreshDistance();
    }

    /** The goal test: both cached values are 0. */
    function IsSolution(): (r: bool)
      reads this, board
      requires Valid()
      ensures CacheFresh() ==> (r <==> cells == Goal())
    {
      SolvedIffGoal(cells);
      misplaced == 0 && distance == 0
    }

    function GetMisplacedPuzzlePiece(): (r: int)
      reads this, board
      requires Valid()
      ensures CacheFresh() ==> r == Misplaced(cells) && 0 <= r <= Cells
    {
      misplaced
    }

    function GetDistance(): (r: int)
      reads this, board
      requires Valid()
      ensures CacheFresh() ==> r == Distance(cells) && r >= 0
    {
      distance
    }

    /** The array hash of the row-major linearisation; equal boards hash equally. */
    method HashCode() returns (h: int)
      requires Valid()
      ensures h == ArraysHashCode(cells)
    {
      var linear := Linearised();
      h := ArraysHashCode(linear[..]);
    }

    /** The child c was produced from the parent by the legal move m, with refreshed caches and label. */
    static ghost predicate ChildBy(c: Puzzle, parent: Tiles, m: Move)
      reads c, c.board
    {
      && Shaped(parent)
      && Legal(parent.zero, m)
      && c.Valid()
      && c.Model() == Moved(parent, m)
      && c.CacheFresh()
      && c.moveName == MoveName(m)
    }

    /** A fresh copy of this state moved in direction m and labelled with it; no existing object changes. */
    method Child(m: Move) returns (child: Puzzle, ok: bool)
      requires Valid()
      ensures fresh(child) && fresh(child.board)
      ensures ok == Legal(zero, m)
      ensures ok ==> ChildBy(child, Model(), m)
    {
      child := new Puzzle.Copy(this);
      ok := child.Move(m);
      if ok {
        child.moveName := MoveName(m);
      }
    }

    /** The children cs are independent copies produced from the parent by the moves ms, in order. */
    static ghost predicate Family(cs: seq<Puzzle>, parent: Tiles, ms: seq<Move>)
      reads set c | c in cs, set c | c in cs :: c.board
    {
      && |cs| == |ms|
      && (forall k :: 0 <= k < |cs| ==> ChildBy(cs[k], parent, ms[k]))
      && (forall k, l :: 0 <= k < l < |cs| ==> cs[k].board != cs[l].board)
    }

    /** One step of GenerateChildren: the child for direction m is appended exactly when m is legal. */
    method AddChild(children: seq<Puzzle>, ghost done: seq<Move>, m: Move) returns (longer: seq<Puzzle>)
      requires Valid()
      requires Family(children, Model(), LegalAmong(zero, done))
      ensures Family(longer, Model(), LegalAmong(zero, done + [m]))
      ensures |children| <= |longer| && forall k :: 0 <= k < |children| ==> longer[k] == children[k]
      ensures forall k :: |children| <= k < |longer| ==> fresh(longer[k]) && fresh(longer[k].board)
    {
      LegalAmongSnoc(zero, done, m);
      var child, ok := Child(m);
      if ok {
        longer := children + [child];
      } else {
        longer := children;
      }
    }

    /** One fresh child per legal direction, in enumeration order; this state is left as it was. */
    method GenerateChildren() returns (children: seq<Puzzle>)
      requires Valid()
      ensures Family(children, Model(), LegalMoves(zero))
      ensures forall k :: 0 <= k < |children| ==> fresh(children[k]) && fresh(children[k].board)
    {
      children := [];
      for i := 0 to |MoveOrder|
        invariant Family(children, Model(), LegalAmong(zero, MoveOrder[..i]))
        invariant forall k :: 0 <= k < |children| ==> fresh(children[k]) && fresh(children[k].board)
      {
        var move := MoveOrder[i];
        assert MoveOrder[..i] + [move] == MoveOrder[..i + 1];
        children := AddChild(children, MoveOrder[..i], move);
      }
      assert MoveOrder[..|MoveOrder|] == MoveOrder;
    }
  }
}
