# 8-puzzle state, modelled in Dafny

This project models the sliding-tile puzzle state of `Puzzle.java`. That state is the node type a best-first
search expands.

A state holds:
- a 3x3 board of tile identifiers, updated in place and addressed as `board[y][x]`;
- the stored position of the blank (tile 0) as an (x = column, y = row) pair;
- two cached heuristic values:
  - the number of cells, the blank included, whose value differs from their row-major index;
  - the sum over tiles 1..8 of the distance between a tile's row-major index and its identifier;
- the label of the move that produced the state.

The operations:
- The board is built in the goal layout.
- A state can be copied.
- The blank moves one cell up, down, left or right. A move fails without effect on the edge.
- A state is scrambled by a retry loop of random directions.
- The two caches are recomputed.
- The goal test, the successor enumeration and the array hash of the row-major linearisation.

There are three modules:
- `Board` (`board.dfy`) is the value-level model:
  - positions, the four moves and their enumeration order;
  - the goal layout;
  - `Moved`, the effect of a legal move on a linearised board;
  - `LegalMoves`, the legal directions in enumeration order;
  - `Shuffled`, the scramble as a function of the draws;
  - the Java `Arrays.hashCode` polynomial, with 32-bit wrap-around.
- `Heuristics` (`heuristics.dfy`) holds the linear search `FindPos`, `CalculateDistance` and the two cached
  quantities as functions of a linearised board (`Misplaced`, `Distance`). It also holds the lemmas that
  `Misplaced` is 0 exactly on the goal layout, and that on a permutation of 0..8 `Distance` is too. Off
  permutations `Distance` can be 0 elsewhere: on 9, 1, 2, ..., 8 every tile 1..8 is found at its own index.
- `PuzzleState` (`puzzle.dfy`) is the class `Puzzle`:
  - Its fields are an `array2<int>` board, the blank position, the two caches and the move label.
  - It also keeps a ghost field `cells`, the row-major linearisation of the board. `Valid()` ties `cells` to
    the array.
  - The loops of the source (filling, copying, recomputing the caches, scrambling, enumerating the children)
    are methods with loop invariants. The swaps and the move are straight-line methods.
  - Each method is proved against the functions of the two other modules.

Invariants:
- `Sound()` holds exactly when the board is a permutation of 0..8 whose stored blank cell holds 0. The
  goal-state constructor and `Scrambled` establish it. `Copy` carries it over from a sound parent, and `Move`
  and `Shuffle` preserve it.
- `CacheFresh()` holds exactly when both cached values equal their formulas. It holds after every successful
  move.

Facts about the code that the model keeps:
- **The blank counts as misplaced.** `refreshMisplacedPuzzlePieces` compares all nine cells, the blank
  included, with their row-major index (Puzzle.java:173-185), so `Misplaced` does too.
- **States change in place.** `move` updates the blank position and swaps two cells of the object's own
  board (Puzzle.java:108-140). `generateChildren` calls it on a fresh copy of the parent (Puzzle.java:63-66).
  In the model `Move` modifies the object, and `GenerateChildren` copies first.
- **No constructor takes a board.** The three constructors build the goal layout, copy another state, or
  scramble the goal layout (Puzzle.java:23-48). `Sound()` states the well-formedness they establish.
- **No admissibility claim.** The code promises neither admissibility nor consistency of the heuristics, and
  the model proves neither.

## Model

| member | source | states |
|---|---|---|
| Board.MoveName | src/pl/edu/zut/wdsi/puzzle/Puzzle.java:65-67 | the label a child gets is the direction's constant name, never empty |
| Board.MoveNamesDistinct | src/pl/edu/zut/wdsi/puzzle/Puzzle.java:65-67 | two directions get the same label exactly when they are the same direction |
| Board.Index | src/pl/edu/zut/wdsi/puzzle/Puzzle.java:52-55 | the row-major index N*y + x of an on-grid cell lies in 0..8 |
| Board.Goal | src/pl/edu/zut/wdsi/puzzle/Puzzle.java:80-87 | the goal linearisation has nine cells and cell i holds i |
| Board.GoalTiles | src/pl/edu/zut/wdsi/puzzle/Puzzle.java:23-28 | the solved state is well-formed: its board is a permutation of 0..8 and its blank cell (0, 0) holds 0 |
| Board.Legal | src/pl/edu/zut/wdsi/puzzle/Puzzle.java:111-134 | for an on-grid blank, the edge guard of each direction passes exactly when the neighbouring cell is on the grid |
| Board.Neighbour | src/pl/edu/zut/wdsi/puzzle/Puzzle.java:111-134 | the blank's new position differs from the old one by exactly one step along exactly one axis |
| Board.SwapCells | src/pl/edu/zut/wdsi/puzzle/Puzzle.java:89-94 | exchanging two cells puts each value in the other's place and leaves every other cell as it was |
| Board.Moved | src/pl/edu/zut/wdsi/puzzle/Puzzle.java:108-136 | a legal move keeps nine cells and keeps the blank on the grid |
| Board.MovedSteps | src/pl/edu/zut/wdsi/puzzle/Puzzle.java:108-136 | a successful move changes the blank's row or column by exactly one in the named direction, stays within 0..2, and exchanges exactly the old and new blank cells |
| Board.MovedWellFormed | src/pl/edu/zut/wdsi/puzzle/Puzzle.java:109-134 | if the board is a permutation whose stored blank cell holds 0, the same holds after a legal move |
| Board.MovedUndo | src/pl/edu/zut/wdsi/puzzle/Puzzle.java:108-136 | after a legal move the opposite move is legal and restores the board and blank exactly |
| Board.LegalAmong | src/pl/edu/zut/wdsi/puzzle/Puzzle.java:63-69 | filtering the directions keeps at most as many as were tried |
| Board.LegalAmongExact | src/pl/edu/zut/wdsi/puzzle/Puzzle.java:63-69 | a direction survives the filter exactly when it was tried and is legal |
| Board.LegalMoves | src/pl/edu/zut/wdsi/puzzle/Puzzle.java:63-69 | at most one child per direction of `Moves.values()` |
| Board.LegalMovesExact | src/pl/edu/zut/wdsi/puzzle/Puzzle.java:60-73 | a direction is among the legal moves exactly when its edge guard passes |
| Board.LegalAmongSnoc | src/pl/edu/zut/wdsi/puzzle/Puzzle.java:63-69 | trying one more direction appends it exactly when it is legal, so the enumeration order is kept |
| Board.LegalMovesCount | src/pl/edu/zut/wdsi/puzzle/Puzzle.java:60-73 | from an on-grid blank there are 4 minus (border coordinates) legal moves: 2 in a corner, 3 on an edge, 4 in the centre |
| Board.Shuffled | src/pl/edu/zut/wdsi/puzzle/Puzzle.java:142-147 | the scramble keeps the board shaped and consumes no more draws than there are |
| Board.ShuffleAdvance | src/pl/edu/zut/wdsi/puzzle/Puzzle.java:145-146 | one more draw advances a scramble in progress: a legal draw counts as a success, an illegal one is consumed with no effect |
| Board.ShuffleDone | src/pl/edu/zut/wdsi/puzzle/Puzzle.java:145 | once rCount successes are reached or the draws run out, the scramble has ended in the current state |
| Board.ShuffledBound | src/pl/edu/zut/wdsi/puzzle/Puzzle.java:145-146 | the number of successful moves lies between 0 and rCount |
| Board.ShuffledExhausts | src/pl/edu/zut/wdsi/puzzle/Puzzle.java:145-146 | fewer than rCount successes happen only if every draw was consumed, so with enough draws exactly rCount moves succeed |
| Board.ShuffledIdle | src/pl/edu/zut/wdsi/puzzle/Puzzle.java:145-146 | a scramble with no successful move leaves the board and blank unchanged, so illegal draws change nothing |
| Board.ShuffledWellFormed | src/pl/edu/zut/wdsi/puzzle/Puzzle.java:142-147 | scrambling keeps the board a permutation whose stored blank cell holds 0 |
| Board.WrapInt | src/pl/edu/zut/wdsi/puzzle/Puzzle.java:57 | reduction to Java's signed 32-bit range is congruent to the input modulo 2^32 |
| Board.ArraysHashCode | src/pl/edu/zut/wdsi/puzzle/Puzzle.java:57 | the array hash of a linearisation is a value of Java's int range |
| Heuristics.FindPos | src/pl/edu/zut/wdsi/puzzle/Puzzle.java:100-106 | the linear search returns -1 or an index of the array |
| Heuristics.FindPosFirst | src/pl/edu/zut/wdsi/puzzle/Puzzle.java:100-106 | the search returns -1 exactly when the tile is absent, and otherwise the index of its first occurrence |
| Heuristics.CalculateDistance | src/pl/edu/zut/wdsi/puzzle/Puzzle.java:149-155 | the distance is non-negative, is 0 exactly when the tile is found at its own index, and is the absolute difference between found index and identifier |
| Heuristics.MisplacedUpTo | src/pl/edu/zut/wdsi/puzzle/Puzzle.java:173-185 | the number of mismatching cells among the first k lies in 0..k |
| Heuristics.Misplaced | src/pl/edu/zut/wdsi/puzzle/Puzzle.java:173-185 | the misplaced count over all cells lies between 0 and the number of cells |
| Heuristics.MisplacedUpToZero | src/pl/edu/zut/wdsi/puzzle/Puzzle.java:173-185 | the count over the first k cells is 0 exactly when each of them holds its own index |
| Heuristics.DistanceUpTo | src/pl/edu/zut/wdsi/puzzle/Puzzle.java:157-171 | the partial sum of tile distances is non-negative |
| Heuristics.Distance | src/pl/edu/zut/wdsi/puzzle/Puzzle.java:157-171 | the summed distance over tiles 1..8 is non-negative |
| Heuristics.DistanceUpToZero | src/pl/edu/zut/wdsi/puzzle/Puzzle.java:157-171 | the partial sum is 0 exactly when each tile summed so far is found at its own index |
| Heuristics.MisplacedZeroIffGoal | src/pl/edu/zut/wdsi/puzzle/Puzzle.java:173-185 | the misplaced count is 0 exactly when the board is the goal layout |
| Heuristics.DistanceZeroIffGoal | src/pl/edu/zut/wdsi/puzzle/Puzzle.java:149-171 | on a permutation, the distance is 0 exactly when the board is the goal layout |
| Heuristics.GoalDistanceZero | src/pl/edu/zut/wdsi/puzzle/Puzzle.java:157-185 | both heuristics are 0 on the goal layout |
| Heuristics.SolvedIffGoal | src/pl/edu/zut/wdsi/puzzle/Puzzle.java:75-78 | the goal test on the formulas holds exactly when the board is the goal layout |
| PuzzleState.Puzzle.MakeAndFillTheBoard | src/pl/edu/zut/wdsi/puzzle/Puzzle.java:80-87 | a fresh 3x3 board with board[i][j] == 3*i + j |
| PuzzleState.Puzzle.constructor | src/pl/edu/zut/wdsi/puzzle/Puzzle.java:23-28 | the new state is the goal layout with the blank at (0, 0), sound, and with both caches 0 and fresh |
| PuzzleState.Puzzle.Copy | src/pl/edu/zut/wdsi/puzzle/Puzzle.java:30-41 | the copy has a fresh board with the parent's contents, the parent's blank position and the parent's caches |
| PuzzleState.Puzzle.Scrambled | src/pl/edu/zut/wdsi/puzzle/Puzzle.java:43-48 | the new state is the goal scrambled by the draws, sound, with fresh caches |
| PuzzleState.Puzzle.Swap | src/pl/edu/zut/wdsi/puzzle/Puzzle.java:89-94 | cells (x1, y1) and (x2, y2) exchange values and every other cell keeps its value |
| PuzzleState.Puzzle.SwapPositions | src/pl/edu/zut/wdsi/puzzle/Puzzle.java:96-98 | the two positions' cells are exchanged in the linearisation |
| PuzzleState.Puzzle.Move | src/pl/edu/zut/wdsi/puzzle/Puzzle.java:108-140 | the result is true exactly when the edge guard passes. On success the state becomes `Moved` of the old one, with fresh caches. On failure nothing changes. Soundness is preserved and the label is untouched |
| PuzzleState.Puzzle.Shuffle | src/pl/edu/zut/wdsi/puzzle/Puzzle.java:142-147 | the final state, the number of successful moves and the number of draws consumed are those of `Shuffled`. The number of successes is non-negative. Caches are fresh after any success and untouched otherwise, so fresh caches stay fresh. Soundness is preserved |
| PuzzleState.Puzzle.RefreshMisplacedPuzzlePieces | src/pl/edu/zut/wdsi/puzzle/Puzzle.java:173-185 | the cached count becomes `Misplaced` of the linearisation |
| PuzzleState.Puzzle.RefreshDistance | src/pl/edu/zut/wdsi/puzzle/Puzzle.java:157-171 | the cached distance becomes `Distance` of the linearisation |
| PuzzleState.Puzzle.Linearised | src/pl/edu/zut/wdsi/puzzle/Puzzle.java:161-167 | the fresh array holds the board's row-major linearisation |
| PuzzleState.Puzzle.RefreshPuzzlePieces | src/pl/edu/zut/wdsi/puzzle/Puzzle.java:187-190 | both caches equal their formulas afterwards |
| PuzzleState.Puzzle.IsSolution | src/pl/edu/zut/wdsi/puzzle/Puzzle.java:75-78 | with fresh caches, the goal test holds exactly when the board is the goal layout |
| PuzzleState.Puzzle.GetMisplacedPuzzlePiece | src/pl/edu/zut/wdsi/puzzle/Puzzle.java:192-194 | with fresh caches, the getter returns `Misplaced` of the board, a value in 0..9 |
| PuzzleState.Puzzle.GetDistance | src/pl/edu/zut/wdsi/puzzle/Puzzle.java:196-198 | with fresh caches, the getter returns `Distance` of the board, a non-negative value |
| PuzzleState.Puzzle.HashCode | src/pl/edu/zut/wdsi/puzzle/Puzzle.java:50-58 | the hash is `ArraysHashCode` of the row-major linearisation alone, so equal boards hash equally |
| PuzzleState.Puzzle.Child | src/pl/edu/zut/wdsi/puzzle/Puzzle.java:64-68 | the attempt for one direction makes a fresh copy. It succeeds exactly when the direction is legal, and then the copy is the parent moved that way, with fresh caches and the direction's label |
| PuzzleState.Puzzle.AddChild | src/pl/edu/zut/wdsi/puzzle/Puzzle.java:63-69 | one loop step appends a fresh child exactly when the direction is legal, keeping the earlier children |
| PuzzleState.Puzzle.GenerateChildren | src/pl/edu/zut/wdsi/puzzle/Puzzle.java:60-73 | the children are fresh, independent copies, one per legal direction in enumeration order, each the parent moved that way with fresh caches and its label. The parent is not modified |

## Left out

- `provideTests`, `printResults` and `main` are not modelled. They drive an external search library, use an
  unseeded random generator, print to the console and compute with `double`.
- The pseudo-random generator is not modelled. `shuffle` and the `Puzzle(int, int)` constructor take the
  sequence of drawn directions as an input (`draws`) instead of a seed.
- Board.Shuffled: stops when the draws run out. The source would keep drawing forever, so this case has no
  counterpart there. `ShuffledExhausts` shows that with enough draws exactly `rCount` moves succeed.
- The model does not include the `GraphStateImpl` superclass: equality, the parent back-reference, path
  reconstruction and the heuristic hook. The move label is a plain field `moveName`. It starts out empty and
  is set from `MoveName`.
- The unused `x` and `y` fields are not modelled. Only the stored blank position drives moves.
- `ZeroPosition` is not part of this model. Its copy constructor and setters are modelled as the value
  datatype `Position`, and its default constructor is assumed to give (0, 0).
- `Moves` is not part of this model. The order of `Moves.values()` is assumed to be GOUP, GODOWN, GOLEFT,
  GORIGHT, the order of the `switch` in `move`. `Moves.toString()` is assumed to return the constant's name,
  the enum default.
- Board.ArraysHashCode: the JDK's `Arrays.hashCode(byte[])` is not part of this model. It is modelled from
  its documented algorithm: start from 1, then compute 31 * h + element in wrapping 32-bit arithmetic.
- Tiles are `int` rather than `byte`. Every value stays within 0..8, so the narrower type cannot overflow.
- `makeAndFillTheBoard` is a static method returning the new array. In the source it also assigns the
  `board` field, which its callers overwrite with the same array at once.
- No claim about admissibility or consistency of either heuristic is made. The code promises neither.
- The board's contents are also described by a ghost linearisation `cells` that `Valid()` ties to the array.
  The array itself is still the board that the methods read and write.
