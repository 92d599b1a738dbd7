# Othello move engine — a verified Dafny model

This project models the move engine of an Othello (Reversi) player,
`othello_ai.py`. The engine has four layers, all over an 8×8 grid whose
cells hold 0 (empty), +1 or −1 (the two players, each the negation of the other):

- **Board operations.**
  - `valid_movements` lists the legal moves in row-major order, using the
    eight-direction sandwich rule.
  - `make_move` copies the board, places a disc and flips every bracketed run.
  - `count_pieces` counts one colour's discs.
- **Stability.** `get_stable_pieces` counts a heuristic notion of stable discs:
  discs joined to an owned corner by an unbroken run along that corner's row or
  column. It works on an 8×8 array of flags.
- **Evaluation.** `evaluate_board` combines six features with fixed weights:
  - piece difference, weighted by game phase;
  - the position table;
  - mobility;
  - corners, with the X-square penalty;
  - stability;
  - edges.
- **Search and policy.**
  - `minimax` is depth-limited alpha-beta. It orders moves by a one-ply
    evaluation, passes when blocked, and scores finished games at 1000 per disc.
  - `get_opening_move` is a four-move opening book.
  - `ai_move` chooses the move, in this order: a forced move, the opening book,
    a corner, a search at a depth set by the game phase, and a greedy fallback
    when the search ran out of time.

Each imperative routine of the engine is a Dafny `method` with its loops,
proved equal to a specification `function`. There are two exceptions.
`minimax` is proved fail-soft against plain minimax, which gives equality
only in the root window. `ai_move` has a contract stated case by case.
Lemmas then state what the engine promises about those functions:

- the move list is exactly the legal cells, in order and without duplicates;
- a move changes only the bracketed opponent discs, and discs are conserved;
- stability is characterised cell by cell and bounded by 28;
- the evaluation is antisymmetric between the players;
- alpha-beta with move ordering returns the unpruned minimax value at the
  root window. Its move attains that value, and it is the first move of the
  descending `(score, (x, y))` order that does.

Modules:

- `Grid` (grid.dfy): cells, rows, boards, players, and sums over the grid.
- `BoardOps` (board_ops.dfy): `in_bounds`, `valid_movements`, `make_move`,
  `count_pieces`.
- `Stability` (stability.dfy): `get_stable_pieces`.
- `Evaluation` (evaluation.dfy): `evaluate_board`.
- `Ordering` (ordering.dfy): the tuple order `(score, (x, y))` that Python's
  `sort` uses on the scored move lists.
- `Search` (search.dfy): `minimax`, specified against plain minimax.
- `Policy` (policy.dfy): `get_opening_move` and `ai_move`.

The search specification `MinimaxValue` takes the leaf evaluation as a
parameter `eval`. The methods carry `eval` as a ghost argument, with the
precondition `IsEvaluate(eval)`: `eval` agrees with `Evaluate` everywhere.
`ai_move` passes `Evaluate` itself, so its contract speaks of the engine's
own evaluation.

Three behaviours of the code worth knowing:

- The search depth rises from 5 to 6 at 40 discs (othello_ai.py:325), while
  the piece weight of the evaluation changes at 45 discs (othello_ai.py:132).
- `make_move` raises no error on an illegal or occupied target. It places the
  disc and flips whatever is bracketed, and `AfterMove` does the same.
- The fallback and the move ordering sort `(score, (x, y))` tuples. Among
  moves with equal scores, the fallback therefore picks the one with the
  largest coordinates, not the first one generated.

## Model

| member | source | states |
|---|---|---|
| BoardOps.RunEndAt | othello_ai.py:27-30 | The walk stops at the first step that leaves the board or meets a cell other than the one it walks over. |
| BoardOps.BracketsSandwich | othello_ai.py:25-31 | A direction brackets (`Brackets`, defined by the walk) iff, for some e from 2 to 7, the cells 1 to e−1 steps out hold opponent discs and the cell e steps out holds a disc of the player. |
| BoardOps.ScanDirection | othello_ai.py:24-33 | The walk along one direction returns true exactly when at least one opponent disc is followed, on the board, by a disc of the player (`Brackets`). |
| BoardOps.ScanDirections | othello_ai.py:23-33 | The direction loop, which stops at the first bracketing direction, reports whether some direction brackets. |
| BoardOps.ValidMovements | othello_ai.py:17-34 | The list built by the nested loops is exactly the specification list `LegalMoves`. |
| BoardOps.LegalMovesSpec | othello_ai.py:17-34 | A cell is in the list iff it is on the board, empty, and some direction brackets it. The list is strictly increasing in row-major order, so it has no duplicates. |
| BoardOps.SetCells | othello_ai.py:68-69 | Setting every listed cell to the player changes exactly the listed cells and leaves the others as they were. |
| BoardOps.CollectRun | othello_ai.py:59-65 | The while walk on the board being built stops one step past the run of opponent discs. The collected cells are exactly the run, in order. The cell where it stops holds what it held before the move. |
| BoardOps.FlippedBeforeSpec | othello_ai.py:58-69 | A cell is flipped by the first n directions iff it lies in the bracketed run of one of them. |
| BoardOps.FlipDirection | othello_ai.py:58-69 | One pass of the direction loop, on the board being built, flips direction k's run exactly when the player closes it. Every other cell is unchanged. |
| BoardOps.MakeMove | othello_ai.py:53-71 | The copied and updated board equals `AfterMove`. Boards are values, so the input board is never modified. |
| BoardOps.AfterMoveCells | othello_ai.py:53-71 | After the move the target holds the player. Every flipped cell was an opponent disc in a bracketed run and now holds the player. Any other cell that changed is such a flipped disc. Every cell that is neither the target nor flipped is unchanged. |
| BoardOps.AfterMoveCell | othello_ai.py:53-71 | The value of one cell after a move: the player on the target or on a flipped cell, the old value elsewhere. |
| BoardOps.CountPieces | othello_ai.py:73-79 | The accumulator loop returns the number of cells equal to the given value. |
| BoardOps.DiscsSplit | othello_ai.py:125-127 | The number of occupied cells is the player's count plus the opponent's count. |
| BoardOps.MoveCounts | othello_ai.py:53-79 | On an empty target with k flipped discs, the mover gains 1 + k discs, the opponent loses exactly k, and the disc total grows by one. |
| BoardOps.LegalMoveFlips | othello_ai.py:17-34 | A legal move flips at least one disc. |
| Stability.RunOwned | othello_ai.py:94-100 | The inner loop returns true iff every cell between the two positions, both included, holds the player. |
| Stability.MarkCorner | othello_ai.py:85-115 | Visiting one corner sets a flag exactly on the cells that corner makes stable: the corner itself if owned, and the player's discs joined to it by an unbroken run along its row or its column. Every other flag keeps its value. |
| Stability.GetStablePieces | othello_ai.py:81-119 | The array computation returns `StableCount`, the number of cells marked from one of the four corners. |
| Stability.StableCorners | othello_ai.py:85-115 | A cell is stable iff one of the four corners marks it. |
| Stability.StableFromCell | othello_ai.py:85-115 | What one corner marks: the player's discs on its row, or on its column, with an unbroken run of the player's discs back to the corner. |
| Stability.StableCell | othello_ai.py:81-119 | A cell is counted iff it holds the player, lies on row 0/7 or column 0/7, and every cell from it to a corner of that line, both included, holds the player. |
| Stability.StableOnBorder | othello_ai.py:81-119 | Only the player's own discs on the border can be counted. |
| Stability.NoCornerNoStable | othello_ai.py:81-119 | With no corner owned, the count is 0. |
| Stability.StableCountAtMostBorder | othello_ai.py:81-119 | The count never exceeds the 28 border cells. |
| Stability.StableCountBounds | othello_ai.py:81-119 | The count lies between 0 and 28. |
| Stability.StableAtMostDiscs | othello_ai.py:81-119 | The count never exceeds the player's number of discs. |
| Evaluation.Signed | othello_ai.py:143-146 | A feature term is 0 on an empty cell. |
| Evaluation.SignedOpponent | othello_ai.py:143-146 | Exchanging the players negates a per-cell feature term. |
| Evaluation.PieceWeight | othello_ai.py:130-135 | The phase weight of the piece difference is positive and at most 1. |
| Evaluation.ComputePositionScore | othello_ai.py:140-146 | The loop returns the table-weighted sum: plus the table value on the player's discs, minus it on the opponent's. |
| Evaluation.RowPositionScore | othello_ai.py:142-146 | The inner loop returns the signed table sum of one row. |
| Evaluation.ComputeCornerScore | othello_ai.py:156-170 | The loops return the corner score: ±25 per owned corner, and ∓15 per X-square disc next to an empty corner. |
| Evaluation.ComputeEdgeScore | othello_ai.py:178-198 | The loop returns the edge score: ±2 per disc on each of the four border lines, so a corner disc counts twice. |
| Evaluation.ComputePieceDiff | othello_ai.py:125-137 | The phase-weighted disc difference, with weight 0.1 below 20 discs, 0.3 below 45 and 1.0 otherwise. |
| Evaluation.ComputeMobility | othello_ai.py:149-153 | The mobility term: 100 times the move difference over the move total, and 0 when neither side can move. |
| Evaluation.EvaluateBoard | othello_ai.py:121-210 | The routine returns `Evaluate`, the weighted sum of the six features with weights 0.5, 2.0, 3.0, 1.5 and 0.8. |
| Evaluation.PositionAntisymmetric | othello_ai.py:140-146 | Exchanging the players negates the positional score. |
| Evaluation.MobilityAntisymmetric | othello_ai.py:148-153 | Exchanging the move counts negates mobility. Mobility lies in [−100, 100] and is 0 when both counts are equal. |
| Evaluation.CornerAntisymmetric | othello_ai.py:155-170 | Exchanging the players negates the corner score. |
| Evaluation.EdgeAntisymmetric | othello_ai.py:177-198 | Exchanging the players negates the edge score. |
| Evaluation.PieceDiffAntisymmetric | othello_ai.py:124-137 | Exchanging the disc counts negates the piece difference. The weight depends only on the total. |
| Evaluation.WeightedSumNeg | othello_ai.py:200-208 | Negating all six features negates the weighted sum. |
| Evaluation.EvaluateAntisymmetric | othello_ai.py:121-210 | `evaluate_board(b, -p) == -evaluate_board(b, p)`, over exact reals. |
| Ordering.KeyTrichotomy | othello_ai.py:245 | The tuple order on `(score, (x, y))` is a strict total order. |
| Ordering.Insert | othello_ai.py:245 | Inserting into a sorted list yields a sorted list with one more occurrence of the element. |
| Ordering.Sort | othello_ai.py:245 | `sort()` and `sort(reverse=True)` return a permutation of their input, ordered by the tuple order. |
| Ordering.SortedHeads | othello_ai.py:245 | Two sorted permutations of one list have the same first element. |
| Ordering.SortedUnique | othello_ai.py:245 | Two sorted permutations of one list are equal, so the sort result does not depend on the sorting algorithm. |
| Search.MaxE | othello_ai.py:255 | Python's `max(alpha, eval_score)`: an upper bound of both arguments and one of them. |
| Search.MinE | othello_ai.py:278 | Python's `min(beta, eval_score)`: a lower bound of both arguments and one of them. |
| Search.BestOfBound | othello_ai.py:247-282 | No move is better for the side to move than the unpruned best child value. |
| Search.BestOfAttained | othello_ai.py:247-282 | Some move attains the unpruned best child value. |
| Search.FailSoftFullWindow | othello_ai.py:337 | In the root window (−∞, +∞), the fail-soft guarantee means equality with the true value. |
| Search.MaxStep | othello_ai.py:247-257 | One step of the maximizing loop: the new alpha is max(alpha, best so far). Without a cut-off, the best so far bounds the new child and is still fail-soft. With a cut-off, it is a lower bound. |
| Search.MinStep | othello_ai.py:270-280 | The same for the minimizing loop, lowering beta. |
| Search.Leaf | othello_ai.py:215 | The leaf value is the evaluation for the root player. |
| Search.OrderMoves | othello_ai.py:240-245 | The scoring loop pairs each move with its one-ply evaluation and sorts the pairs. |
| Search.OrderedMoves | othello_ai.py:240-247 | The ordered list visits each legal move, and only legal moves. |
| Search.SearchChild | othello_ai.py:248-249 | Playing a move and searching one level deeper gives a fail-soft value for that child. |
| Search.TerminalScoreSign | othello_ai.py:228-229 | A finished game scores positive iff the root player has more discs, and zero iff the counts are equal. Swapping the point of view negates the score. |
| Search.GameOverScore | othello_ai.py:228-229 | The score when neither side can move is `TerminalScore`: 1000 times the disc difference. |
| Search.PassOrEnd | othello_ai.py:225-233 | When the side to move has no move: the terminal score if the other side has none either. Otherwise the turn passes, giving a fail-soft value of the position at depth−1. Either way the value is fail-soft against unpruned minimax. |
| Search.SearchMoves | othello_ai.py:235-282 | A node with legal moves returns one of them. Its value is fail-soft against unpruned minimax and against that move's child value. Searched in (−∞, +∞), the move is the first of the node's order (descending when maximizing, ascending when minimizing) to reach the value (`FirstToReach`). |
| Search.FirstToReachUnique | othello_ai.py:249-276 | At most one move of an ordered list is the first to reach a value that it attains, so `FirstToReach` pins down the move. |
| Search.FirstMaxStep | othello_ai.py:249-253 | In the window (−∞, +∞), a child replaces the running maximum exactly when its true value is larger. So the running maximum stays the value of the first child to reach it. |
| Search.Minimax | othello_ai.py:212-282 | The cases: <ul><li>timed out or depth 0: the evaluation and no move;</li><li>no move for either side: 1000 times the disc difference and no move;</li><li>a pass: a fail-soft value of the position at depth−1 with the other side to move, and no move;</li><li>otherwise: a legal move of the side to move.</li></ul> Without a timeout the value is fail-soft against unpruned minimax in the window (alpha, beta), and so is the value of the returned move. Searched in (−∞, +∞), the returned move is the first of the node's `(score, (x, y))` order (descending when maximizing, ascending when minimizing) whose value is the best. Recursion ends because depth decreases. |
| Search.SearchValue | othello_ai.py:249 | An untimed search returns a fail-soft value of the position in its window. |
| Search.MaxLoop | othello_ai.py:247-257 | The maximizing child loop returns one of the moves searched, with a fail-soft value for that move. After a cut-off the value is at least beta. Without one, it bounds every child's true value. In the window (−∞, +∞) there is no cut-off, and every child before the returned one has a strictly smaller value. |
| Search.MinLoop | othello_ai.py:270-280 | The minimizing child loop returns one of the moves searched, with a fail-soft value for that move. After a cut-off the value is at most alpha. Without one, it is at most every child's true value. In the window (−∞, +∞) there is no cut-off, and every child before the returned one has a strictly larger value. |
| Search.FirstMinStep | othello_ai.py:272-276 | In the window (−∞, +∞), a child replaces the running minimum exactly when its true value is smaller. So the running minimum stays the value of the first child to reach it. |
| Search.MaxNode | othello_ai.py:237-259 | The maximizing branch, with cut-off, returns a legal move. Its value is fail-soft against the unpruned best child and against that move's child value. In the window (−∞, +∞), the move is the first of the descending order to reach the value. |
| Search.MinNode | othello_ai.py:260-282 | The minimizing branch, with cut-off, orders the moves ascending and returns a legal move. Its value is fail-soft against the unpruned smallest child value and against that move's child value. In the window (−∞, +∞), the move is the first of the ascending order to reach the value. |
| Policy.FirstIn | othello_ai.py:291-294 | The first element of a list that occurs in another: none iff no element occurs, and otherwise an occurring element with no occurring element before it. |
| Policy.FindFirst | othello_ai.py:318-320 | The early-return loop returns `FirstIn`. |
| Policy.OpeningMove | othello_ai.py:284-296 | A book move is returned only at 4 discs, and it is legal and one of (2,3), (3,2), (4,5), (5,4). At 4 discs, the result is the first of them, in that preference order, that is legal, and nothing iff none is. |
| Policy.GetOpeningMove | othello_ai.py:284-296 | The routine returns `OpeningMove`. |
| Policy.SearchDepth | othello_ai.py:323-334 | The depth is between 3 and 8, and at least 4 with at most 10 moves. |
| Policy.SearchDepthMonotone | othello_ai.py:323-334 | The depth never decreases as discs are added or as the number of moves falls. |
| Policy.SearchDepthReduction | othello_ai.py:333-334 | More than 10 moves take exactly one ply off, at every disc count. The schedule never goes below 4, so the `max(3, …)` floor is never reached. |
| Policy.SortedMember | othello_ai.py:347 | Every pair of the sorted list comes from the scored list. |
| Policy.SortedHeadLargest | othello_ai.py:347-348 | The head of the descending sort is the largest pair. |
| Policy.GreedyMove | othello_ai.py:340-348 | The fallback returns a legal move whose successor evaluation is largest. Ties go to the larger coordinates. |
| Policy.QuickChoice | othello_ai.py:302-320 | The decision taken before any search. It is a legal move or nothing. With a single legal move, it is that move. With several, at 8 discs or fewer, it is the book move if there is one. Otherwise it is the first legal move, in generation order, that is a corner. It is nothing iff there is not exactly one legal move, no book move applies, and no legal move is a corner. |
| Policy.AiMove | othello_ai.py:298-350 | <ul><li>No move iff no legal move; otherwise a legal move.</li><li>With one legal move, that move.</li><li>Otherwise, at 8 discs or fewer, the book move if there is one; otherwise the first corner in generation order.</li><li>Otherwise, without a timeout, a move whose minimax value at the scheduled depth equals the root minimax value. It is the first such move in the descending `(score, (x, y))` order of the one-ply scores.</li><li>Otherwise, with a timeout, the greedy choice.</li></ul> |

## Left out

- The wall clock (`time.time()` and the 2.5 s limit) is the boolean `timedOut`. Every node of one search sees the same value. So the model covers a deadline that has passed before the search starts and one that never arrives; a deadline reached in the middle of a search, after which the deeper nodes return static evaluations, is not modelled.
- Floating point: scores are exact reals, and ±infinity is the `ExtReal` datatype. Rounding of `0.1 * diff`, of the mobility quotient and of the weighted sum is not modelled.
- `C_SQUARES` is declared but never read, so it has no counterpart.
- `in_bounds` is the predicate `Grid.InBounds`. It is a single comparison, so it has no row of its own.
- Search.Minimax: the leaf evaluation appears as the ghost argument `eval`, which the precondition `IsEvaluate` ties to `Evaluate`. The depth-0 and timeout cases therefore state `value == eval(b, root)`, not `Evaluate(b, root)`.
- Search.Minimax: the pass case states only the fail-soft relation to the value at depth−1, not equality with the result of the recursive call.
- Python's `sort` is modelled by its outcome, a sorted permutation; the sorting algorithm itself is not modelled. The keys `(score, (x, y))` are distinct because the moves are distinct, so every correct sort gives the same list (`Ordering.SortedUnique`).
