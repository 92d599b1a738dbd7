// The 8x8 Othello grid, its cell values, and sums of integer-valued
// functions over the grid (the shape of every accumulator loop in the engine).

module Grid {

  /** A cell holds EMPTY (0) or one of the two players' discs (+1 / -1). */
  type Cell = c: int | -1 <= c <= 1

  type Row = r: seq<Cell> | |r| == 8 witness [0, 0, 0, 0, 0, 0, 0, 0]

  const EmptyRow: Row := [0, 0, 0, 0, 0, 0, 0, 0]

  /** Indexed board[x][y]: x is the row, y the column. */
  type Board = b: seq<Row> | |b| == 8
    witness [EmptyRow, EmptyRow, EmptyRow, EmptyRow, EmptyRow, EmptyRow, EmptyRow, EmptyRow]

  /** The opponent of player p is always -p. */
  type Player = p: int | p == 1 || p == -1 witness 1

  /** The opponent of p, -p. */
  function Opponent(p: Player): Player
  {
    -(p as int)
  }

  datatype Option<T> = None | Some(value: T)

  /** A move is a (row, column) pair. */
  type Move = (int, int)

  const EMPTY: Cell := 0

  /** The four corners, in the order the engine visits them. */
  const Corners: seq<Move> := [(0, 0), (0, 7), (7, 0), (7, 7)]

  function Min(a: int, c: int): int { if a <= c then a else c }
  function Max(a: int, c: int): int { if a <= c then c else a }

  predicate InBounds(x: int, y: int)
  {
    0 <= x < 8 && 0 <= y < 8
  }

  /** The cell value, or EMPTY outside the board (used only under an InBounds guard). */
  function At(b: Board, x: int, y: int): Cell
  {
    if InBounds(x, y) then b[x][y] else EMPTY
  }

  // ---------------------------------------------------------------------
  // Sums over the grid, in row-major order.

  /** f(x, 0) + ... + f(x, n - 1) */
  function RowSum(f: (int, int) -> int, x: int, n: nat): int
  {
    if n == 0 then 0 else RowSum(f, x, n - 1) + f(x, n - 1)
  }

  /** The sum of f over rows 0 .. m - 1, all eight columns. */
  function GridSum(f: (int, int) -> int, m: nat): int
  {
    if m == 0 then 0 else GridSum(f, m - 1) + RowSum(f, m - 1, 8)
  }

  /** f(0) + ... + f(n - 1) */
  function LineSum(f: int -> int, n: nat): int
  {
    if n == 0 then 0 else LineSum(f, n - 1) + f(n - 1)
  }

  lemma {:induction false} RowSumAdd(f: (int, int) -> int, g: (int, int) -> int, h: (int, int) -> int, x: int, n: nat)
    requires forall j :: 0 <= j < n ==> h(x, j) == f(x, j) + g(x, j)
    ensures RowSum(h, x, n) == RowSum(f, x, n) + RowSum(g, x, n)
  {
    if n > 0 {
      RowSumAdd(f, g, h, x, n - 1);
    }
  }

  /** Sums are additive: pointwise h == f + g gives GridSum(h) == GridSum(f) + GridSum(g). */
  lemma {:induction false} GridSumAdd(f: (int, int) -> int, g: (int, int) -> int, h: (int, int) -> int, m: nat)
    requires m <= 8
    requires forall i, j :: 0 <= i < 8 && 0 <= j < 8 ==> h(i, j) == f(i, j) + g(i, j)
    ensures GridSum(h, m) == GridSum(f, m) + GridSum(g, m)
  {
    if m > 0 {
      GridSumAdd(f, g, h, m - 1);
      RowSumAdd(f, g, h, m - 1, 8);
    }
  }

  lemma {:induction false} RowSumNeg(f: (int, int) -> int, g: (int, int) -> int, x: int, n: nat)
    requires forall j :: 0 <= j < n ==> g(x, j) == -f(x, j)
    ensures RowSum(g, x, n) == -RowSum(f, x, n)
  {
    if n > 0 {
      RowSumNeg(f, g, x, n - 1);
    }
  }

  /** Negating every term negates the sum. */
  lemma {:induction false} GridSumNeg(f: (int, int) -> int, g: (int, int) -> int, m: nat)
    requires m <= 8
    requires forall i, j :: 0 <= i < 8 && 0 <= j < 8 ==> g(i, j) == -f(i, j)
    ensures GridSum(g, m) == -GridSum(f, m)
  {
    if m > 0 {
      GridSumNeg(f, g, m - 1);
      RowSumNeg(f, g, m - 1, 8);
    }
  }

  lemma {:induction false} RowSumMono(f: (int, int) -> int, g: (int, int) -> int, x: int, n: nat)
    requires forall j :: 0 <= j < n ==> f(x, j) <= g(x, j)
    ensures RowSum(f, x, n) <= RowSum(g, x, n)
  {
    if n > 0 {
      RowSumMono(f, g, x, n - 1);
    }
  }

  /** Sums are monotone in their terms. */
  lemma {:induction false} GridSumMono(f: (int, int) -> int, g: (int, int) -> int, m: nat)
    requires m <= 8
    requires forall i, j :: 0 <= i < 8 && 0 <= j < 8 ==> f(i, j) <= g(i, j)
    ensures GridSum(f, m) <= GridSum(g, m)
  {
    if m > 0 {
      GridSumMono(f, g, m - 1);
      RowSumMono(f, g, m - 1, 8);
    }
  }

  lemma {:induction false} RowSumPoint(f: (int, int) -> int, x: int, y: int, n: nat)
    requires forall j :: 0 <= j < n ==> f(x, j) == (if j == y then 1 else 0)
    ensures RowSum(f, x, n) == (if 0 <= y < n then 1 else 0)
  {
    if n > 0 {
      RowSumPoint(f, x, y, n - 1);
    }
  }

  lemma {:induction false} RowSumZero(f: (int, int) -> int, x: int, n: nat)
    requires forall j :: 0 <= j < n ==> f(x, j) == 0
    ensures RowSum(f, x, n) == 0
  {
    if n > 0 {
      RowSumZero(f, x, n - 1);
    }
  }

  /** The indicator of one in-bounds cell sums to 1. */
  lemma {:induction false} GridSumPoint(f: (int, int) -> int, x: int, y: int, m: nat)
    requires InBounds(x, y) && m <= 8
    requires forall i, j :: 0 <= i < 8 && 0 <= j < 8 ==> f(i, j) == (if i == x && j == y then 1 else 0)
    ensures GridSum(f, m) == (if x < m then 1 else 0)
  {
    if m > 0 {
      GridSumPoint(f, x, y, m - 1);
      if m - 1 == x {
        RowSumPoint(f, m - 1, y, 8);
      } else {
        RowSumZero(f, m - 1, 8);
      }
    }
  }

  /** A sum of zeros is zero. */
  lemma {:induction false} GridSumZero(f: (int, int) -> int, m: nat)
    requires m <= 8
    requires forall i, j :: 0 <= i < 8 && 0 <= j < 8 ==> f(i, j) == 0
    ensures GridSum(f, m) == 0
  {
    if m > 0 {
      GridSumZero(f, m - 1);
      RowSumZero(f, m - 1, 8);
    }
  }

  lemma {:induction false} LineSumNeg(f: int -> int, g: int -> int, n: nat)
    requires forall i :: 0 <= i < n ==> g(i) == -f(i)
    ensures LineSum(g, n) == -LineSum(f, n)
  {
    if n > 0 {
      LineSumNeg(f, g, n - 1);
    }
  }
}
