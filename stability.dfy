// The engine's heuristic notion of a stable disc: a disc joined to an owned
// corner by an unbroken run of the same player's discs along that corner's
// row or column.

module Stability {
  import opened Grid
  import opened BoardOps

  /** Column y of the board, read top to bottom. */
  function Column(b: Board, y: int): Row
    requires 0 <= y < 8
  {
    seq(8, i requires 0 <= i < 8 => b[i][y])
  }

  /** Every cell of `line` between positions a and c, both included, holds p. */
  predicate Owned(line: Row, p: Player, a: int, c: int)
    requires 0 <= a < 8 && 0 <= c < 8
  {
    forall k :: Min(a, c) <= k <= Max(a, c) ==> line[k] == p
  }

  /** (i, j) is marked by the horizontal sweep from corner (x, y). */
  predicate HorizontalRun(b: Board, p: Player, x: int, y: int, i: int, j: int)
    requires InBounds(x, y)
  {
    (x == 0 || x == 7) && i == x && 0 <= j < 8 && b[x][j] == p && Owned(b[x], p, y, j)
  }

  /** (i, j) is marked by the vertical sweep from corner (x, y). */
  predicate VerticalRun(b: Board, p: Player, x: int, y: int, i: int, j: int)
    requires InBounds(x, y)
  {
    (y == 0 || y == 7) && j == y && 0 <= i < 8 && b[i][y] == p && Owned(Column(b, y), p, x, i)
  }

  /** (i, j) is marked while visiting corner (x, y). */
  predicate StableFrom(b: Board, p: Player, x: int, y: int, i: int, j: int)
    requires InBounds(x, y)
  {
    b[x][y] == p && ((i, j) == (x, y) || HorizontalRun(b, p, x, y, i, j) || VerticalRun(b, p, x, y, i, j))
  }

  /** (i, j) is marked by one of the first n corners. */
  predicate StableBefore(b: Board, p: Player, n: nat, i: int, j: int)
    requires n <= 4
  {
    n > 0 && (StableBefore(b, p, n - 1, i, j) || StableFrom(b, p, Corners[n - 1].0, Corners[n - 1].1, i, j))
  }

  predicate Stable(b: Board, p: Player, i: int, j: int)
  {
    StableBefore(b, p, 4, i, j)
  }

  function StableIndicator(b: Board, p: Player): (int, int) -> int
  {
    (i, j) => if InBounds(i, j) && Stable(b, p, i, j) then 1 else 0
  }

  /** The number of stable discs of p. */
  function StableCount(b: Board, p: Player): int
  {
    GridSum(StableIndicator(b, p), 8)
  }

  /** The inner check of the sweep: are all cells between a and c, inclusive, p's? */
  method RunOwned(line: Row, p: Player, a: int, c: int) returns (isStable: bool)
    requires 0 <= a < 8 && 0 <= c < 8
    ensures isStable == Owned(line, p, a, c)
  {
    var start, end := Min(a, c), Max(a, c);
    isStable := true;
    for k := start to end + 1
      invariant forall k' :: start <= k' < k ==> line[k'] == p
    {
      if line[k] != p {
        isStable := false;
        break;
      }
    }
  }

  /** Visits one corner: marks it and sweeps its row and its column. */
  method MarkCorner(b: Board, p: Player, stable: array2<bool>, x: int, y: int)
    requires InBounds(x, y)
    requires stable.Length0 == 8 && stable.Length1 == 8
    modifies stable
    ensures forall i, j :: 0 <= i < 8 && 0 <= j < 8 ==>
      stable[i, j] == (old(stable[i, j]) || StableFrom(b, p, x, y, i, j))
  {
    if b[x][y] == p {
      stable[x, y] := true;
      if x == 0 || x == 7 {
        for j := 0 to 8
          invariant forall i', j' :: 0 <= i' < 8 && 0 <= j' < 8 ==>
            stable[i', j'] == (old(stable[i', j']) || (i', j') == (x, y) || (j' < j && HorizontalRun(b, p, x, y, i', j')))
        {
          if b[x][j] == p {
            var isStable := RunOwned(b[x], p, y, j);
            if isStable {
              stable[x, j] := true;
            }
          }
        }
      }
      if y == 0 || y == 7 {
        for i := 0 to 8
          invariant forall i', j' :: 0 <= i' < 8 && 0 <= j' < 8 ==>
            stable[i', j'] == (old(stable[i', j']) || (i', j') == (x, y) || HorizontalRun(b, p, x, y, i', j')
                               || (i' < i && VerticalRun(b, p, x, y, i', j')))
        {
          if b[i][y] == p {
            var isStable := RunOwned(Column(b, y), p, x, i);
            if isStable {
              stable[i, y] := true;
            }
          }
        }
      }
    }
  }

  /** get_stable_pieces: the number of stable discs of p, computed on an 8x8 array of flags. */
  method GetStablePieces(b: Board, p: Player) returns (count: int)
    ensures count == StableCount(b, p)
  {
    var stable := new bool[8, 8]((i, j) => false);
    for n := 0 to 4
      invariant forall i, j :: 0 <= i < 8 && 0 <= j < 8 ==> stable[i, j] == StableBefore(b, p, n, i, j)
    {
      MarkCorner(b, p, stable, Corners[n].0, Corners[n].1);
    }
    ghost var f := StableIndicator(b, p);
    count := 0;
    for x := 0 to 8
      invariant count == GridSum(f, x)
    {
      for y := 0 to 8
        invariant count == GridSum(f, x) + RowSum(f, x, y)
      {
        if stable[x, y] {
          count := count + 1;
        }
      }
    }
  }

  /** Stable means marked from one of the four corners. */
  lemma StableCorners(b: Board, p: Player, i: int, j: int)
    ensures Stable(b, p, i, j) <==>
      StableFrom(b, p, 0, 0, i, j) || StableFrom(b, p, 0, 7, i, j) ||
      StableFrom(b, p, 7, 0, i, j) || StableFrom(b, p, 7, 7, i, j)
  {
    assert StableBefore(b, p, 1, i, j) == StableFrom(b, p, 0, 0, i, j);
    assert StableBefore(b, p, 2, i, j) == (StableBefore(b, p, 1, i, j) || StableFrom(b, p, 0, 7, i, j));
    assert StableBefore(b, p, 3, i, j) == (StableBefore(b, p, 2, i, j) || StableFrom(b, p, 7, 0, i, j));
  }

  /** What one corner marks: p's discs joined to it along its row or its column. */
  lemma StableFromCell(b: Board, p: Player, x: int, y: int, i: int, j: int)
    requires (x == 0 || x == 7) && (y == 0 || y == 7) && InBounds(i, j)
    ensures StableFrom(b, p, x, y, i, j) <==>
      b[i][j] == p && ((i == x && Owned(b[i], p, y, j)) || (j == y && Owned(Column(b, j), p, x, i)))
  {
    if b[i][j] == p && i == x && Owned(b[i], p, y, j) {
      assert b[x][y] == p;
    }
    if b[i][j] == p && j == y && Owned(Column(b, j), p, x, i) {
      assert Column(b, j)[x] == p;
    }
    if StableFrom(b, p, x, y, i, j) && (i, j) == (x, y) {
      assert Owned(b[i], p, y, j);
    }
  }

  /**
   * A disc is stable iff it is p's and lies on a border line with an unbroken
   * run of p's discs to one of that line's corners; that the corner is owned
   * follows from the run including it.
   */
  lemma StableCell(b: Board, p: Player, i: int, j: int)
    requires InBounds(i, j)
    ensures Stable(b, p, i, j) <==>
      b[i][j] == p &&
      (((i == 0 || i == 7) && (Owned(b[i], p, 0, j) || Owned(b[i], p, 7, j))) ||
       ((j == 0 || j == 7) && (Owned(Column(b, j), p, 0, i) || Owned(Column(b, j), p, 7, i))))
  {
    StableCorners(b, p, i, j);
    StableFromCell(b, p, 0, 0, i, j);
    StableFromCell(b, p, 0, 7, i, j);
    StableFromCell(b, p, 7, 0, i, j);
    StableFromCell(b, p, 7, 7, i, j);
  }

  /** Stable discs are p's discs on the border. */
  lemma StableOnBorder(b: Board, p: Player, i: int, j: int)
    requires InBounds(i, j) && Stable(b, p, i, j)
    ensures b[i][j] == p && (i == 0 || i == 7 || j == 0 || j == 7)
  {
    StableCell(b, p, i, j);
  }

  /** With no owned corner, nothing is stable. */
  lemma NoCornerNoStable(b: Board, p: Player)
    requires b[0][0] != p && b[0][7] != p && b[7][0] != p && b[7][7] != p
    ensures StableCount(b, p) == 0
  {
    forall i, j | 0 <= i < 8 && 0 <= j < 8
      ensures StableIndicator(b, p)(i, j) == 0
    {
      StableCorners(b, p, i, j);
    }
    GridSumZero(StableIndicator(b, p), 8);
  }

  /** 1 on the 28 border cells, 0 elsewhere. */
  function BorderIndicator(): (int, int) -> int
  {
    (i, j) => if InBounds(i, j) && (i == 0 || i == 7 || j == 0 || j == 7) then 1 else 0
  }

  lemma {:induction false} BorderRow(x: int, n: nat)
    requires 0 <= x < 8 && n <= 8
    ensures RowSum(BorderIndicator(), x, n) ==
      if x == 0 || x == 7 then n else (if n >= 1 then 1 else 0) + (if n == 8 then 1 else 0)
  {
    if n > 0 {
      BorderRow(x, n - 1);
    }
  }

  lemma {:induction false} BorderRows(m: nat)
    requires m <= 8
    ensures GridSum(BorderIndicator(), m) == if m == 0 then 0 else if m <= 7 then 8 + 2 * (m - 1) else 28
  {
    if m > 0 {
      BorderRows(m - 1);
      BorderRow(m - 1, 8);
    }
  }

  lemma StableBelowBorder(b: Board, p: Player)
    ensures forall i, j :: 0 <= i < 8 && 0 <= j < 8 ==> StableIndicator(b, p)(i, j) <= BorderIndicator()(i, j)
  {
    forall i, j | 0 <= i < 8 && 0 <= j < 8
      ensures StableIndicator(b, p)(i, j) <= BorderIndicator()(i, j)
    {
      if Stable(b, p, i, j) {
        StableOnBorder(b, p, i, j);
      }
    }
  }

  /** At most the 28 border cells are counted. */
  lemma StableCountAtMostBorder(b: Board, p: Player)
    ensures StableCount(b, p) <= 28
  {
    StableBelowBorder(b, p);
    GridSumMono(StableIndicator(b, p), BorderIndicator(), 8);
    BorderRows(8);
  }

  /** The count is at least 0 and at most the 28 border cells. */
  lemma StableCountBounds(b: Board, p: Player)
    ensures 0 <= StableCount(b, p) <= 28
  {
    StableCountAtMostBorder(b, p);
    var zero: (int, int) -> int := (i, j) => 0;
    GridSumZero(zero, 8);
    GridSumMono(zero, StableIndicator(b, p), 8);
  }

  /** Only p's own discs are counted. */
  lemma StableAtMostDiscs(b: Board, p: Player)
    ensures StableCount(b, p) <= Count(b, p)
  {
    forall i, j | 0 <= i < 8 && 0 <= j < 8
      ensures StableIndicator(b, p)(i, j) <= Indicator(b, p)(i, j)
    {
      if Stable(b, p, i, j) {
        StableOnBorder(b, p, i, j);
      }
    }
    GridSumMono(StableIndicator(b, p), Indicator(b, p), 8);
  }
}
