// Board operations of the engine: bounds, the eight scan directions, legal-move
// generation by the sandwich rule, move application with flips, disc counting.

module BoardOps {
  import opened Grid

  /** The eight scan directions, in the engine's fixed order. */
  const Directions: seq<(int, int)> :=
    [(-1, -1), (-1, 0), (-1, 1), (0, -1), (0, 1), (1, -1), (1, 0), (1, 1)]

  /** One coordinate t steps away along a direction component d in {-1, 0, 1}. */
  function Step(c: int, d: int, t: int): int
  {
    if d == 1 then c + t else if d == -1 then c - t else c
  }

  function RayX(x: int, k: int, t: int): int
    requires 0 <= k < 8
  {
    Step(x, Directions[k].0, t)
  }

  function RayY(y: int, k: int, t: int): int
    requires 0 <= k < 8
  {
    Step(y, Directions[k].1, t)
  }

  /** A cell reached from an in-bounds origin is at most seven steps away. */
  lemma RayReach(x: int, y: int, k: int, t: int)
    requires InBounds(x, y) && 0 <= k < 8 && t >= 0
    requires InBounds(RayX(x, k, t), RayY(y, k, t))
    ensures t <= 7
  {
  }

  /**
   * Walking from (x, y) in direction k, starting t steps out, over cells
   * equal to v: the number of steps at which the walk stops (the first
   * cell that is out of bounds or not v).
   */
  function RunEnd(b: Board, x: int, y: int, k: int, v: int, t: int): (e: int)
    requires InBounds(x, y) && 0 <= k < 8 && 1 <= t <= 8
    ensures t <= e <= 8
    decreases 8 - t
  {
    var i, j := RayX(x, k, t), RayY(y, k, t);
    if InBounds(i, j) && b[i][j] == v then
      RayReach(x, y, k, t);
      RunEnd(b, x, y, k, v, t + 1)
    else
      t
  }

  /** Every cell the walk passes over is on the board and holds v. */
  lemma {:induction false} RunEndCells(b: Board, x: int, y: int, k: int, v: int, t: int, s: int)
    requires InBounds(x, y) && 0 <= k < 8 && 1 <= t <= 8
    requires t <= s < RunEnd(b, x, y, k, v, t)
    ensures InBounds(RayX(x, k, s), RayY(y, k, s)) && b[RayX(x, k, s)][RayY(y, k, s)] == v
    decreases 8 - t
  {
    if s > t {
      RayReach(x, y, k, t);
      RunEndCells(b, x, y, k, v, t + 1, s);
    }
  }

  /**
   * Direction k brackets a run for player p at (x, y): at least one opponent
   * disc, followed on the board by a disc of p.
   */
  predicate Brackets(b: Board, x: int, y: int, p: Player, k: int)
    requires InBounds(x, y) && 0 <= k < 8
  {
    var e := RunEnd(b, x, y, k, Opponent(p), 1);
    e > 1 && InBounds(RayX(x, k, e), RayY(y, k, e)) && b[RayX(x, k, e)][RayY(y, k, e)] == p
  }

  /** The walk stops exactly at the first step e from t on that leaves the board or holds something other than v. */
  lemma {:induction false} RunEndAt(b: Board, x: int, y: int, k: int, v: int, t: int, e: int)
    requires InBounds(x, y) && 0 <= k < 8 && 1 <= t <= e <= 8
    requires forall s :: t <= s < e ==> (InBounds(RayX(x, k, s), RayY(y, k, s)) && b[RayX(x, k, s)][RayY(y, k, s)] == v)
    requires !(InBounds(RayX(x, k, e), RayY(y, k, e)) && b[RayX(x, k, e)][RayY(y, k, e)] == v)
    ensures RunEnd(b, x, y, k, v, t) == e
    decreases e - t
  {
    if t < e {
      RayReach(x, y, k, t);
      RunEndAt(b, x, y, k, v, t + 1, e);
    }
  }

  /**
   * The sandwich rule stated directly: the cells 1 .. e - 1 steps out hold
   * opponent discs and the cell e steps out holds a disc of p.
   */
  predicate Sandwich(b: Board, x: int, y: int, p: Player, k: int, e: int)
    requires InBounds(x, y) && 0 <= k < 8
  {
    2 <= e <= 7 &&
    (forall s :: 1 <= s < e ==> (InBounds(RayX(x, k, s), RayY(y, k, s)) && b[RayX(x, k, s)][RayY(y, k, s)] == Opponent(p))) &&
    InBounds(RayX(x, k, e), RayY(y, k, e)) && b[RayX(x, k, e)][RayY(y, k, e)] == p
  }

  /** Brackets, defined by the walk, is exactly the sandwich rule. */
  lemma BracketsSandwich(b: Board, x: int, y: int, p: Player, k: int)
    requires InBounds(x, y) && 0 <= k < 8
    ensures Brackets(b, x, y, p, k) <==> exists e :: Sandwich(b, x, y, p, k, e)
  {
    var e := RunEnd(b, x, y, k, Opponent(p), 1);
    if Brackets(b, x, y, p, k) {
      RayReach(x, y, k, e);
      forall s | 1 <= s < e
        ensures InBounds(RayX(x, k, s), RayY(y, k, s)) && b[RayX(x, k, s)][RayY(y, k, s)] == Opponent(p)
      {
        RunEndCells(b, x, y, k, Opponent(p), 1, s);
      }
      assert Sandwich(b, x, y, p, k, e);
    }
    if exists e' :: Sandwich(b, x, y, p, k, e') {
      var e' :| Sandwich(b, x, y, p, k, e');
      RunEndAt(b, x, y, k, Opponent(p), 1, e');
    }
  }

  /** The sandwich rule: an empty cell with at least one bracketing direction. */
  predicate IsLegal(b: Board, x: int, y: int, p: Player)
    requires InBounds(x, y)
  {
    b[x][y] == EMPTY && exists k :: 0 <= k < 8 && Brackets(b, x, y, p, k)
  }

  // ---------------------------------------------------------------------
  // Legal-move generation.

  /** The legal cells (x, 0) .. (x, n - 1), in column order. */
  function LegalInRow(b: Board, p: Player, x: int, n: nat): seq<Move>
    requires 0 <= x < 8 && n <= 8
  {
    if n == 0 then []
    else LegalInRow(b, p, x, n - 1) + (if IsLegal(b, x, n - 1, p) then [(x, n - 1)] else [])
  }

  /** The legal cells of rows 0 .. m - 1, in row-major order. */
  function LegalUpTo(b: Board, p: Player, m: nat): seq<Move>
    requires m <= 8
  {
    if m == 0 then [] else LegalUpTo(b, p, m - 1) + LegalInRow(b, p, m - 1, 8)
  }

  function LegalMoves(b: Board, p: Player): (r: seq<Move>)
    ensures forall mv :: mv in r ==> InBounds(mv.0, mv.1)
  {
    LegalUpToSpec(b, p, 8);
    LegalUpTo(b, p, 8)
  }

  /** Row-major order: a comes strictly before c. */
  predicate RowMajorBefore(a: Move, c: Move)
  {
    a.0 < c.0 || (a.0 == c.0 && a.1 < c.1)
  }

  predicate RowMajorSorted(s: seq<Move>)
  {
    forall i, j :: 0 <= i < j < |s| ==> RowMajorBefore(s[i], s[j])
  }

  lemma {:induction false} LegalInRowMembers(b: Board, p: Player, x: int, n: nat)
    requires 0 <= x < 8 && n <= 8
    ensures forall m :: m in LegalInRow(b, p, x, n) <==> m.0 == x && 0 <= m.1 < n && IsLegal(b, x, m.1, p)
  {
    if n > 0 {
      LegalInRowMembers(b, p, x, n - 1);
    }
  }

  lemma {:induction false} LegalInRowSorted(b: Board, p: Player, x: int, n: nat)
    requires 0 <= x < 8 && n <= 8
    ensures RowMajorSorted(LegalInRow(b, p, x, n))
  {
    if n > 0 {
      LegalInRowSorted(b, p, x, n - 1);
      LegalInRowMembers(b, p, x, n - 1);
      var s := LegalInRow(b, p, x, n - 1);
      forall i, j | 0 <= i < j < |LegalInRow(b, p, x, n)|
        ensures RowMajorBefore(LegalInRow(b, p, x, n)[i], LegalInRow(b, p, x, n)[j])
      {
        if j >= |s| {
          assert s[i] in s;
        }
      }
    }
  }

  /** The legal cells of row x among its first n columns, in increasing column order. */
  lemma LegalInRowSpec(b: Board, p: Player, x: int, n: nat)
    requires 0 <= x < 8 && n <= 8
    ensures forall m :: m in LegalInRow(b, p, x, n) <==> m.0 == x && 0 <= m.1 < n && IsLegal(b, x, m.1, p)
    ensures RowMajorSorted(LegalInRow(b, p, x, n))
  {
    LegalInRowMembers(b, p, x, n);
    LegalInRowSorted(b, p, x, n);
  }

  lemma {:induction false} LegalUpToSpec(b: Board, p: Player, m: nat)
    requires m <= 8
    ensures forall mv :: mv in LegalUpTo(b, p, m) <==> 0 <= mv.0 < m && 0 <= mv.1 < 8 && IsLegal(b, mv.0, mv.1, p)
    ensures RowMajorSorted(LegalUpTo(b, p, m))
  {
    if m > 0 {
      LegalUpToSpec(b, p, m - 1);
      LegalInRowSpec(b, p, m - 1, 8);
      var s, r := LegalUpTo(b, p, m - 1), LegalInRow(b, p, m - 1, 8);
      forall i, j | 0 <= i < j < |s + r|
        ensures RowMajorBefore((s + r)[i], (s + r)[j])
      {
        if j < |s| {
        } else if i >= |s| {
          assert (s + r)[i] == r[i - |s|] && (s + r)[j] == r[j - |s|];
        } else {
          assert (s + r)[i] == s[i] && s[i] in s;
          assert (s + r)[j] == r[j - |s|] && r[j - |s|] in r;
        }
      }
    }
  }

  /**
   * The generated list holds exactly the legal cells, in strictly increasing
   * row-major order (so without duplicates).
   */
  lemma LegalMovesSpec(b: Board, p: Player)
    ensures forall mv :: mv in LegalMoves(b, p) <==> InBounds(mv.0, mv.1) && IsLegal(b, mv.0, mv.1, p)
    ensures RowMajorSorted(LegalMoves(b, p))
    ensures forall i, j :: 0 <= i < j < |LegalMoves(b, p)| ==> LegalMoves(b, p)[i] != LegalMoves(b, p)[j]
  {
    LegalUpToSpec(b, p, 8);
  }

  /** The walk of one direction, as the engine performs it: returns whether k brackets. */
  method ScanDirection(b: Board, x: int, y: int, p: Player, k: int) returns (brackets: bool)
    requires InBounds(x, y) && 0 <= k < 8
    ensures brackets == Brackets(b, x, y, p, k)
  {
    var opponent := Opponent(p);
    var (dx, dy) := Directions[k];
    var i, j := x + dx, y + dy;
    var foundOpponent := false;
    ghost var t := 1;
    while InBounds(i, j) && b[i][j] == opponent
      invariant 1 <= t <= 8
      invariant i == RayX(x, k, t) && j == RayY(y, k, t)
      invariant RunEnd(b, x, y, k, opponent, t) == RunEnd(b, x, y, k, opponent, 1)
      invariant foundOpponent == (t > 1)
      decreases 8 - t
    {
      RayReach(x, y, k, t);
      i, j := i + dx, j + dy;
      foundOpponent := true;
      t := t + 1;
    }
    brackets := foundOpponent && InBounds(i, j) && b[i][j] == p;
  }

  /**
   * valid_movements: every empty cell in row-major order, each direction
   * scanned until the first one that brackets.
   */
  method ValidMovements(b: Board, p: Player) returns (validMoves: seq<Move>)
    ensures validMoves == LegalMoves(b, p)
  {
    validMoves := [];
    for x := 0 to 8
      invariant validMoves == LegalUpTo(b, p, x)
    {
      for y := 0 to 8
        invariant validMoves == LegalUpTo(b, p, x) + LegalInRow(b, p, x, y)
      {
        if b[x][y] != EMPTY {
          continue;
        }
        var found := ScanDirections(b, x, y, p);
        if found {
          validMoves := validMoves + [(x, y)];
        }
      }
    }
  }

  /** The direction loop of valid_movements: stops at the first direction that brackets. */
  method ScanDirections(b: Board, x: int, y: int, p: Player) returns (found: bool)
    requires InBounds(x, y)
    ensures found <==> exists k :: 0 <= k < 8 && Brackets(b, x, y, p, k)
  {
    found := false;
    var k := 0;
    while k < 8
      invariant 0 <= k <= 8
      invariant forall k' :: 0 <= k' < k ==> !Brackets(b, x, y, p, k')
    {
      var brackets := ScanDirection(b, x, y, p, k);
      if brackets {
        found := true;
        break;
      }
      k := k + 1;
    }
  }

  // ---------------------------------------------------------------------
  // Move application.

  /** How many steps along direction k lead from (x, y) to (i, j); 0 if (i, j) is not on that ray. */
  function RayDist(x: int, y: int, k: int, i: int, j: int): (t: int)
    requires 0 <= k < 8
    ensures t >= 0
    ensures t >= 1 ==> i == RayX(x, k, t) && j == RayY(y, k, t)
  {
    var (dx, dy) := Directions[k];
    var t := if dx != 0 then (if dx == 1 then i - x else x - i) else (if dy == 1 then j - y else y - j);
    if t >= 1 && RayX(x, k, t) == i && RayY(y, k, t) == j then t else 0
  }

  /** A cell t >= 1 steps out along ray k lies on no other ray from the same origin. */
  lemma RayDistOnRay(x: int, y: int, k: int, k2: int, t: int)
    requires 0 <= k < 8 && 0 <= k2 < 8 && t >= 1
    ensures RayDist(x, y, k2, RayX(x, k, t), RayY(y, k, t)) == if k2 == k then t else 0
  {
  }

  /** The cells at steps 1 .. t - 1 along ray k, nearest first (the engine's flips list). */
  function RaySegment(x: int, y: int, k: int, t: int): seq<Move>
    requires 0 <= k < 8
    decreases t
  {
    if t <= 1 then [] else RaySegment(x, y, k, t - 1) + [(RayX(x, k, t - 1), RayY(y, k, t - 1))]
  }

  lemma {:induction false} RaySegmentIndex(x: int, y: int, k: int, t: int)
    requires 0 <= k < 8
    ensures |RaySegment(x, y, k, t)| == if t <= 1 then 0 else t - 1
    ensures forall s :: 0 <= s < |RaySegment(x, y, k, t)| ==>
      RaySegment(x, y, k, t)[s] == (RayX(x, k, s + 1), RayY(y, k, s + 1))
    decreases t
  {
    if t > 1 {
      RaySegmentIndex(x, y, k, t - 1);
    }
  }

  /** The flips list holds exactly the cells 1 .. t - 1 steps out along ray k. */
  lemma RaySegmentMember(x: int, y: int, k: int, t: int, i: int, j: int)
    requires 0 <= k < 8
    ensures (i, j) in RaySegment(x, y, k, t) <==> 1 <= RayDist(x, y, k, i, j) < t
  {
    RaySegmentIndex(x, y, k, t);
    var seg := RaySegment(x, y, k, t);
    var d := RayDist(x, y, k, i, j);
    if 1 <= d < t {
      assert seg[d - 1] == (i, j);
    }
    if (i, j) in seg {
      var s :| 0 <= s < |seg| && seg[s] == (i, j);
      RayDistOnRay(x, y, k, k, s + 1);
    }
  }

  /** Cell (i, j) is in the bracketed run of direction k. */
  predicate FlippedIn(b: Board, x: int, y: int, p: Player, k: int, i: int, j: int)
    requires InBounds(x, y) && 0 <= k < 8
  {
    Brackets(b, x, y, p, k) && 1 <= RayDist(x, y, k, i, j) < RunEnd(b, x, y, k, Opponent(p), 1)
  }

  /** Cell (i, j) is in the bracketed run of one of the directions 0 .. n - 1. */
  predicate FlippedBefore(b: Board, x: int, y: int, p: Player, n: int, i: int, j: int)
    requires InBounds(x, y) && n <= 8
  {
    n > 0 && (FlippedBefore(b, x, y, p, n - 1, i, j) || FlippedIn(b, x, y, p, n - 1, i, j))
  }

  /** Cell (i, j) is flipped by playing p at (x, y). */
  predicate Flipped(b: Board, x: int, y: int, p: Player, i: int, j: int)
    requires InBounds(x, y)
  {
    FlippedBefore(b, x, y, p, 8, i, j)
  }

  /** The content of cell (i, j) once the origin is set and directions 0 .. n - 1 are applied. */
  function MoveCell(b: Board, x: int, y: int, p: Player, n: int, i: int, j: int): Cell
    requires InBounds(x, y) && InBounds(i, j) && n <= 8
  {
    if i == x && j == y then p
    else if FlippedBefore(b, x, y, p, n, i, j) then p
    else b[i][j]
  }

  /** The board after p plays at (x, y). */
  function AfterMove(b: Board, x: int, y: int, p: Player): Board
    requires InBounds(x, y)
  {
    seq(8, i requires 0 <= i < 8 => seq(8, j requires 0 <= j < 8 => MoveCell(b, x, y, p, 8, i, j)))
  }

  /** A cell on ray k is not touched by the directions before k. */
  lemma {:induction false} NotFlippedBefore(b: Board, x: int, y: int, p: Player, k: int, n: int, t: int)
    requires InBounds(x, y) && 0 <= k < 8 && 0 <= n <= k && t >= 1
    ensures !FlippedBefore(b, x, y, p, n, RayX(x, k, t), RayY(y, k, t))
  {
    if n > 0 {
      NotFlippedBefore(b, x, y, p, k, n - 1, t);
      RayDistOnRay(x, y, k, n - 1, t);
    }
  }

  /** A flipped cell is on the board, is not the origin, and held an opponent disc. */
  lemma {:induction false} FlippedBeforeCell(b: Board, x: int, y: int, p: Player, n: int, i: int, j: int)
    requires InBounds(x, y) && 0 <= n <= 8
    requires FlippedBefore(b, x, y, p, n, i, j)
    ensures InBounds(i, j) && (i, j) != (x, y) && b[i][j] == Opponent(p)
  {
    if FlippedBefore(b, x, y, p, n - 1, i, j) {
      FlippedBeforeCell(b, x, y, p, n - 1, i, j);
    } else {
      var t := RayDist(x, y, n - 1, i, j);
      RunEndCells(b, x, y, n - 1, Opponent(p), 1, t);
      RayDistOnRay(x, y, n - 1, n - 1, t);
    }
  }

  /** Applying direction k changes exactly the cells of its run, when it brackets. */
  lemma MoveCellStep(b: Board, x: int, y: int, p: Player, k: int, a: int, c: int)
    requires InBounds(x, y) && InBounds(a, c) && 0 <= k < 8
    ensures MoveCell(b, x, y, p, k + 1, a, c) ==
      if Brackets(b, x, y, p, k) && (a, c) in RaySegment(x, y, k, RunEnd(b, x, y, k, Opponent(p), 1))
      then p else MoveCell(b, x, y, p, k, a, c)
  {
    RaySegmentMember(x, y, k, RunEnd(b, x, y, k, Opponent(p), 1), a, c);
  }

  /** The inner loop of make_move: set every listed cell to p. */
  method SetCells(current: Board, cells: seq<Move>, p: Player) returns (newBoard: Board)
    requires forall f :: 0 <= f < |cells| ==> InBounds(cells[f].0, cells[f].1)
    ensures forall a, c :: 0 <= a < 8 && 0 <= c < 8 ==>
      newBoard[a][c] == if (a, c) in cells then p else current[a][c]
  {
    newBoard := current;
    for f := 0 to |cells|
      invariant forall a, c :: 0 <= a < 8 && 0 <= c < 8 ==>
        newBoard[a][c] == if (a, c) in cells[..f] then p else current[a][c]
    {
      var (fx, fy) := cells[f];
      newBoard := newBoard[fx := newBoard[fx][fy := p]];
      assert cells[..f + 1] == cells[..f] + [cells[f]];
    }
    assert cells[..|cells|] == cells;
  }

  /**
   * The while walk of make_move's direction loop, on the board being built:
   * collects the run of opponent discs along direction k and stops at the
   * first cell past it.
   */
  method CollectRun(ghost b: Board, current: Board, x: int, y: int, p: Player, k: int)
    returns (flips: seq<Move>, i: int, j: int, ghost t: int)
    requires InBounds(x, y) && 0 <= k < 8
    requires forall i, j :: 0 <= i < 8 && 0 <= j < 8 ==> current[i][j] == MoveCell(b, x, y, p, k, i, j)
    ensures t == RunEnd(b, x, y, k, Opponent(p), 1)
    ensures i == RayX(x, k, t) && j == RayY(y, k, t) && flips == RaySegment(x, y, k, t)
    ensures InBounds(i, j) ==> current[i][j] == b[i][j]
  {
    var opponent := Opponent(p);
    var (dx, dy) := Directions[k];
    i, j := x + dx, y + dy;
    flips := [];
    t := 1;
    while InBounds(i, j) && current[i][j] == opponent
      invariant 1 <= t <= 8
      invariant i == RayX(x, k, t) && j == RayY(y, k, t)
      invariant RunEnd(b, x, y, k, opponent, t) == RunEnd(b, x, y, k, opponent, 1)
      invariant flips == RaySegment(x, y, k, t)
      decreases 8 - t
    {
      RayReach(x, y, k, t);
      NotFlippedBefore(b, x, y, p, k, k, t);
      RayDistOnRay(x, y, k, k, t);
      flips := flips + [(i, j)];
      i, j := i + dx, j + dy;
      t := t + 1;
    }
    if InBounds(i, j) {
      NotFlippedBefore(b, x, y, p, k, k, t);
      RayDistOnRay(x, y, k, k, t);
    }
  }

  /**
   * One pass of make_move's direction loop: walk the opponent run along
   * direction k on the board being built, and flip it when p closes it.
   */
  method FlipDirection(ghost b: Board, current: Board, x: int, y: int, p: Player, k: int) returns (newBoard: Board)
    requires InBounds(x, y) && 0 <= k < 8
    requires forall i, j :: 0 <= i < 8 && 0 <= j < 8 ==> current[i][j] == MoveCell(b, x, y, p, k, i, j)
    ensures forall i, j :: 0 <= i < 8 && 0 <= j < 8 ==> newBoard[i][j] == MoveCell(b, x, y, p, k + 1, i, j)
  {
    newBoard := current;
    var flips, i, j;
    ghost var t;
    flips, i, j, t := CollectRun(b, current, x, y, p, k);
    RaySegmentIndex(x, y, k, t);
    if |flips| > 0 && InBounds(i, j) && newBoard[i][j] == p {
      assert Brackets(b, x, y, p, k);
      forall f | 0 <= f < |flips|
        ensures InBounds(flips[f].0, flips[f].1)
      {
        RunEndCells(b, x, y, k, Opponent(p), 1, f + 1);
      }
      newBoard := SetCells(newBoard, flips, p);
    } else {
      assert !Brackets(b, x, y, p, k);
    }
    forall a, c | 0 <= a < 8 && 0 <= c < 8
      ensures newBoard[a][c] == MoveCell(b, x, y, p, k + 1, a, c)
    {
      MoveCellStep(b, x, y, p, k, a, c);
    }
  }

  /**
   * make_move: copy the board, place p, then flip each direction's run
   * of opponent discs when a disc of p closes it.
   */
  method MakeMove(b: Board, x: int, y: int, p: Player) returns (newBoard: Board)
    requires InBounds(x, y)
    ensures newBoard == AfterMove(b, x, y, p)
  {
    newBoard := b;
    newBoard := newBoard[x := newBoard[x][y := p]];
    for k := 0 to 8
      invariant forall i, j :: 0 <= i < 8 && 0 <= j < 8 ==> newBoard[i][j] == MoveCell(b, x, y, p, k, i, j)
    {
      newBoard := FlipDirection(b, newBoard, x, y, p, k);
    }
    forall i | 0 <= i < 8
      ensures newBoard[i] == AfterMove(b, x, y, p)[i]
    {
    }
  }

  // ---------------------------------------------------------------------
  // Counting.

  function Indicator(b: Board, v: int): (int, int) -> int
  {
    (i, j) => if InBounds(i, j) && b[i][j] == v then 1 else 0
  }

  /** The number of cells holding v. */
  function Count(b: Board, v: int): int
  {
    GridSum(Indicator(b, v), 8)
  }

  /** count_pieces: the cells equal to v, row by row. */
  method CountPieces(b: Board, v: int) returns (count: int)
    ensures count == Count(b, v)
  {
    count := 0;
    for x := 0 to 8
      invariant count == GridSum(Indicator(b, v), x)
    {
      var row := b[x];
      for y := 0 to 8
        invariant count == GridSum(Indicator(b, v), x) + RowSum(Indicator(b, v), x, y)
      {
        if row[y] == v {
          count := count + 1;
        }
      }
    }
  }

  /** A cell is occupied by either player. */
  function Occupied(b: Board): (int, int) -> int
  {
    (i, j) => if InBounds(i, j) && b[i][j] != EMPTY then 1 else 0
  }

  /** The number of discs on the board. */
  function Discs(b: Board): int
  {
    GridSum(Occupied(b), 8)
  }

  /** The disc total is the sum of both players' counts. */
  lemma DiscsSplit(b: Board, p: Player)
    ensures Discs(b) == Count(b, p) + Count(b, Opponent(p))
  {
    GridSumAdd(Indicator(b, p), Indicator(b, Opponent(p)), Occupied(b), 8);
  }

  // ---------------------------------------------------------------------
  // What a move changes.

  /** A cell in the run of one of the first n directions is flipped by them. */
  lemma {:induction false} FlippedBeforeOf(b: Board, x: int, y: int, p: Player, n: int, k: int, i: int, j: int)
    requires InBounds(x, y) && 0 <= k < n <= 8 && FlippedIn(b, x, y, p, k, i, j)
    ensures FlippedBefore(b, x, y, p, n, i, j)
  {
    if k < n - 1 {
      FlippedBeforeOf(b, x, y, p, n - 1, k, i, j);
    }
  }

  /** A cell flipped by the first n directions lies in the run of one of them. */
  lemma {:induction false} FlippedBeforeWitness(b: Board, x: int, y: int, p: Player, n: int, i: int, j: int) returns (k: int)
    requires InBounds(x, y) && 0 <= n <= 8 && FlippedBefore(b, x, y, p, n, i, j)
    ensures 0 <= k < n && FlippedIn(b, x, y, p, k, i, j)
  {
    if FlippedIn(b, x, y, p, n - 1, i, j) {
      k := n - 1;
    } else {
      k := FlippedBeforeWitness(b, x, y, p, n - 1, i, j);
    }
  }

  /** Flipped cells are exactly those lying in some direction's bracketed run. */
  lemma FlippedBeforeSpec(b: Board, x: int, y: int, p: Player, n: int, i: int, j: int)
    requires InBounds(x, y) && 0 <= n <= 8
    ensures FlippedBefore(b, x, y, p, n, i, j) <==> exists k :: 0 <= k < n && FlippedIn(b, x, y, p, k, i, j)
  {
    if FlippedBefore(b, x, y, p, n, i, j) {
      var k := FlippedBeforeWitness(b, x, y, p, n, i, j);
    }
    if exists k :: 0 <= k < n && FlippedIn(b, x, y, p, k, i, j) {
      var k :| 0 <= k < n && FlippedIn(b, x, y, p, k, i, j);
      FlippedBeforeOf(b, x, y, p, n, k, i, j);
    }
  }

  /**
   * make_move puts p on (x, y); any other cell that changes held an opponent
   * disc inside a bracketed run and now holds p; every other cell keeps its value.
   */
  lemma AfterMoveCells(b: Board, x: int, y: int, p: Player)
    requires InBounds(x, y)
    ensures AfterMove(b, x, y, p)[x][y] == p
    ensures forall i, j :: InBounds(i, j) && Flipped(b, x, y, p, i, j) ==>
      (i, j) != (x, y) && b[i][j] == Opponent(p) && AfterMove(b, x, y, p)[i][j] == p
    ensures forall i, j :: InBounds(i, j) && (i, j) != (x, y) && AfterMove(b, x, y, p)[i][j] != b[i][j] ==>
      b[i][j] == Opponent(p) && AfterMove(b, x, y, p)[i][j] == p &&
      exists k :: 0 <= k < 8 && FlippedIn(b, x, y, p, k, i, j)
    ensures forall i, j :: InBounds(i, j) && (i, j) != (x, y) && !Flipped(b, x, y, p, i, j) ==>
      AfterMove(b, x, y, p)[i][j] == b[i][j]
  {
    forall i, j | InBounds(i, j) && Flipped(b, x, y, p, i, j)
      ensures (i, j) != (x, y) && b[i][j] == Opponent(p)
    {
      FlippedBeforeCell(b, x, y, p, 8, i, j);
    }
    forall i, j | InBounds(i, j)
      ensures Flipped(b, x, y, p, i, j) <==> exists k :: 0 <= k < 8 && FlippedIn(b, x, y, p, k, i, j)
    {
      FlippedBeforeSpec(b, x, y, p, 8, i, j);
    }
  }

  function FlipIndicator(b: Board, x: int, y: int, p: Player): (int, int) -> int
    requires InBounds(x, y)
  {
    (i, j) => if InBounds(i, j) && Flipped(b, x, y, p, i, j) then 1 else 0
  }

  /** The number of discs a move at (x, y) flips. */
  function FlipCount(b: Board, x: int, y: int, p: Player): int
    requires InBounds(x, y)
  {
    GridSum(FlipIndicator(b, x, y, p), 8)
  }

  /**
   * Disc conservation: on an empty target, the mover gains the placed disc
   * plus the k flipped ones, and the opponent loses exactly those k.
   */
  lemma MoveCounts(b: Board, x: int, y: int, p: Player)
    requires InBounds(x, y) && b[x][y] == EMPTY
    ensures Count(AfterMove(b, x, y, p), p) == Count(b, p) + 1 + FlipCount(b, x, y, p)
    ensures Count(AfterMove(b, x, y, p), Opponent(p)) == Count(b, Opponent(p)) - FlipCount(b, x, y, p)
    ensures Discs(AfterMove(b, x, y, p)) == Discs(b) + 1
  {
    MoverCount(b, x, y, p);
    OpponentCount(b, x, y, p);
    DiscsSplit(AfterMove(b, x, y, p), p);
    DiscsSplit(b, p);
  }

  /** One cell of the board after the move. */
  lemma AfterMoveCell(b: Board, x: int, y: int, p: Player, i: int, j: int)
    requires InBounds(x, y) && InBounds(i, j)
    ensures AfterMove(b, x, y, p)[i][j] ==
      if i == x && j == y then p else if Flipped(b, x, y, p, i, j) then p else b[i][j]
    ensures Flipped(b, x, y, p, i, j) ==> (i, j) != (x, y) && b[i][j] == Opponent(p)
  {
    if Flipped(b, x, y, p, i, j) {
      FlippedBeforeCell(b, x, y, p, 8, i, j);
    }
  }

  /** The mover's discs before the move plus the target cell. */
  function WithTarget(b: Board, x: int, y: int, p: Player): (int, int) -> int
  {
    (i, j) => (if InBounds(i, j) && b[i][j] == p then 1 else 0) + (if i == x && j == y then 1 else 0)
  }

  lemma WithTargetCount(b: Board, x: int, y: int, p: Player)
    requires InBounds(x, y)
    ensures GridSum(WithTarget(b, x, y, p), 8) == Count(b, p) + 1
  {
    var point: (int, int) -> int := (i, j) => if i == x && j == y then 1 else 0;
    GridSumPoint(point, x, y, 8);
    GridSumAdd(Indicator(b, p), point, WithTarget(b, x, y, p), 8);
  }

  lemma MoverCells(b: Board, x: int, y: int, p: Player)
    requires InBounds(x, y) && b[x][y] == EMPTY
    ensures forall i, j :: 0 <= i < 8 && 0 <= j < 8 ==>
      Indicator(AfterMove(b, x, y, p), p)(i, j) == WithTarget(b, x, y, p)(i, j) + FlipIndicator(b, x, y, p)(i, j)
  {
    forall i, j | 0 <= i < 8 && 0 <= j < 8
      ensures Indicator(AfterMove(b, x, y, p), p)(i, j) == WithTarget(b, x, y, p)(i, j) + FlipIndicator(b, x, y, p)(i, j)
    {
      AfterMoveCell(b, x, y, p, i, j);
    }
  }

  lemma MoverCount(b: Board, x: int, y: int, p: Player)
    requires InBounds(x, y) && b[x][y] == EMPTY
    ensures Count(AfterMove(b, x, y, p), p) == Count(b, p) + 1 + FlipCount(b, x, y, p)
  {
    MoverCells(b, x, y, p);
    GridSumAdd(WithTarget(b, x, y, p), FlipIndicator(b, x, y, p), Indicator(AfterMove(b, x, y, p), p), 8);
    WithTargetCount(b, x, y, p);
  }

  lemma OpponentCount(b: Board, x: int, y: int, p: Player)
    requires InBounds(x, y) && b[x][y] == EMPTY
    ensures Count(AfterMove(b, x, y, p), Opponent(p)) == Count(b, Opponent(p)) - FlipCount(b, x, y, p)
  {
    var a := AfterMove(b, x, y, p);
    var flips := FlipIndicator(b, x, y, p);
    forall i, j | 0 <= i < 8 && 0 <= j < 8
      ensures Indicator(b, Opponent(p))(i, j) == Indicator(a, Opponent(p))(i, j) + flips(i, j)
    {
      AfterMoveCell(b, x, y, p, i, j);
    }
    GridSumAdd(Indicator(a, Opponent(p)), flips, Indicator(b, Opponent(p)), 8);
  }

  /** A legal move flips at least one disc. */
  lemma LegalMoveFlips(b: Board, x: int, y: int, p: Player)
    requires InBounds(x, y) && IsLegal(b, x, y, p)
    ensures FlipCount(b, x, y, p) >= 1
  {
    var k :| 0 <= k < 8 && Brackets(b, x, y, p, k);
    var i, j := RayX(x, k, 1), RayY(y, k, 1);
    RunEndCells(b, x, y, k, Opponent(p), 1, 1);
    RayDistOnRay(x, y, k, k, 1);
    assert FlippedIn(b, x, y, p, k, i, j);
    FlippedBeforeSpec(b, x, y, p, 8, i, j);
    var point := (a, c) => if a == i && c == j then 1 else 0;
    GridSumPoint(point, i, j, 8);
    GridSumMono(point, FlipIndicator(b, x, y, p), 8);
  }
}
