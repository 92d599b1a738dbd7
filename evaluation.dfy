// The static evaluation of a position from one player's point of view: six
// "player minus opponent" features combined with fixed weights, over exact
// reals.

module Evaluation {
  import opened Grid
  import opened BoardOps
  import opened Stability

  /** The positional weight of every cell. */
  const PositionValues: seq<seq<int>> := [
    [100, -20,  10,   5,   5,  10, -20, 100],
    [-20, -50,  -2,  -2,  -2,  -2, -50, -20],
    [ 10,  -2,  -1,  -1,  -1,  -1,  -2,  10],
    [  5,  -2,  -1,  -1,  -1,  -1,  -2,   5],
    [  5,  -2,  -1,  -1,  -1,  -1,  -2,   5],
    [ 10,  -2,  -1,  -1,  -1,  -1,  -2,  10],
    [-20, -50,  -2,  -2,  -2,  -2, -50, -20],
    [100, -20,  10,   5,   5,  10, -20, 100]
  ]

  /** The X-square diagonally inside each corner, in the order of Corners. */
  const XSquares: seq<Move> := [(1, 1), (1, 6), (6, 1), (6, 6)]

  /** w for a disc of p, -w for a disc of p's opponent, 0 for an empty cell. */
  function Signed(c: Cell, p: Player, w: int): (r: int)
    ensures c == EMPTY ==> r == 0
  {
    if c == p then w else if c == Opponent(p) then -w else 0
  }

  lemma SignedOpponent(c: Cell, p: Player, w: int)
    ensures Signed(c, Opponent(p), w) == -Signed(c, p, w)
  {
  }

  /** The weight of the piece difference, by the number of discs on the board. */
  function PieceWeight(total: int): (w: real)
    ensures 0.0 < w <= 1.0
  {
    if total < 20 then 0.1 else if total < 45 then 0.3 else 1.0
  }

  function PositionTerm(b: Board, p: Player): (int, int) -> int
  {
    (i, j) => if InBounds(i, j) then Signed(b[i][j], p, PositionValues[i][j]) else 0
  }

  /** Sum of the table weights of p's discs minus those of the opponent's. */
  function PositionScore(b: Board, p: Player): int
  {
    GridSum(PositionTerm(b, p), 8)
  }

  /** 100 (m - o) / (m + o), or 0 when neither side can move. */
  function Mobility(m: int, o: int): real
  {
    if m + o != 0 then (100 * (m - o)) as real / (m + o) as real else 0.0
  }

  function CornerTerm(b: Board, p: Player): int -> int
  {
    n => if 0 <= n < 4 then Signed(At(b, Corners[n].0, Corners[n].1), p, 25) else 0
  }

  /** Owning the X-square next to an empty corner costs 15. */
  function XSquareTerm(b: Board, p: Player): int -> int
  {
    n => if 0 <= n < 4 && At(b, Corners[n].0, Corners[n].1) == EMPTY
      then Signed(At(b, XSquares[n].0, XSquares[n].1), p, -15) else 0
  }

  function CornerScore(b: Board, p: Player): int
  {
    LineSum(CornerTerm(b, p), 4) + LineSum(XSquareTerm(b, p), 4)
  }

  function StabilityScore(b: Board, p: Player): int
  {
    15 * (StableCount(b, p) - StableCount(b, Opponent(p)))
  }

  /** Position i of the four border lines, 2 per disc (a corner lies on two lines). */
  function EdgeTerm(b: Board, p: Player): int -> int
  {
    i => if 0 <= i < 8
      then Signed(b[0][i], p, 2) + Signed(b[7][i], p, 2) + Signed(b[i][0], p, 2) + Signed(b[i][7], p, 2)
      else 0
  }

  function EdgeScore(b: Board, p: Player): int
  {
    LineSum(EdgeTerm(b, p), 8)
  }

  /** The piece difference, weighted by the phase of the game. */
  function PieceDiff(mine: int, theirs: int): real
  {
    PieceWeight(mine + theirs) * (mine - theirs) as real
  }

  /** The fixed weights of the six features. */
  function WeightedSum(pieceDiff: real, position: int, mobility: real, corner: int, stability: int, edge: int): real
  {
    pieceDiff + position as real * 0.5 + mobility * 2.0 + corner as real * 3.0 + stability as real * 1.5 + edge as real * 0.8
  }

  /** The weighted combination of the six features. */
  function Evaluate(b: Board, p: Player): real
  {
    WeightedSum(
      PieceDiff(Count(b, p), Count(b, Opponent(p))),
      PositionScore(b, p),
      Mobility(|LegalMoves(b, p)|, |LegalMoves(b, Opponent(p))|),
      CornerScore(b, p),
      StabilityScore(b, p),
      EdgeScore(b, p))
  }

  method ComputePositionScore(b: Board, p: Player) returns (positionScore: int)
    ensures positionScore == PositionScore(b, p)
  {
    positionScore := 0;
    for x := 0 to 8
      invariant positionScore == GridSum(PositionTerm(b, p), x)
    {
      var rowScore := RowPositionScore(b, p, x);
      positionScore := positionScore + rowScore;
    }
  }

  /** One row of the position loop. */
  method RowPositionScore(b: Board, p: Player, x: int) returns (rowScore: int)
    requires 0 <= x < 8
    ensures rowScore == RowSum(PositionTerm(b, p), x, 8)
  {
    ghost var f := PositionTerm(b, p);
    var weights := PositionValues[x];
    rowScore := 0;
    for y := 0 to 8
      invariant rowScore == RowSum(f, x, y)
    {
      assert f(x, y) == Signed(b[x][y], p, weights[y]);
      if b[x][y] == p {
        rowScore := rowScore + weights[y];
      } else if b[x][y] == Opponent(p) {
        rowScore := rowScore - weights[y];
      }
    }
  }

  method ComputeCornerScore(b: Board, p: Player) returns (cornerScore: int)
    ensures cornerScore == CornerScore(b, p)
  {
    cornerScore := 0;
    for n := 0 to 4
      invariant cornerScore == LineSum(CornerTerm(b, p), n)
    {
      var (x, y) := Corners[n];
      if b[x][y] == p {
        cornerScore := cornerScore + 25;
      } else if b[x][y] == Opponent(p) {
        cornerScore := cornerScore - 25;
      }
    }
    for n := 0 to 4
      invariant cornerScore == LineSum(CornerTerm(b, p), 4) + LineSum(XSquareTerm(b, p), n)
    {
      var (x, y) := XSquares[n];
      var (cornerX, cornerY) := Corners[n];
      if b[cornerX][cornerY] == EMPTY {
        if b[x][y] == p {
          cornerScore := cornerScore - 15;
        } else if b[x][y] == Opponent(p) {
          cornerScore := cornerScore + 15;
        }
      }
    }
  }

  method ComputeEdgeScore(b: Board, p: Player) returns (edgeScore: int)
    ensures edgeScore == EdgeScore(b, p)
  {
    edgeScore := 0;
    for i := 0 to 8
      invariant edgeScore == LineSum(EdgeTerm(b, p), i)
    {
      if b[0][i] == p {
        edgeScore := edgeScore + 2;
      } else if b[0][i] == Opponent(p) {
        edgeScore := edgeScore - 2;
      }
      if b[7][i] == p {
        edgeScore := edgeScore + 2;
      } else if b[7][i] == Opponent(p) {
        edgeScore := edgeScore - 2;
      }
      if b[i][0] == p {
        edgeScore := edgeScore + 2;
      } else if b[i][0] == Opponent(p) {
        edgeScore := edgeScore - 2;
      }
      if b[i][7] == p {
        edgeScore := edgeScore + 2;
      } else if b[i][7] == Opponent(p) {
        edgeScore := edgeScore - 2;
      }
    }
  }

  /** The phase weight of the disc total, times the disc difference, is the weighted piece difference. */
  lemma WeightTimes(w: real, mine: int, theirs: int)
    requires w == PieceWeight(mine + theirs)
    ensures w * (mine - theirs) as real == PieceDiff(mine, theirs)
  {
  }

  /** The weighted piece difference. */
  method ComputePieceDiff(b: Board, p: Player) returns (pieceDiff: real)
    ensures pieceDiff == PieceDiff(Count(b, p), Count(b, Opponent(p)))
  {
    var myPieces := CountPieces(b, p);
    var oppPieces := CountPieces(b, Opponent(p));
    var totalPieces := myPieces + oppPieces;
    var pieceWeight: real;
    if totalPieces < 20 {
      pieceWeight := 0.1;
    } else if totalPieces < 45 {
      pieceWeight := 0.3;
    } else {
      pieceWeight := 1.0;
    }
    WeightTimes(pieceWeight, myPieces, oppPieces);
    pieceDiff := pieceWeight * (myPieces - oppPieces) as real;
  }

  /** The mobility feature, from the two move lists. */
  method ComputeMobility(b: Board, p: Player) returns (mobilityScore: real)
    ensures mobilityScore == Mobility(|LegalMoves(b, p)|, |LegalMoves(b, Opponent(p))|)
  {
    var myMoves := ValidMovements(b, p);
    var oppMoves := ValidMovements(b, Opponent(p));
    mobilityScore := 0.0;
    if |myMoves| + |oppMoves| != 0 {
      mobilityScore := (100 * (|myMoves| - |oppMoves|)) as real / (|myMoves| + |oppMoves|) as real;
    }
  }

  /** evaluate_board */
  method EvaluateBoard(b: Board, p: Player) returns (totalScore: real)
    ensures totalScore == Evaluate(b, p)
  {
    var pieceDiff := ComputePieceDiff(b, p);
    var positionScore := ComputePositionScore(b, p);
    var mobilityScore := ComputeMobility(b, p);
    var cornerScore := ComputeCornerScore(b, p);
    var myStable := GetStablePieces(b, p);
    var oppStable := GetStablePieces(b, Opponent(p));
    var stabilityScore := 15 * (myStable - oppStable);
    var edgeScore := ComputeEdgeScore(b, p);
    totalScore := pieceDiff + positionScore as real * 0.5 + mobilityScore * 2.0 + cornerScore as real * 3.0
      + stabilityScore as real * 1.5 + edgeScore as real * 0.8;
  }

  // ---------------------------------------------------------------------
  // Antisymmetry: every feature is "player minus opponent".

  lemma PositionAntisymmetric(b: Board, p: Player)
    ensures PositionScore(b, Opponent(p)) == -PositionScore(b, p)
  {
    forall i, j | 0 <= i < 8 && 0 <= j < 8
      ensures PositionTerm(b, Opponent(p))(i, j) == -PositionTerm(b, p)(i, j)
    {
      SignedOpponent(b[i][j], p, PositionValues[i][j]);
    }
    GridSumNeg(PositionTerm(b, p), PositionTerm(b, Opponent(p)), 8);
  }

  /** A quotient whose numerator is at most the denominator in size lies in [-1, 1]. */
  lemma QuotientBound(x: real, d: real)
    requires d > 0.0 && -d <= x <= d
    ensures -1.0 <= x / d <= 1.0
  {
    var q := x / d;
    assert x == q * d;
  }

  /** Scaling the numerator scales the quotient. */
  lemma QuotientScale(c: real, x: real, d: real)
    requires d > 0.0
    ensures (c * x) / d == c * (x / d)
  {
    var q := x / d;
    assert x == q * d;
    assert c * x == (c * q) * d;
  }

  /** Swapping the two move counts negates the mobility term, which stays within [-100, 100]. */
  lemma MobilityAntisymmetric(m: nat, o: nat)
    ensures Mobility(o, m) == -Mobility(m, o)
    ensures -100.0 <= Mobility(m, o) <= 100.0
    ensures m == o ==> Mobility(m, o) == 0.0
  {
    if m + o != 0 {
      var d := (m + o) as real;
      var x := (m - o) as real;
      assert (o + m) as real == d;
      assert (100 * (m - o)) as real == 100.0 * x;
      assert (100 * (o - m)) as real == 100.0 * -x;
      QuotientScale(100.0, x, d);
      QuotientScale(-100.0, x, d);
      QuotientBound(x, d);
    }
  }

  lemma CornerAntisymmetric(b: Board, p: Player)
    ensures CornerScore(b, Opponent(p)) == -CornerScore(b, p)
  {
    forall n | 0 <= n < 4
      ensures CornerTerm(b, Opponent(p))(n) == -CornerTerm(b, p)(n)
      ensures XSquareTerm(b, Opponent(p))(n) == -XSquareTerm(b, p)(n)
    {
      SignedOpponent(At(b, Corners[n].0, Corners[n].1), p, 25);
      SignedOpponent(At(b, XSquares[n].0, XSquares[n].1), p, -15);
    }
    LineSumNeg(CornerTerm(b, p), CornerTerm(b, Opponent(p)), 4);
    LineSumNeg(XSquareTerm(b, p), XSquareTerm(b, Opponent(p)), 4);
  }

  lemma EdgeAntisymmetric(b: Board, p: Player)
    ensures EdgeScore(b, Opponent(p)) == -EdgeScore(b, p)
  {
    forall i | 0 <= i < 8
      ensures EdgeTerm(b, Opponent(p))(i) == -EdgeTerm(b, p)(i)
    {
      SignedOpponent(b[0][i], p, 2);
      SignedOpponent(b[7][i], p, 2);
      SignedOpponent(b[i][0], p, 2);
      SignedOpponent(b[i][7], p, 2);
    }
    LineSumNeg(EdgeTerm(b, p), EdgeTerm(b, Opponent(p)), 8);
  }

  lemma PieceDiffAntisymmetric(mine: int, theirs: int)
    ensures PieceDiff(theirs, mine) == -PieceDiff(mine, theirs)
  {
    assert theirs + mine == mine + theirs;
  }

  lemma WeightedSumNeg(pieceDiff: real, position: int, mobility: real, corner: int, stability: int, edge: int)
    ensures WeightedSum(-pieceDiff, -position, -mobility, -corner, -stability, -edge)
      == -WeightedSum(pieceDiff, position, mobility, corner, stability, edge)
  {
  }

  /** The evaluation for the opponent is the negation of the evaluation for p. */
  lemma EvaluateAntisymmetric(b: Board, p: Player)
    ensures Evaluate(b, Opponent(p)) == -Evaluate(b, p)
  {
    var q := Opponent(p);
    assert Opponent(q) == p;
    PieceDiffAntisymmetric(Count(b, p), Count(b, q));
    PositionAntisymmetric(b, p);
    MobilityAntisymmetric(|LegalMoves(b, p)|, |LegalMoves(b, q)|);
    CornerAntisymmetric(b, p);
    EdgeAntisymmetric(b, p);
    WeightedSumNeg(PieceDiff(Count(b, p), Count(b, q)), PositionScore(b, p),
      Mobility(|LegalMoves(b, p)|, |LegalMoves(b, q)|), CornerScore(b, p), StabilityScore(b, p), EdgeScore(b, p));
  }
}
