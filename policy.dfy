// The move-selection policy around the search: forced moves, the opening
// book, corner priority, the choice of search depth and the fallback used
// when the search ran out of time.

module Policy {
  import opened Grid
  import opened BoardOps
  import opened Evaluation
  import opened Ordering
  import opened Search

  /** The preferred replies to the starting position, in order of preference. */
  const OpeningMoves: seq<Move> := [(2, 3), (3, 2), (4, 5), (5, 4)]

  /** The first element of xs that also occurs in ys, if any. */
  function FirstIn(xs: seq<Move>, ys: seq<Move>): (r: Option<Move>)
    ensures r.None? <==> forall m :: m in xs ==> m !in ys
    ensures r.Some? ==>
      r.value in ys && exists i :: 0 <= i < |xs| && xs[i] == r.value && forall j :: 0 <= j < i ==> xs[j] !in ys
  {
    if xs == [] then None
    else if xs[0] in ys then Some(xs[0])
    else
      var r := FirstIn(xs[1..], ys);
      assert forall m :: m in xs[1..] ==> m in xs;
      assert forall m :: m in xs && m !in xs[1..] ==> m == xs[0];
      if r.Some? then
        var i :| 0 <= i < |xs[1..]| && xs[1..][i] == r.value && forall j :: 0 <= j < i ==> xs[1..][j] !in ys;
        assert xs[i + 1] == r.value && forall j :: 0 <= j < i + 1 ==> xs[j] !in ys;
        r
      else r
  }

  /** The `for move in xs: if move in ys: return move` loop. */
  method FindFirst(xs: seq<Move>, ys: seq<Move>) returns (r: Option<Move>)
    ensures r == FirstIn(xs, ys)
  {
    var n := 0;
    while n < |xs|
      invariant 0 <= n <= |xs|
      invariant FirstIn(xs, ys) == FirstIn(xs[n..], ys)
    {
      if xs[n] in ys {
        return Some(xs[n]);
      }
      assert xs[n..][1..] == xs[n + 1..];
      n := n + 1;
    }
    return None;
  }

  /** The opening-book reply: only in the starting position, the first preferred move that is legal. */
  function OpeningMove(b: Board, p: Player): (r: Option<Move>)
    ensures r.Some? ==> Discs(b) == 4 && r.value in OpeningMoves && r.value in LegalMoves(b, p)
    ensures Discs(b) == 4 ==> (r.None? <==> forall m :: m in OpeningMoves ==> m !in LegalMoves(b, p))
    ensures Discs(b) == 4 ==> r == FirstIn(OpeningMoves, LegalMoves(b, p))
  {
    if Discs(b) == 4 then FirstIn(OpeningMoves, LegalMoves(b, p)) else None
  }

  /** get_opening_move */
  method GetOpeningMove(b: Board, p: Player) returns (r: Option<Move>)
    ensures r == OpeningMove(b, p)
  {
    var totalPieces := Discs(b);
    r := None;
    if totalPieces == 4 {
      var valid := ValidMovements(b, p);
      r := FindFirst(OpeningMoves, valid);
    }
  }

  /** The search depth: deeper as the board fills, one less (never below 3) with more than 10 moves. */
  function SearchDepth(totalPieces: int, moveCount: int): (d: nat)
    ensures 3 <= d <= 8
    ensures moveCount <= 10 ==> d >= 4
  {
    var depth := if totalPieces < 20 then 4 else if totalPieces < 40 then 5 else if totalPieces < 50 then 6 else 8;
    if moveCount > 10 then Max(3, depth - 1) else depth
  }

  /** The search never gets shallower as the board fills or as the number of moves drops. */
  lemma SearchDepthMonotone(t1: int, t2: int, m1: int, m2: int)
    requires t1 <= t2 && m2 <= m1
    ensures SearchDepth(t1, m1) <= SearchDepth(t2, m2)
  {
  }

  /**
   * The many-moves reduction takes exactly one ply off at every disc count:
   * the schedule never goes below 4, so the floor of 3 is never reached.
   */
  lemma SearchDepthReduction(t: int, m: int)
    requires m > 10
    ensures SearchDepth(t, m) == SearchDepth(t, 10) - 1
  {
  }

  /** A score pair's move is one of the moves of a list of scored moves. */
  lemma SortedMember(s: seq<Scored>, descending: bool, i: int)
    requires 0 <= i < |Sort(s, descending)|
    ensures exists k :: 0 <= k < |s| && s[k] == Sort(s, descending)[i]
  {
    assert Sort(s, descending)[i] in multiset(s);
  }

  /** The head of a descending sort is the largest pair, first by score and then by coordinates. */
  lemma SortedHeadLargest(s: seq<Scored>, x: Scored)
    requires x in s
    ensures Sort(s, true) != [] && !KeyLess(Sort(s, true)[0], x)
  {
    var t := Sort(s, true);
    assert x in multiset(t);
    var k :| 0 <= k < |t| && t[k] == x;
    if k > 0 {
      assert InOrder(t[0], t[k], true);
    }
    KeyTrichotomy(x, x);
  }

  /**
   * The fallback after a timed-out search: the move whose successor position
   * scores best, ties going to the larger (row, column) pair.
   */
  method GreedyMove(ghost eval: (Board, Player) -> real, b: Board, p: Player, moves: seq<Move>) returns (best: Move)
    requires IsEvaluate(eval)
    requires moves != [] && forall m :: m in moves ==> InBounds(m.0, m.1)
    ensures best in moves
    ensures forall m :: m in moves ==>
      !KeyLess((QuickScore(eval, b, best, p, p), best), (QuickScore(eval, b, m, p, p), m))
  {
    var moveScores := OrderMoves(eval, b, moves, p, p, true);
    OrderedMoves(eval, b, moves, p, p, true);
    best := moveScores[0].1;
    ghost var scored := ScoredMoves(eval, b, moves, p, p);
    SortedMember(scored, true, 0);
    forall m | m in moves
      ensures !KeyLess((QuickScore(eval, b, best, p, p), best), (QuickScore(eval, b, m, p, p), m))
    {
      var k :| 0 <= k < |moves| && moves[k] == m;
      SortedHeadLargest(scored, scored[k]);
    }
  }

  /** The decision taken before any search: a forced move, a book move or a corner. */
  function QuickChoice(b: Board, p: Player): (r: Option<Move>)
    ensures r.Some? ==> r.value in LegalMoves(b, p)
    ensures |LegalMoves(b, p)| == 1 ==> r == Some(LegalMoves(b, p)[0])
    ensures |LegalMoves(b, p)| != 1 && Discs(b) <= 8 && OpeningMove(b, p).Some? ==> r == OpeningMove(b, p)
    ensures r.None? <==>
      |LegalMoves(b, p)| != 1 && (Discs(b) <= 8 ==> OpeningMove(b, p).None?) &&
      forall m :: m in LegalMoves(b, p) ==> m !in Corners
    ensures |LegalMoves(b, p)| != 1 && !(Discs(b) <= 8 && OpeningMove(b, p).Some?) ==>
      r == FirstIn(LegalMoves(b, p), Corners)
  {
    var moves := LegalMoves(b, p);
    if |moves| == 1 then Some(moves[0])
    else if Discs(b) <= 8 && OpeningMove(b, p).Some? then OpeningMove(b, p)
    else FirstIn(moves, Corners)
  }

  /**
   * ai_move. The clock is the flag timedOut: whether the deadline has passed
   * when the search starts.
   */
  method AiMove(b: Board, p: Player, timedOut: bool) returns (r: Option<Move>)
    ensures r.None? <==> LegalMoves(b, p) == []
    ensures r.Some? ==> r.value in LegalMoves(b, p)
    ensures LegalMoves(b, p) != [] && QuickChoice(b, p).Some? ==> r == QuickChoice(b, p)
    ensures LegalMoves(b, p) != [] && QuickChoice(b, p).None? && !timedOut ==>
      var depth := SearchDepth(Discs(b), |LegalMoves(b, p)|);
      ChildValue(Evaluate, b, depth, true, p, r.value) == MinimaxValue(Evaluate, b, depth, true, p) &&
      FirstToReach(Evaluate, b, depth, true, p, Sort(ScoredMoves(Evaluate, b, LegalMoves(b, p), p, p), true),
                   r.value, MinimaxValue(Evaluate, b, depth, true, p))
    ensures LegalMoves(b, p) != [] && QuickChoice(b, p).None? && timedOut ==>
      forall m :: m in LegalMoves(b, p) ==>
        !KeyLess((QuickScore(Evaluate, b, r.value, p, p), r.value), (QuickScore(Evaluate, b, m, p, p), m))
  {
    var validMoves := ValidMovements(b, p);
    if |validMoves| == 0 {
      return None;
    }
    if |validMoves| == 1 {
      return Some(validMoves[0]);
    }
    var totalPieces := Discs(b);
    if totalPieces <= 8 {
      var openingMove := GetOpeningMove(b, p);
      if openingMove.Some? {
        return openingMove;
      }
    }
    var corner := FindFirst(validMoves, Corners);
    if corner.Some? {
      return corner;
    }
    var depth := SearchDepth(totalPieces, |validMoves|);
    var value, bestMove := Minimax(Evaluate, b, depth, NegInf, PosInf, true, p, timedOut);
    if bestMove.None? {
      var fallback := GreedyMove(Evaluate, b, p, validMoves);
      bestMove := Some(fallback);
    } else {
      FailSoftFullWindow(value, MinimaxValue(Evaluate, b, depth, true, p));
      FailSoftFullWindow(value, ChildValue(Evaluate, b, depth, true, p, bestMove.value));
    }
    return bestMove;
  }
}
