// Depth-limited minimax with alpha-beta pruning and one-ply move ordering,
// specified against plain (unpruned) minimax over the same game tree.

module Search {
  import opened Grid
  import opened BoardOps
  import opened Evaluation
  import opened Ordering

  /** Reals extended with -infinity and +infinity, for the alpha-beta window. */
  datatype ExtReal = NegInf | Fin(r: real) | PosInf

  predicate Lt(x: ExtReal, y: ExtReal)
  {
    match x
    case NegInf => !y.NegInf?
    case Fin(a) => y.PosInf? || (y.Fin? && a < y.r)
    case PosInf => false
  }

  predicate Le(x: ExtReal, y: ExtReal)
  {
    !Lt(y, x)
  }

  /** Python's max(x, y): y only when it is strictly larger. */
  function MaxE(x: ExtReal, y: ExtReal): (r: ExtReal)
    ensures Le(x, r) && Le(y, r) && (r == x || r == y)
  {
    if Lt(x, y) then y else x
  }

  /** Python's min(x, y): y only when it is strictly smaller. */
  function MinE(x: ExtReal, y: ExtReal): (r: ExtReal)
    ensures Le(r, x) && Le(r, y) && (r == x || r == y)
  {
    if Lt(y, x) then y else x
  }

  /** The side to move: the root player at maximizing nodes, the opponent at minimizing ones. */
  function Current(maximizing: bool, root: Player): Player
  {
    if maximizing then root else Opponent(root)
  }

  /** The score of a finished game: 1000 per disc of difference. */
  function TerminalScore(b: Board, root: Player): real
  {
    (1000 * (Count(b, root) - Count(b, Opponent(root)))) as real
  }

  /** A finished game scores for whoever has more discs, and the score changes sign with the point of view. */
  lemma TerminalScoreSign(b: Board, root: Player)
    ensures TerminalScore(b, root) > 0.0 <==> Count(b, root) > Count(b, Opponent(root))
    ensures TerminalScore(b, root) == 0.0 <==> Count(b, root) == Count(b, Opponent(root))
    ensures TerminalScore(b, Opponent(root)) == -TerminalScore(b, root)
  {
  }

  /** The score of a position where neither side can move, from the two disc counts. */
  method GameOverScore(b: Board, root: Player) returns (value: real)
    ensures value == TerminalScore(b, root)
  {
    var mine := CountPieces(b, root);
    var theirs := CountPieces(b, Opponent(root));
    value := ((mine - theirs) * 1000) as real;
  }

  // ---------------------------------------------------------------------
  // Plain depth-limited minimax.

  /** Unpruned minimax with leaf evaluation eval (the engine's is Evaluate). */
  function MinimaxValue(eval: (Board, Player) -> real, b: Board, depth: nat, maximizing: bool, root: Player): real
    decreases depth, 1, 0
  {
    if depth == 0 then eval(b, root)
    else
      var current := Current(maximizing, root);
      var moves := LegalMoves(b, current);
      if moves == [] then
        if LegalMoves(b, Opponent(current)) == [] then TerminalScore(b, root)
        else MinimaxValue(eval, b, depth - 1, !maximizing, root)
      else BestOf(eval, b, depth, maximizing, root, moves)
  }

  /** The value of the position after the side to move plays m. */
  function ChildValue(eval: (Board, Player) -> real, b: Board, depth: nat, maximizing: bool, root: Player, m: Move): real
    requires depth > 0 && InBounds(m.0, m.1)
    decreases depth, 0, 0
  {
    MinimaxValue(eval, AfterMove(b, m.0, m.1, Current(maximizing, root)), depth - 1, !maximizing, root)
  }

  /** The largest (maximizing) or smallest (minimizing) child value over moves. */
  function BestOf(eval: (Board, Player) -> real, b: Board, depth: nat, maximizing: bool, root: Player, moves: seq<Move>): real
    requires depth > 0 && moves != []
    requires forall m :: m in moves ==> InBounds(m.0, m.1)
    decreases depth, 0, |moves|
  {
    var v := ChildValue(eval, b, depth, maximizing, root, moves[0]);
    if |moves| == 1 then v
    else
      var rest := BestOf(eval, b, depth, maximizing, root, moves[1..]);
      if maximizing then (if v >= rest then v else rest) else (if v <= rest then v else rest)
  }

  /** No child is better for the side to move than BestOf. */
  lemma {:induction false} BestOfBound(eval: (Board, Player) -> real, b: Board, depth: nat, maximizing: bool, root: Player, moves: seq<Move>, m: Move)
    requires depth > 0 && moves != []
    requires forall m :: m in moves ==> InBounds(m.0, m.1)
    requires m in moves
    ensures maximizing ==> ChildValue(eval, b, depth, maximizing, root, m) <= BestOf(eval, b, depth, maximizing, root, moves)
    ensures !maximizing ==> ChildValue(eval, b, depth, maximizing, root, m) >= BestOf(eval, b, depth, maximizing, root, moves)
  {
    if |moves| > 1 && m != moves[0] {
      BestOfBound(eval, b, depth, maximizing, root, moves[1..], m);
    }
  }

  /** BestOf is the value of one of the moves. */
  lemma {:induction false} BestOfAttained(eval: (Board, Player) -> real, b: Board, depth: nat, maximizing: bool, root: Player, moves: seq<Move>)
    returns (m: Move)
    requires depth > 0 && moves != []
    requires forall m :: m in moves ==> InBounds(m.0, m.1)
    ensures m in moves && ChildValue(eval, b, depth, maximizing, root, m) == BestOf(eval, b, depth, maximizing, root, moves)
  {
    if |moves| == 1 {
      m := moves[0];
    } else {
      var v := ChildValue(eval, b, depth, maximizing, root, moves[0]);
      var rest := BestOf(eval, b, depth, maximizing, root, moves[1..]);
      if (maximizing && v >= rest) || (!maximizing && v <= rest) {
        m := moves[0];
      } else {
        m := BestOfAttained(eval, b, depth, maximizing, root, moves[1..]);
      }
    }
  }

  /**
   * The fail-soft alpha-beta guarantee of a search value v against the true
   * value V: a value at or below alpha is an upper bound, one at or above
   * beta a lower bound, and one strictly inside the window is exact.
   */
  predicate FailSoft(v: real, V: real, alpha: ExtReal, beta: ExtReal)
  {
    (Le(Fin(v), alpha) ==> V <= v) &&
    (Le(beta, Fin(v)) ==> v <= V) &&
    (Lt(alpha, Fin(v)) && Lt(Fin(v), beta) ==> v == V)
  }

  /** With the full window (-infinity, +infinity) the value is exact. */
  lemma FailSoftFullWindow(v: real, V: real)
    requires FailSoft(v, V, NegInf, PosInf)
    ensures v == V
  {
  }

  /**
   * Every move before index i of ordered has a child value strictly worse
   * than v for the side to move: below v at a maximizing node, above it at a
   * minimizing one.
   */
  predicate AllWorse(eval: (Board, Player) -> real, b: Board, depth: nat, maximizing: bool, root: Player,
                     ordered: seq<Scored>, i: int, v: real)
  {
    depth > 0 &&
    forall j :: 0 <= j < i && j < |ordered| ==>
      (InBounds(ordered[j].1.0, ordered[j].1.1) &&
       if maximizing then ChildValue(eval, b, depth, maximizing, root, ordered[j].1) < v
       else ChildValue(eval, b, depth, maximizing, root, ordered[j].1) > v)
  }

  /** m is the first move of ordered to reach v: it stands at an index before which every child value is worse than v. */
  predicate FirstToReach(eval: (Board, Player) -> real, b: Board, depth: nat, maximizing: bool, root: Player,
                         ordered: seq<Scored>, m: Move, v: real)
  {
    exists i :: 0 <= i < |ordered| && ordered[i].1 == m && AllWorse(eval, b, depth, maximizing, root, ordered, i, v)
  }

  /** At most one move of a list is the first to reach a value it attains. */
  lemma FirstToReachUnique(eval: (Board, Player) -> real, b: Board, depth: nat, maximizing: bool, root: Player,
                           ordered: seq<Scored>, m1: Move, m2: Move, v: real)
    requires InBounds(m1.0, m1.1) && InBounds(m2.0, m2.1)
    requires FirstToReach(eval, b, depth, maximizing, root, ordered, m1, v) && ChildValue(eval, b, depth, maximizing, root, m1) == v
    requires FirstToReach(eval, b, depth, maximizing, root, ordered, m2, v) && ChildValue(eval, b, depth, maximizing, root, m2) == v
    ensures m1 == m2
  {
    var i1 :| 0 <= i1 < |ordered| && ordered[i1].1 == m1 && AllWorse(eval, b, depth, maximizing, root, ordered, i1, v);
    var i2 :| 0 <= i2 < |ordered| && ordered[i2].1 == m2 && AllWorse(eval, b, depth, maximizing, root, ordered, i2, v);
  }

  // ---------------------------------------------------------------------
  // One step of the alpha-beta loops.

  /**
   * A maximizing node after one more child, searched in the window (a, beta)
   * with result v against its true value vChild. Either the loop goes on, with
   * every child so far bounded by the new maximum, or alpha has reached beta,
   * and then v is a lower bound of vChild.
   */
  lemma MaxStep(alpha: ExtReal, beta: ExtReal, a: ExtReal, maxEval: ExtReal, vBest: real, v: real, vChild: real,
                a': ExtReal, maxEval': ExtReal, vBest': real)
    requires Lt(alpha, beta) && Lt(a, beta) && a == MaxE(alpha, maxEval) && !maxEval.PosInf?
    requires maxEval.Fin? ==> FailSoft(maxEval.r, vBest, alpha, beta)
    requires FailSoft(v, vChild, a, beta)
    requires a' == MaxE(a, Fin(v))
    requires maxEval' == (if Lt(maxEval, Fin(v)) then Fin(v) else maxEval)
    requires vBest' == (if Lt(maxEval, Fin(v)) then vChild else vBest)
    ensures a' == MaxE(alpha, maxEval') && maxEval'.Fin? && (maxEval.Fin? ==> maxEval.r <= maxEval'.r)
    ensures Lt(a', beta) ==> vChild <= maxEval'.r && FailSoft(maxEval'.r, vBest', alpha, beta)
    ensures !Lt(a', beta) ==> maxEval' == Fin(v) && Le(beta, Fin(v)) && v <= vChild
  {
  }

  /** The mirror image of MaxStep for a minimizing node, lowering beta. */
  lemma MinStep(alpha: ExtReal, beta: ExtReal, bb: ExtReal, minEval: ExtReal, vBest: real, v: real, vChild: real,
                bb': ExtReal, minEval': ExtReal, vBest': real)
    requires Lt(alpha, beta) && Lt(alpha, bb) && bb == MinE(beta, minEval) && !minEval.NegInf?
    requires minEval.Fin? ==> FailSoft(minEval.r, vBest, alpha, beta)
    requires FailSoft(v, vChild, alpha, bb)
    requires bb' == MinE(bb, Fin(v))
    requires minEval' == (if Lt(Fin(v), minEval) then Fin(v) else minEval)
    requires vBest' == (if Lt(Fin(v), minEval) then vChild else vBest)
    ensures bb' == MinE(beta, minEval') && minEval'.Fin? && (minEval.Fin? ==> minEval'.r <= minEval.r)
    ensures Lt(alpha, bb') ==> minEval'.r <= vChild && FailSoft(minEval'.r, vBest', alpha, beta)
    ensures !Lt(alpha, bb') ==> minEval' == Fin(v) && Le(Fin(v), alpha) && vChild <= v
  {
  }

  /**
   * In the window (-infinity, +infinity) a child replaces the running maximum
   * exactly when its true value is larger, so the maximum stays the value of
   * the first child to reach it.
   */
  lemma FirstMaxStep(values: seq<real>, n: nat, best: nat, maxEval: ExtReal, v: real, best': nat, maxEval': ExtReal)
    requires n < |values| && best <= n
    requires n == 0 ==> maxEval == NegInf
    requires n > 0 ==> maxEval.Fin? && best < n && maxEval.r == values[best]
    requires n > 0 ==> forall i :: 0 <= i < n ==> values[i] <= maxEval.r
    requires n > 0 ==> forall i :: 0 <= i < best ==> values[i] < maxEval.r
    requires FailSoft(v, values[n], MaxE(NegInf, maxEval), PosInf)
    requires maxEval' == (if Lt(maxEval, Fin(v)) then Fin(v) else maxEval)
    requires best' == (if Lt(maxEval, Fin(v)) then n else best)
    ensures maxEval'.Fin? && maxEval'.r == values[best']
    ensures forall i :: 0 <= i < best' ==> values[i] < maxEval'.r
  {
    if Lt(maxEval, Fin(v)) && n > 0 {
      assert values[n] == v;
      forall i | 0 <= i < n
        ensures values[i] < v
      {
        assert values[i] <= maxEval.r;
      }
    }
  }

  /** The mirror image of FirstMaxStep: a child replaces the running minimum exactly when its true value is smaller. */
  lemma FirstMinStep(values: seq<real>, n: nat, best: nat, minEval: ExtReal, v: real, best': nat, minEval': ExtReal)
    requires n < |values| && best <= n
    requires n == 0 ==> minEval == PosInf
    requires n > 0 ==> minEval.Fin? && best < n && minEval.r == values[best]
    requires n > 0 ==> forall i :: 0 <= i < n ==> minEval.r <= values[i]
    requires n > 0 ==> forall i :: 0 <= i < best ==> minEval.r < values[i]
    requires FailSoft(v, values[n], NegInf, MinE(PosInf, minEval))
    requires minEval' == (if Lt(Fin(v), minEval) then Fin(v) else minEval)
    requires best' == (if Lt(Fin(v), minEval) then n else best)
    ensures minEval'.Fin? && minEval'.r == values[best']
    ensures forall i :: 0 <= i < best' ==> minEval'.r < values[i]
  {
    if Lt(Fin(v), minEval) && n > 0 {
      assert values[n] == v;
      forall i | 0 <= i < n
        ensures v < values[i]
      {
        assert minEval.r <= values[i];
      }
    }
  }

  /** A new maximum hi, at least the old one lo and the next value, bounds one more value. */
  lemma RaiseBound(values: seq<real>, n: nat, lo: ExtReal, hi: real)
    requires n < |values| && values[n] <= hi
    requires n > 0 ==> lo.Fin? && lo.r <= hi && forall i :: 0 <= i < n ==> values[i] <= lo.r
    ensures forall i :: 0 <= i < n + 1 ==> values[i] <= hi
  {
  }

  /** A new minimum lo, at most the old one hi and the next value, bounds one more value. */
  lemma LowerBound(values: seq<real>, n: nat, hi: ExtReal, lo: real)
    requires n < |values| && lo <= values[n]
    requires n > 0 ==> hi.Fin? && lo <= hi.r && forall i :: 0 <= i < n ==> hi.r <= values[i]
    ensures forall i :: 0 <= i < n + 1 ==> lo <= values[i]
  {
  }

  // ---------------------------------------------------------------------
  // Move ordering.

  /** The one-ply score of a move: the evaluation of the position it leads to. */
  function QuickScore(eval: (Board, Player) -> real, b: Board, m: Move, current: Player, root: Player): real
    requires InBounds(m.0, m.1)
  {
    eval(AfterMove(b, m.0, m.1, current), root)
  }

  function ScoredMoves(eval: (Board, Player) -> real, b: Board, moves: seq<Move>, current: Player, root: Player): seq<Scored>
    requires forall m :: m in moves ==> InBounds(m.0, m.1)
  {
    seq(|moves|, i requires 0 <= i < |moves| => (QuickScore(eval, b, moves[i], current, root), moves[i]))
  }

  /** eval is the engine's evaluation function. */
  ghost predicate IsEvaluate(eval: (Board, Player) -> real)
  {
    forall b: Board, p: Player {:trigger Evaluate(b, p)} :: eval(b, p) == Evaluate(b, p)
  }

  /** The leaf evaluation, under the ghost name eval. */
  method Leaf(ghost eval: (Board, Player) -> real, b: Board, root: Player) returns (value: real)
    requires IsEvaluate(eval)
    ensures value == eval(b, root)
  {
    value := EvaluateBoard(b, root);
  }

  /** Pairs every move with its one-ply score and sorts the pairs. */
  method OrderMoves(ghost eval: (Board, Player) -> real, b: Board, moves: seq<Move>, current: Player, root: Player,
                    descending: bool) returns (ordered: seq<Scored>)
    requires IsEvaluate(eval)
    requires forall m :: m in moves ==> InBounds(m.0, m.1)
    ensures ordered == Sort(ScoredMoves(eval, b, moves, current, root), descending)
  {
    var movesWithScores: seq<Scored> := [];
    for n := 0 to |moves|
      invariant |movesWithScores| == n
      invariant forall i :: 0 <= i < n ==> movesWithScores[i] == (QuickScore(eval, b, moves[i], current, root), moves[i])
    {
      var move := moves[n];
      var newBoard := MakeMove(b, move.0, move.1, current);
      var quickScore := Leaf(eval, newBoard, root);
      movesWithScores := movesWithScores + [(quickScore, move)];
    }
    assert movesWithScores == ScoredMoves(eval, b, moves, current, root);
    ordered := Sort(movesWithScores, descending);
  }

  /** The ordered list visits exactly the given moves. */
  lemma OrderedMoves(eval: (Board, Player) -> real, b: Board, moves: seq<Move>, current: Player, root: Player, descending: bool)
    requires forall m :: m in moves ==> InBounds(m.0, m.1)
    ensures var ordered := Sort(ScoredMoves(eval, b, moves, current, root), descending);
      |ordered| == |moves| &&
      (forall i :: 0 <= i < |ordered| ==> ordered[i].1 in moves) &&
      (forall m :: m in moves ==> exists i :: 0 <= i < |ordered| && ordered[i].1 == m)
  {
    var scored := ScoredMoves(eval, b, moves, current, root);
    var ordered := Sort(scored, descending);
    assert |ordered| == |multiset(ordered)| == |multiset(scored)| == |moves|;
    forall i | 0 <= i < |ordered|
      ensures ordered[i].1 in moves
    {
      assert ordered[i] in multiset(scored);
      var k :| 0 <= k < |scored| && scored[k] == ordered[i];
    }
    forall m | m in moves
      ensures exists i :: 0 <= i < |ordered| && ordered[i].1 == m
    {
      var k :| 0 <= k < |moves| && moves[k] == m;
      assert scored[k] in multiset(ordered);
      var i :| 0 <= i < |ordered| && ordered[i] == scored[k];
    }
  }

  // ---------------------------------------------------------------------
  // The search.

  /**
   * minimax. The deadline is the flag timedOut, read on entry to every node;
   * eval is the ghost name of the leaf evaluation, which the method computes
   * with EvaluateBoard.
   */
  method Minimax(ghost eval: (Board, Player) -> real, b: Board, depth: nat, alpha: ExtReal, beta: ExtReal,
                 maximizing: bool, root: Player, timedOut: bool) returns (value: real, move: Option<Move>)
    requires IsEvaluate(eval)
    decreases depth, 4
    ensures timedOut || depth == 0 ==> value == eval(b, root) && move == None
    ensures move.Some? <==> !timedOut && depth > 0 && LegalMoves(b, Current(maximizing, root)) != []
    ensures move.Some? ==> move.value in LegalMoves(b, Current(maximizing, root))
    ensures !timedOut && depth > 0 && LegalMoves(b, Current(maximizing, root)) == [] ==>
      if LegalMoves(b, Opponent(Current(maximizing, root))) == [] then value == TerminalScore(b, root)
      else Lt(alpha, beta) ==> FailSoft(value, MinimaxValue(eval, b, depth - 1, !maximizing, root), alpha, beta)
    ensures !timedOut && Lt(alpha, beta) ==> FailSoft(value, MinimaxValue(eval, b, depth, maximizing, root), alpha, beta)
    ensures !timedOut && Lt(alpha, beta) && move.Some? ==>
      FailSoft(value, ChildValue(eval, b, depth, maximizing, root, move.value), alpha, beta)
    ensures alpha == NegInf && beta == PosInf && move.Some? ==>
      FirstToReach(eval, b, depth, maximizing, root,
                   Sort(ScoredMoves(eval, b, LegalMoves(b, Current(maximizing, root)), Current(maximizing, root), root), maximizing),
                   move.value, value)
  {
    if timedOut {
      value := Leaf(eval, b, root);
      move := None;
      return;
    }
    if depth == 0 {
      value := Leaf(eval, b, root);
      move := None;
      return;
    }
    var current := if maximizing then root else Opponent(root);
    var moves := ValidMovements(b, current);
    if |moves| == 0 {
      value := PassOrEnd(eval, b, depth, alpha, beta, maximizing, root);
      move := None;
      return;
    }
    value, move := SearchMoves(eval, b, depth, alpha, beta, maximizing, root, moves);
  }

  /** A node whose side to move has no move: the game is over, or the turn passes. */
  method PassOrEnd(ghost eval: (Board, Player) -> real, b: Board, depth: nat, alpha: ExtReal, beta: ExtReal,
                   maximizing: bool, root: Player) returns (value: real)
    requires IsEvaluate(eval)
    requires depth > 0 && LegalMoves(b, Current(maximizing, root)) == []
    decreases depth, 3
    ensures LegalMoves(b, Opponent(Current(maximizing, root))) == [] ==> value == TerminalScore(b, root)
    ensures LegalMoves(b, Opponent(Current(maximizing, root))) != [] && Lt(alpha, beta) ==>
      FailSoft(value, MinimaxValue(eval, b, depth - 1, !maximizing, root), alpha, beta)
    ensures Lt(alpha, beta) ==> FailSoft(value, MinimaxValue(eval, b, depth, maximizing, root), alpha, beta)
  {
    var current := if maximizing then root else Opponent(root);
    var otherMoves := ValidMovements(b, Opponent(current));
    if |otherMoves| == 0 {
      value := GameOverScore(b, root);
      return;
    }
    value := SearchValue(eval, b, depth - 1, alpha, beta, !maximizing, root);
  }

  /** A node whose side to move has the moves it is given: the maximizing or the minimizing branch. */
  method SearchMoves(ghost eval: (Board, Player) -> real, b: Board, depth: nat, alpha: ExtReal, beta: ExtReal,
                     maximizing: bool, root: Player, moves: seq<Move>) returns (value: real, move: Option<Move>)
    requires IsEvaluate(eval)
    requires depth > 0 && moves != [] && moves == LegalMoves(b, Current(maximizing, root))
    decreases depth, 3
    ensures move.Some? && move.value in moves
    ensures Lt(alpha, beta) ==> FailSoft(value, MinimaxValue(eval, b, depth, maximizing, root), alpha, beta)
    ensures Lt(alpha, beta) ==> FailSoft(value, ChildValue(eval, b, depth, maximizing, root, move.value), alpha, beta)
    ensures alpha == NegInf && beta == PosInf ==>
      FirstToReach(eval, b, depth, maximizing, root, Sort(ScoredMoves(eval, b, moves, Current(maximizing, root), root), maximizing),
                   move.value, value)
  {
    if maximizing {
      value, move := MaxNode(eval, b, depth, alpha, beta, root, moves);
    } else {
      value, move := MinNode(eval, b, depth, alpha, beta, root, moves);
    }
  }

  /** Plays m and searches the resulting position one level deeper. */
  method SearchChild(ghost eval: (Board, Player) -> real, b: Board, depth: nat, alpha: ExtReal, beta: ExtReal,
                     maximizing: bool, root: Player, m: Move) returns (value: real)
    requires IsEvaluate(eval)
    requires depth > 0 && InBounds(m.0, m.1)
    decreases depth, 0
    ensures Lt(alpha, beta) ==> FailSoft(value, ChildValue(eval, b, depth, maximizing, root, m), alpha, beta)
  {
    var newBoard := MakeMove(b, m.0, m.1, Current(maximizing, root));
    value := SearchValue(eval, newBoard, depth - 1, alpha, beta, !maximizing, root);
  }

  /** The value half of an untimed search. */
  method SearchValue(ghost eval: (Board, Player) -> real, b: Board, depth: nat, alpha: ExtReal, beta: ExtReal,
                     maximizing: bool, root: Player) returns (value: real)
    requires IsEvaluate(eval)
    decreases depth, 5
    ensures Lt(alpha, beta) ==> FailSoft(value, MinimaxValue(eval, b, depth, maximizing, root), alpha, beta)
  {
    var move;
    value, move := Minimax(eval, b, depth, alpha, beta, maximizing, root, false);
  }

  /** The child loop of a maximizing node, up to the first cut-off. */
  method MaxLoop(ghost eval: (Board, Player) -> real, b: Board, depth: nat, alpha: ExtReal, beta: ExtReal,
                 root: Player, ordered: seq<Scored>) returns (value: real, move: Option<Move>, ghost best: nat, ghost cutoff: bool)
    requires IsEvaluate(eval)
    requires depth > 0 && ordered != [] && forall i :: 0 <= i < |ordered| ==> InBounds(ordered[i].1.0, ordered[i].1.1)
    decreases depth, 1
    ensures best < |ordered| && move == Some(ordered[best].1)
    ensures Lt(alpha, beta) ==> FailSoft(value, ChildValue(eval, b, depth, true, root, move.value), alpha, beta)
    ensures Lt(alpha, beta) && cutoff ==> Le(beta, Fin(value))
    ensures Lt(alpha, beta) && !cutoff ==> forall i :: 0 <= i < |ordered| ==> ChildValue(eval, b, depth, true, root, ordered[i].1) <= value
    ensures alpha == NegInf && beta == PosInf ==>
      !cutoff && forall i :: 0 <= i < best ==> ChildValue(eval, b, depth, true, root, ordered[i].1) < value
  {
    ghost var values := seq(|ordered|, i requires 0 <= i < |ordered| =>
      ChildValue(eval, b, depth, true, root, ordered[i].1));
    ghost var full := alpha == NegInf && beta == PosInf;
    var maxEval := NegInf;
    var a := alpha;
    move := None;
    best := 0;
    cutoff := false;
    var n := 0;
    while n < |ordered|
      invariant 0 <= n <= |ordered| && 0 <= best <= n && !cutoff
      invariant a == MaxE(alpha, maxEval) && !maxEval.PosInf?
      invariant Lt(alpha, beta) ==> Lt(a, beta)
      invariant n == 0 ==> maxEval == NegInf && move == None
      invariant n > 0 ==> maxEval.Fin? && best < n && move == Some(ordered[best].1)
      invariant Lt(alpha, beta) && n > 0 ==> forall i :: 0 <= i < n ==> values[i] <= maxEval.r
      invariant Lt(alpha, beta) && n > 0 ==> FailSoft(maxEval.r, values[best], alpha, beta)
      invariant full && n > 0 ==> forall i :: 0 <= i < best ==> values[i] < maxEval.r
    {
      var m := ordered[n].1;
      var evalScore := SearchChild(eval, b, depth, a, beta, true, root, m);
      assert values[n] == ChildValue(eval, b, depth, true, root, m);
      ghost var a0, maxEval0, best0 := a, maxEval, best;
      if Lt(maxEval, Fin(evalScore)) {
        maxEval := Fin(evalScore);
        move := Some(m);
        best := n;
      }
      a := MaxE(a, Fin(evalScore));
      if Lt(alpha, beta) {
        MaxStep(alpha, beta, a0, maxEval0, values[best0], evalScore, values[n], a, maxEval, values[best]);
      }
      if full {
        FirstMaxStep(values, n, best0, maxEval0, evalScore, best, maxEval);
      }
      if Le(beta, a) {
        cutoff := true;
        break;
      }
      if Lt(alpha, beta) {
        RaiseBound(values, n, maxEval0, maxEval.r);
      }
      n := n + 1;
    }
    value := maxEval.r;
    if Lt(alpha, beta) && !cutoff {
      forall i | 0 <= i < |ordered|
        ensures ChildValue(eval, b, depth, true, root, ordered[i].1) <= value
      {
        assert values[i] <= value;
      }
    }
    if full {
      forall i | 0 <= i < best
        ensures ChildValue(eval, b, depth, true, root, ordered[i].1) < value
      {
        assert values[i] < value;
      }
    }
  }

  /** The maximizing branch: children in descending score order, raising alpha. */
  method MaxNode(ghost eval: (Board, Player) -> real, b: Board, depth: nat, alpha: ExtReal, beta: ExtReal,
                 root: Player, moves: seq<Move>) returns (value: real, move: Option<Move>)
    requires IsEvaluate(eval)
    requires depth > 0 && moves != [] && forall m :: m in moves ==> InBounds(m.0, m.1)
    decreases depth, 2
    ensures move.Some? && move.value in moves
    ensures Lt(alpha, beta) ==> FailSoft(value, BestOf(eval, b, depth, true, root, moves), alpha, beta)
    ensures Lt(alpha, beta) ==> FailSoft(value, ChildValue(eval, b, depth, true, root, move.value), alpha, beta)
    ensures alpha == NegInf && beta == PosInf ==>
      FirstToReach(eval, b, depth, true, root, Sort(ScoredMoves(eval, b, moves, root, root), true), move.value, value)
  {
    var ordered := OrderMoves(eval, b, moves, root, root, true);
    OrderedMoves(eval, b, moves, root, root, true);
    ghost var best, cutoff;
    value, move, best, cutoff := MaxLoop(eval, b, depth, alpha, beta, root, ordered);
    if alpha == NegInf && beta == PosInf {
      assert ordered[best].1 == move.value;
    }
    if Lt(alpha, beta) {
      if !cutoff {
        var top := BestOfAttained(eval, b, depth, true, root, moves);
        var i :| 0 <= i < |ordered| && ordered[i].1 == top;
      }
      BestOfBound(eval, b, depth, true, root, moves, move.value);
    }
  }

  /** The child loop of a minimizing node, up to the first cut-off. */
  method MinLoop(ghost eval: (Board, Player) -> real, b: Board, depth: nat, alpha: ExtReal, beta: ExtReal,
                 root: Player, ordered: seq<Scored>) returns (value: real, move: Option<Move>, ghost best: nat, ghost cutoff: bool)
    requires IsEvaluate(eval)
    requires depth > 0 && ordered != [] && forall i :: 0 <= i < |ordered| ==> InBounds(ordered[i].1.0, ordered[i].1.1)
    decreases depth, 1
    ensures best < |ordered| && move == Some(ordered[best].1)
    ensures Lt(alpha, beta) ==> FailSoft(value, ChildValue(eval, b, depth, false, root, move.value), alpha, beta)
    ensures Lt(alpha, beta) && cutoff ==> Le(Fin(value), alpha)
    ensures Lt(alpha, beta) && !cutoff ==> forall i :: 0 <= i < |ordered| ==> value <= ChildValue(eval, b, depth, false, root, ordered[i].1)
    ensures alpha == NegInf && beta == PosInf ==>
      !cutoff && forall i :: 0 <= i < best ==> value < ChildValue(eval, b, depth, false, root, ordered[i].1)
  {
    ghost var values := seq(|ordered|, i requires 0 <= i < |ordered| =>
      ChildValue(eval, b, depth, false, root, ordered[i].1));
    ghost var full := alpha == NegInf && beta == PosInf;
    var minEval := PosInf;
    var bb := beta;
    move := None;
    best := 0;
    cutoff := false;
    var n := 0;
    while n < |ordered|
      invariant 0 <= n <= |ordered| && 0 <= best <= n && !cutoff
      invariant bb == MinE(beta, minEval) && !minEval.NegInf?
      invariant Lt(alpha, beta) ==> Lt(alpha, bb)
      invariant n == 0 ==> minEval == PosInf && move == None
      invariant n > 0 ==> minEval.Fin? && best < n && move == Some(ordered[best].1)
      invariant Lt(alpha, beta) && n > 0 ==> forall i :: 0 <= i < n ==> minEval.r <= values[i]
      invariant Lt(alpha, beta) && n > 0 ==> FailSoft(minEval.r, values[best], alpha, beta)
      invariant full && n > 0 ==> forall i :: 0 <= i < best ==> minEval.r < values[i]
    {
      var m := ordered[n].1;
      var evalScore := SearchChild(eval, b, depth, alpha, bb, false, root, m);
      assert values[n] == ChildValue(eval, b, depth, false, root, m);
      ghost var bb0, minEval0, best0 := bb, minEval, best;
      if Lt(Fin(evalScore), minEval) {
        minEval := Fin(evalScore);
        move := Some(m);
        best := n;
      }
      bb := MinE(bb, Fin(evalScore));
      if Lt(alpha, beta) {
        MinStep(alpha, beta, bb0, minEval0, values[best0], evalScore, values[n], bb, minEval, values[best]);
      }
      if full {
        FirstMinStep(values, n, best0, minEval0, evalScore, best, minEval);
      }
      if Le(bb, alpha) {
        cutoff := true;
        break;
      }
      if Lt(alpha, beta) {
        LowerBound(values, n, minEval0, minEval.r);
      }
      n := n + 1;
    }
    value := minEval.r;
    if Lt(alpha, beta) && !cutoff {
      forall i | 0 <= i < |ordered|
        ensures value <= ChildValue(eval, b, depth, false, root, ordered[i].1)
      {
        assert value <= values[i];
      }
    }
    if full {
      forall i | 0 <= i < best
        ensures value < ChildValue(eval, b, depth, false, root, ordered[i].1)
      {
        assert value < values[i];
      }
    }
  }

  /** The minimizing branch: children in ascending score order, lowering beta. */
  method MinNode(ghost eval: (Board, Player) -> real, b: Board, depth: nat, alpha: ExtReal, beta: ExtReal,
                 root: Player, moves: seq<Move>) returns (value: real, move: Option<Move>)
    requires IsEvaluate(eval)
    requires depth > 0 && moves != [] && forall m :: m in moves ==> InBounds(m.0, m.1)
    decreases depth, 2
    ensures move.Some? && move.value in moves
    ensures Lt(alpha, beta) ==> FailSoft(value, BestOf(eval, b, depth, false, root, moves), alpha, beta)
    ensures Lt(alpha, beta) ==> FailSoft(value, ChildValue(eval, b, depth, false, root, move.value), alpha, beta)
    ensures alpha == NegInf && beta == PosInf ==>
      FirstToReach(eval, b, depth, false, root, Sort(ScoredMoves(eval, b, moves, Opponent(root), root), false), move.value, value)
  {
    var ordered := OrderMoves(eval, b, moves, Opponent(root), root, false);
    OrderedMoves(eval, b, moves, Opponent(root), root, false);
    ghost var best, cutoff;
    value, move, best, cutoff := MinLoop(eval, b, depth, alpha, beta, root, ordered);
    if alpha == NegInf && beta == PosInf {
      assert ordered[best].1 == move.value;
    }
    if Lt(alpha, beta) {
      if !cutoff {
        var top := BestOfAttained(eval, b, depth, false, root, moves);
        var i :| 0 <= i < |ordered| && ordered[i].1 == top;
      }
      BestOfBound(eval, b, depth, false, root, moves, move.value);
    }
  }
}
