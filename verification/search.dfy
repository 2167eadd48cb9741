/**
 * The computer player's search, with Black maximizing and Red minimizing:
 * a capture-only quiescence search at the leaves, minimax with alpha-beta
 * pruning above it, and the root loop that picks Black's move.
 *
 * The search is written against a Game: the four board operations it
 * calls (move generation, capture generation, playing a move on a copy of
 * the position, static evaluation). Engine supplies the Xiangqi ones.
 *
 * Each `for` loop over a move list is a function over the remaining list
 * that carries the loop's variables; a `break` is the point where it stops
 * recursing. Every child position is a fresh value (play), so sibling
 * branches never see each other's moves.
 */
module Search {
  import opened Options
  import opened Pieces

  /** A search score: a finite value or one of the two infinities the search starts its loops from. */
  datatype Score = NegInf | Fin(v: real) | PosInf

  predicate Le(x: Score, y: Score)
  {
    x.NegInf? || y.PosInf? || (x.Fin? && y.Fin? && x.v <= y.v)
  }

  predicate Lt(x: Score, y: Score)
  {
    !Le(y, x)
  }

  function MaxS(x: Score, y: Score): (z: Score)
    ensures Le(x, z) && Le(y, z) && (z == x || z == y)
  {
    if Le(x, y) then y else x
  }

  function MinS(x: Score, y: Score): (z: Score)
    ensures Le(z, x) && Le(z, y) && (z == x || z == y)
  {
    if Le(x, y) then x else y
  }

  /**
   * The operations the search calls: the legal moves of a side, the legal
   * captures of a side, the position after a move, and the static
   * evaluation (positive favours Black).
   */
  datatype Game<!P, !M> = Game(
    moves: (P, Side) -> seq<M>,
    captures: (P, Side) -> seq<M>,
    play: (P, M) -> P,
    eval: P -> real)

  const QuiescenceMaxDepth: nat := 2

  /** Black moves at maximizing nodes, Red at minimizing ones. */
  function Mover(maximizing: bool): Side
  {
    if maximizing then Black else Red
  }

  /**
   * quiescenceSearch. The stand-pat score is the static evaluation; a
   * maximizing node whose stand-pat already reaches beta (a minimizing one
   * whose stand-pat is already at most alpha) returns it, and otherwise
   * the node searches its captures with the stand-pat as the first best.
   */
  function Quiescence<P, M>(g: Game<P, M>, p: P, alpha: Score, beta: Score, maximizing: bool, depth: nat): (r: Score)
    ensures r.Fin?
    ensures depth == 0 ==> r == Fin(g.eval(p))
    ensures g.captures(p, Mover(maximizing)) == [] ==> r == Fin(g.eval(p))
    ensures maximizing ==> Le(Fin(g.eval(p)), r)
    ensures !maximizing ==> Le(r, Fin(g.eval(p)))
    decreases depth, 1, 0
  {
    var standPat := Fin(g.eval(p));
    if depth == 0 then standPat
    else if maximizing then
      if Le(beta, standPat) then standPat
      else
        var captures := g.captures(p, Black);
        if captures == [] then standPat
        else QuiescenceMaxLoop(g, p, captures, MaxS(alpha, standPat), beta, standPat, depth)
    else
      if Le(standPat, alpha) then standPat
      else
        var captures := g.captures(p, Red);
        if captures == [] then standPat
        else QuiescenceMinLoop(g, p, captures, alpha, MinS(beta, standPat), standPat, depth)
  }

  function QuiescenceMaxLoop<P, M>(g: Game<P, M>, p: P, moves: seq<M>, alpha: Score, beta: Score, best: Score, depth: nat)
    : (r: Score)
    requires depth >= 1 && best.Fin?
    ensures r.Fin? && Le(best, r)
    decreases depth, 0, |moves|
  {
    if moves == [] then best
    else
      var score := Quiescence(g, g.play(p, moves[0]), alpha, beta, false, depth - 1);
      var best' := MaxS(best, score);
      var alpha' := MaxS(alpha, best');
      if Le(beta, alpha') then best'
      else QuiescenceMaxLoop(g, p, moves[1..], alpha', beta, best', depth)
  }

  function QuiescenceMinLoop<P, M>(g: Game<P, M>, p: P, moves: seq<M>, alpha: Score, beta: Score, best: Score, depth: nat)
    : (r: Score)
    requires depth >= 1 && best.Fin?
    ensures r.Fin? && Le(r, best)
    decreases depth, 0, |moves|
  {
    if moves == [] then best
    else
      var score := Quiescence(g, g.play(p, moves[0]), alpha, beta, true, depth - 1);
      var best' := MinS(best, score);
      var beta' := MinS(beta, best');
      if Le(beta', alpha) then best'
      else QuiescenceMinLoop(g, p, moves[1..], alpha, beta', best', depth)
  }

  /**
   * minimax with alpha-beta pruning. At depth 0 it hands over to the
   * quiescence search; above that a side without a legal move keeps its
   * loop's starting value, minus infinity for Black and plus infinity for
   * Red.
   */
  function Minimax<P, M>(g: Game<P, M>, p: P, depth: nat, alpha: Score, beta: Score, maximizing: bool): (r: Score)
    ensures depth == 0 ==> r == Quiescence(g, p, alpha, beta, maximizing, QuiescenceMaxDepth)
    ensures depth > 0 && g.moves(p, Mover(maximizing)) == [] ==> r == (if maximizing then NegInf else PosInf)
    decreases depth, 1, 0
  {
    if depth == 0 then Quiescence(g, p, alpha, beta, maximizing, QuiescenceMaxDepth)
    else if maximizing then MinimaxMaxLoop(g, p, g.moves(p, Black), alpha, beta, NegInf, depth)
    else MinimaxMinLoop(g, p, g.moves(p, Red), alpha, beta, PosInf, depth)
  }

  function MinimaxMaxLoop<P, M>(g: Game<P, M>, p: P, moves: seq<M>, alpha: Score, beta: Score, maxEval: Score, depth: nat)
    : (r: Score)
    requires depth >= 1
    ensures Le(maxEval, r)
    ensures moves == [] ==> r == maxEval
    decreases depth, 0, |moves|
  {
    if moves == [] then maxEval
    else
      var evalScore := Minimax(g, g.play(p, moves[0]), depth - 1, alpha, beta, false);
      var maxEval' := MaxS(maxEval, evalScore);
      var alpha' := MaxS(alpha, evalScore);
      if Le(beta, alpha') then maxEval'
      else MinimaxMaxLoop(g, p, moves[1..], alpha', beta, maxEval', depth)
  }

  function MinimaxMinLoop<P, M>(g: Game<P, M>, p: P, moves: seq<M>, alpha: Score, beta: Score, minEval: Score, depth: nat)
    : (r: Score)
    requires depth >= 1
    ensures Le(r, minEval)
    ensures moves == [] ==> r == minEval
    decreases depth, 0, |moves|
  {
    if moves == [] then minEval
    else
      var evalScore := Minimax(g, g.play(p, moves[0]), depth - 1, alpha, beta, true);
      var minEval' := MinS(minEval, evalScore);
      var beta' := MinS(beta, evalScore);
      if Le(beta', alpha) then minEval'
      else MinimaxMinLoop(g, p, moves[1..], alpha, beta', minEval', depth)
  }

  /**
   * The root loop of findBestMove over Black's remaining moves: each move is
   * scored by a minimizing search one ply shallower with window
   * (alpha, +infinity), and replaces the best move only when its score is
   * strictly greater. Returns the best move and its score.
   */
  function RootLoop<P, M>(g: Game<P, M>, p: P, moves: seq<M>, depth: nat, bestMove: Option<M>, bestValue: Score, alpha: Score)
    : (res: (Option<M>, Score))
    requires depth >= 1
    ensures res.0 == bestMove || (res.0.Some? && res.0.value in moves)
    ensures Le(bestValue, res.1)
    decreases |moves|
  {
    if moves == [] then (bestMove, bestValue)
    else
      var m := moves[0];
      var value := Minimax(g, g.play(p, m), depth - 1, alpha, PosInf, false);
      var next := if Lt(bestValue, value) then (Some(m), value) else (bestMove, bestValue);
      RootLoop(g, p, moves[1..], depth, next.0, next.1, MaxS(alpha, next.1))
  }

  /** findBestMove: Black's chosen move, or None; a move it returns is one of Black's legal moves. */
  function FindBest<P, M>(g: Game<P, M>, p: P, depth: nat): (best: Option<M>)
    requires depth >= 1
    ensures best.Some? ==> best.value in g.moves(p, Black)
    ensures g.moves(p, Black) == [] ==> best == None
  {
    RootLoop(g, p, g.moves(p, Black), depth, None, NegInf, NegInf).0
  }

  /**
   * The root loop as evidently intended: the first move is taken whatever
   * its score, and later moves replace it only when strictly better.
   */
  function RootLoopFixed<P, M>(g: Game<P, M>, p: P, moves: seq<M>, depth: nat, bestMove: Option<M>, bestValue: Score, alpha: Score)
    : (res: (Option<M>, Score))
    requires depth >= 1
    ensures res.0 == bestMove || (res.0.Some? && res.0.value in moves)
    ensures bestMove.Some? || moves != [] ==> res.0.Some?
    decreases |moves|
  {
    if moves == [] then (bestMove, bestValue)
    else
      var m := moves[0];
      var value := Minimax(g, g.play(p, m), depth - 1, alpha, PosInf, false);
      var next := if bestMove.None? || Lt(bestValue, value) then (Some(m), value) else (bestMove, bestValue);
      RootLoopFixed(g, p, moves[1..], depth, next.0, next.1, MaxS(alpha, next.1))
  }

  /** findBestMove with the corrected root loop: it returns a move exactly when Black has one. */
  function FindBestFixed<P, M>(g: Game<P, M>, p: P, depth: nat): (best: Option<M>)
    requires depth >= 1
    ensures best.Some? ==> best.value in g.moves(p, Black)
    ensures best.None? <==> g.moves(p, Black) == []
  {
    RootLoopFixed(g, p, g.moves(p, Black), depth, None, NegInf, NegInf).0
  }
}
