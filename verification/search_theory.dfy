/**
 * What the pruned search computes. The reference values below search the
 * same trees without windows or cut-offs; quiescence counts the stand-pat
 * score as its first child. The window lemmas show that alpha-beta with a
 * window alpha < beta returns a score that, clamped to [alpha, beta],
 * equals the clamped reference value, so with the full window the two are
 * equal; from that follows exactly which move the root loop returns.
 */
module SearchTheory {
  import opened Options
  import opened Pieces
  import opened Search

  function Clamp(x: Score, lo: Score, hi: Score): Score
  {
    MinS(MaxS(x, lo), hi)
  }

  /** The un-pruned quiescence value: the best of the stand-pat score and every capture's value. */
  function QuiescenceValue<P, M>(g: Game<P, M>, p: P, maximizing: bool, depth: nat): (r: Score)
    ensures r.Fin?
    ensures maximizing ==> Le(Fin(g.eval(p)), r)
    ensures !maximizing ==> Le(r, Fin(g.eval(p)))
    decreases depth, 1, 0
  {
    var standPat := Fin(g.eval(p));
    if depth == 0 then standPat
    else if maximizing then QuiescenceMaxAll(g, p, g.captures(p, Black), standPat, depth)
    else QuiescenceMinAll(g, p, g.captures(p, Red), standPat, depth)
  }

  function QuiescenceMaxAll<P, M>(g: Game<P, M>, p: P, moves: seq<M>, acc: Score, depth: nat): (r: Score)
    requires depth >= 1 && acc.Fin?
    ensures r.Fin? && Le(acc, r)
    decreases depth, 0, |moves|
  {
    if moves == [] then acc
    else QuiescenceMaxAll(g, p, moves[1..], MaxS(acc, QuiescenceValue(g, g.play(p, moves[0]), false, depth - 1)), depth)
  }

  function QuiescenceMinAll<P, M>(g: Game<P, M>, p: P, moves: seq<M>, acc: Score, depth: nat): (r: Score)
    requires depth >= 1 && acc.Fin?
    ensures r.Fin? && Le(r, acc)
    decreases depth, 0, |moves|
  {
    if moves == [] then acc
    else QuiescenceMinAll(g, p, moves[1..], MinS(acc, QuiescenceValue(g, g.play(p, moves[0]), true, depth - 1)), depth)
  }

  /** The un-pruned minimax value of the same tree. */
  function MinimaxValue<P, M>(g: Game<P, M>, p: P, depth: nat, maximizing: bool): Score
    decreases depth, 1, 0
  {
    if depth == 0 then QuiescenceValue(g, p, maximizing, QuiescenceMaxDepth)
    else if maximizing then MaxAll(g, p, g.moves(p, Black), NegInf, depth)
    else MinAll(g, p, g.moves(p, Red), PosInf, depth)
  }

  function MaxAll<P, M>(g: Game<P, M>, p: P, moves: seq<M>, acc: Score, depth: nat): (r: Score)
    requires depth >= 1
    ensures Le(acc, r)
    decreases depth, 0, |moves|
  {
    if moves == [] then acc
    else MaxAll(g, p, moves[1..], MaxS(acc, MinimaxValue(g, g.play(p, moves[0]), depth - 1, false)), depth)
  }

  function MinAll<P, M>(g: Game<P, M>, p: P, moves: seq<M>, acc: Score, depth: nat): (r: Score)
    requires depth >= 1
    ensures Le(r, acc)
    decreases depth, 0, |moves|
  {
    if moves == [] then acc
    else MinAll(g, p, moves[1..], MinS(acc, MinimaxValue(g, g.play(p, moves[0]), depth - 1, true)), depth)
  }

  // ---------------------------------------------------------------------
  // Order facts about scores
  // ---------------------------------------------------------------------

  lemma ScoreOrder(x: Score, y: Score, z: Score)
    ensures Le(x, x)
    ensures Le(x, y) || Le(y, x)
    ensures Le(x, y) && Le(y, x) ==> x == y
    ensures Le(x, y) && Le(y, z) ==> Le(x, z)
  {
  }

  /**
   * One step of a maximizing loop keeps the window invariant: with
   * a == max(alpha0, best) below beta and max(acc, alpha0) == a, a child
   * whose pruned score agrees with its true value inside [a, beta] either
   * cuts off with both sides at or above beta, or moves both to a' < beta.
   */
  lemma MaxStep(alpha0: Score, a: Score, beta: Score, best: Score, acc: Score, score: Score, v: Score)
    requires Lt(a, beta) && a == MaxS(alpha0, best) && MaxS(acc, alpha0) == a
    requires Clamp(score, a, beta) == Clamp(v, a, beta)
    ensures MaxS(a, MaxS(best, score)) == MaxS(a, score)
    ensures Le(beta, MaxS(a, score)) ==> Le(beta, MaxS(best, score)) && Le(beta, v)
    ensures Lt(MaxS(a, score), beta) ==>
      MaxS(a, score) == MaxS(alpha0, MaxS(best, score)) && MaxS(MaxS(acc, v), alpha0) == MaxS(a, score)
  {
  }

  lemma MinStep(alpha: Score, b: Score, beta0: Score, best: Score, acc: Score, score: Score, v: Score)
    requires Lt(alpha, b) && b == MinS(beta0, best) && MinS(acc, beta0) == b
    requires Clamp(score, alpha, b) == Clamp(v, alpha, b)
    ensures MinS(b, MinS(best, score)) == MinS(b, score)
    ensures Le(MinS(b, score), alpha) ==> Le(MinS(best, score), alpha) && Le(v, alpha)
    ensures Lt(alpha, MinS(b, score)) ==>
      MinS(b, score) == MinS(beta0, MinS(best, score)) && MinS(MinS(acc, v), beta0) == MinS(b, score)
  {
  }

  /** Closing a maximizing loop step: the pruned and the full loop agree inside [alpha0, beta]. */
  lemma MaxLoopClose(alpha0: Score, a: Score, beta: Score, best: Score, acc: Score, score: Score, v: Score,
                     loopRest: Score, allRest: Score, loopNow: Score, allNow: Score)
    requires Lt(a, beta) && a == MaxS(alpha0, best) && MaxS(acc, alpha0) == a
    requires Clamp(score, a, beta) == Clamp(v, a, beta)
    requires Le(MaxS(acc, v), allRest) && allNow == allRest
    requires loopNow == if Le(beta, MaxS(a, score)) then MaxS(best, score) else loopRest
    requires Lt(MaxS(a, score), beta) ==> Clamp(loopRest, alpha0, beta) == Clamp(allRest, alpha0, beta)
    ensures Clamp(loopNow, alpha0, beta) == Clamp(allNow, alpha0, beta)
  {
    MaxStep(alpha0, a, beta, best, acc, score, v);
    if Le(beta, MaxS(a, score)) {
      ScoreOrder(beta, v, MaxS(acc, v));
      ScoreOrder(beta, MaxS(acc, v), allRest);
    }
  }

  lemma MinLoopClose(alpha: Score, bt: Score, beta0: Score, best: Score, acc: Score, score: Score, v: Score,
                     loopRest: Score, allRest: Score, loopNow: Score, allNow: Score)
    requires Lt(alpha, bt) && bt == MinS(beta0, best) && MinS(acc, beta0) == bt
    requires Clamp(score, alpha, bt) == Clamp(v, alpha, bt)
    requires Le(allRest, MinS(acc, v)) && allNow == allRest
    requires loopNow == if Le(MinS(bt, score), alpha) then MinS(best, score) else loopRest
    requires Lt(alpha, MinS(bt, score)) ==> Clamp(loopRest, alpha, beta0) == Clamp(allRest, alpha, beta0)
    ensures Clamp(loopNow, alpha, beta0) == Clamp(allNow, alpha, beta0)
  {
    MinStep(alpha, bt, beta0, best, acc, score, v);
    if Le(MinS(bt, score), alpha) {
      ScoreOrder(MinS(acc, v), v, alpha);
      ScoreOrder(allRest, MinS(acc, v), alpha);
    }
  }

  /** Two scores at or above the top of a window clamp to the same value, as do two at or below its bottom. */
  lemma ClampOutside(x: Score, y: Score, lo: Score, hi: Score)
    requires Lt(lo, hi)
    ensures Le(hi, x) && Le(hi, y) ==> Clamp(x, lo, hi) == Clamp(y, lo, hi)
    ensures Le(x, lo) && Le(y, lo) ==> Clamp(x, lo, hi) == Clamp(y, lo, hi)
  {
  }

  // ---------------------------------------------------------------------
  // Quiescence
  // ---------------------------------------------------------------------

  lemma {:induction false} QuiescenceWindow<P, M>(g: Game<P, M>, p: P, alpha: Score, beta: Score, maximizing: bool, depth: nat)
    requires Lt(alpha, beta)
    ensures Clamp(Quiescence(g, p, alpha, beta, maximizing, depth), alpha, beta) ==
            Clamp(QuiescenceValue(g, p, maximizing, depth), alpha, beta)
    decreases depth, 1, 0
  {
    var standPat := Fin(g.eval(p));
    var v := QuiescenceValue(g, p, maximizing, depth);
    if depth == 0 {
    } else if maximizing {
      var captures := g.captures(p, Black);
      if Le(beta, standPat) {
        ScoreOrder(beta, standPat, v);
        ClampOutside(standPat, v, alpha, beta);
      } else if captures != [] {
        assert MaxS(standPat, alpha) == MaxS(alpha, standPat);
        QuiescenceMaxLoopWindow(g, p, captures, alpha, MaxS(alpha, standPat), beta, standPat, standPat, depth);
      }
    } else {
      var captures := g.captures(p, Red);
      if Le(standPat, alpha) {
        ScoreOrder(v, standPat, alpha);
        ClampOutside(standPat, v, alpha, beta);
      } else if captures != [] {
        assert MinS(standPat, beta) == MinS(beta, standPat);
        QuiescenceMinLoopWindow(g, p, captures, alpha, MinS(beta, standPat), beta, standPat, standPat, depth);
      }
    }
  }

  lemma {:induction false} QuiescenceMaxLoopWindow<P, M>(
    g: Game<P, M>, p: P, moves: seq<M>, alpha0: Score, a: Score, beta: Score, best: Score, acc: Score, depth: nat)
    requires depth >= 1 && best.Fin? && acc.Fin?
    requires Lt(a, beta) && a == MaxS(alpha0, best) && MaxS(acc, alpha0) == a
    ensures Clamp(QuiescenceMaxLoop(g, p, moves, a, beta, best, depth), alpha0, beta) ==
            Clamp(QuiescenceMaxAll(g, p, moves, acc, depth), alpha0, beta)
    decreases depth, 0, |moves|
  {
    if moves != [] {
      var child := g.play(p, moves[0]);
      var score := Quiescence(g, child, a, beta, false, depth - 1);
      var v := QuiescenceValue(g, child, false, depth - 1);
      QuiescenceWindow(g, child, a, beta, false, depth - 1);
      MaxStep(alpha0, a, beta, best, acc, score, v);
      var best', acc' := MaxS(best, score), MaxS(acc, v);
      var alpha' := MaxS(a, best');
      if Lt(alpha', beta) {
        QuiescenceMaxLoopWindow(g, p, moves[1..], alpha0, alpha', beta, best', acc', depth);
      }
      MaxLoopClose(alpha0, a, beta, best, acc, score, v,
                   QuiescenceMaxLoop(g, p, moves[1..], alpha', beta, best', depth),
                   QuiescenceMaxAll(g, p, moves[1..], acc', depth),
                   QuiescenceMaxLoop(g, p, moves, a, beta, best, depth),
                   QuiescenceMaxAll(g, p, moves, acc, depth));
    }
  }

  lemma {:induction false} QuiescenceMinLoopWindow<P, M>(
    g: Game<P, M>, p: P, moves: seq<M>, alpha: Score, bt: Score, beta0: Score, best: Score, acc: Score, depth: nat)
    requires depth >= 1 && best.Fin? && acc.Fin?
    requires Lt(alpha, bt) && bt == MinS(beta0, best) && MinS(acc, beta0) == bt
    ensures Clamp(QuiescenceMinLoop(g, p, moves, alpha, bt, best, depth), alpha, beta0) ==
            Clamp(QuiescenceMinAll(g, p, moves, acc, depth), alpha, beta0)
    decreases depth, 0, |moves|
  {
    if moves != [] {
      var child := g.play(p, moves[0]);
      var score := Quiescence(g, child, alpha, bt, true, depth - 1);
      var v := QuiescenceValue(g, child, true, depth - 1);
      QuiescenceWindow(g, child, alpha, bt, true, depth - 1);
      MinStep(alpha, bt, beta0, best, acc, score, v);
      var best', acc' := MinS(best, score), MinS(acc, v);
      var beta' := MinS(bt, best');
      if Lt(alpha, beta') {
        QuiescenceMinLoopWindow(g, p, moves[1..], alpha, beta', beta0, best', acc', depth);
      }
      MinLoopClose(alpha, bt, beta0, best, acc, score, v,
                   QuiescenceMinLoop(g, p, moves[1..], alpha, beta', best', depth),
                   QuiescenceMinAll(g, p, moves[1..], acc', depth),
                   QuiescenceMinLoop(g, p, moves, alpha, bt, best, depth),
                   QuiescenceMinAll(g, p, moves, acc, depth));
    }
  }

  // ---------------------------------------------------------------------
  // Minimax
  // ---------------------------------------------------------------------

  /**
   * Alpha-beta is exact inside its window: for alpha < beta the pruned and
   * the un-pruned score agree once both are clamped to [alpha, beta].
   */
  lemma {:induction false} MinimaxWindow<P, M>(g: Game<P, M>, p: P, depth: nat, alpha: Score, beta: Score, maximizing: bool)
    requires Lt(alpha, beta)
    ensures Clamp(Minimax(g, p, depth, alpha, beta, maximizing), alpha, beta) ==
            Clamp(MinimaxValue(g, p, depth, maximizing), alpha, beta)
    decreases depth, 1, 0
  {
    if depth == 0 {
      QuiescenceWindow(g, p, alpha, beta, maximizing, QuiescenceMaxDepth);
    } else if maximizing {
      MinimaxMaxLoopWindow(g, p, g.moves(p, Black), alpha, alpha, beta, NegInf, NegInf, depth);
    } else {
      MinimaxMinLoopWindow(g, p, g.moves(p, Red), alpha, beta, beta, PosInf, PosInf, depth);
    }
  }

  lemma {:induction false} MinimaxMaxLoopWindow<P, M>(
    g: Game<P, M>, p: P, moves: seq<M>, alpha0: Score, a: Score, beta: Score, maxEval: Score, acc: Score, depth: nat)
    requires depth >= 1
    requires Lt(a, beta) && a == MaxS(alpha0, maxEval) && MaxS(acc, alpha0) == a
    ensures Clamp(MinimaxMaxLoop(g, p, moves, a, beta, maxEval, depth), alpha0, beta) ==
            Clamp(MaxAll(g, p, moves, acc, depth), alpha0, beta)
    decreases depth, 0, |moves|
  {
    if moves != [] {
      var child := g.play(p, moves[0]);
      var score := Minimax(g, child, depth - 1, a, beta, false);
      var v := MinimaxValue(g, child, depth - 1, false);
      MinimaxWindow(g, child, depth - 1, a, beta, false);
      MaxStep(alpha0, a, beta, maxEval, acc, score, v);
      var maxEval', acc' := MaxS(maxEval, score), MaxS(acc, v);
      var alpha' := MaxS(a, score);
      if Lt(alpha', beta) {
        MinimaxMaxLoopWindow(g, p, moves[1..], alpha0, alpha', beta, maxEval', acc', depth);
      }
      MaxLoopClose(alpha0, a, beta, maxEval, acc, score, v,
                   MinimaxMaxLoop(g, p, moves[1..], alpha', beta, maxEval', depth),
                   MaxAll(g, p, moves[1..], acc', depth),
                   MinimaxMaxLoop(g, p, moves, a, beta, maxEval, depth),
                   MaxAll(g, p, moves, acc, depth));
    }
  }

  lemma {:induction false} MinimaxMinLoopWindow<P, M>(
    g: Game<P, M>, p: P, moves: seq<M>, alpha: Score, bt: Score, beta0: Score, minEval: Score, acc: Score, depth: nat)
    requires depth >= 1
    requires Lt(alpha, bt) && bt == MinS(beta0, minEval) && MinS(acc, beta0) == bt
    ensures Clamp(MinimaxMinLoop(g, p, moves, alpha, bt, minEval, depth), alpha, beta0) ==
            Clamp(MinAll(g, p, moves, acc, depth), alpha, beta0)
    decreases depth, 0, |moves|
  {
    if moves != [] {
      var child := g.play(p, moves[0]);
      var score := Minimax(g, child, depth - 1, alpha, bt, true);
      var v := MinimaxValue(g, child, depth - 1, true);
      MinimaxWindow(g, child, depth - 1, alpha, bt, true);
      MinStep(alpha, bt, beta0, minEval, acc, score, v);
      var minEval', acc' := MinS(minEval, score), MinS(acc, v);
      var beta' := MinS(bt, score);
      if Lt(alpha, beta') {
        MinimaxMinLoopWindow(g, p, moves[1..], alpha, beta', beta0, minEval', acc', depth);
      }
      MinLoopClose(alpha, bt, beta0, minEval, acc, score, v,
                   MinimaxMinLoop(g, p, moves[1..], alpha, beta', minEval', depth),
                   MinAll(g, p, moves[1..], acc', depth),
                   MinimaxMinLoop(g, p, moves, alpha, bt, minEval, depth),
                   MinAll(g, p, moves, acc, depth));
    }
  }

  /** With the full window (-infinity, +infinity) pruning changes nothing. */
  lemma MinimaxFullWindow<P, M>(g: Game<P, M>, p: P, depth: nat, maximizing: bool)
    ensures Minimax(g, p, depth, NegInf, PosInf, maximizing) == MinimaxValue(g, p, depth, maximizing)
  {
    MinimaxWindow(g, p, depth, NegInf, PosInf, maximizing);
  }

  lemma QuiescenceFullWindow<P, M>(g: Game<P, M>, p: P, maximizing: bool, depth: nat)
    ensures Quiescence(g, p, NegInf, PosInf, maximizing, depth) == QuiescenceValue(g, p, maximizing, depth)
  {
    QuiescenceWindow(g, p, NegInf, PosInf, maximizing, depth);
  }
}
