/**
 * Which move findBestMove returns. Because alpha-beta is exact inside its
 * window, the root loop's pruned scores decide every comparison exactly as
 * the true values would, so the root loop returns the first move whose true
 * value is strictly greater than everything before it and at least
 * everything after it. As written, a move is taken only when its value is
 * strictly greater than the previous best, which starts at minus infinity:
 * when every move loses by force (value minus infinity) no move is returned
 * although Black has legal moves. The corrected root loop takes the first
 * move unconditionally.
 */
module BestMove {
  import opened Options
  import opened Pieces
  import opened Search
  import opened SearchTheory

  /** The true value of Black's root move m: Red's reply searched without pruning. */
  function RootValue<P, M>(g: Game<P, M>, p: P, m: M, depth: nat): Score
    requires depth >= 1
  {
    MinimaxValue(g, g.play(p, m), depth - 1, false)
  }

  /** The root loop on true values: a move replaces the best only when strictly better. */
  function FirstBest<P, M>(g: Game<P, M>, p: P, moves: seq<M>, depth: nat, bestMove: Option<M>, bestValue: Score)
    : (res: (Option<M>, Score))
    requires depth >= 1
    decreases |moves|
  {
    if moves == [] then (bestMove, bestValue)
    else
      var v := RootValue(g, p, moves[0], depth);
      if Lt(bestValue, v) then FirstBest(g, p, moves[1..], depth, Some(moves[0]), v)
      else FirstBest(g, p, moves[1..], depth, bestMove, bestValue)
  }

  /** Against a window (bv, +infinity) the pruned score is above bv exactly when the true value is, and then equals it. */
  lemma RootStep(bv: Score, value: Score, v: Score)
    requires Lt(bv, PosInf) && Clamp(value, bv, PosInf) == Clamp(v, bv, PosInf)
    ensures Lt(bv, value) <==> Lt(bv, v)
    ensures Lt(bv, value) ==> value == v
  {
  }

  /** The pruned root loop, whose alpha always equals its best value, chooses as FirstBest does. */
  lemma {:induction false} RootLoopExact<P, M>(g: Game<P, M>, p: P, moves: seq<M>, depth: nat, bm: Option<M>, bv: Score)
    requires depth >= 1
    ensures RootLoop(g, p, moves, depth, bm, bv, bv) == FirstBest(g, p, moves, depth, bm, bv)
    decreases |moves|
  {
    if moves != [] {
      var m := moves[0];
      var value := Minimax(g, g.play(p, m), depth - 1, bv, PosInf, false);
      var v := RootValue(g, p, m, depth);
      if bv != PosInf {
        MinimaxWindow(g, g.play(p, m), depth - 1, bv, PosInf, false);
        RootStep(bv, value, v);
      }
      var next := if Lt(bv, value) then (Some(m), value) else (bm, bv);
      assert MaxS(bv, next.1) == next.1;
      RootLoopExact(g, p, moves[1..], depth, next.0, next.1);
    }
  }

  /**
   * Once the best value is plus infinity the root loop is settled: no later
   * score is strictly greater, so the loop keeps its move and value whatever
   * the searches of the remaining moves return.
   */
  lemma {:induction false} RootLoopSettled<P, M>(g: Game<P, M>, p: P, moves: seq<M>, depth: nat, bm: Option<M>, alpha: Score)
    requires depth >= 1
    ensures RootLoop(g, p, moves, depth, bm, PosInf, alpha) == (bm, PosInf)
    decreases |moves|
  {
    if moves != [] {
      RootLoopSettled(g, p, moves[1..], depth, bm, MaxS(alpha, PosInf));
    }
  }

  /**
   * FirstBest keeps the starting choice unless some move is strictly
   * better, and then returns the first move with the greatest value; the
   * value returned bounds every move's value.
   */
  lemma {:induction false} FirstBestFacts<P, M>(g: Game<P, M>, p: P, moves: seq<M>, depth: nat, bm: Option<M>, bv: Score)
    requires depth >= 1
    ensures var res := FirstBest(g, p, moves, depth, bm, bv);
      && Le(bv, res.1)
      && (forall j :: 0 <= j < |moves| ==> Le(RootValue(g, p, moves[j], depth), res.1))
      && (res == (bm, bv) ||
          exists i :: 0 <= i < |moves| && res == (Some(moves[i]), RootValue(g, p, moves[i], depth)) && Lt(bv, res.1) &&
            forall j :: 0 <= j < i ==> Lt(RootValue(g, p, moves[j], depth), res.1))
    decreases |moves|
  {
    var res := FirstBest(g, p, moves, depth, bm, bv);
    if moves != [] {
      var rest := moves[1..];
      var v0 := RootValue(g, p, moves[0], depth);
      ScoreOrder(bv, v0, res.1);
      if Lt(bv, v0) {
        FirstBestFacts(g, p, rest, depth, Some(moves[0]), v0);
        assert res == FirstBest(g, p, rest, depth, Some(moves[0]), v0);
        if res != (Some(moves[0]), v0) {
          var i' :| 0 <= i' < |rest| && res == (Some(rest[i']), RootValue(g, p, rest[i'], depth)) && Lt(v0, res.1) &&
            forall j :: 0 <= j < i' ==> Lt(RootValue(g, p, rest[j], depth), res.1);
          ScoreOrder(bv, v0, res.1);
          assert forall j :: 0 <= j < i' + 1 ==> Lt(RootValue(g, p, moves[j], depth), res.1) by {
            forall j | 0 <= j < i' + 1
              ensures Lt(RootValue(g, p, moves[j], depth), res.1)
            {
              if j > 0 {
                assert moves[j] == rest[j - 1];
              }
            }
          }
          assert moves[i' + 1] == rest[i'];
        }
      } else {
        FirstBestFacts(g, p, rest, depth, bm, bv);
        if res != (bm, bv) {
          var i' :| 0 <= i' < |rest| && res == (Some(rest[i']), RootValue(g, p, rest[i'], depth)) && Lt(bv, res.1) &&
            forall j :: 0 <= j < i' ==> Lt(RootValue(g, p, rest[j], depth), res.1);
          ScoreOrder(v0, bv, res.1);
          assert forall j :: 0 <= j < i' + 1 ==> Lt(RootValue(g, p, moves[j], depth), res.1) by {
            forall j | 0 <= j < i' + 1
              ensures Lt(RootValue(g, p, moves[j], depth), res.1)
            {
              if j > 0 {
                assert moves[j] == rest[j - 1];
              }
            }
          }
          assert moves[i' + 1] == rest[i'];
        }
      }
      assert forall j :: 0 <= j < |moves| ==> Le(RootValue(g, p, moves[j], depth), res.1) by {
        forall j | 0 <= j < |moves|
          ensures Le(RootValue(g, p, moves[j], depth), res.1)
        {
          if j > 0 {
            assert moves[j] == rest[j - 1];
          }
        }
      }
    }
  }

  /**
   * findBestMove as written: it returns None exactly when every one of
   * Black's moves has true value minus infinity, and otherwise the first
   * move of greatest value, which is then finite or plus infinity.
   */
  lemma FindBestChoice<P, M>(g: Game<P, M>, p: P, depth: nat)
    requires depth >= 1
    ensures var moves := g.moves(p, Black);
      FindBest(g, p, depth).None? <==> forall j :: 0 <= j < |moves| ==> RootValue(g, p, moves[j], depth) == NegInf
    ensures var moves := g.moves(p, Black); var best := FindBest(g, p, depth);
      best.Some? ==>
        exists i :: 0 <= i < |moves| && moves[i] == best.value && RootValue(g, p, moves[i], depth) != NegInf &&
          (forall j :: 0 <= j < |moves| ==> Le(RootValue(g, p, moves[j], depth), RootValue(g, p, moves[i], depth))) &&
          (forall j :: 0 <= j < i ==> Lt(RootValue(g, p, moves[j], depth), RootValue(g, p, moves[i], depth)))
  {
    var moves := g.moves(p, Black);
    RootLoopExact(g, p, moves, depth, None, NegInf);
    FirstBestFacts(g, p, moves, depth, None, NegInf);
  }

  /**
   * The discrepancy, as written: when Black has legal moves but every one
   * of them loses by force within the search horizon, findBestMove returns
   * no move at all.
   */
  lemma LostRootReturnsNone<P, M>(g: Game<P, M>, p: P, depth: nat)
    requires depth >= 1 && g.moves(p, Black) != []
    requires forall m :: m in g.moves(p, Black) ==> RootValue(g, p, m, depth) == NegInf
    ensures FindBest(g, p, depth) == None
  {
    FindBestChoice(g, p, depth);
  }

  /** A Red node with a reply that leaves Black without a legal move is worth minus infinity once one more ply is searched. */
  lemma {:induction false} MinAllReachesNegInf<P, M>(g: Game<P, M>, q: P, moves: seq<M>, acc: Score, depth: nat, r: M)
    requires depth >= 2 && r in moves && g.moves(g.play(q, r), Black) == []
    ensures MinAll(g, q, moves, acc, depth) == NegInf
    decreases |moves|
  {
    var v := MinimaxValue(g, g.play(q, moves[0]), depth - 1, true);
    if moves[0] == r {
      var c := g.play(q, r);
      assert g.moves(c, Black) == [];
      assert MaxAll(g, c, g.moves(c, Black), NegInf, depth - 1) == NegInf;
      assert v == NegInf;
      MinAllFrom(g, q, moves[1..], MinS(acc, v), depth);
    } else {
      assert r in moves[1..];
      MinAllReachesNegInf(g, q, moves[1..], MinS(acc, v), depth, r);
    }
  }

  /** Once the running minimum is minus infinity it stays there. */
  lemma {:induction false} MinAllFrom<P, M>(g: Game<P, M>, q: P, moves: seq<M>, acc: Score, depth: nat)
    requires depth >= 1 && acc == NegInf
    ensures MinAll(g, q, moves, acc, depth) == NegInf
    decreases |moves|
  {
    if moves != [] {
      MinAllFrom(g, q, moves[1..], MinS(acc, MinimaxValue(g, g.play(q, moves[0]), depth - 1, true)), depth);
    }
  }

  /**
   * Black's move m allows a Red reply after which Black has no legal move:
   * mate in one when that leaves Black in check, and a stalemating reply
   * otherwise. The search scores both the same way.
   */
  predicate AllowsNoReply<P, M(==)>(g: Game<P, M>, p: P, m: M)
  {
    var q := g.play(p, m);
    exists r :: r in g.moves(q, Red) && g.moves(g.play(q, r), Black) == []
  }

  /** From depth 3 on, a move that allows such a reply has true value minus infinity. */
  lemma MateInOneLoses<P, M>(g: Game<P, M>, p: P, m: M, depth: nat)
    requires depth >= 3 && AllowsNoReply(g, p, m)
    ensures RootValue(g, p, m, depth) == NegInf
  {
    var q := g.play(p, m);
    var r :| r in g.moves(q, Red) && g.moves(g.play(q, r), Black) == [];
    MinAllReachesNegInf(g, q, g.moves(q, Red), PosInf, depth - 1, r);
  }

  /** When every legal move of Black allows such a reply, findBestMove at depth 3 or more returns no move. */
  lemma ForcedMateReturnsNone<P, M>(g: Game<P, M>, p: P, depth: nat)
    requires depth >= 3 && g.moves(p, Black) != []
    requires forall m :: m in g.moves(p, Black) ==> AllowsNoReply(g, p, m)
    ensures FindBest(g, p, depth) == None
  {
    forall m | m in g.moves(p, Black)
      ensures RootValue(g, p, m, depth) == NegInf
    {
      MateInOneLoses(g, p, m, depth);
    }
    LostRootReturnsNone(g, p, depth);
  }

  /** At depth 1 or 2 no root value is minus infinity, so the discrepancy needs depth 3 or more. */
  lemma {:induction false} ShallowMinAll<P, M>(g: Game<P, M>, q: P, moves: seq<M>, acc: Score)
    requires acc != NegInf
    ensures MinAll(g, q, moves, acc, 1) != NegInf
    decreases |moves|
  {
    if moves != [] {
      var v := MinimaxValue(g, g.play(q, moves[0]), 0, true);
      assert v.Fin?;
      ShallowMinAll(g, q, moves[1..], MinS(acc, v));
    }
  }

  lemma ShallowSearchFindsMove<P, M>(g: Game<P, M>, p: P, depth: nat)
    requires 1 <= depth <= 2 && g.moves(p, Black) != []
    ensures FindBest(g, p, depth).Some?
  {
    var moves := g.moves(p, Black);
    var q := g.play(p, moves[0]);
    if depth == 2 {
      ShallowMinAll(g, q, g.moves(q, Red), PosInf);
    }
    assert RootValue(g, p, moves[0], depth) != NegInf;
    FindBestChoice(g, p, depth);
  }

  /** Once a move has been chosen the corrected root loop behaves as the original one. */
  lemma {:induction false} FixedAgreesOnceChosen<P, M>(
    g: Game<P, M>, p: P, moves: seq<M>, depth: nat, bm: Option<M>, bv: Score, alpha: Score)
    requires depth >= 1 && bm.Some?
    ensures RootLoopFixed(g, p, moves, depth, bm, bv, alpha) == RootLoop(g, p, moves, depth, bm, bv, alpha)
    decreases |moves|
  {
    if moves != [] {
      var value := Minimax(g, g.play(p, moves[0]), depth - 1, alpha, PosInf, false);
      var next := if Lt(bv, value) then (Some(moves[0]), value) else (bm, bv);
      FixedAgreesOnceChosen(g, p, moves[1..], depth, next.0, next.1, MaxS(alpha, next.1));
    }
  }

  /**
   * The corrected findBestMove returns a move whenever Black has one, and
   * that move is the first one of greatest true value.
   */
  lemma FindBestFixedChoice<P, M>(g: Game<P, M>, p: P, depth: nat)
    requires depth >= 1
    ensures var moves := g.moves(p, Black); var best := FindBestFixed(g, p, depth);
      best.Some? ==>
        exists i :: 0 <= i < |moves| && moves[i] == best.value &&
          (forall j :: 0 <= j < |moves| ==> Le(RootValue(g, p, moves[j], depth), RootValue(g, p, moves[i], depth))) &&
          (forall j :: 0 <= j < i ==> Lt(RootValue(g, p, moves[j], depth), RootValue(g, p, moves[i], depth)))
  {
    var moves := g.moves(p, Black);
    if moves != [] {
      var m0, rest := moves[0], moves[1..];
      var v0 := RootValue(g, p, m0, depth);
      MinimaxFullWindow(g, g.play(p, m0), depth - 1, false);
      assert MaxS(NegInf, v0) == v0;
      assert FindBestFixed(g, p, depth) == RootLoopFixed(g, p, rest, depth, Some(m0), v0, v0).0;
      FixedAgreesOnceChosen(g, p, rest, depth, Some(m0), v0, v0);
      RootLoopExact(g, p, rest, depth, Some(m0), v0);
      FirstBestFacts(g, p, rest, depth, Some(m0), v0);
      var res := FirstBest(g, p, rest, depth, Some(m0), v0);
      ScoreOrder(v0, v0, res.1);
      forall j | 0 <= j < |moves|
        ensures Le(RootValue(g, p, moves[j], depth), res.1)
      {
        if j > 0 {
          assert moves[j] == rest[j - 1];
        }
      }
      if res != (Some(m0), v0) {
        var i' :| 0 <= i' < |rest| && res == (Some(rest[i']), RootValue(g, p, rest[i'], depth)) && Lt(v0, res.1) &&
          forall j :: 0 <= j < i' ==> Lt(RootValue(g, p, rest[j], depth), res.1);
        forall j | 0 <= j < i' + 1
          ensures Lt(RootValue(g, p, moves[j], depth), res.1)
        {
          if j > 0 {
            assert moves[j] == rest[j - 1];
          }
        }
        assert moves[i' + 1] == rest[i'];
      }
    }
  }
}
