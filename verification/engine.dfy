/**
 * The computer player on Xiangqi boards: the search of Search run with the
 * move generator of MoveGen, applyMove of Board and evaluateBoard of
 * Evaluation. Every board the engine sees is a 10 x 9 grid; the guards
 * below only make the four operations total.
 */
module Engine {
  import opened Options
  import opened Pieces
  import opened Board
  import opened MoveGen
  import opened Evaluation
  import opened Search
  import opened BestMove

  predicate OnBoard(m: Move)
  {
    InBoard(m.fr, m.fc) && InBoard(m.tr, m.tc)
  }

  /** The move enumeration of minimax's nested loops and of countLegalMoves. */
  function Moves(b: Grid, s: Side): (ms: seq<Move>)
    ensures ValidBoard(b) ==> ms == LegalMoves(b, s)
  {
    if ValidBoard(b) then LegalMoves(b, s) else []
  }

  /** generateCaptureMoves. */
  function Captures(b: Grid, s: Side): (ms: seq<Move>)
    ensures ValidBoard(b) ==> ms == CaptureMoves(b, s)
  {
    if ValidBoard(b) then CaptureMoves(b, s) else []
  }

  /** applyMove on a copy of the board: the piece moves, capturing whatever stood on the target. */
  function Play(b: Grid, m: Move): (c: Grid)
    ensures ValidBoard(b) ==> ValidBoard(c)
    ensures ValidBoard(b) && OnBoard(m) ==> c[m.fr][m.fc] == None
    ensures ValidBoard(b) && OnBoard(m) && (m.tr, m.tc) != (m.fr, m.fc) ==> c[m.tr][m.tc] == Some(m.piece)
  {
    if ValidBoard(b) && OnBoard(m) then ApplyMove(b, m.fr, m.fc, m.tr, m.tc, m.piece) else b
  }

  /** evaluateBoard. */
  function Eval(b: Grid): (v: real)
    ensures ValidBoard(b) ==> v == Evaluate(b)
  {
    if ValidBoard(b) then Evaluate(b) else 0.0
  }

  const Xiangqi: Game<Grid, Move> := Game(Moves, Captures, Play, Eval)

  /**
   * findBestMove on a board: a move it returns stands on a Black piece's
   * square and is legal; with no legal move for Black it returns None.
   */
  function FindBestMove(b: Grid, depth: nat): (best: Option<Move>)
    requires ValidBoard(b) && depth >= 1
    ensures best.Some? ==> best.value in LegalMoves(b, Black)
    ensures best.Some? ==>
      var m := best.value;
      InBoard(m.fr, m.fc) && InBoard(m.tr, m.tc) && b[m.fr][m.fc] == Some(m.piece) && m.piece.side == Black &&
      IsMoveLegalAI(b, m.fr, m.fc, m.tr, m.tc, m.piece)
    ensures LegalMoves(b, Black) == [] ==> best == None
  {
    FindBest(Xiangqi, b, depth)
  }

  /**
   * As written, findBestMove gives up in a lost position: when Black has
   * legal moves but each of them allows a Red reply that leaves Black
   * without legal moves (mate or stalemate at once), the search at depth 3
   * or more returns no move.
   */
  lemma ForcedMateNoMove(b: Grid, depth: nat)
    requires ValidBoard(b) && depth >= 3 && LegalMoves(b, Black) != []
    requires forall m :: m in LegalMoves(b, Black) ==>
      exists r :: r in LegalMoves(Play(b, m), Red) && LegalMoves(Play(Play(b, m), r), Black) == []
    ensures FindBestMove(b, depth) == None
  {
    forall m | m in Xiangqi.moves(b, Black)
      ensures AllowsNoReply(Xiangqi, b, m)
    {
      var r :| r in LegalMoves(Play(b, m), Red) && LegalMoves(Play(Play(b, m), r), Black) == [];
      MateReply(b, m, r);
    }
    ForcedMateReturnsNone(Xiangqi, b, depth);
  }

  lemma MateReply(b: Grid, m: Move, r: Move)
    requires ValidBoard(b)
    requires r in LegalMoves(Play(b, m), Red) && LegalMoves(Play(Play(b, m), r), Black) == []
    ensures AllowsNoReply(Xiangqi, b, m)
  {
    var q := Xiangqi.play(b, m);
    assert q == Play(b, m);
    assert Xiangqi.moves(q, Red) == LegalMoves(q, Red);
    assert Xiangqi.moves(Xiangqi.play(q, r), Black) == [];
  }

  /** findBestMove with the corrected root loop: a legal Black move whenever Black has one. */
  function FindBestMoveFixed(b: Grid, depth: nat): (best: Option<Move>)
    requires ValidBoard(b) && depth >= 1
    ensures best.Some? ==> best.value in LegalMoves(b, Black)
    ensures best.None? <==> LegalMoves(b, Black) == []
  {
    FindBestFixed(Xiangqi, b, depth)
  }
}
