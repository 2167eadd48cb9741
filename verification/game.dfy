/**
 * The interactive game: the starting position, the end-of-game tests and
 * the state machine the board clicks drive (moving a piece, ending the
 * game, passing the turn, resigning and taking back a pair of moves).
 *
 * The program keeps this state in global variables and mutates it; here a
 * State value stands for those globals and every handler returns the new
 * one. Saved boards are deep copies in the program, so they are plain
 * values here.
 */
module Game {
  import opened Options
  import opened Pieces
  import opened Board
  import opened Rules
  import opened MoveGen
  import opened Evaluation

  // ---------------------------------------------------------------------
  // The starting position

  /** The opening layout as the program writes it: ragged rows of identifiers, "" or a missing entry for an empty square. */
  const InitialSetup: seq<seq<string>> := [
    ["BR1", "BH1", "BE1", "BA1", "BK", "BA2", "BE2", "BH2", "BR2"],
    [],
    ["", "", "BC1", "", "", "", "BC2", "", ""],
    ["BP1", "", "BP2", "", "BP3", "", "BP4", "", "BP5"],
    [], [],
    ["RP1", "", "RP2", "", "RP3", "", "RP4", "", "RP5"],
    ["", "", "RC1", "", "", "", "RC2", "", ""],
    [],
    ["RR1", "RH1", "RE1", "RA1", "RK", "RA2", "RE2", "RH2", "RR2"]
  ]

  /**
   * One row of the layout padded to nine squares: an entry that names a
   * piece puts it on its square, everything else stays empty.
   */
  function ExpandRow(row: seq<string>): (cells: seq<Cell>)
    requires |row| <= Cols
    ensures |cells| == Cols
    ensures forall i :: 0 <= i < |row| && Decode(row[i]).Some? ==> cells[i] == Decode(row[i])
    ensures forall i :: 0 <= i < Cols && (i >= |row| || row[i] == "") ==> cells[i] == None
  {
    seq(Cols, i => if 0 <= i < |row| && row[i] != "" then Decode(row[i]) else None)
  }

  function ExpandSetup(setup: seq<seq<string>>): (b: Grid)
    requires forall r :: 0 <= r < |setup| ==> |setup[r]| <= Cols
    ensures |b| == |setup|
    ensures forall r :: 0 <= r < |setup| ==> b[r] == ExpandRow(setup[r])
  {
    seq(|setup|, r requires 0 <= r < |setup| => ExpandRow(setup[r]))
  }

  function InitialBoard(): Grid
  {
    ExpandSetup(InitialSetup)
  }

  const BK := Some(Piece(Black, King))
  const RK := Some(Piece(Red, King))

  function BlackCell(k: Kind): Cell { Some(Piece(Black, k)) }
  function RedCell(k: Kind): Cell { Some(Piece(Red, k)) }

  const EmptyRow: seq<Cell> := [None, None, None, None, None, None, None, None, None]

  /** The opening position square by square: Black on rows 0-3, Red on rows 6-9. */
  const Opening: Grid := [
    [BlackCell(Chariot), BlackCell(Horse), BlackCell(Elephant), BlackCell(Advisor), BK,
     BlackCell(Advisor), BlackCell(Elephant), BlackCell(Horse), BlackCell(Chariot)],
    EmptyRow,
    [None, None, BlackCell(Cannon), None, None, None, BlackCell(Cannon), None, None],
    [BlackCell(Pawn), None, BlackCell(Pawn), None, BlackCell(Pawn), None, BlackCell(Pawn), None, BlackCell(Pawn)],
    EmptyRow,
    EmptyRow,
    [RedCell(Pawn), None, RedCell(Pawn), None, RedCell(Pawn), None, RedCell(Pawn), None, RedCell(Pawn)],
    [None, None, RedCell(Cannon), None, None, None, RedCell(Cannon), None, None],
    EmptyRow,
    [RedCell(Chariot), RedCell(Horse), RedCell(Elephant), RedCell(Advisor), RK,
     RedCell(Advisor), RedCell(Elephant), RedCell(Horse), RedCell(Chariot)]
  ]

  /**
   * The opening position is the expansion of the layout: a 10 x 9 board
   * with the two kings facing each other on the middle column. It is
   * point-symmetric: turning the board half a turn and swapping the
   * colours gives it back.
   */
  lemma InitialPosition()
    ensures InitialBoard() == Opening
    ensures ValidBoard(InitialBoard())
    ensures InitialBoard()[0][4] == BK && InitialBoard()[9][4] == RK
    ensures HalfTurn(InitialBoard()) == InitialBoard()
  {
    InitialIsOpening();
    var t := HalfTurn(Opening);
    forall r | 0 <= r < Rows
      ensures t[r] == Opening[r]
    {
      forall c | 0 <= c < Cols
        ensures t[r][c] == Opening[r][c]
      {
        OpeningTurns(r, c);
      }
    }
  }

  /** Neither side starts with a material or positional edge. */
  lemma InitialMaterialBalanced()
    ensures ValidBoard(InitialBoard()) && Material(InitialBoard()) == 0
  {
    InitialPosition();
    MaterialTurn(InitialBoard());
  }

  lemma InitialIsOpening()
    ensures InitialBoard() == Opening
  {
    var b := InitialBoard();
    assert |InitialSetup| == Rows;
    forall r | 0 <= r < Rows
      ensures b[r] == Opening[r]
    {
    }
  }

  lemma OpeningTurns(r: int, c: int)
    requires InBoard(r, c)
    ensures Opening[r][c] == Recolour(Opening[Rows - 1 - r][Cols - 1 - c])
  {
    if r == 0 {} else if r == 1 {} else if r == 2 {} else if r == 3 {} else if r == 4 {}
    else if r == 5 {} else if r == 6 {} else if r == 7 {} else if r == 8 {} else {}
  }

  // ---------------------------------------------------------------------
  // End-of-game tests

  /** The piece on (fr, fc) belongs to side `s` and may legally move to (tr, tc), by the main game's test. */
  predicate LegalPair(b: Grid, s: Side, fr: int, fc: int, tr: int, tc: int)
    requires ValidBoard(b)
  {
    InBoard(fr, fc) && InBoard(tr, tc) && HoldsSide(b[fr][fc], s) && IsMoveLegal(b, fr, fc, tr, tc, b[fr][fc].value)
  }

  /** The same test for the square pair with pair rank k. */
  predicate LegalAtRank(b: Grid, s: Side, k: nat)
    requires ValidBoard(b)
  {
    LegalPair(b, s, RowOf(k / Squares), ColOf(k / Squares), RowOf(k % Squares), ColOf(k % Squares))
  }

  /** A first-hit scan over the numbers k .. n-1: true as soon as `p` holds for one of them. */
  function ScanFrom(p: nat -> bool, k: nat, n: nat): bool
    decreases n - k
  {
    if k >= n then false
    else if p(k) then true
    else ScanFrom(p, k + 1, n)
  }

  /** The scan succeeds exactly when some number in range satisfies `p`. */
  lemma {:induction false} ScanFromExists(p: nat -> bool, k: nat, n: nat)
    ensures ScanFrom(p, k, n) <==> exists j: nat :: k <= j < n && p(j)
    decreases n - k
  {
    if k < n {
      ScanFromExists(p, k + 1, n);
    }
  }

  function AnyLegalFrom(b: Grid, s: Side, k: nat): bool
    requires ValidBoard(b)
  {
    ScanFrom((k': nat) => LegalAtRank(b, s, k'), k, MoveRanks)
  }

  /**
   * hasAnyLegalMove: some piece of side `s` has a legal move. The program
   * scans source squares, then target squares, in row-major order.
   */
  function HasAnyLegalMove(b: Grid, s: Side): (found: bool)
    requires ValidBoard(b)
    ensures found <==> exists fr, fc, tr, tc :: LegalPair(b, s, fr, fc, tr, tc)
  {
    if AnyLegalFrom(b, s, 0) then ScanFinds(b, s); true
    else ScanMisses(b, s); false
  }

  lemma ScanFinds(b: Grid, s: Side)
    requires ValidBoard(b) && AnyLegalFrom(b, s, 0)
    ensures exists fr, fc, tr, tc :: LegalPair(b, s, fr, fc, tr, tc)
  {
    ScanFromExists((k': nat) => LegalAtRank(b, s, k'), 0, MoveRanks);
    var k :| 0 <= k < MoveRanks && LegalAtRank(b, s, k);
    assert LegalPair(b, s, RowOf(k / Squares), ColOf(k / Squares), RowOf(k % Squares), ColOf(k % Squares));
  }

  lemma ScanMisses(b: Grid, s: Side)
    requires ValidBoard(b) && !AnyLegalFrom(b, s, 0)
    ensures forall fr, fc, tr, tc :: !LegalPair(b, s, fr, fc, tr, tc)
  {
    var p := (k': nat) => LegalAtRank(b, s, k');
    ScanFromExists(p, 0, MoveRanks);
    forall fr, fc, tr, tc | InBoard(fr, fc) && InBoard(tr, tc)
      ensures !LegalPair(b, s, fr, fc, tr, tc)
    {
      var k: nat := Rank(fr, fc) * Squares + Rank(tr, tc);
      CoordinatesRank(fr, fc);
      CoordinatesRank(tr, tc);
      assert k / Squares == Rank(fr, fc) && k % Squares == Rank(tr, tc);
      assert !p(k);
    }
  }

  /** The interactive game and the computer player agree on whether a side can move. */
  lemma HasAnyLegalMoveAgrees(b: Grid, s: Side)
    requires ValidBoard(b)
    ensures HasAnyLegalMove(b, s) <==> LegalMoves(b, s) != []
  {
    if HasAnyLegalMove(b, s) {
      var fr, fc, tr, tc :| LegalPair(b, s, fr, fc, tr, tc);
      PairIsGenerated(b, s, fr, fc, tr, tc);
    } else if LegalMoves(b, s) != [] {
      GeneratedIsPair(b, s, LegalMoves(b, s)[0]);
    }
  }

  lemma PairIsGenerated(b: Grid, s: Side, fr: int, fc: int, tr: int, tc: int)
    requires ValidBoard(b) && LegalPair(b, s, fr, fc, tr, tc)
    ensures Move(fr, fc, tr, tc, b[fr][fc].value) in LegalMoves(b, s)
  {
    PairAccepted(b, s, fr, fc, tr, tc);
    AcceptedIsGenerated(b, s, Move(fr, fc, tr, tc, b[fr][fc].value));
  }

  lemma AcceptedIsGenerated(b: Grid, s: Side, m: Move)
    requires ValidBoard(b) && Accepts(b, s, AllMoves, m)
    ensures m in LegalMoves(b, s)
  {
    assert 0 <= MoveRank(m);
  }

  lemma PairAccepted(b: Grid, s: Side, fr: int, fc: int, tr: int, tc: int)
    requires ValidBoard(b) && LegalPair(b, s, fr, fc, tr, tc)
    ensures Accepts(b, s, AllMoves, Move(fr, fc, tr, tc, b[fr][fc].value))
  {
    assert IsMoveLegalAI(b, fr, fc, tr, tc, b[fr][fc].value);
  }

  lemma GeneratedIsPair(b: Grid, s: Side, m: Move)
    requires ValidBoard(b) && m in LegalMoves(b, s)
    ensures LegalPair(b, s, m.fr, m.fc, m.tr, m.tc)
  {
    assert Accepts(b, s, AllMoves, m);
  }

  /** isCheckmate: in check with no legal move. */
  function IsCheckmate(b: Grid, s: Side): (mate: bool)
    requires ValidBoard(b)
    ensures mate <==> IsKingInCheck(b, s) && LegalMoves(b, s) == []
  {
    HasAnyLegalMoveAgrees(b, s);
    IsKingInCheck(b, s) && !HasAnyLegalMove(b, s)
  }

  /** isStalemate: not in check, yet no legal move. */
  function IsStalemate(b: Grid, s: Side): (stale: bool)
    requires ValidBoard(b)
    ensures stale <==> !IsKingInCheck(b, s) && LegalMoves(b, s) == []
  {
    HasAnyLegalMoveAgrees(b, s);
    !IsKingInCheck(b, s) && !HasAnyLegalMove(b, s)
  }

  /** The two endings never coincide, and between them they cover every position without a legal move. */
  lemma EndingsPartition(b: Grid, s: Side)
    requires ValidBoard(b)
    ensures !(IsCheckmate(b, s) && IsStalemate(b, s))
    ensures IsCheckmate(b, s) || IsStalemate(b, s) <==> LegalMoves(b, s) == []
  {
  }

  // ---------------------------------------------------------------------
  // The game state machine

  /** One entry of the move history: the board and the side to move before a move, and what the move captured. */
  datatype Snapshot = Snapshot(board: Grid, player: Side, captured: Cell)

  datatype State = State(
    board: Grid,
    player: Side,
    redScore: nat,
    blackScore: nat,
    gameOver: bool,
    history: seq<Snapshot>)

  /** Every board in play or on record is a 10 x 9 grid. */
  predicate Wellformed(st: State)
  {
    ValidBoard(st.board) && forall i :: 0 <= i < |st.history| ==> ValidBoard(st.history[i].board)
  }

  /**
   * initializeBoardAndGame(true), the only way the program starts a game:
   * the opening position, Red to move, an empty history and both scores
   * back to zero.
   */
  function NewGame(): (st: State)
    ensures Wellformed(st) && !st.gameOver && st.player == Red && st.history == []
    ensures st.board == Opening && st.board[0][4] == BK && st.board[9][4] == RK
    ensures st.redScore == 0 && st.blackScore == 0
  {
    InitialPosition();
    State(InitialBoard(), Red, 0, 0, false, [])
  }

  /** endGame: the game stops and the winner, if there is one, scores a point. */
  function EndGame(st: State, winner: Option<Side>): (st': State)
    ensures st'.gameOver
    ensures st'.redScore + st'.blackScore == st.redScore + st.blackScore + (if winner.Some? then 1 else 0)
    ensures winner == Some(Red) ==> st'.redScore == st.redScore + 1 && st'.blackScore == st.blackScore
    ensures winner == Some(Black) ==> st'.blackScore == st.blackScore + 1 && st'.redScore == st.redScore
    ensures st'.board == st.board && st'.player == st.player && st'.history == st.history
  {
    match winner
    case Some(Red) => st.(gameOver := true, redScore := st.redScore + 1)
    case Some(Black) => st.(gameOver := true, blackScore := st.blackScore + 1)
    case None => st.(gameOver := true)
  }

  /** switchPlayer: the turn passes to the other side unless the game is over. */
  function SwitchPlayer(st: State): (st': State)
    ensures st.gameOver ==> st' == st
    ensures !st.gameOver ==> st'.player != st.player && st' == st.(player := st'.player)
  {
    if st.gameOver then st else st.(player := Opponent(st.player))
  }

  lemma SwitchPlayerTwice(st: State)
    ensures SwitchPlayer(SwitchPlayer(st)) == st
  {
  }

  /** handleResign: the side to move gives up and the other side scores. */
  function HandleResign(st: State): (st': State)
    ensures st.gameOver ==> st' == st
    ensures !st.gameOver ==> st'.gameOver && st'.board == st.board && st'.history == st.history
    ensures !st.gameOver && st.player == Red ==> st'.blackScore == st.blackScore + 1 && st'.redScore == st.redScore
    ensures !st.gameOver && st.player == Black ==> st'.redScore == st.redScore + 1 && st'.blackScore == st.blackScore
  {
    if st.gameOver then st else EndGame(st, Some(Opponent(st.player)))
  }

  /**
   * The tests movePiece makes once the pieces stand on their new squares,
   * in its order: taking a king wins for the king's opponent; otherwise a
   * checkmated or stalemated opponent loses to the mover; otherwise the
   * game goes on (None).
   */
  function Decide(board: Grid, captured: Cell, mover: Side): (winner: Option<Side>)
    requires ValidBoard(board)
    ensures winner.Some? <==> captured in {BK, RK} || LegalMoves(board, Opponent(mover)) == []
    ensures captured == BK ==> winner == Some(Red)
    ensures captured == RK ==> winner == Some(Black)
    ensures captured !in {BK, RK} && winner.Some? ==> winner == Some(mover)
  {
    var opponent := Opponent(mover);
    EndingsPartition(board, opponent);
    if captured == BK then Some(Red)
    else if captured == RK then Some(Black)
    else if IsCheckmate(board, opponent) then Some(mover)
    else if IsStalemate(board, opponent) then Some(mover)
    else None
  }

  /**
   * movePiece: the piece on (fr, fc) goes to (tr, tc) and the position
   * before the move is pushed on the history; then the game ends with the
   * winner Decide names, or the turn passes. Once the game is over nothing
   * moves.
   */
  function MovePiece(st: State, fr: int, fc: int, tr: int, tc: int): (st': State)
    requires Wellformed(st) && InBoard(fr, fc) && InBoard(tr, tc)
    ensures Wellformed(st')
    ensures st.gameOver ==> st' == st
    ensures !st.gameOver ==> st'.history == st.history + [Snapshot(st.board, st.player, st.board[tr][tc])]
    ensures !st.gameOver ==> st'.board[fr][fc] == None
    ensures !st.gameOver && (tr, tc) != (fr, fc) ==> st'.board[tr][tc] == st.board[fr][fc]
    ensures !st.gameOver ==> forall r, c :: InBoard(r, c) && (r, c) != (fr, fc) && (r, c) != (tr, tc) ==>
      st'.board[r][c] == st.board[r][c]
    ensures !st.gameOver ==>
      (st'.gameOver <==> st.board[tr][tc] in {BK, RK} || LegalMoves(st'.board, Opponent(st.player)) == [])
    ensures !st.gameOver && !st'.gameOver ==>
      st'.player == Opponent(st.player) && st'.redScore == st.redScore && st'.blackScore == st.blackScore
    ensures !st.gameOver && st.board[tr][tc] == BK ==> st'.redScore == st.redScore + 1 && st'.blackScore == st.blackScore
    ensures !st.gameOver && st.board[tr][tc] == RK ==> st'.blackScore == st.blackScore + 1 && st'.redScore == st.redScore
    ensures !st.gameOver && st'.gameOver && st.board[tr][tc] !in {BK, RK} ==>
      (if st.player == Red then st'.redScore == st.redScore + 1 && st'.blackScore == st.blackScore
       else st'.blackScore == st.blackScore + 1 && st'.redScore == st.redScore)
  {
    if st.gameOver then st
    else
      var captured := st.board[tr][tc];
      var board := Relocate(st.board, fr, fc, tr, tc, st.board[fr][fc]);
      var moved := st.(board := board, history := st.history + [Snapshot(st.board, st.player, captured)]);
      match Decide(board, captured, st.player)
      case Some(winner) => EndGame(moved, Some(winner))
      case None => SwitchPlayer(moved)
  }

  /**
   * handleUndoMove: takes back the last two moves (the player's and the
   * reply), restoring the board and the side to move recorded before the
   * older one. It does nothing once the game is over or with fewer than
   * two moves on record.
   */
  function HandleUndoMove(st: State): (st': State)
    ensures st.gameOver || |st.history| < 2 ==> st' == st
    ensures Wellformed(st) ==> Wellformed(st')
    ensures !st.gameOver && |st.history| >= 2 ==>
      |st'.history| == |st.history| - 2 && st'.history == st.history[..|st'.history|] &&
      st'.board == st.history[|st'.history|].board && st'.player == st.history[|st'.history|].player &&
      !st'.gameOver && st'.redScore == st.redScore && st'.blackScore == st.blackScore
  {
    if st.gameOver || |st.history| < 2 then st
    else
      var rest := st.history[..|st.history| - 1];
      var older := rest[|rest| - 1];
      var remaining := rest[..|rest| - 1];
      st.(board := older.board, player := older.player, gameOver := false, history := remaining)
  }

  /** Two moves that leave the game running are taken back exactly by one undo. */
  lemma UndoRestoresTwoMoves(st: State, m1: (int, int, int, int), m2: (int, int, int, int))
    requires Wellformed(st) && !st.gameOver
    requires InBoard(m1.0, m1.1) && InBoard(m1.2, m1.3) && InBoard(m2.0, m2.1) && InBoard(m2.2, m2.3)
    requires !MovePiece(st, m1.0, m1.1, m1.2, m1.3).gameOver
    requires !MovePiece(MovePiece(st, m1.0, m1.1, m1.2, m1.3), m2.0, m2.1, m2.2, m2.3).gameOver
    ensures HandleUndoMove(MovePiece(MovePiece(st, m1.0, m1.1, m1.2, m1.3), m2.0, m2.1, m2.2, m2.3)) == st
  {
    var st1 := MovePiece(st, m1.0, m1.1, m1.2, m1.3);
    var st2 := MovePiece(st1, m2.0, m2.1, m2.2, m2.3);
    assert st2.history == st.history + [Snapshot(st.board, st.player, st.board[m1.2][m1.3]),
                                        Snapshot(st1.board, st1.player, st1.board[m2.2][m2.3])];
    assert st2.history[..|st.history|] == st.history;
  }

  /** A finished game stays finished: no move, undo, turn change or resignation reopens it. */
  lemma FinishedGameIsFrozen(st: State, fr: int, fc: int, tr: int, tc: int)
    requires Wellformed(st) && st.gameOver && InBoard(fr, fc) && InBoard(tr, tc)
    ensures MovePiece(st, fr, fc, tr, tc) == st && HandleUndoMove(st) == st
    ensures SwitchPlayer(st) == st && HandleResign(st) == st
  {
  }
}
