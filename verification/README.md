# Xiangqi: rules, game flow and the computer player

This project models the core of a browser Xiangqi (Chinese chess) game in
Dafny. The human plays Red and the computer plays Black. The model covers
four parts:

- **The rules.** The piece codes, the 10 x 9 board, and the base move
  validators of the seven piece kinds. It also covers the check test,
  including the flying-general rule. A move is legal when it passes its
  kind's validator and does not leave the mover's own king in check. The
  interactive game and the computer player each carry a copy of these
  validators. The two copies make the same tests in the same order, so the
  model defines them once. Each entry point keeps its own guard order.
- **The computer player's move generation and evaluation.** All legal moves
  and all legal captures are enumerated in board order. The move count
  feeds the mobility term. The evaluation adds material, the piece-square
  tables and half the mobility difference.
- **The search.** It has three layers:
  - a capture-only quiescence search of depth 2 with a stand-pat score;
  - minimax with alpha-beta pruning;
  - `findBestMove`'s root loop.

  The search is written once against a `Game` record that holds four
  operations: move generation, capture generation, playing a move on a
  copy, and evaluation. `Engine` instantiates that record with the Xiangqi
  operations. Each alpha-beta loop becomes a function over the remaining
  move list in board order. The source's `break`s at the four loop levels
  together stop the scan once the window closes, and the function stops
  recursing there. Entered with a window that is already closed, the two
  differ; see `Search.MinimaxMaxLoop` under "Left out".
- **The interactive game.** The starting position is expanded from its
  ragged layout, and `movePiece` runs with its history push, king-capture
  win, checkmate and stalemate endings, scores and turn switch. The model
  also covers undo, resign and the whole-board "has any legal move" scan.

The main theorems are these:

- **Alpha-beta is exact inside its window.** Alpha-beta with window
  (alpha, beta) returns the plain minimax value clamped to that window. It
  returns exactly the minimax value under the full window.
- **The root move is characterised.** `findBestMove`'s move is the first of
  Black's legal moves that has the greatest minimax value.
- **The in-place legality test restores the board.** The interactive game
  tests a move by playing it on its one global board and then writing the
  two squares back. That leaves the board exactly as it was.
- **Undo inverts two moves.** Undo after two moves that do not end the
  game gives back the earlier state.
- **The opening is symmetric.** The starting position is symmetric under a
  half turn of the board with the colours swapped. The material and
  positional part of the evaluation changes sign under that half turn.

Four behaviours of the code are easy to miss, and the model keeps them:

- **A side with no moves inside the search.** Its minimax loop never runs,
  so the node keeps the loop's starting value: minus infinity for Black and
  plus infinity for Red. It is not evaluated statically (ai-worker.js lines
  472-524).
- **The stand-pat cut-off.** Quiescence cuts off when the stand-pat score is
  at least beta (`>=`), and on the minimizing side when it is at most alpha
  (`<=`).
- **Stalemate.** `movePiece` calls `endGame(currentPlayer)` on stalemate, so
  the side that stalemated its opponent wins and scores a point
  (xiangqi_script.js lines 348-349).
- **The piece-square tables.** Red reads them at (row, column), and Black
  reads them at (9 - row, 8 - column) (ai-worker.js lines 249-283).

## Model

| member | source | states |
|---|---|---|
| Pieces.Opponent | xiangqi_script.js:347 | the opponent of a side is the other side |
| Pieces.SideOfLetter | xiangqi_script.js:412-417 | a side letter decodes to the side it names; any other letter decodes to nothing |
| Pieces.KindOfLetter | xiangqi_script.js:412-429 | a kind letter decodes to the kind the validator switch dispatches on; any other letter decodes to nothing |
| Pieces.Encode | xiangqi_script.js:23-34 | a piece code is two characters long |
| Pieces.Decode | xiangqi_script.js:412-429 | an id decodes exactly when it has a known side letter then a known kind letter; the instance suffix is ignored |
| Pieces.DecodeEncode | xiangqi_script.js:23-34 | decoding a piece's code, with or without an instance suffix, gives the piece back |
| Board.RankCoordinates | ai-worker.js:204-222 | a square rank in 0..89 names an on-board square and maps back to itself |
| Board.CoordinatesRank | ai-worker.js:204-222 | an on-board square's rank lies in 0..89 and gives back its row and column |
| Board.Relocate | xiangqi_script.js:324-325 | the source square is emptied, the target gets the moving cell, and every other square is unchanged |
| Board.WriteBack | xiangqi_script.js:400-410 | writing two squares back keeps the board 10 x 9 |
| Board.RelocateWriteBack | xiangqi_script.js:400-410 | moving a piece and then writing both original cells back restores the board exactly |
| Board.ApplyMove | ai-worker.js:110-115 | applyMove on a copy: the source is empty, the target holds the piece, and nothing else changes |
| Board.Recolour | ai-worker.js:267-283 | recolouring keeps the kind and swaps the side |
| Board.HalfTurn | ai-worker.js:271-272 | the half-turned board holds at (r, c) the recoloured piece from (9 - r, 8 - c) |
| Board.HalfTurnTwice | ai-worker.js:271-272 | two half turns give back the board |
| Board.HalfTurnRank | ai-worker.js:271-272 | rank i of the half-turned board is the recoloured rank 89 - i |
| Board.Column | xiangqi_script.js:549-558 | a column lists the ten cells of the board in that column, top to bottom |
| Board.CountZero | xiangqi_script.js:469-477 | a piece count over a range is zero exactly when every cell in the range is empty |
| Board.CountOneSole | xiangqi_script.js:479-489 | a count of one means some cell in the range is occupied and every other cell is empty |
| Board.SoleCountOne | xiangqi_script.js:479-489 | a single occupied cell in a range gives a count of one |
| Board.LineClear | xiangqi_script.js:469-477 | no pieces lie between two squares on a line exactly when every square strictly between them is empty |
| Board.LineOneScreen | xiangqi_script.js:479-489 | exactly one piece lies between two squares on a line exactly when some square strictly between them is the only occupied one |
| Board.CountedScreen | xiangqi_script.js:479-489 | a count of one between two squares yields the screen square |
| Board.ScreenCounted | xiangqi_script.js:479-489 | a lone screen square between two squares gives a count of one |
| Rules.KingMove | xiangqi_script.js:438-443 | a king move is legal exactly when it is one orthogonal step that lands in its own palace |
| Rules.AdvisorMove | xiangqi_script.js:445-448 | an advisor move is legal exactly when it is one diagonal step that lands in its own palace |
| Rules.ElephantMove | xiangqi_script.js:450-455 | an elephant move is legal exactly when it is a two-by-two diagonal jump that stays on its own side of the river and has an empty eye square |
| Rules.HorseMove | xiangqi_script.js:457-467 | a horse move is legal exactly when it is an L-shaped jump whose leg square, next to the horse on the long axis, is empty |
| Rules.ChariotMove | xiangqi_script.js:469-477 | a chariot move is legal exactly when it goes along a row or column and every square in between is empty |
| Rules.CannonMove | xiangqi_script.js:479-489 | a quiet cannon move needs a clear line; a cannon capture needs exactly one screen piece between |
| Rules.PawnMove | xiangqi_script.js:491-507 | a pawn steps one square forward, or sideways once across the river, and never backwards |
| Rules.IsValidBaseMove | xiangqi_script.js:412-429 | a base move is valid exactly when the piece moves, does not land on a piece of its own side, and obeys its kind's rule |
| Rules.FindKingFrom | xiangqi_script.js:521-531 | the king found is the first of that side's kings in row-major order; none found means that side has no king on the board |
| Rules.AttackedFrom | xiangqi_script.js:537-548 | the scan hits exactly when some opposing non-king piece has a base move onto the king's square |
| Rules.IsKingInCheck | xiangqi_script.js:533-561 | a side is in check when its king is missing, or attacked, or facing the other king on an open column, and only then |
| Rules.IsMoveLegalInPlace | xiangqi_script.js:400-410 | the in-place test gives the same verdict as legality on a copy and leaves the board as it found it |
| MoveGen.IsValidBaseMoveAI | ai-worker.js:299-324 | the search's base check rejects off-board squares and otherwise agrees with the interactive base check |
| MoveGen.IsValidBaseMoveId | ai-worker.js:299-324 | an id that passes the base check decodes to a piece, and the move is on the board and does not land on its own side |
| MoveGen.IsMoveLegalAI | ai-worker.js:361-379 | the search's legality test agrees with the interactive game's on the board, and is false off it |
| MoveGen.MoveAt | ai-worker.js:204-222 | the move at a pair rank starts at that rank's source square, ends at its target square, and carries the source piece |
| MoveGen.MoveAtRank | ai-worker.js:204-222 | every on-board move of the piece on its source square sits at its own pair rank |
| MoveGen.HitsStep | ai-worker.js:204-222 | a counted range splits into its first element and the rest, and the rest does not contain the first |
| MoveGen.MovesFrom | ai-worker.js:204-222 | the enumeration lists exactly the accepted moves from a rank on, in strictly increasing board order, one per qualifying pair |
| MoveGen.MovesStep | ai-worker.js:204-222 | one more square pair extends the enumeration without breaking membership, order or count |
| MoveGen.StepCount | ai-worker.js:204-222 | the qualifying pair ranks from k are k itself when it qualifies plus those from k + 1 |
| MoveGen.StepMembers | ai-worker.js:204-222 | the moves from k are the move at k, when it qualifies, and the moves from k + 1 |
| MoveGen.ConcatIncreasing | ai-worker.js:204-222 | board order survives prepending moves of a smaller rank |
| MoveGen.CaptureMoves | ai-worker.js:382-404 | the captures list exactly the legal moves of the side whose target holds an opposing piece, in board order |
| MoveGen.CountLegalMoves | ai-worker.js:204-222 | the count is the number of qualifying (source, target) pairs, and it is zero exactly when the side has no legal move |
| Evaluation.TableRank | ai-worker.js:249-283 | a Red piece reads the table at its own square, a Black piece at the point-mirrored square (9 - r, 8 - c), and the lookup stays inside the 90-entry table |
| Evaluation.Evaluate | ai-worker.js:225-296 | the evaluation is the row-by-row sum, over board coordinates, of Black's material and table values minus Red's, plus half the difference of Black's and Red's move counts |
| Evaluation.CellWorthAt | ai-worker.js:249-283 | the worth of the square at a flat rank is the material plus table value read at that square's row and column: (r, c) for Red, (9 - r, 8 - c) for Black |
| Evaluation.RowSplit | ai-worker.js:232-288 | the flat sum from square (r, c) on is the rest of row r, summed column by column, plus the flat sum from row r + 1 on |
| Evaluation.GridSplit | ai-worker.js:232-288 | the flat sum from row r on equals the row-by-row sum of rows r to 9 |
| Evaluation.MaterialGrid | ai-worker.js:232-288 | the flat material balance equals the balance summed row by row as the evaluation's loops visit the board |
| Evaluation.CellWorthTurn | ai-worker.js:249-283 | a square of the half-turned board is worth to one side what the mirrored square was worth to the other side |
| Evaluation.SuffixPrefix | ai-worker.js:287-288 | a side's total splits into the ranks before i and the ranks from i on |
| Evaluation.TurnedSuffix | ai-worker.js:249-288 | a side's total on the half-turned board from rank i on equals the opponent's total over the first 90 - i ranks of the original |
| Evaluation.MaterialTurn | ai-worker.js:287-288 | the material and positional balance changes sign when the board is half turned |
| Search.MaxS | ai-worker.js:472-494 | Math.max on scores: an upper bound of both arguments and one of them |
| Search.MinS | ai-worker.js:495-524 | Math.min on scores: a lower bound of both arguments and one of them |
| Search.Quiescence | ai-worker.js:407-461 | quiescence returns a finite score; it is the stand-pat at depth 0 or with no captures, never below it for Black and never above it for Red |
| Search.QuiescenceMaxLoop | ai-worker.js:416-436 | Black's capture loop never lowers its best score |
| Search.QuiescenceMinLoop | ai-worker.js:437-460 | Red's capture loop never raises its best score |
| Search.Minimax | ai-worker.js:464-525 | depth 0 hands over to quiescence; a side with no moves keeps minus or plus infinity |
| Search.MinimaxMaxLoop | ai-worker.js:472-494 | Black's move loop never lowers maxEval, and an empty list leaves it unchanged |
| Search.MinimaxMinLoop | ai-worker.js:495-524 | Red's move loop never raises minEval, and an empty list leaves it unchanged |
| Search.RootLoop | ai-worker.js:537-557 | the root loop's move is the one it started with or one of the moves it scanned, and its value never drops |
| Search.FindBest | ai-worker.js:528-559 | a returned move is one of Black's legal moves; without legal moves nothing is returned |
| Search.RootLoopFixed | ai-worker.js:546-549 | the corrected root loop always holds a move once it has seen one |
| Search.FindBestFixed | ai-worker.js:528-559 | the corrected search returns a legal move exactly when Black has one |
| SearchTheory.QuiescenceValue | ai-worker.js:407-461 | the window-free quiescence value is finite and lies on the right side of the stand-pat |
| SearchTheory.QuiescenceMaxAll | ai-worker.js:416-436 | the window-free best over Black's captures never drops below the starting value |
| SearchTheory.QuiescenceMinAll | ai-worker.js:437-460 | the window-free best over Red's captures never rises above the starting value |
| SearchTheory.MaxAll | ai-worker.js:472-494 | plain minimax over Black's moves never drops below the starting value |
| SearchTheory.MinAll | ai-worker.js:495-524 | plain minimax over Red's moves never rises above the starting value |
| SearchTheory.ScoreOrder | ai-worker.js:472-524 | the score order with both infinities is a total order |
| SearchTheory.MaxStep | ai-worker.js:416-436 | one maximizing step moves the window and the running best consistently |
| SearchTheory.MinStep | ai-worker.js:437-460 | one minimizing step moves the window and the running best consistently |
| SearchTheory.MaxLoopClose | ai-worker.js:472-494 | a maximizing cut-off gives the same clamped value as searching every move |
| SearchTheory.MinLoopClose | ai-worker.js:495-524 | a minimizing cut-off gives the same clamped value as searching every move |
| SearchTheory.ClampOutside | ai-worker.js:407-525 | two scores both above the window, or both below it, clamp to the same value |
| SearchTheory.QuiescenceWindow | ai-worker.js:407-461 | quiescence with window (alpha, beta) is the window-free quiescence value clamped to the window |
| SearchTheory.QuiescenceMaxLoopWindow | ai-worker.js:416-436 | Black's pruned capture loop clamps to the unpruned best |
| SearchTheory.QuiescenceMinLoopWindow | ai-worker.js:437-460 | Red's pruned capture loop clamps to the unpruned best |
| SearchTheory.MinimaxWindow | ai-worker.js:464-525 | alpha-beta with window (alpha, beta) is plain minimax clamped to the window |
| SearchTheory.MinimaxMaxLoopWindow | ai-worker.js:472-494 | Black's pruned move loop clamps to the unpruned maximum |
| SearchTheory.MinimaxMinLoopWindow | ai-worker.js:495-524 | Red's pruned move loop clamps to the unpruned minimum |
| SearchTheory.MinimaxFullWindow | ai-worker.js:464-525 | alpha-beta under the full window is plain minimax |
| SearchTheory.QuiescenceFullWindow | ai-worker.js:407-461 | quiescence under the full window is the window-free quiescence value |
| BestMove.RootLoopSettled | ai-worker.js:546-549 | once the best value is plus infinity the root loop keeps its move and value whatever the remaining searches return |
| BestMove.RootStep | ai-worker.js:546-549 | comparing with the running best gives the same answer on the clamped score as on the true score |
| BestMove.RootLoopExact | ai-worker.js:537-557 | the root loop with its growing alpha picks the same move as the first-best scan over plain minimax values |
| BestMove.FirstBestFacts | ai-worker.js:537-557 | the first-best scan returns the first move of greatest value: earlier moves are strictly worse and later ones no better |
| BestMove.FindBestChoice | ai-worker.js:528-559 | findBestMove returns no move exactly when every Black move has minimax value minus infinity, and otherwise the first of Black's moves of greatest minimax value |
| BestMove.LostRootReturnsNone | ai-worker.js:528-559 | when every Black move scores minus infinity, findBestMove returns no move |
| BestMove.MinAllReachesNegInf | ai-worker.js:495-524 | a Red reply that leaves Black without moves drives Red's minimum to minus infinity |
| BestMove.MinAllFrom | ai-worker.js:495-524 | once Red's minimum is minus infinity it stays there |
| BestMove.MateInOneLoses | ai-worker.js:464-525 | at depth 3 or more, a Black move that allows a Red reply leaving Black without legal moves (mate or stalemate in one) scores minus infinity |
| BestMove.ForcedMateReturnsNone | ai-worker.js:528-559 | at depth 3 or more, if every Black move allows such a reply, no move is returned |
| BestMove.ShallowMinAll | ai-worker.js:495-524 | at depth 1, Red's minimum over its replies is never minus infinity |
| BestMove.ShallowSearchFindsMove | ai-worker.js:528-559 | at depths 1 and 2, findBestMove returns a move whenever Black has one |
| BestMove.FixedAgreesOnceChosen | ai-worker.js:537-557 | once a move is held, the corrected root loop and the original one agree |
| BestMove.FindBestFixedChoice | ai-worker.js:528-559 | the corrected search's move is the first of Black's moves of greatest minimax value |
| Engine.Moves | ai-worker.js:472-494 | the engine's move generator is the legal-move enumeration |
| Engine.Captures | ai-worker.js:382-404 | the engine's capture generator is the capture enumeration |
| Engine.Play | ai-worker.js:110-115 | playing a move empties its source and puts the piece on its target |
| Engine.Eval | ai-worker.js:225-296 | the engine's evaluation is evaluateBoard |
| Engine.FindBestMove | ai-worker.js:528-559 | a returned move is legal for Black and starts on a Black piece's square; without legal moves nothing is returned |
| Engine.ForcedMateNoMove | ai-worker.js:546-549 | as written: when Black has moves but each allows a Red reply that leaves Black without legal moves, the search at depth 3 or more returns no move |
| Engine.MateReply | ai-worker.js:495-524 | a Red reply that leaves Black without legal moves makes Black's move one that allows such a reply (mate or stalemate) |
| Engine.FindBestMoveFixed | ai-worker.js:528-559 | corrected: a legal Black move is returned exactly when Black has one |
| Game.ExpandRow | xiangqi_script.js:120-124 | a layout row becomes nine cells: the named pieces in place, and empty cells for blank or missing entries |
| Game.ExpandSetup | xiangqi_script.js:120-124 | each board row is its expanded layout row |
| Game.InitialPosition | xiangqi_script.js:23-34 | the starting board is 10 x 9 with the kings in the middle of their back ranks, (0,4) and (9,4), and it is symmetric under a half turn with the colours swapped |
| Game.InitialMaterialBalanced | xiangqi_script.js:23-34 | the material and positional balance of the starting board is zero |
| Game.InitialIsOpening | xiangqi_script.js:23-34 | the expanded layout is the standard opening board |
| Game.OpeningTurns | xiangqi_script.js:23-34 | every square of the opening mirrors, recoloured, its half-turned square |
| Game.ScanFromExists | xiangqi_script.js:563-577 | the early-exit scan succeeds exactly when some index in the range qualifies |
| Game.HasAnyLegalMove | xiangqi_script.js:563-577 | the scan finds a move exactly when some square of the side has a legal move to some square |
| Game.ScanFinds | xiangqi_script.js:563-577 | a successful scan yields a legal (source, target) pair |
| Game.ScanMisses | xiangqi_script.js:563-577 | a failed scan means no (source, target) pair is legal |
| Game.HasAnyLegalMoveAgrees | xiangqi_script.js:563-577 | the interactive game's scan agrees with the computer player's move list being non-empty |
| Game.PairIsGenerated | ai-worker.js:204-222 | every legal (source, target) pair appears as a move in the enumeration |
| Game.AcceptedIsGenerated | ai-worker.js:204-222 | every accepted move appears in the enumeration |
| Game.PairAccepted | ai-worker.js:361-379 | a legal pair of the interactive game passes the search's legality test |
| Game.GeneratedIsPair | ai-worker.js:204-222 | every enumerated move is a legal pair of the interactive game |
| Game.IsCheckmate | xiangqi_script.js:579-581 | checkmate holds exactly when the side is in check and the computer player's move list for it is empty |
| Game.IsStalemate | xiangqi_script.js:582-584 | stalemate holds exactly when the side is not in check and the computer player's move list for it is empty |
| Game.EndingsPartition | xiangqi_script.js:579-584 | checkmate and stalemate never hold together, and one of them holds exactly when the side has no legal move |
| Game.NewGame | xiangqi_script.js:84-145 | a new game starts from the opening position with the kings in the middle of their back ranks, (0,4) and (9,4), Red to move, an empty history and both scores zero |
| Game.EndGame | xiangqi_script.js:359-382 | ending the game gives the winner one point, and nothing else about the position changes |
| Game.SwitchPlayer | xiangqi_script.js:384-392 | the turn passes to the other side and nothing else changes; after the game is over nothing changes |
| Game.SwitchPlayerTwice | xiangqi_script.js:384-392 | switching twice gives back the state |
| Game.HandleResign | xiangqi_script.js:586-591 | resigning ends the game and gives the point to the opponent of the side to move |
| Game.Decide | xiangqi_script.js:342-349 | the game ends exactly on a king capture or when the opponent has no move; a captured king decides the winner, otherwise the mover wins |
| Game.MovePiece | xiangqi_script.js:312-357 | a move pushes a snapshot, moves the cell and leaves the rest alone; it scores a king capture, checkmate or stalemate, or else passes the turn |
| Game.HandleUndoMove | xiangqi_script.js:593-618 | undo restores the board and player from two snapshots back and drops two entries; it does nothing when the game is over or there are fewer than two entries |
| Game.UndoRestoresTwoMoves | xiangqi_script.js:593-618 | undo after two moves that do not end the game gives back the earlier state |
| Game.FinishedGameIsFrozen | xiangqi_script.js:312-316 | once the game is over, moving, undoing, switching and resigning change nothing |

## Left out

- The page, the DOM, sounds, animations and the move indicator are left out. They have no effect on the rules or the search.
- The worker message transport is left out: the request and reply objects and the `onmessage` handlers. The search entry point is modelled directly. The handler's silence on a missing move is described under Findings.
- Piece ids are decoded into (side, kind). An id with an unknown side letter, or a non-empty id with an unknown kind letter, is not modelled as a board cell. The layout only ever holds known ids.
- Pieces.KindOfLetter: the validators' `default` branch, for an unknown kind letter, is modelled as "no piece" rather than as a piece whose every move is rejected.
- The board is a value. The in-place mutation and restore of the interactive game's one global board is modelled as returning the restored board, in `Rules.IsMoveLegalInPlace`.
- `pawnValueOverRiver` is left out. It is declared in both files and never read.
- Engine.FindBestMove: it requires depth at least 1. The game only sends depths 2, 3 and 4 (xiangqi_script.js line 763 and the difficulty buttons). At depth 0, the depth test of minimax (ai-worker.js line 465) never fires, so the source recurses without bound (in practice the worker's call stack overflows).
- Evaluation.MaterialTurn: states the half-turn symmetry of the material and positional part only. Symmetry of the mobility term would also need every move rule to commute with the half turn. It would further need the check test's first-king-found order, which is not symmetric on boards with two kings of one side.
- Search.MinimaxMaxLoop: when minimax is entered with a closed window (alpha >= beta), the source's four nested loops each test `beta <= alpha` and break before leaving square (0, 0): at most the first legal move from (0, 0) into row 0 is searched, and otherwise maxEval stays minus infinity. The model searches the first legal move, wherever it starts, and stops. A closed window reaches minimax only at the root, after some move scored plus infinity (alpha = beta = plus infinity); `BestMove.RootLoopSettled` shows the root loop then ignores every later score, so findBestMove's choice is the same. Inside the search a loop stops as soon as its window closes, so no recursive call receives a closed window.
- Search.MinimaxMinLoop: the same difference for Red's loop, where minEval stays plus infinity. It has no effect on findBestMove's choice for the same reason.
- MoveGen.IsValidBaseMoveId: an id with an unknown side letter and a known kind letter, such as "XR", is accepted by isValidBaseMove_AI (ai-worker.js lines 305-321), which runs the kind's validator with that side. The model rejects such an id. Every id the search passes comes from a board square, and the board holds only ids with a known side letter.
- Scores are JavaScript doubles with plus and minus Infinity. The model uses exact reals with `NegInf` and `PosInf`. Nothing is lost: every finite score is a sum of integers and multiples of 0.5, far below 2^53 in size, so the double arithmetic is exact, and no score operation can produce a NaN.
- Game.EndGame: the draw branch, with no winner, is modelled, but `movePiece` never reaches it.
- The values in the piece-square tables are copied. Nothing is claimed about how well they play.
- Timers, the "thinking" delay and `makeAIMove`'s hand-off to the worker are left out.
- An undo pressed while the worker is searching is not modelled: the source then plays the worker's late reply on the board the undo restored. `handleUndoMove` checks only `gameOver` and the history length (xiangqi_script.js lines 593-617), the worker's reply handler checks neither the turn nor the board (lines 716-729), and `movePiece` does not validate the move it is given.

## Findings

| source | as written | input that shows it | evidently intended | confidence | as-written member | corrected member |
|---|---|---|---|---|---|---|
| ai-worker.js:546-549 | the root loop takes a move only when its value is strictly greater than `bestValue`, which starts at minus infinity. When every Black move allows a Red mate in one, every move scores minus infinity at depth 3 or more, and `findBestMove` returns null. The game's worker handler ignores a null move, so the computer never moves and the game stays on Black's turn. | Black king on (0,4); Red king on (9,3); Red chariots on (1,0) and (1,8); nothing else; depth 3 (medium difficulty). Black's only legal move is king to (0,5): (0,3) faces the Red king and (1,4) lies on a chariot's row. Red's chariot from (1,8) to (0,8) then mates. | return some legal move whenever Black has one. The first move is taken whatever its score, and later moves replace it only when strictly better. | not executed | Engine.ForcedMateNoMove | Engine.FindBestMoveFixed |
