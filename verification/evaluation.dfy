/**
 * The static evaluation of a board, from Black's (the computer's) point of
 * view: material plus piece-square bonuses for each side, Black's total
 * minus Red's, plus half the difference in the number of legal moves.
 *
 * The piece-square tables are written for Red, row by row from row 0
 * (Black's back rank) to row 9 (Red's), flattened to 90 entries indexed by
 * square rank. A Black piece on (r, c) reads the entry of the point-mirrored
 * square (9 - r, 8 - c), whose rank is 89 minus its own.
 */
module Evaluation {
  import opened Options
  import opened Pieces
  import opened Board
  import opened MoveGen

  const MobilityWeight: real := 0.5

  function MaterialValue(k: Kind): int
  {
    match k
    case King => 10000
    case Chariot => 90
    case Horse => 40
    case Cannon => 45
    case Elephant => 20
    case Advisor => 20
    case Pawn => 10
  }

  const PawnTable: seq<int> := [
     9,  9,  9, 11, 13, 11,  9,  9,  9,
    19, 24, 32, 37, 37, 37, 32, 24, 19,
    19, 24, 32, 37, 37, 37, 32, 24, 19,
    19, 23, 27, 29, 30, 29, 27, 23, 19,
    14, 18, 20, 27, 29, 27, 20, 18, 14,
     7,  7,  7,  7,  7,  7,  7,  7,  7,
     5,  5,  5,  5,  5,  5,  5,  5,  5,
     0,  0,  0,  0,  0,  0,  0,  0,  0,
     0,  0,  0,  0,  0,  0,  0,  0,  0,
     0,  0,  0,  0,  0,  0,  0,  0,  0]

  const HorseTable: seq<int> := [
     0, -2,  0,  2,  0,  2,  0, -2,  0,
    -2,  0,  4,  2,  6,  2,  4,  0, -2,
     0,  4,  2,  6,  4,  6,  2,  4,  0,
     2,  2,  6,  8,  6,  8,  6,  2,  2,
     0,  6,  8, 10,  8, 10,  8,  6,  0,
     2,  4,  6,  8,  6,  8,  6,  4,  2,
     0,  2,  4,  6,  4,  6,  4,  2,  0,
    -2,  0,  2,  4,  2,  4,  2,  0, -2,
     0, -2,  0,  2,  0,  2,  0, -2,  0,
    -2,  0,  0,  0,  0,  0,  0,  0, -2]

  const ChariotTable: seq<int> := [
    14, 14, 14, 15, 16, 15, 14, 14, 14,
    14, 16, 16, 17, 18, 17, 16, 16, 14,
    14, 16, 16, 17, 18, 17, 16, 16, 14,
    14, 17, 17, 18, 19, 18, 17, 17, 14,
    14, 17, 18, 19, 20, 19, 18, 17, 14,
    14, 16, 17, 18, 19, 18, 17, 16, 14,
    10, 14, 14, 16, 16, 16, 14, 14, 10,
     8, 12, 12, 14, 14, 14, 12, 12,  8,
     4,  8,  8, 10, 10, 10,  8,  8,  4,
     0,  0,  4,  6,  6,  6,  4,  0,  0]

  const CannonTable: seq<int> := [
     6,  7,  6,  6,  5,  6,  6,  7,  6,
     6,  8,  7,  7,  6,  7,  7,  8,  6,
     7,  8,  6,  8,  7,  8,  6,  8,  7,
     7,  9,  9,  9,  7,  9,  9,  9,  7,
     8,  8,  7,  9,  7,  9,  7,  8,  8,
     8,  9,  8, 10,  8, 10,  8,  9,  8,
     7,  8,  7,  9,  9,  9,  7,  8,  7,
     6,  7,  6,  8,  8,  8,  6,  7,  6,
     5,  6,  5,  7,  7,  7,  5,  6,  5,
     4,  4,  0,  5,  4,  5,  0,  4,  4]

  const AdvisorTable: seq<int> := [
    0, 0, 0, 0, 0, 0, 0, 0, 0,
    0, 0, 0, 0, 0, 0, 0, 0, 0,
    0, 0, 0, 0, 0, 0, 0, 0, 0,
    0, 0, 0, 0, 0, 0, 0, 0, 0,
    0, 0, 0, 0, 0, 0, 0, 0, 0,
    0, 0, 0, 0, 0, 0, 0, 0, 0,
    0, 0, 0, 0, 0, 0, 0, 0, 0,
    0, 0, 0, 1, 0, 1, 0, 0, 0,
    0, 0, 0, 0, 3, 0, 0, 0, 0,
    0, 0, 0, 1, 0, 1, 0, 0, 0]

  const ElephantTable: seq<int> := [
    0, 0, 0, 0, 0, 0, 0, 0, 0,
    0, 0, 0, 0, 0, 0, 0, 0, 0,
    0, 0, 0, 0, 0, 0, 0, 0, 0,
    0, 0, 0, 0, 0, 0, 0, 0, 0,
    0, 0, 0, 0, 0, 0, 0, 0, 0,
    0, 0, 1, 0, 0, 0, 1, 0, 0,
    0, 0, 0, 0, 0, 0, 0, 0, 0,
    1, 0, 0, 0, 3, 0, 0, 0, 1,
    0, 0, 0, 0, 0, 0, 0, 0, 0,
    0, 0, 1, 0, 3, 0, 1, 0, 0]

  const KingTable: seq<int> := [
    0, 0, 0,  1,  1,  1, 0, 0, 0,
    0, 0, 0,  1,  2,  1, 0, 0, 0,
    0, 0, 0,  1,  2,  1, 0, 0, 0,
    0, 0, 0,  0,  0,  0, 0, 0, 0,
    0, 0, 0,  0,  0,  0, 0, 0, 0,
    0, 0, 0,  0,  0,  0, 0, 0, 0,
    0, 0, 0,  0,  0,  0, 0, 0, 0,
    0, 0, 0, -2, -3, -2, 0, 0, 0,
    0, 0, 0, -3, -4, -3, 0, 0, 0,
    0, 0, 0, -2, -3, -2, 0, 0, 0]

  /** The Red-perspective table entry of kind `k` at square rank `i`. */
  function TableValue(k: Kind, i: nat): int
    requires i < Squares
  {
    match k
    case Pawn => PawnTable[i]
    case Horse => HorseTable[i]
    case Chariot => ChariotTable[i]
    case Cannon => CannonTable[i]
    case Advisor => AdvisorTable[i]
    case Elephant => ElephantTable[i]
    case King => KingTable[i]
  }

  /** The table square a piece of side `s` on rank `i` reads: its own for Red, the point-mirrored one for Black. */
  function TableRank(s: Side, i: nat): (t: nat)
    requires i < Squares
    ensures t < Squares
    ensures s == Red ==> t == i
    ensures s == Black ==> t == Rank(Rows - 1 - RowOf(i), Cols - 1 - ColOf(i))
  {
    RankCoordinates(i);
    if s == Red then i else Squares - 1 - i
  }

  /** The material and positional worth to side `s` of the cell on rank `i`. */
  function CellWorth(b: Grid, s: Side, i: nat): int
    requires ValidBoard(b) && i < Squares
  {
    match CellAt(b, i)
    case None => 0
    case Some(p) => if p.side == s then MaterialValue(p.kind) + TableValue(p.kind, TableRank(s, i)) else 0
  }

  /** Side `s`'s material plus positional total over the squares of rank i .. 89. */
  function SideTotal(b: Grid, s: Side, i: nat): int
    requires ValidBoard(b) && i <= Squares
    decreases Squares - i
  {
    if i == Squares then 0 else CellWorth(b, s, i) + SideTotal(b, s, i + 1)
  }

  /** Black's material and positional total minus Red's. */
  function Material(b: Grid): int
    requires ValidBoard(b)
  {
    SideTotal(b, Black, 0) - SideTotal(b, Red, 0)
  }

  /**
   * The worth to side `s` of square (r, c) as evaluateBoard reads it in
   * board coordinates: the piece's material value plus its table entry at
   * (r, c) for Red and at (9 - r, 8 - c) for Black; nothing for an empty
   * square or a piece of the other side.
   */
  function SquareWorth(b: Grid, s: Side, r: int, c: int): int
    requires ValidBoard(b) && InBoard(r, c)
  {
    CoordinatesRank(r, c);
    CoordinatesRank(Rows - 1 - r, Cols - 1 - c);
    match b[r][c]
    case None => 0
    case Some(p) =>
      if p.side != s then 0
      else if s == Red then MaterialValue(p.kind) + TableValue(p.kind, Rank(r, c))
      else MaterialValue(p.kind) + TableValue(p.kind, Rank(Rows - 1 - r, Cols - 1 - c))
  }

  /** The inner loop of evaluateBoard: side `s`'s worth over columns c .. 8 of row r. */
  function RowWorth(b: Grid, s: Side, r: int, c: int): int
    requires ValidBoard(b) && 0 <= r < Rows && 0 <= c <= Cols
    decreases Cols - c
  {
    if c == Cols then 0 else SquareWorth(b, s, r, c) + RowWorth(b, s, r, c + 1)
  }

  /** The outer loop of evaluateBoard: side `s`'s worth over rows r .. 9. */
  function GridWorth(b: Grid, s: Side, r: int): int
    requires ValidBoard(b) && 0 <= r <= Rows
    decreases Rows - r
  {
    if r == Rows then 0 else RowWorth(b, s, r, 0) + GridWorth(b, s, r + 1)
  }

  /**
   * evaluateBoard: positive favours Black. Black's material and positional
   * total minus Red's, summed over the board row by row as the source's
   * loops do, plus half the difference of the two sides' legal move counts.
   */
  function Evaluate(b: Grid): (v: real)
    requires ValidBoard(b)
    ensures v == (GridWorth(b, Black, 0) - GridWorth(b, Red, 0)) as real +
                 (CountLegalMoves(b, Black) - CountLegalMoves(b, Red)) as real * MobilityWeight
  {
    MaterialGrid(b);
    var blackScore := SideTotal(b, Black, 0);
    var redScore := SideTotal(b, Red, 0);
    var mobility := (CountLegalMoves(b, Black) - CountLegalMoves(b, Red)) as real * MobilityWeight;
    (blackScore - redScore) as real + mobility
  }

  /** The flat per-rank worth of a square is what evaluateBoard reads at its coordinates. */
  lemma CellWorthAt(b: Grid, s: Side, r: int, c: int)
    requires ValidBoard(b) && InBoard(r, c)
    ensures 0 <= Rank(r, c) < Squares
    ensures CellWorth(b, s, Rank(r, c)) == SquareWorth(b, s, r, c)
  {
    CoordinatesRank(r, c);
  }

  /** The flat sum from square (r, c) on is the rest of row r plus the flat sum from row r + 1 on. */
  lemma {:induction false} RowSplit(b: Grid, s: Side, r: int, c: int)
    requires ValidBoard(b) && 0 <= r < Rows && 0 <= c <= Cols
    ensures SideTotal(b, s, r * Cols + c) == RowWorth(b, s, r, c) + SideTotal(b, s, (r + 1) * Cols)
    decreases Cols - c
  {
    if c < Cols {
      CellWorthAt(b, s, r, c);
      RowSplit(b, s, r, c + 1);
    }
  }

  /** The flat sum from row r on is the row-by-row sum of rows r .. 9. */
  lemma {:induction false} GridSplit(b: Grid, s: Side, r: int)
    requires ValidBoard(b) && 0 <= r <= Rows
    ensures SideTotal(b, s, r * Cols) == GridWorth(b, s, r)
    decreases Rows - r
  {
    if r < Rows {
      RowSplit(b, s, r, 0);
      GridSplit(b, s, r + 1);
    }
  }

  /** Material, summed flat over ranks, is the board-coordinate sum of evaluateBoard. */
  lemma MaterialGrid(b: Grid)
    requires ValidBoard(b)
    ensures Material(b) == GridWorth(b, Black, 0) - GridWorth(b, Red, 0)
  {
    GridSplit(b, Black, 0);
    GridSplit(b, Red, 0);
  }

  /** Side `s` totals over ranks 0 .. n-1. */
  function PrefixTotal(b: Grid, s: Side, n: nat): int
    requires ValidBoard(b) && n <= Squares
  {
    if n == 0 then 0 else PrefixTotal(b, s, n - 1) + CellWorth(b, s, n - 1)
  }

  /** A square's worth to a side is what the mirrored square was worth to the other side. */
  lemma CellWorthTurn(b: Grid, s: Side, i: nat)
    requires ValidBoard(b) && i < Squares
    ensures CellWorth(HalfTurn(b), s, i) == CellWorth(b, Opponent(s), Squares - 1 - i)
  {
    HalfTurnRank(b, i);
  }

  lemma {:induction false} SuffixPrefix(b: Grid, s: Side, i: nat)
    requires ValidBoard(b) && i <= Squares
    ensures SideTotal(b, s, i) + PrefixTotal(b, s, i) == PrefixTotal(b, s, Squares)
    decreases Squares - i
  {
    if i < Squares {
      SuffixPrefix(b, s, i + 1);
    }
  }

  lemma {:induction false} TurnedSuffix(b: Grid, s: Side, i: nat)
    requires ValidBoard(b) && i <= Squares
    ensures SideTotal(HalfTurn(b), s, i) == PrefixTotal(b, Opponent(s), Squares - i)
    decreases Squares - i
  {
    if i < Squares {
      TurnedSuffix(b, s, i + 1);
      CellWorthTurn(b, s, i);
    }
  }

  /**
   * The tables are read point-mirrored for Black, so turning the board half
   * a turn and swapping the colours exactly negates the material balance.
   */
  lemma MaterialTurn(b: Grid)
    requires ValidBoard(b)
    ensures Material(HalfTurn(b)) == -Material(b)
  {
    TurnedSuffix(b, Black, 0);
    TurnedSuffix(b, Red, 0);
    SuffixPrefix(b, Black, 0);
    SuffixPrefix(b, Red, 0);
  }
}
