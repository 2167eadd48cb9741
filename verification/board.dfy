/**
 * The 10 x 9 board: rows 0..9 from Black's back rank down to Red's, columns
 * 0..8. A cell is empty or holds one piece. Squares are also numbered in
 * row-major order by their rank r * 9 + c, the order in which every scan of
 * the program visits them.
 */
module Board {
  import opened Options
  import opened Pieces

  const Rows := 10
  const Cols := 9
  const Squares := 90

  type Cell = Option<Piece>
  type Grid = seq<seq<Cell>>

  predicate ValidBoard(b: Grid)
  {
    |b| == Rows && forall r :: 0 <= r < Rows ==> |b[r]| == Cols
  }

  predicate InBoard(r: int, c: int)
  {
    0 <= r < Rows && 0 <= c < Cols
  }

  function Rank(r: int, c: int): int
  {
    r * Cols + c
  }

  function RowOf(i: nat): nat
  {
    i / Cols
  }

  function ColOf(i: nat): nat
  {
    i % Cols
  }

  /** Ranks and coordinates are two names for the same square. */
  lemma RankCoordinates(i: nat)
    requires i < Squares
    ensures InBoard(RowOf(i), ColOf(i))
    ensures Rank(RowOf(i), ColOf(i)) == i
  {
  }

  lemma CoordinatesRank(r: int, c: int)
    requires InBoard(r, c)
    ensures 0 <= Rank(r, c) < Squares
    ensures RowOf(Rank(r, c)) == r && ColOf(Rank(r, c)) == c
  {
  }

  function CellAt(b: Grid, i: nat): Cell
    requires ValidBoard(b) && i < Squares
  {
    RankCoordinates(i);
    b[RowOf(i)][ColOf(i)]
  }

  predicate HoldsSide(cell: Cell, s: Side)
  {
    cell.Some? && cell.value.side == s
  }

  /**
   * Writes `cell` on the destination and then empties the source. Every
   * move of the program, copied or in place, is this pair of writes.
   */
  function Relocate(b: Grid, fr: int, fc: int, tr: int, tc: int, cell: Cell): (nb: Grid)
    requires ValidBoard(b) && InBoard(fr, fc) && InBoard(tr, tc)
    ensures ValidBoard(nb)
    ensures nb[fr][fc] == None
    ensures (tr, tc) != (fr, fc) ==> nb[tr][tc] == cell
    ensures forall r, c :: InBoard(r, c) && (r, c) != (fr, fc) && (r, c) != (tr, tc) ==> nb[r][c] == b[r][c]
  {
    var b1 := b[tr := b[tr][tc := cell]];
    b1[fr := b1[fr][fc := None]]
  }

  /** Writes the two squares of a move back: `src` on the source, then `dst` on the destination. */
  function WriteBack(b: Grid, fr: int, fc: int, tr: int, tc: int, src: Cell, dst: Cell): (nb: Grid)
    requires ValidBoard(b) && InBoard(fr, fc) && InBoard(tr, tc)
    ensures ValidBoard(nb)
  {
    var b1 := b[fr := b[fr][fc := src]];
    b1[tr := b1[tr][tc := dst]]
  }

  /** Writing back what stood on the two squares undoes a relocation of the source's own cell. */
  lemma RelocateWriteBack(b: Grid, fr: int, fc: int, tr: int, tc: int)
    requires ValidBoard(b) && InBoard(fr, fc) && InBoard(tr, tc)
    ensures WriteBack(Relocate(b, fr, fc, tr, tc, b[fr][fc]), fr, fc, tr, tc, b[fr][fc], b[tr][tc]) == b
  {
    var nb := WriteBack(Relocate(b, fr, fc, tr, tc, b[fr][fc]), fr, fc, tr, tc, b[fr][fc], b[tr][tc]);
    forall r | 0 <= r < Rows
      ensures nb[r] == b[r]
    {
    }
  }

  /**
   * The board after piece `p` moves from (fr, fc) to (tr, tc) as a fresh
   * copy: whatever stood on the destination is captured, and the argument
   * board itself is a value and stays as it was.
   */
  function ApplyMove(b: Grid, fr: int, fc: int, tr: int, tc: int, p: Piece): (nb: Grid)
    requires ValidBoard(b) && InBoard(fr, fc) && InBoard(tr, tc)
    ensures ValidBoard(nb)
    ensures nb[fr][fc] == None
    ensures (tr, tc) != (fr, fc) ==> nb[tr][tc] == Some(p)
    ensures forall r, c :: InBoard(r, c) && (r, c) != (fr, fc) && (r, c) != (tr, tc) ==> nb[r][c] == b[r][c]
  {
    Relocate(b, fr, fc, tr, tc, Some(p))
  }

  /** The same square seen from the other side: its piece, if any, changes colour. */
  function Recolour(c: Cell): (d: Cell)
    ensures d.Some? <==> c.Some?
    ensures c.Some? ==> d.value.kind == c.value.kind && d.value.side == Opponent(c.value.side)
  {
    match c
    case None => None
    case Some(p) => Some(Piece(Opponent(p.side), p.kind))
  }

  /**
   * The board turned half a turn with the colours swapped: square (r, c)
   * shows the recoloured piece of the point-mirrored square (9 - r, 8 - c),
   * so each side sees what the other saw from its own chair.
   */
  function HalfTurn(b: Grid): (t: Grid)
    requires ValidBoard(b)
    ensures ValidBoard(t)
    ensures forall r, c :: InBoard(r, c) ==> t[r][c] == Recolour(b[Rows - 1 - r][Cols - 1 - c])
  {
    seq(Rows, r requires 0 <= r < Rows => seq(Cols, c requires 0 <= c < Cols => Recolour(b[Rows - 1 - r][Cols - 1 - c])))
  }

  /** Turning twice gives the board back. */
  lemma HalfTurnTwice(b: Grid)
    requires ValidBoard(b)
    ensures HalfTurn(HalfTurn(b)) == b
  {
    var t := HalfTurn(HalfTurn(b));
    forall r | 0 <= r < Rows
      ensures t[r] == b[r]
    {
      forall c | 0 <= c < Cols
        ensures t[r][c] == b[r][c]
      {
        assert InBoard(Rows - 1 - r, Cols - 1 - c);
      }
    }
  }

  /** In ranks, the half turn sends square i to square 89 - i. */
  lemma HalfTurnRank(b: Grid, i: nat)
    requires ValidBoard(b) && i < Squares
    ensures CellAt(HalfTurn(b), i) == Recolour(CellAt(b, Squares - 1 - i))
  {
    RankCoordinates(i);
    var j := Squares - 1 - i;
    assert j == Rank(Rows - 1 - RowOf(i), Cols - 1 - ColOf(i));
    CoordinatesRank(Rows - 1 - RowOf(i), Cols - 1 - ColOf(i));
  }

  /** Number of pieces among cells lo .. hi-1 of a line of squares. */
  function CountPieces(cells: seq<Cell>, lo: int, hi: int): nat
    requires 0 <= lo && hi <= |cells|
    decreases hi - lo
  {
    if lo >= hi then 0
    else (if cells[lo].Some? then 1 else 0) + CountPieces(cells, lo + 1, hi)
  }

  /** The squares of column `c`, from row 0 to row 9. */
  function Column(b: Grid, c: int): (col: seq<Cell>)
    requires ValidBoard(b) && 0 <= c < Cols
    ensures |col| == Rows && forall r :: 0 <= r < Rows ==> col[r] == b[r][c]
  {
    seq(Rows, r requires 0 <= r < Rows => b[r][c])
  }

  /** Number of pieces on row `r` in columns lo .. hi-1. */
  function RowPieces(b: Grid, r: int, lo: int, hi: int): nat
    requires ValidBoard(b) && 0 <= r < Rows && 0 <= lo && hi <= Cols
  {
    CountPieces(b[r], lo, hi)
  }

  /** Number of pieces in column `c` on rows lo .. hi-1. */
  function ColPieces(b: Grid, c: int, lo: int, hi: int): nat
    requires ValidBoard(b) && 0 <= c < Cols && 0 <= lo && hi <= Rows
  {
    CountPieces(Column(b, c), lo, hi)
  }

  function Min(x: int, y: int): int { if x <= y then x else y }
  function Max(x: int, y: int): int { if x <= y then y else x }

  /** Square (r, c) lies strictly between two squares of one row or one column. */
  predicate Between(r1: int, c1: int, r2: int, c2: int, r: int, c: int)
  {
    || (r1 == r2 && r == r1 && Min(c1, c2) < c < Max(c1, c2))
    || (r1 != r2 && c1 == c2 && c == c1 && Min(r1, r2) < r < Max(r1, r2))
  }

  /**
   * The number of pieces strictly between two squares of one line, counted
   * along the row when the rows agree and along the column otherwise.
   */
  function PiecesBetween(b: Grid, r1: int, c1: int, r2: int, c2: int): (n: nat)
    requires ValidBoard(b) && InBoard(r1, c1) && InBoard(r2, c2)
    requires r1 == r2 || c1 == c2
  {
    if r1 == r2 then RowPieces(b, r1, Min(c1, c2) + 1, Max(c1, c2))
    else ColPieces(b, c1, Min(r1, r2) + 1, Max(r1, r2))
  }

  lemma {:induction false} CountZero(cells: seq<Cell>, lo: int, hi: int)
    requires 0 <= lo && hi <= |cells|
    ensures CountPieces(cells, lo, hi) == 0 <==> forall i :: lo <= i < hi ==> cells[i].None?
    decreases hi - lo
  {
    if lo < hi {
      CountZero(cells, lo + 1, hi);
    }
  }

  /** Cell i is the only occupied one among cells lo .. hi-1. */
  predicate SoleAt(cells: seq<Cell>, lo: int, hi: int, i: int)
    requires 0 <= lo && hi <= |cells|
  {
    lo <= i < hi && cells[i].Some? && forall j :: lo <= j < hi && j != i ==> cells[j].None?
  }

  lemma {:induction false} CountOneSole(cells: seq<Cell>, lo: int, hi: int)
    requires 0 <= lo && hi <= |cells| && CountPieces(cells, lo, hi) == 1
    ensures exists i :: SoleAt(cells, lo, hi, i)
    decreases hi - lo
  {
    if cells[lo].Some? {
      CountZero(cells, lo + 1, hi);
      assert SoleAt(cells, lo, hi, lo);
    } else {
      CountOneSole(cells, lo + 1, hi);
      var i :| SoleAt(cells, lo + 1, hi, i);
      assert SoleAt(cells, lo, hi, i);
    }
  }

  lemma {:induction false} SoleCountOne(cells: seq<Cell>, lo: int, hi: int, i: int)
    requires 0 <= lo && hi <= |cells| && SoleAt(cells, lo, hi, i)
    ensures CountPieces(cells, lo, hi) == 1
    decreases hi - lo
  {
    if i == lo {
      CountZero(cells, lo + 1, hi);
    } else {
      assert cells[lo].None?;
      assert SoleAt(cells, lo + 1, hi, i);
      SoleCountOne(cells, lo + 1, hi, i);
    }
  }

  /** The line between two squares is clear exactly when no square between them is occupied. */
  lemma LineClear(b: Grid, r1: int, c1: int, r2: int, c2: int)
    requires ValidBoard(b) && InBoard(r1, c1) && InBoard(r2, c2)
    requires r1 == r2 || c1 == c2
    ensures PiecesBetween(b, r1, c1, r2, c2) == 0 <==>
      forall r, c :: InBoard(r, c) && Between(r1, c1, r2, c2, r, c) ==> b[r][c].None?
  {
    if r1 == r2 {
      CountZero(b[r1], Min(c1, c2) + 1, Max(c1, c2));
    } else {
      CountZero(Column(b, c1), Min(r1, r2) + 1, Max(r1, r2));
    }
  }

  /** (r, c) is the one occupied square strictly between two squares of a line. */
  ghost predicate ScreenAt(b: Grid, r1: int, c1: int, r2: int, c2: int, r: int, c: int)
    requires ValidBoard(b)
  {
    InBoard(r, c) && Between(r1, c1, r2, c2, r, c) && b[r][c].Some? &&
    forall r', c' :: InBoard(r', c') && Between(r1, c1, r2, c2, r', c') && (r', c') != (r, c) ==> b[r'][c'].None?
  }

  /** Exactly one piece stands between two squares of a line. */
  ghost predicate OneScreen(b: Grid, r1: int, c1: int, r2: int, c2: int)
    requires ValidBoard(b)
  {
    exists r, c :: ScreenAt(b, r1, c1, r2, c2, r, c)
  }

  lemma LineOneScreen(b: Grid, r1: int, c1: int, r2: int, c2: int)
    requires ValidBoard(b) && InBoard(r1, c1) && InBoard(r2, c2)
    requires r1 == r2 || c1 == c2
    ensures PiecesBetween(b, r1, c1, r2, c2) == 1 <==> OneScreen(b, r1, c1, r2, c2)
  {
    if PiecesBetween(b, r1, c1, r2, c2) == 1 {
      CountedScreen(b, r1, c1, r2, c2);
    }
    if OneScreen(b, r1, c1, r2, c2) {
      var r, c :| ScreenAt(b, r1, c1, r2, c2, r, c);
      ScreenCounted(b, r1, c1, r2, c2, r, c);
    }
  }

  lemma CountedScreen(b: Grid, r1: int, c1: int, r2: int, c2: int)
    requires ValidBoard(b) && InBoard(r1, c1) && InBoard(r2, c2)
    requires r1 == r2 || c1 == c2
    requires PiecesBetween(b, r1, c1, r2, c2) == 1
    ensures OneScreen(b, r1, c1, r2, c2)
  {
    if r1 == r2 {
      var cells, lo, hi := b[r1], Min(c1, c2) + 1, Max(c1, c2);
      CountOneSole(cells, lo, hi);
      var i :| SoleAt(cells, lo, hi, i);
      assert ScreenAt(b, r1, c1, r2, c2, r1, i);
    } else {
      var cells, lo, hi := Column(b, c1), Min(r1, r2) + 1, Max(r1, r2);
      CountOneSole(cells, lo, hi);
      var i :| SoleAt(cells, lo, hi, i);
      assert ScreenAt(b, r1, c1, r2, c2, i, c1);
    }
  }

  lemma ScreenCounted(b: Grid, r1: int, c1: int, r2: int, c2: int, r: int, c: int)
    requires ValidBoard(b) && InBoard(r1, c1) && InBoard(r2, c2)
    requires r1 == r2 || c1 == c2
    requires ScreenAt(b, r1, c1, r2, c2, r, c)
    ensures PiecesBetween(b, r1, c1, r2, c2) == 1
  {
    if r1 == r2 {
      var cells, lo, hi := b[r1], Min(c1, c2) + 1, Max(c1, c2);
      forall j | lo <= j < hi && j != c
        ensures cells[j].None?
      {
        assert InBoard(r1, j) && Between(r1, c1, r2, c2, r1, j);
      }
      SoleCountOne(cells, lo, hi, c);
    } else {
      var cells, lo, hi := Column(b, c1), Min(r1, r2) + 1, Max(r1, r2);
      forall j | lo <= j < hi && j != r
        ensures cells[j].None?
      {
        assert InBoard(j, c1) && Between(r1, c1, r2, c2, j, c1);
      }
      SoleCountOne(cells, lo, hi, r);
    }
  }
}
