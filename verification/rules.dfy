/**
 * The movement rules shared by the interactive game and the computer
 * player: the palace, the seven per-kind validators, the base-move check,
 * check detection (with the flying-general rule) and move legality.
 *
 * The program keeps two copies of the validators, one reading the global
 * board and one taking the board as an argument. The copies make the same
 * tests in the same order, so both are this one definition, applied to the
 * board they read.
 */
module Rules {
  import opened Options
  import opened Pieces
  import opened Board

  function Abs(x: int): nat
  {
    if x < 0 then -x else x
  }

  /** Columns 3-5 of the side's three home rows. */
  predicate InPalace(r: int, c: int, s: Side)
  {
    if c < 3 || c > 5 then false
    else if s == Red then 7 <= r <= 9
    else 0 <= r <= 2
  }

  /** The half of the board on the side's own bank of the river. */
  predicate OwnHalf(r: int, s: Side)
  {
    if s == Red then r >= 5 else r <= 4
  }

  /** A pawn has crossed the river once it stands on the far half. */
  predicate Crossed(r: int, s: Side)
  {
    if s == Red then r <= 4 else r >= 5
  }

  /** The row step a pawn of side `s` takes when it advances. */
  function Forward(s: Side): int
  {
    if s == Red then -1 else 1
  }

  /** King: a single step, never diagonal, landing inside its own palace. */
  function KingMove(r1: int, c1: int, r2: int, c2: int, s: Side): (ok: bool)
    ensures ok <==> InPalace(r2, c2, s) && Abs(r1 - r2) + Abs(c1 - c2) == 1
  {
    if !InPalace(r2, c2, s) then false
    else
      var dr := Abs(r1 - r2);
      var dc := Abs(c1 - c2);
      (dr == 1 && dc == 0) || (dr == 0 && dc == 1)
  }

  /** Advisor: one diagonal step, landing inside its own palace. */
  function AdvisorMove(r1: int, c1: int, r2: int, c2: int, s: Side): (ok: bool)
    ensures ok ==> InPalace(r2, c2, s)
    ensures ok <==> InPalace(r2, c2, s) && Abs(r1 - r2) + Abs(c1 - c2) == 2 && r1 != r2 && c1 != c2
  {
    if !InPalace(r2, c2, s) then false
    else Abs(r1 - r2) == 1 && Abs(c1 - c2) == 1
  }

  /**
   * Elephant: two squares along a diagonal, never across the river, and
   * only when the square it jumps over (the elephant's eye) is empty.
   */
  function ElephantMove(b: Grid, r1: int, c1: int, r2: int, c2: int, s: Side): (ok: bool)
    requires ValidBoard(b) && InBoard(r1, c1) && InBoard(r2, c2)
    ensures ok ==> OwnHalf(r2, s)
    ensures ok <==>
      Abs(r1 - r2) == 2 && Abs(c1 - c2) == 2 && OwnHalf(r2, s) && b[(r1 + r2) / 2][(c1 + c2) / 2].None?
  {
    if !(Abs(r1 - r2) == 2 && Abs(c1 - c2) == 2) then false
    else if (s == Red && r2 < 5) || (s == Black && r2 > 4) then false
    else b[r1 + (r2 - r1) / 2][c1 + (c2 - c1) / 2].None?
  }

  /** The square next to a horse on the long axis of its jump. */
  function HorseLeg(r1: int, c1: int, r2: int, c2: int): (int, int)
  {
    if Abs(r1 - r2) == 2 then ((r1 + r2) / 2, c1) else (r1, (c1 + c2) / 2)
  }

  /** Horse: an L-shaped jump, blocked when the leg square is occupied. */
  function HorseMove(b: Grid, r1: int, c1: int, r2: int, c2: int, s: Side): (ok: bool)
    requires ValidBoard(b) && InBoard(r1, c1) && InBoard(r2, c2)
    ensures ok <==>
      Abs(r1 - r2) + Abs(c1 - c2) == 3 && r1 != r2 && c1 != c2 &&
      InBoard(HorseLeg(r1, c1, r2, c2).0, HorseLeg(r1, c1, r2, c2).1) &&
      b[HorseLeg(r1, c1, r2, c2).0][HorseLeg(r1, c1, r2, c2).1].None?
  {
    var dr := Abs(r1 - r2);
    var dc := Abs(c1 - c2);
    if !((dr == 1 && dc == 2) || (dr == 2 && dc == 1)) then false
    else if dr == 2 then b[r1 + (r2 - r1) / 2][c1].None?
    else b[r1][c1 + (c2 - c1) / 2].None?
  }

  /** Chariot: along a row or a column with every square in between empty. */
  function ChariotMove(b: Grid, r1: int, c1: int, r2: int, c2: int, s: Side): (ok: bool)
    requires ValidBoard(b) && InBoard(r1, c1) && InBoard(r2, c2)
    ensures ok <==>
      (r1 == r2 || c1 == c2) &&
      forall r, c :: InBoard(r, c) && Between(r1, c1, r2, c2, r, c) ==> b[r][c].None?
  {
    if r1 != r2 && c1 != c2 then false
    else
      LineClear(b, r1, c1, r2, c2);
      PiecesBetween(b, r1, c1, r2, c2) == 0
  }

  /**
   * Cannon: along a row or a column; a quiet move needs a clear line, a
   * capture needs exactly one piece (the screen) in between.
   */
  function CannonMove(b: Grid, r1: int, c1: int, r2: int, c2: int, s: Side): (ok: bool)
    requires ValidBoard(b) && InBoard(r1, c1) && InBoard(r2, c2)
    ensures b[r2][c2].None? ==> (ok <==>
      (r1 == r2 || c1 == c2) &&
      forall r, c :: InBoard(r, c) && Between(r1, c1, r2, c2, r, c) ==> b[r][c].None?)
    ensures b[r2][c2].Some? ==> (ok <==> (r1 == r2 || c1 == c2) && OneScreen(b, r1, c1, r2, c2))
  {
    if r1 != r2 && c1 != c2 then false
    else
      LineClear(b, r1, c1, r2, c2);
      LineOneScreen(b, r1, c1, r2, c2);
      var between := PiecesBetween(b, r1, c1, r2, c2);
      if b[r2][c2].Some? then between == 1 else between == 0
  }

  /**
   * Pawn: one step forward, or, once across the river, one step sideways;
   * never backwards.
   */
  function PawnMove(r1: int, c1: int, r2: int, c2: int, s: Side): (ok: bool)
    ensures ok ==> Abs(r1 - r2) + Abs(c1 - c2) == 1
    ensures ok ==> (if s == Red then r2 <= r1 else r2 >= r1)
    ensures ok && r1 == r2 ==> Crossed(r1, s)
    ensures ok <==>
      (r2 == r1 + Forward(s) && c2 == c1) || (r2 == r1 && Abs(c2 - c1) == 1 && Crossed(r1, s))
  {
    var dr := r2 - r1;
    var dc := c2 - c1;
    if s == Red then
      if r1 > 4 then dr == -1 && dc == 0
      else (dr == -1 && dc == 0) || (dr == 0 && Abs(dc) == 1)
    else
      if r1 < 5 then dr == 1 && dc == 0
      else (dr == 1 && dc == 0) || (dr == 0 && Abs(dc) == 1)
  }

  /** Dispatch on the kind of the moving piece. */
  function PieceRule(b: Grid, r1: int, c1: int, r2: int, c2: int, p: Piece): bool
    requires ValidBoard(b) && InBoard(r1, c1) && InBoard(r2, c2)
  {
    match p.kind
    case King => KingMove(r1, c1, r2, c2, p.side)
    case Advisor => AdvisorMove(r1, c1, r2, c2, p.side)
    case Elephant => ElephantMove(b, r1, c1, r2, c2, p.side)
    case Horse => HorseMove(b, r1, c1, r2, c2, p.side)
    case Chariot => ChariotMove(b, r1, c1, r2, c2, p.side)
    case Cannon => CannonMove(b, r1, c1, r2, c2, p.side)
    case Pawn => PawnMove(r1, c1, r2, c2, p.side)
  }

  /**
   * The base move check of the interactive game: the piece actually moves,
   * does not land on a piece of its own side, and obeys its kind's rule.
   * It says nothing about the mover's own king.
   */
  function IsValidBaseMove(b: Grid, fr: int, fc: int, tr: int, tc: int, p: Piece): (ok: bool)
    requires ValidBoard(b) && InBoard(fr, fc) && InBoard(tr, tc)
    ensures ok <==> (fr, fc) != (tr, tc) && !HoldsSide(b[tr][tc], p.side) && PieceRule(b, fr, fc, tr, tc, p)
  {
    if fr == tr && fc == tc then false
    else if HoldsSide(b[tr][tc], p.side) then false
    else PieceRule(b, fr, fc, tr, tc, p)
  }

  /** The first square in row-major order from rank `i` on that holds side `s`'s king. */
  function FindKingFrom(b: Grid, s: Side, i: nat): (k: Option<nat>)
    requires ValidBoard(b) && i <= Squares
    ensures k.Some? ==> i <= k.value < Squares && CellAt(b, k.value) == Some(Piece(s, King))
    ensures k.Some? ==> forall j :: i <= j < k.value ==> CellAt(b, j) != Some(Piece(s, King))
    ensures k.None? ==> forall j :: i <= j < Squares ==> CellAt(b, j) != Some(Piece(s, King))
    decreases Squares - i
  {
    if i == Squares then None
    else if CellAt(b, i) == Some(Piece(s, King)) then Some(i)
    else FindKingFrom(b, s, i + 1)
  }

  function FindKing(b: Grid, s: Side): Option<nat>
    requires ValidBoard(b)
  {
    FindKingFrom(b, s, 0)
  }

  /** The piece on rank `j` belongs to the opponent of `s`, is not its king, and has a base move onto (kr, kc). */
  predicate Attacks(b: Grid, s: Side, j: nat, kr: int, kc: int)
    requires ValidBoard(b) && j < Squares && InBoard(kr, kc)
  {
    RankCoordinates(j);
    match CellAt(b, j)
    case None => false
    case Some(p) =>
      p.side == Opponent(s) && IsValidBaseMove(b, RowOf(j), ColOf(j), kr, kc, p) && p.kind != King
  }

  /** The attacker scan over ranks i .. 89. */
  function AttackedFrom(b: Grid, s: Side, kr: int, kc: int, i: nat): (hit: bool)
    requires ValidBoard(b) && InBoard(kr, kc) && i <= Squares
    ensures hit <==> exists j :: i <= j < Squares && Attacks(b, s, j, kr, kc)
    decreases Squares - i
  {
    if i == Squares then false
    else if Attacks(b, s, i, kr, kc) then true
    else AttackedFrom(b, s, kr, kc, i + 1)
  }

  /** The two kings on ranks k and o share a column with nothing between them. */
  predicate KingsFace(b: Grid, k: nat, o: nat)
    requires ValidBoard(b) && k < Squares && o < Squares
  {
    RankCoordinates(k);
    RankCoordinates(o);
    ColOf(k) == ColOf(o) &&
    ColPieces(b, ColOf(k), Min(RowOf(k), RowOf(o)) + 1, Max(RowOf(k), RowOf(o))) == 0
  }

  /**
   * Side `s` is in check: its king is missing from the board, or an
   * opposing piece other than the king has a base move onto the king's
   * square, or the two kings face each other on an open column.
   */
  function IsKingInCheck(b: Grid, s: Side): (check: bool)
    requires ValidBoard(b)
    ensures (forall j :: 0 <= j < Squares ==> CellAt(b, j) != Some(Piece(s, King))) ==> check
    ensures (FindKing(b, s).Some? && FindKing(b, Opponent(s)).Some? &&
             KingsFace(b, FindKing(b, s).value, FindKing(b, Opponent(s)).value)) ==> check
    ensures FindKing(b, s).Some? ==>
      (check <==>
        (exists j :: 0 <= j < Squares && Attacks(b, s, j, RowOf(FindKing(b, s).value), ColOf(FindKing(b, s).value))) ||
        (FindKing(b, Opponent(s)).Some? && KingsFace(b, FindKing(b, s).value, FindKing(b, Opponent(s)).value)))
  {
    match FindKing(b, s)
    case None => true
    case Some(k) =>
      RankCoordinates(k);
      if AttackedFrom(b, s, RowOf(k), ColOf(k), 0) then true
      else
        match FindKing(b, Opponent(s))
        case None => false
        case Some(o) =>
          if ColOf(k) == ColOf(o) then
            ColPieces(b, ColOf(k), Min(RowOf(k), RowOf(o)) + 1, Max(RowOf(k), RowOf(o))) == 0
          else false
  }

  /**
   * A move is legal when it is a valid base move and the mover's own king
   * is not in check on the board that results from it.
   */
  predicate IsMoveLegal(b: Grid, fr: int, fc: int, tr: int, tc: int, p: Piece)
    requires ValidBoard(b) && InBoard(fr, fc) && InBoard(tr, tc)
  {
    IsValidBaseMove(b, fr, fc, tr, tc, p) && !IsKingInCheck(ApplyMove(b, fr, fc, tr, tc, p), p.side)
  }

  /**
   * The interactive game's legality test, which plays the move on its one
   * global board, asks for check, and writes the two squares back. Returns
   * the verdict and the board as it stands afterwards.
   */
  function IsMoveLegalInPlace(b: Grid, fr: int, fc: int, tr: int, tc: int, p: Piece): (res: (bool, Grid))
    requires ValidBoard(b) && InBoard(fr, fc) && InBoard(tr, tc)
    ensures res.0 == IsMoveLegal(b, fr, fc, tr, tc, p)
    ensures b[fr][fc] == Some(p) ==> res.1 == b
  {
    if !IsValidBaseMove(b, fr, fc, tr, tc, p) then (false, b)
    else
      var original := b[tr][tc];
      var played := Relocate(b, fr, fc, tr, tc, Some(p));
      var selfInCheck := IsKingInCheck(played, p.side);
      var restored := WriteBack(played, fr, fc, tr, tc, Some(p), original);
      assert b[fr][fc] == Some(p) ==> restored == b by {
        if b[fr][fc] == Some(p) {
          RelocateWriteBack(b, fr, fc, tr, tc);
        }
      }
      (!selfInCheck, restored)
  }
}
