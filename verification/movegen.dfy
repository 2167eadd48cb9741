/**
 * The computer player's copy of the rules and its move generators. This
 * copy takes the board as an argument, never writes to it, and checks
 * coordinates before reading the board; move lists come out in row-major
 * order of the source square and, for one source, of the target square.
 */
module MoveGen {
  import opened Options
  import opened Pieces
  import opened Board
  import opened Rules

  /** The base move check with the bounds test first; it agrees with the interactive game's wherever that one is defined. */
  function IsValidBaseMoveAI(b: Grid, fr: int, fc: int, tr: int, tc: int, p: Piece): (ok: bool)
    requires ValidBoard(b)
    ensures ok ==> InBoard(fr, fc) && InBoard(tr, tc) && (fr, fc) != (tr, tc) && !HoldsSide(b[tr][tc], p.side)
    ensures InBoard(fr, fc) && InBoard(tr, tc) ==> ok == IsValidBaseMove(b, fr, fc, tr, tc, p)
  {
    if !InBoard(fr, fc) || !InBoard(tr, tc) then false
    else if HoldsSide(b[tr][tc], p.side) then false
    else if fr == tr && fc == tc then false
    else PieceRule(b, fr, fc, tr, tc, p)
  }

  /**
   * The base move check on a raw piece identifier: an identifier without a
   * known side and kind letter never moves.
   */
  function IsValidBaseMoveId(b: Grid, fr: int, fc: int, tr: int, tc: int, id: string): (ok: bool)
    requires ValidBoard(b)
    ensures ok ==> Decode(id).Some?
    ensures ok ==> InBoard(fr, fc) && InBoard(tr, tc) && (fr, fc) != (tr, tc) && !HoldsSide(b[tr][tc], Decode(id).value.side)
  {
    match Decode(id)
    case None => false
    case Some(p) => IsValidBaseMoveAI(b, fr, fc, tr, tc, p)
  }

  /** Legality on a copied board: a valid base move after which the mover is not in check. */
  function IsMoveLegalAI(b: Grid, fr: int, fc: int, tr: int, tc: int, p: Piece): (ok: bool)
    requires ValidBoard(b)
    ensures ok ==> InBoard(fr, fc) && InBoard(tr, tc) && IsValidBaseMoveAI(b, fr, fc, tr, tc, p) &&
                   !IsKingInCheck(ApplyMove(b, fr, fc, tr, tc, p), p.side)
    ensures InBoard(fr, fc) && InBoard(tr, tc) ==> ok == IsMoveLegal(b, fr, fc, tr, tc, p)
  {
    if !IsValidBaseMoveAI(b, fr, fc, tr, tc, p) then false
    else
      var tempBoard := ApplyMove(b, fr, fc, tr, tc, p);
      !IsKingInCheck(tempBoard, p.side)
  }

  datatype Move = Move(fr: int, fc: int, tr: int, tc: int, piece: Piece)

  /** Source rank times 90 plus target rank: the order in which the generators visit moves. */
  function MoveRank(m: Move): int
  {
    Rank(m.fr, m.fc) * Squares + Rank(m.tr, m.tc)
  }

  const MoveRanks := Squares * Squares

  /** All moves, or only those whose target holds an opposing piece. */
  datatype Filter = AllMoves | CapturesOnly

  /** Move `m` is one that the generator for side `s` under filter `f` lists. */
  predicate Accepts(b: Grid, s: Side, f: Filter, m: Move)
    requires ValidBoard(b)
  {
    && InBoard(m.fr, m.fc) && InBoard(m.tr, m.tc)
    && b[m.fr][m.fc] == Some(m.piece) && m.piece.side == s
    && (f == CapturesOnly ==> HoldsSide(b[m.tr][m.tc], Opponent(s)))
    && IsMoveLegalAI(b, m.fr, m.fc, m.tr, m.tc, m.piece)
  }

  /** The move with rank k whose piece is whatever stands on its source square. */
  function MoveAt(b: Grid, k: nat): (m: Option<Move>)
    requires ValidBoard(b) && k < MoveRanks
    ensures m.Some? ==> MoveRank(m.value) == k && InBoard(m.value.fr, m.value.fc) && InBoard(m.value.tr, m.value.tc)
  {
    var i, j := k / Squares, k % Squares;
    RankCoordinates(i);
    RankCoordinates(j);
    match CellAt(b, i)
    case None => None
    case Some(p) => Some(Move(RowOf(i), ColOf(i), RowOf(j), ColOf(j), p))
  }

  predicate Qualifies(b: Grid, s: Side, f: Filter, k: nat)
    requires ValidBoard(b) && k < MoveRanks
  {
    MoveAt(b, k).Some? && Accepts(b, s, f, MoveAt(b, k).value)
  }

  /** Every move the generator can accept is the move found at its own rank. */
  lemma MoveAtRank(b: Grid, m: Move)
    requires ValidBoard(b) && InBoard(m.fr, m.fc) && InBoard(m.tr, m.tc) && b[m.fr][m.fc] == Some(m.piece)
    ensures 0 <= MoveRank(m) < MoveRanks
    ensures MoveAt(b, MoveRank(m)) == Some(m)
  {
    var k := MoveRank(m);
    CoordinatesRank(m.fr, m.fc);
    CoordinatesRank(m.tr, m.tc);
    assert k / Squares == Rank(m.fr, m.fc);
    assert k % Squares == Rank(m.tr, m.tc);
  }

  predicate Increasing(ms: seq<Move>)
  {
    forall x, y :: 0 <= x < y < |ms| ==> MoveRank(ms[x]) < MoveRank(ms[y])
  }

  /** The numbers k .. n-1 that satisfy `p`. */
  ghost function Hits(p: nat -> bool, k: nat, n: nat): set<nat>
  {
    set j: nat | k <= j < n && p(j)
  }

  /** Peeling the first number off the range. */
  lemma HitsStep(p: nat -> bool, k: nat, n: nat)
    requires k < n
    ensures Hits(p, k, n) == (if p(k) then {k} else {}) + Hits(p, k + 1, n)
    ensures k !in Hits(p, k + 1, n)
  {
    var all, rest := Hits(p, k, n), Hits(p, k + 1, n);
    forall x | x in all
      ensures x == k || x in rest
    {
    }
  }

  /** The squares-pair ranks from k on that the generator accepts. */
  ghost function QualifyingRanks(b: Grid, s: Side, f: Filter, k: nat): set<nat>
    requires ValidBoard(b)
  {
    Hits((j: nat) => j < MoveRanks && Qualifies(b, s, f, j), k, MoveRanks)
  }

  /**
   * The generator loop over move ranks k .. 8099. It lists exactly the
   * accepted moves of rank at least k, each once, in increasing rank.
   */
  function MovesFrom(b: Grid, s: Side, f: Filter, k: nat): (ms: seq<Move>)
    requires ValidBoard(b) && k <= MoveRanks
    ensures forall m :: m in ms <==> Accepts(b, s, f, m) && k <= MoveRank(m)
    ensures Increasing(ms)
    ensures |ms| == |QualifyingRanks(b, s, f, k)|
    decreases MoveRanks - k
  {
    if k == MoveRanks then
      assert QualifyingRanks(b, s, f, k) == {};
      []
    else
      var rest := MovesFrom(b, s, f, k + 1);
      var here := if Qualifies(b, s, f, k) then [MoveAt(b, k).value] else [];
      MovesStep(b, s, f, k, here, rest);
      here + rest
  }

  /** One step of the generator loop: the move at rank k, if accepted, goes in front of the rest. */
  lemma MovesStep(b: Grid, s: Side, f: Filter, k: nat, here: seq<Move>, rest: seq<Move>)
    requires ValidBoard(b) && k < MoveRanks
    requires here == if Qualifies(b, s, f, k) then [MoveAt(b, k).value] else []
    requires forall m :: m in rest <==> Accepts(b, s, f, m) && k + 1 <= MoveRank(m)
    requires Increasing(rest)
    requires |rest| == |QualifyingRanks(b, s, f, k + 1)|
    ensures forall m :: m in here + rest <==> Accepts(b, s, f, m) && k <= MoveRank(m)
    ensures Increasing(here + rest)
    ensures |here + rest| == |QualifyingRanks(b, s, f, k)|
  {
    StepCount(b, s, f, k);
    StepMembers(b, s, f, k, here, rest);
    forall m | m in here
      ensures MoveRank(m) == k
    {
    }
    ConcatIncreasing(here, rest, k);
  }

  lemma StepCount(b: Grid, s: Side, f: Filter, k: nat)
    requires ValidBoard(b) && k < MoveRanks
    ensures QualifyingRanks(b, s, f, k) == (if Qualifies(b, s, f, k) then {k} else {}) + QualifyingRanks(b, s, f, k + 1)
    ensures k !in QualifyingRanks(b, s, f, k + 1)
  {
    HitsStep((j: nat) => j < MoveRanks && Qualifies(b, s, f, j), k, MoveRanks);
  }

  lemma StepMembers(b: Grid, s: Side, f: Filter, k: nat, here: seq<Move>, rest: seq<Move>)
    requires ValidBoard(b) && k < MoveRanks
    requires here == if Qualifies(b, s, f, k) then [MoveAt(b, k).value] else []
    requires forall m :: m in rest <==> Accepts(b, s, f, m) && k + 1 <= MoveRank(m)
    ensures forall m :: m in here + rest <==> Accepts(b, s, f, m) && k <= MoveRank(m)
  {
    forall m | Accepts(b, s, f, m) && k <= MoveRank(m)
      ensures m in here + rest
    {
      MoveAtRank(b, m);
      if MoveRank(m) == k {
        assert Qualifies(b, s, f, k);
      }
    }
  }

  lemma ConcatIncreasing(here: seq<Move>, rest: seq<Move>, k: int)
    requires Increasing(here) && Increasing(rest)
    requires forall m :: m in here ==> MoveRank(m) == k
    requires forall m :: m in rest ==> MoveRank(m) > k
    ensures Increasing(here + rest)
  {
    var all := here + rest;
    forall x, y | 0 <= x < y < |all|
      ensures MoveRank(all[x]) < MoveRank(all[y])
    {
      if y < |here| {
        assert all[x] == here[x] && all[y] == here[y];
      } else if x < |here| {
        assert all[x] == here[x] && all[x] in here;
        assert all[y] == rest[y - |here|] && all[y] in rest;
      } else {
        assert all[x] == rest[x - |here|] && all[y] == rest[y - |here|];
      }
    }
  }

  /** The moves of side `s` in board order, as the search and the mobility count enumerate them. */
  function LegalMoves(b: Grid, s: Side): seq<Move>
    requires ValidBoard(b)
  {
    MovesFrom(b, s, AllMoves, 0)
  }

  /**
   * generateCaptureMoves: the legal moves of side `s` whose target holds an
   * opposing piece, in board order.
   */
  function CaptureMoves(b: Grid, s: Side): (ms: seq<Move>)
    requires ValidBoard(b)
    ensures forall m :: m in ms <==>
      InBoard(m.fr, m.fc) && InBoard(m.tr, m.tc) && b[m.fr][m.fc] == Some(m.piece) && m.piece.side == s &&
      HoldsSide(b[m.tr][m.tc], Opponent(s)) && IsMoveLegalAI(b, m.fr, m.fc, m.tr, m.tc, m.piece)
    ensures Increasing(ms)
  {
    MovesFrom(b, s, CapturesOnly, 0)
  }

  /**
   * countLegalMoves: the number of (source, target) square pairs whose
   * source holds a piece of side `s` that may legally move to the target.
   */
  function CountLegalMoves(b: Grid, s: Side): (n: nat)
    requires ValidBoard(b)
    ensures n == |QualifyingRanks(b, s, AllMoves, 0)|
    ensures n == 0 <==> forall m :: !(Accepts(b, s, AllMoves, m))
  {
    var ms := LegalMoves(b, s);
    assert ms != [] ==> ms[0] in ms;
    |ms|
  }
}
