/**
 * Sides, piece kinds and the two-character piece identifiers of the game.
 *
 * An identifier such as "BR1" names a Black Chariot; only the first two
 * characters are ever read (the side letter, then the kind letter), any
 * suffix only tells equal pieces apart on screen.
 */
module Pieces {
  import opened Options

  /** Red moves first; Black is the side the computer plays. */
  datatype Side = Red | Black

  datatype Kind = King | Advisor | Elephant | Horse | Chariot | Cannon | Pawn

  datatype Piece = Piece(side: Side, kind: Kind)

  function Opponent(s: Side): (o: Side)
    ensures o != s
  {
    if s == Red then Black else Red
  }

  function SideLetter(s: Side): char
  {
    match s
    case Red => 'R'
    case Black => 'B'
  }

  function KindLetter(k: Kind): char
  {
    match k
    case King => 'K'
    case Advisor => 'A'
    case Elephant => 'E'
    case Horse => 'H'
    case Chariot => 'R'
    case Cannon => 'C'
    case Pawn => 'P'
  }

  function SideOfLetter(ch: char): (s: Option<Side>)
    ensures s.Some? ==> SideLetter(s.value) == ch
    ensures s.None? ==> forall x: Side :: SideLetter(x) != ch
  {
    if ch == 'R' then Some(Red)
    else if ch == 'B' then Some(Black)
    else None
  }

  function KindOfLetter(ch: char): (k: Option<Kind>)
    ensures k.Some? ==> KindLetter(k.value) == ch
    ensures k.None? ==> forall x: Kind :: KindLetter(x) != ch
  {
    match ch
    case 'K' => Some(King)
    case 'A' => Some(Advisor)
    case 'E' => Some(Elephant)
    case 'H' => Some(Horse)
    case 'R' => Some(Chariot)
    case 'C' => Some(Cannon)
    case 'P' => Some(Pawn)
    case _ => None
  }

  /** The two-character code of a piece, as placed on the board and sent across the worker boundary. */
  function Encode(p: Piece): (id: string)
    ensures |id| == 2
  {
    [SideLetter(p.side), KindLetter(p.kind)]
  }

  /**
   * Reads a piece identifier by its first two characters. An identifier
   * whose kind letter is not one of the seven kinds (or that is too short
   * to have one) decodes to None, which every rule treats as "not a move".
   */
  function Decode(id: string): (p: Option<Piece>)
    ensures p.Some? <==> |id| >= 2 && SideOfLetter(id[0]).Some? && KindOfLetter(id[1]).Some?
    ensures p.Some? ==> Encode(p.value) == id[..2]
  {
    if |id| < 2 then None
    else match (SideOfLetter(id[0]), KindOfLetter(id[1]))
      case (Some(s), Some(k)) => Some(Piece(s, k))
      case _ => None
  }

  /** Decoding undoes encoding, and an instance suffix ("1", "2") never changes what is decoded. */
  lemma DecodeEncode(p: Piece, suffix: string)
    ensures Decode(Encode(p)) == Some(p)
    ensures Decode(Encode(p) + suffix) == Some(p)
  {
    assert (Encode(p) + suffix)[0] == SideLetter(p.side);
    assert (Encode(p) + suffix)[1] == KindLetter(p.kind);
    match p.side { case Red => case Black => }
    match p.kind { case King => case Advisor => case Elephant => case Horse => case Chariot => case Cannon => case Pawn => }
  }
}
