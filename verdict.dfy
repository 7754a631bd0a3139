/** Piece.check_move (SimpleChessGame/pieces.py:33-69): whether the player
    of colour `pColor` may move the piece to `t`, with the bookkeeping it
    does on the piece. The board is a value and is never changed. */
module Verdict {
  import opened Board
  import opened KingSafety
  import Terminal
  import Pawn

  /** The verdict and the piece afterwards. */
  datatype MoveCheck = MoveCheck(ok: bool, piece: Piece)

  /** `t` is a square of the board holding a king (of either colour). */
  predicate HoldsKing(b: Board, t: Pos)
    requires Shaped(b)
  {
    InBounds(t) && At(b, t).Some? && At(b, t).value.kind.King?
  }

  /** Piece.check_move: the colour must be the piece's and the target among
      its generated moves (the king's with castling); the decision on the
      generated moves is Decide. */
  function CheckMove(p: Piece, t: Pos, b: Board, pColor: string): (r: Outcome<MoveCheck>)
    requires Valid(b) && InBounds(p.pos) && Terminal.InsideRanks(b, p)
    ensures pColor != Key(p.color) ==> r == Done(MoveCheck(false, p))
    ensures r.Done? ==> r.value.piece.pos == p.pos && r.value.piece.color == p.color
  {
    if pColor != Key(p.color) then Done(MoveCheck(false, p))
    else
      Terminal.MovesOnBoard(p, b, false);
      match GetMoves(p, b, false)
      case Raised => Raised
      case Done(g) => Done(Decide(g.piece, g.moves, t, b))
  }

  /** The part of check_move after the moves are generated: a target not
      among them is refused; otherwise the piece is marked moved, a target
      holding a king is refused, and a pawn records promotion and, moving
      onto an empty square, its en passant state. */
  function Decide(q: Piece, moves: Moves, t: Pos, b: Board): (r: MoveCheck)
    requires Shaped(b) && forall m :: m in moves ==> InBounds(m)
    ensures r.piece.pos == q.pos && r.piece.color == q.color
  {
    if t !in moves then MoveCheck(false, q)
    else
      var q' := q.(moved := true);
      if Empty(b, t) then
        if q'.kind.Pawn? then MoveCheck(true, Pawn.CheckEnPassant(Pawn.IsPromotion(q', t), t))
        else MoveCheck(true, q')
      else if !At(b, t).value.kind.King? then
        if q'.kind.Pawn? then MoveCheck(true, Pawn.IsPromotion(q', t)) else MoveCheck(true, q')
      else MoveCheck(false, q')
  }

  /** The decision, exactly: the verdict is true iff the target is generated
      and holds no king; `moved` is set iff the target is generated, even
      when a king there makes the verdict false; a refused target leaves the
      piece as generated; a piece other than a pawn changes only in `moved`. */
  lemma DecideExact(q: Piece, moves: Moves, t: Pos, b: Board)
    requires Shaped(b) && forall m :: m in moves ==> InBounds(m)
    ensures var r := Decide(q, moves, t, b);
      (r.ok <==> t in moves && !HoldsKing(b, t)) &&
      (r.piece.moved <==> q.moved || t in moves) &&
      (t !in moves ==> r.piece == q) &&
      (!q.kind.Pawn? ==> r.piece == q.(moved := r.piece.moved))
  {
  }

  /** A pawn's flags after the decision: `promotion` is set iff the move is
      accepted onto a square of its promotion table; `en_passant` changes
      (as Pawn._check_en_passant says) iff the move is accepted onto an
      empty square; `can_en_passant` does not change. */
  lemma DecidePawn(q: Piece, moves: Moves, t: Pos, b: Board)
    requires Shaped(b) && (forall m :: m in moves ==> InBounds(m)) && q.kind.Pawn?
    ensures var r := Decide(q, moves, t, b);
      r.piece.kind.Pawn? && r.piece.kind.canEnPassant == q.kind.canEnPassant &&
      (r.piece.kind.promotion <==> q.kind.promotion || (r.ok && t in Pawn.PromotionTiles(q.color))) &&
      (r.ok && InBounds(t) && Empty(b, t) ==>
        (r.piece.kind.enPassant <==>
          !q.kind.enPassant && t.1 == q.pos.1 && (t.0 == q.pos.0 + 2 || t.0 == q.pos.0 - 2))) &&
      (!(r.ok && InBounds(t) && Empty(b, t)) ==> r.piece.kind.enPassant == q.kind.enPassant)
  {
  }

  /** check_move for the right colour is the decision on the generated moves. */
  lemma CheckMoveVerdict(p: Piece, t: Pos, b: Board, pColor: string)
    requires Valid(b) && InBounds(p.pos) && Terminal.InsideRanks(b, p) && pColor == Key(p.color)
    ensures var r := CheckMove(p, t, b, pColor);
      r.Done? ==> (GetMoves(p, b, false).Done? &&
        var g := GetMoves(p, b, false).value;
        (r.value.ok <==> t in g.moves && !HoldsKing(b, t)) &&
        (r.value.piece.moved <==> p.moved || t in g.moves) &&
        (t !in g.moves ==> r.value.piece == g.piece))
  {
    Terminal.MovesOnBoard(p, b, false);
    var r := GetMoves(p, b, false);
    if r.Done? {
      DecideExact(r.value.piece, r.value.moves, t, b);
    }
  }

  /** A pawn's flags after check_move: as DecidePawn, with the pawn before
      its generator, which changes only `can_en_passant`. */
  lemma CheckMovePawn(p: Piece, t: Pos, b: Board, pColor: string)
    requires Valid(b) && InBounds(p.pos) && Terminal.InsideRanks(b, p) && p.kind.Pawn? && pColor == Key(p.color)
    ensures var r := CheckMove(p, t, b, pColor);
      r.Done? ==> (r.value.piece.kind.Pawn? &&
        (r.value.piece.kind.promotion <==> p.kind.promotion || (r.value.ok && t in Pawn.PromotionTiles(p.color))) &&
        (r.value.ok && InBounds(t) && Empty(b, t) ==>
          (r.value.piece.kind.enPassant <==>
            !p.kind.enPassant && t.1 == p.pos.1 && (t.0 == p.pos.0 + 2 || t.0 == p.pos.0 - 2))) &&
        (!(r.value.ok && InBounds(t) && Empty(b, t)) ==> r.value.piece.kind.enPassant == p.kind.enPassant) &&
        r.value.piece.kind.canEnPassant == Pawn.PawnMoves(b, p).piece.kind.canEnPassant)
  {
    Terminal.MovesOnBoard(p, b, false);
    var g := Pawn.PawnMoves(b, p);
    Pawn.PawnPiece(b, p);
    assert GetMoves(p, b, false) == Done(g);
    DecidePawn(g.piece, g.moves, t, b);
  }

  /** A piece other than a pawn or a king only gains `moved`. */
  lemma CheckMoveOther(p: Piece, t: Pos, b: Board, pColor: string)
    requires Valid(b) && InBounds(p.pos) && Terminal.InsideRanks(b, p) && !p.kind.Pawn? && !p.kind.King?
    ensures var r := CheckMove(p, t, b, pColor);
      r.Done? ==> r.value.piece == p.(moved := r.value.piece.moved)
  {
    Terminal.MovesOnBoard(p, b, false);
    var g := GetMoves(p, b, false).value;
    assert g.piece == p;
    DecideExact(g.piece, g.moves, t, b);
  }
}
