/** King.is_checkmate and King.is_stalemate (SimpleChessGame/pieces.py:388-434).

    Both scan the board in row-major order and stop at the first answer.
    Every `is_checked` they call writes `cannot_castle` on the king, and the
    king's own cell is generated with castling on, so the king is threaded
    through the scans: it is the piece used for its own cell. */
module Terminal {
  import opened Board
  import opened KingSafety
  import KingFacts
  import Sliding
  import Knight
  import Pawn

  /** The state of a scan: whether it found what it looks for, and the king. */
  datatype Search = Search(found: bool, king: Piece)

  /** The answer of is_checkmate or is_stalemate, and the king afterwards. */
  datatype Verdict = Verdict(holds: bool, king: Piece)

  /** The rank a pawn of colour `c` advances towards. */
  function FarRank(c: Color): int
  {
    if c == White then 7 else 0
  }

  /** The en passant squares of `q` lie inside the ranks: a pawn on its far
      rank has no en passant victim beside it, since the square one row
      forward of the victim would be row 8 (which raises in Python) or row -1
      (which wraps around). No other piece and no other pawn is restricted. */
  predicate InsideRanks(b: Board, q: Piece)
    requires Shaped(b)
  {
    q.kind.Pawn? && q.pos.0 == FarRank(q.color) ==>
      !Pawn.Victim(b, q, (q.pos.0, q.pos.1 + 1)) && !Pawn.Victim(b, q, (q.pos.0, q.pos.1 - 1))
  }

  predicate OwnPawnsInside(b: Board, c: Color)
    requires Shaped(b)
  {
    forall r, cc :: 0 <= r < 8 && 0 <= cc < 8 && b[r][cc].Some? && b[r][cc].value.color == c ==>
      InsideRanks(b, b[r][cc].value)
  }

  /** The generated moves of a piece whose en passant squares lie inside the ranks are squares of the board. */
  lemma MovesOnBoard(q: Piece, b: Board, skip: bool)
    requires Valid(b) && InBounds(q.pos) && InsideRanks(b, q)
    ensures GetMoves(q, b, skip).Done? ==> forall m :: m in GetMoves(q, b, skip).value.moves ==> InBounds(m)
  {
    var r := GetMoves(q, b, skip);
    if r.Done? {
      forall m | m in r.value.moves
        ensures InBounds(m)
      {
        match q.kind
        case Pawn(_, _, _) =>
          Pawn.PawnMovesShape(b, q, m);
        case Knight =>
          Knight.KnightMovesExact(b, q, m);
        case King(_, _) =>
          KingMoveOnBoard(q, b, skip, m);
        case _ =>
          Sliding.SlideTargets(b, q, Sliding.Directions(q.kind), m);
      }
    }
  }

  /** The king's generated moves are squares of the board. */
  lemma KingMoveOnBoard(k: Piece, b: Board, skip: bool, m: Pos)
    requires Valid(b) && InBounds(k.pos) && k.kind.King?
    requires KingMoves(k, b, skip).Done? && m in KingMoves(k, b, skip).value.moves
    ensures InBounds(m)
  {
    KingFacts.KingMovesExact(k, b, skip);
    var other := OtherKingFrom(b, k.color, 0, 0).value;
    if KingFacts.Neighbour(k.pos, 0, m) && KingFacts.KeepStep(b, k.color, k.pos, other, m) {
    } else {
      CastleOnBoard(k, b, m);
    }
  }

  /** Castling destinations are squares of the board. */
  lemma CastleOnBoard(k: Piece, b: Board, m: Pos)
    requires Valid(b) && InBounds(k.pos) && k.kind.King?
    requires CanCastle(k, b).Done? && m in CanCastle(k, b).value.moves
    ensures InBounds(m)
  {
    if !k.kind.cannotCastle {
      KingFacts.CanCastleExact(k, b);
    }
  }

  /** The test of both loops of is_checkmate: `m` is a square of the board
      and, on the copy with the piece on `from` moved to `m`, no piece of the
      other colour generates `loc`. */
  predicate Relieves(b: Board, c: Color, loc: Pos, from: Pos, m: Pos): (r: bool)
    requires Valid(b) && InBounds(from)
    ensures r ==> InBounds(m) && At(b, from).Some?
  {
    InBounds(m) &&
    match TempBoard(b, from, m)
    case Raised => false
    case Done(tmp) => AttackedFrom(tmp.0, c, loc, true, 0, 0) == Done(false)
  }

  /** The king-move loop of is_checkmate from move `i` on: found when the
      king, moved to the square, is not attacked there. */
  function KingEscape(k: Piece, b: Board, moves: Moves, i: nat): (r: Outcome<Search>)
    requires Valid(b) && InBounds(k.pos) && k.kind.King? && i <= |moves|
    requires forall m :: m in moves ==> InBounds(m)
    ensures r.Done? ==> SameKing(k, r.value.king)
    decreases |moves| - i
  {
    if i == |moves| then Done(Search(false, k))
    else
      match TempBoard(b, k.pos, moves[i])
      case Raised => Raised
      case Done(tmp) =>
        match IsChecked(k, tmp.0, tmp.1, true)
        case Raised => Raised
        case Done(c) => if !c.checked then Done(Search(true, c.king)) else KingEscape(c.king, b, moves, i + 1)
  }

  /** The inner loop of the piece scan of is_checkmate over the moves of the
      piece on `from`: found when, after the move, the king's own square is
      not attacked. */
  function MoveEscape(k: Piece, b: Board, from: Pos, moves: Moves, i: nat): (r: Outcome<Search>)
    requires Valid(b) && InBounds(k.pos) && k.kind.King? && InBounds(from) && i <= |moves|
    requires forall m :: m in moves ==> InBounds(m)
    ensures r.Done? ==> SameKing(k, r.value.king)
    decreases |moves| - i
  {
    if i == |moves| then Done(Search(false, k))
    else
      match TempBoard(b, from, moves[i])
      case Raised => Raised
      case Done(tmp) =>
        match IsChecked(k, tmp.0, None, true)
        case Raised => Raised
        case Done(c) => if !c.checked then Done(Search(true, c.king)) else MoveEscape(c.king, b, from, moves, i + 1)
  }

  /** The piece to generate on an own cell: the king itself on its square. */
  function CellPiece(k: Piece, p: Piece, row: int, col: int): Piece
  {
    if (row, col) == k.pos then k else p
  }

  /** The piece scan of is_checkmate from (row, col) on: every piece of the
      king's colour is generated (with castling on) and each of its moves
      tried until one relieves the king. */
  function PieceEscape(k: Piece, b: Board, row: int, col: int): (r: Outcome<Search>)
    requires Valid(b) && InBounds(k.pos) && k.kind.King? && OwnPawnsInside(b, k.color)
    requires 0 <= row <= 8 && 0 <= col <= 8
    ensures r.Done? ==> SameKing(k, r.value.king)
    decreases 8 - row, 8 - col
  {
    if row == 8 then Done(Search(false, k))
    else if col == 8 then PieceEscape(k, b, row + 1, 0)
    else
      match b[row][col]
      case None => PieceEscape(k, b, row, col + 1)
      case Some(p) =>
        if p.color != k.color then PieceEscape(k, b, row, col + 1)
        else
          var q := CellPiece(k, p, row, col);
          assert q.pos == (row, col) && InsideRanks(b, q);
          MovesOnBoard(q, b, false);
          match GetMoves(q, b, false)
          case Raised => Raised
          case Done(g) =>
            match MoveEscape(if (row, col) == k.pos then g.piece else k, b, (row, col), g.moves, 0)
            case Raised => Raised
            case Done(s) => if s.found then Done(s) else PieceEscape(s.king, b, row, col + 1)
  }

  /** King.is_checkmate: false as soon as a king move (castling off) leaves
      the king unattacked, or a move of a piece of its colour leaves the
      king's square unattacked; true otherwise, also when nothing can move. */
  function Checkmate(k: Piece, b: Board): (r: Outcome<Verdict>)
    requires Valid(b) && InBounds(k.pos) && k.kind.King? && OwnPawnsInside(b, k.color)
    requires At(b, k.pos) == Some(k)
    ensures r.Done? ==> SameKing(k, r.value.king)
  {
    match KingMoves(k, b, true)
    case Raised => Raised
    case Done(g) =>
      MovesOnBoard(k, b, true);
      match KingEscape(g.piece, b, g.moves, 0)
      case Raised => Raised
      case Done(s) =>
        if s.found then Done(Verdict(false, s.king))
        else
          match PieceEscape(s.king, b, 0, 0)
          case Raised => Raised
          case Done(t) => Done(Verdict(!t.found, t.king))
  }

  /** The piece scan of is_stalemate from (row, col) on: found at the first
      piece of the king's colour with any generated move. */
  function AnyMoves(k: Piece, b: Board, row: int, col: int): (r: Outcome<Search>)
    requires Valid(b) && InBounds(k.pos) && k.kind.King? && 0 <= row <= 8 && 0 <= col <= 8
    ensures r.Done? ==> SameKing(k, r.value.king)
    decreases 8 - row, 8 - col
  {
    if row == 8 then Done(Search(false, k))
    else if col == 8 then AnyMoves(k, b, row + 1, 0)
    else
      match b[row][col]
      case None => AnyMoves(k, b, row, col + 1)
      case Some(p) =>
        if p.color != k.color then AnyMoves(k, b, row, col + 1)
        else
          var q := CellPiece(k, p, row, col);
          assert q.pos == (row, col);
          match GetMoves(q, b, false)
          case Raised => Raised
          case Done(g) =>
            var k' := if (row, col) == k.pos then g.piece else k;
            if g.moves != [] then Done(Search(true, k')) else AnyMoves(k', b, row, col + 1)
  }

  /** King.is_stalemate: false when the king is checked (castling on), when
      it has a move, or when a piece of its colour has one; true otherwise. */
  function Stalemate(k: Piece, b: Board): (r: Outcome<Verdict>)
    requires Valid(b) && InBounds(k.pos) && k.kind.King?
    requires At(b, k.pos) == Some(k)
    ensures r.Done? ==> SameKing(k, r.value.king)
  {
    match IsChecked(k, b, None, false)
    case Raised => Raised
    case Done(c) =>
      if c.checked then Done(Verdict(false, c.king))
      else
        match KingMoves(c.king, b, false)
        case Raised => Raised
        case Done(g) =>
          if g.moves != [] then Done(Verdict(false, g.piece))
          else
            match AnyMoves(g.piece, b, 0, 0)
            case Raised => Raised
            case Done(s) => Done(Verdict(!s.found, s.king))
  }
}
