/** The King's analysis in SimpleChessGame/pieces.py: the opposing-king
    lookup, King._get_moves, King.is_checked and King._can_castle, which call
    one another, plus the per-kind dispatch of `_get_moves` they use.

    Termination: a capture simulation removes one piece from the board, and
    the castling search only asks `is_checked` with the castling skip set, so
    every cycle lowers (piece count, castling level) lexicographically; the
    third component orders the functions of one cycle and the last two count
    the loop positions. */
module KingSafety {
  import opened Board
  import Sliding
  import Knight
  import Pawn

  const KingOffsets: seq<Pos> := [(-1, 1), (1, 1), (-1, -1), (1, -1), (-1, 0), (0, 1), (1, 0), (0, -1)]

  /** The castling destinations, indexed like the unmoved rooks they pair with. */
  function CastleDestinations(c: Color): (d: seq<Pos>)
    ensures |d| == 2 && InBounds(d[0]) && InBounds(d[1]) && d[0].0 == d[1].0 == CastleRank(c)
    ensures forall m :: m in d ==> InBounds(m)
  {
    if c == White then [(0, 2), (0, 6)] else [(7, 2), (7, 6)]
  }

  function CastleRank(c: Color): int
  {
    if c == White then 0 else 7
  }

  /** Level of the castling skip flag: a call with the skip set never reaches `_can_castle`. */
  function Lvl(skip: bool): nat
  {
    if skip then 0 else 1
  }

  /** The result of `is_checked`: the verdict and the king afterwards. */
  datatype Check = Check(checked: bool, king: Piece)

  /** A king `k2` is `k1` after flag updates: same square, colour and
      `moved`, and neither castling flag was cleared. */
  predicate SameKing(k1: Piece, k2: Piece)
  {
    k1.kind.King? && k2.kind.King? && k2.pos == k1.pos && k2.color == k1.color && k2.moved == k1.moved &&
    (k1.kind.cannotCastle ==> k2.kind.cannotCastle) && (k1.kind.castle ==> k2.kind.castle)
  }

  /** A piece `q2` is `q1` after a generator ran: only flags of its own kind may differ. */
  predicate SamePiece(q1: Piece, q2: Piece)
  {
    q2.pos == q1.pos && q2.color == q1.color && q2.moved == q1.moved &&
    (q1.kind.King? <==> q2.kind.King?) && (q1.kind.Pawn? <==> q2.kind.Pawn?) &&
    (!q1.kind.King? && !q1.kind.Pawn? ==> q2.kind == q1.kind) &&
    (q1.kind.King? ==> SameKing(q1, q2)) &&
    (q1.kind.Pawn? ==> q2.kind.enPassant == q1.kind.enPassant && q2.kind.promotion == q1.kind.promotion)
  }

  lemma KingOffsetsUnit()
    ensures |KingOffsets| == 8 && Sliding.UnitDirs(KingOffsets)
  {
  }

  /** King.other_king_location: the first king of a colour other than `c` in
      row-major order from (row, col), or None when there is none. */
  function OtherKingFrom(b: Board, c: Color, row: int, col: int): (r: Option<Pos>)
    requires Valid(b) && 0 <= row <= 8 && 0 <= col <= 8
    ensures r.Some? ==>
      InBounds(r.value) && At(b, r.value).Some? && At(b, r.value).value.kind.King? && At(b, r.value).value.color != c
    decreases 8 - row, 8 - col
  {
    if row == 8 then None
    else if col == 8 then OtherKingFrom(b, c, row + 1, 0)
    else if b[row][col].Some? && b[row][col].value.kind.King? && b[row][col].value.color != c
    then Some(b[row][col].value.pos)
    else OtherKingFrom(b, c, row, col + 1)
  }

  /** Piece._get_moves for any piece; only the king takes the castling skip. */
  function GetMoves(q: Piece, b: Board, skip: bool): (r: Outcome<Gen>)
    requires Valid(b) && InBounds(q.pos)
    ensures r.Done? ==> SamePiece(q, r.value.piece)
    ensures !q.kind.King? ==> r.Done?
    decreases Count(b), Lvl(skip), 3, 0, 0
  {
    if q.kind.King? then KingMoves(q, b, skip)
    else if q.kind.Pawn? then Done(Pawn.PawnMoves(b, q))
    else if q.kind.Knight? then Done(Gen(Knight.KnightMoves(b, q), q))
    else Done(Gen(Sliding.SlidingMoves(b, q), q))
  }

  lemma GetMovesOfKing(k: Piece, b: Board, skip: bool)
    requires Valid(b) && InBounds(k.pos) && k.kind.King?
    ensures GetMoves(k, b, skip) == KingMoves(k, b, skip)
  {
  }

  /** King._get_moves: the single steps (kept by KingSteps) followed by the
      castling moves, which are searched only when `skip` is false. Raises
      when there is no king of the other colour (the unpack of None). */
  function KingMoves(k: Piece, b: Board, skip: bool): (r: Outcome<Gen>)
    requires Valid(b) && InBounds(k.pos) && k.kind.King?
    ensures r.Done? ==> SameKing(k, r.value.piece)
    decreases Count(b), Lvl(skip), 2, 0, 0
  {
    match OtherKingFrom(b, k.color, 0, 0)
    case None => Raised
    case Some(other) =>
      var castling := if skip then Done(Gen([], k)) else CanCastle(k, b);
      match castling
      case Raised => Raised
      case Done(cg) =>
        match KingSteps(cg.piece, b, other, 0, [])
        case Raised => Raised
        case Done(sg) => Done(Gen(sg.moves + cg.moves, sg.piece))
  }

  /** The step test of King._get_moves (pieces.py's `< 1` on both
      coordinates), which holds only on the opposing king's own square. */
  predicate NextToOther(t: Pos, other: Pos): (r: bool)
    ensures r <==> t == other
  {
    Pawn.Abs(t.0 - other.0) < 1 && Pawn.Abs(t.1 - other.1) < 1
  }

  /** The step loop of King._get_moves from offset `i` on, `acc` holding the
      steps kept so far: an empty square is kept, a square of the other
      colour is kept only when the capture, simulated on a copy of the board,
      does not leave the king in check. */
  function KingSteps(k: Piece, b: Board, other: Pos, i: nat, acc: Moves): (r: Outcome<Gen>)
    requires Valid(b) && InBounds(k.pos) && k.kind.King? && i <= 8
    ensures r.Done? ==> SameKing(k, r.value.piece)
    decreases Count(b), 0, 1, 8 - i, 0
  {
    if i == 8 then Done(Gen(acc, k))
    else
      var t := Plus(k.pos, KingOffsets[i]);
      if !InBounds(t) || NextToOther(t, other) then KingSteps(k, b, other, i + 1, acc)
      else if Empty(b, t) then KingSteps(k, b, other, i + 1, acc + [t])
      else if At(b, t).value.color == k.color then KingSteps(k, b, other, i + 1, acc)
      else
        KingOffsetsUnit();
        assert t != k.pos by { assert Sliding.UnitDir(KingOffsets[i]); }
        match TempBoard(b, k.pos, t)
        case Raised => Raised
        case Done(tmp) =>
          match IsChecked(k, tmp.0, tmp.1, true)
          case Raised => Raised
          case Done(v) => KingSteps(v.king, b, other, i + 1, if v.checked then acc else acc + [t])
  }

  /** The square whose safety `is_checked` tests: the king's own square, or
      the square of the simulated piece when one is given. */
  function KingLocation(k: Piece, temp: Option<Piece>): Pos
  {
    if temp.None? then k.pos else temp.value.pos
  }

  /** King.is_checked: the king's square (see KingLocation) is among the
      generated moves of some piece of the other colour; a hit also sets
      `cannot_castle` on the king, for good. */
  function IsChecked(k: Piece, b: Board, temp: Option<Piece>, skip: bool): (r: Outcome<Check>)
    requires Valid(b) && k.kind.King?
    ensures r.Done? ==> r.value.king == if r.value.checked then k.(kind := k.kind.(cannotCastle := true)) else k
    decreases Count(b), Lvl(skip), 5, 0, 0
  {
    match AttackedFrom(b, k.color, KingLocation(k, temp), skip, 0, 0)
    case Raised => Raised
    case Done(hit) => Done(Check(hit, if hit then k.(kind := k.kind.(cannotCastle := true)) else k))
  }

  /** The board scan of is_checked from (row, col) on, in row-major order:
      true at the first piece of a colour other than `c` whose generated
      moves contain `loc`; the opposing king is generated with `skip`. */
  function AttackedFrom(b: Board, c: Color, loc: Pos, skip: bool, row: int, col: int): (r: Outcome<bool>)
    requires Valid(b) && 0 <= row <= 8 && 0 <= col <= 8
    ensures r == Done(true) ==>
      exists rr, cc :: 0 <= rr < 8 && 0 <= cc < 8 && (rr > row || (rr == row && cc >= col)) &&
        b[rr][cc].Some? && b[rr][cc].value.color != c
    decreases Count(b), Lvl(skip), 4, 8 - row, 8 - col
  {
    if row == 8 then Done(false)
    else if col == 8 then AttackedFrom(b, c, loc, skip, row + 1, 0)
    else match b[row][col]
      case None => AttackedFrom(b, c, loc, skip, row, col + 1)
      case Some(q) =>
        if q.color == c then AttackedFrom(b, c, loc, skip, row, col + 1)
        else
          assert q.pos == (row, col);
          match GetMoves(q, b, skip)
          case Raised => Raised
          case Done(g) => if loc in g.moves then Done(true) else AttackedFrom(b, c, loc, skip, row, col + 1)
  }

  /** The unmoved rooks (of either colour) on `rank`, from column `col` on, in column order. */
  function UnmovedRooks(b: Board, rank: int, col: int): (r: seq<Pos>)
    requires Shaped(b) && 0 <= rank < 8 && 0 <= col <= 8
    ensures forall i :: 0 <= i < |r| ==> r[i].0 == rank && col <= r[i].1 < 8
    decreases 8 - col
  {
    if col == 8 then []
    else
      (if b[rank][col].Some? && b[rank][col].value.kind.Rook? && !b[rank][col].value.moved
       then [(rank, col)] else [])
      + UnmovedRooks(b, rank, col + 1)
  }

  /** check_path: every square of `rank` strictly between the two columns is empty. */
  predicate PathClear(b: Board, rank: int, colKing: int, colRook: int): (r: bool)
    requires Shaped(b) && 0 <= rank < 8 && 0 <= colKing < 8 && 0 <= colRook < 8
    ensures r <==> forall col :: (colKing < col < colRook || colRook < col < colKing) ==> b[rank][col].None?
  {
    var start, stop := if colKing < colRook then colKing else colRook, if colKing < colRook then colRook else colKing;
    forall col :: start < col < stop ==> b[rank][col].None?
  }

  /** The pairing loop of _can_castle from rook index `i` on: a rook whose
      path is clear is paired with the destination of the same index; a
      third such rook indexes past the two destinations and raises. */
  function CastlePairs(b: Board, rank: int, colKing: int, rooks: seq<Pos>, dests: seq<Pos>, i: nat): Outcome<seq<Pos>>
    requires Shaped(b) && 0 <= rank < 8 && 0 <= colKing < 8 && i <= |rooks|
    requires forall j :: 0 <= j < |rooks| ==> 0 <= rooks[j].1 < 8
    decreases |rooks| - i
  {
    if i == |rooks| then Done([])
    else if PathClear(b, rank, colKing, rooks[i].1) then
      if i < |dests| then
        match CastlePairs(b, rank, colKing, rooks, dests, i + 1)
        case Raised => Raised
        case Done(rest) => Done([dests[i]] + rest)
      else Raised
    else CastlePairs(b, rank, colKing, rooks, dests, i + 1)
  }

  /** King._can_castle: nothing when `cannot_castle` is set; otherwise the
      destinations paired with the unmoved rooks of the castling rank that
      pass the path and safety checks. */
  function CanCastle(k: Piece, b: Board): (r: Outcome<Gen>)
    requires Valid(b) && InBounds(k.pos) && k.kind.King?
    ensures r.Done? ==> SameKing(k, r.value.piece)
    decreases Count(b), 1, 1, 0, 0
  {
    if k.kind.cannotCastle then Done(Gen([], k))
    else
      var rank := CastleRank(k.color);
      var dests := CastleDestinations(k.color);
      match CastlePairs(b, rank, k.pos.1, UnmovedRooks(b, rank, 0), dests, 0)
      case Raised => Raised
      case Done(cm) =>
        CastlePairsIn(b, rank, k.pos.1, UnmovedRooks(b, rank, 0), dests, 0);
        CastleSafe(k, b, cm, 0, [])
  }

  /** Every paired destination is one of `dests`. */
  lemma {:induction false} CastlePairsIn(b: Board, rank: int, colKing: int, rooks: seq<Pos>, dests: seq<Pos>, i: nat)
    requires Shaped(b) && 0 <= rank < 8 && 0 <= colKing < 8 && i <= |rooks|
    requires forall j :: 0 <= j < |rooks| ==> 0 <= rooks[j].1 < 8
    ensures var r := CastlePairs(b, rank, colKing, rooks, dests, i);
      r.Done? ==> forall m :: m in r.value ==> m in dests
    decreases |rooks| - i
  {
    if i < |rooks| {
      CastlePairsIn(b, rank, colKing, rooks, dests, i + 1);
    }
  }

  /** The safety loop of _can_castle from candidate `i` on: on a copy of the
      board with the king moved to the destination, neither the king's old
      square nor the destination may be attacked; each destination kept sets
      the `castle` flag. */
  function CastleSafe(k: Piece, b: Board, dests: seq<Pos>, i: nat, acc: Moves): (r: Outcome<Gen>)
    requires Valid(b) && InBounds(k.pos) && k.kind.King? && i <= |dests|
    requires forall m :: m in dests ==> InBounds(m)
    ensures r.Done? ==> SameKing(k, r.value.piece)
    decreases Count(b), 1, 0, |dests| - i, 0
  {
    if i == |dests| then Done(Gen(acc, k))
    else
      match TempBoard(b, k.pos, dests[i])
      case Raised => Raised
      case Done(tmp) =>
        match IsChecked(k, tmp.0, None, true)
        case Raised => Raised
        case Done(c1) =>
          if c1.checked then CastleSafe(c1.king, b, dests, i + 1, acc)
          else
            match IsChecked(c1.king, tmp.0, tmp.1, true)
            case Raised => Raised
            case Done(c2) =>
              if c2.checked then CastleSafe(c2.king, b, dests, i + 1, acc)
              else CastleSafe(c2.king.(kind := c2.king.kind.(castle := true)), b, dests, i + 1, acc + [dests[i]])
  }
}
