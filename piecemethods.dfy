/** The loops of SimpleChessGame/pieces.py's King and of Piece.check_move,
    written as the source writes them: nested row/column scans, the step
    loop over TILE_MOVEMENTS and the three loops of _can_castle. Each method
    is proved to compute the specification function of the same name in
    KingSafety, Terminal or Verdict, and the king's flag writes are the
    returned piece. The calls among them recurse exactly as the functions
    do, with the same termination measure. */
module PieceMethods {
  import opened Board
  import KingSafety
  import Terminal
  import Verdict
  import Sliding
  import Knight
  import Pawn

  /** King.other_king_location. */
  method OtherKingLocation(b: Board, c: Color) returns (r: Option<Pos>)
    requires Valid(b)
    ensures r == KingSafety.OtherKingFrom(b, c, 0, 0)
  {
    for row := 0 to 8
      invariant KingSafety.OtherKingFrom(b, c, row, 0) == KingSafety.OtherKingFrom(b, c, 0, 0)
    {
      for col := 0 to 8
        invariant KingSafety.OtherKingFrom(b, c, row, col) == KingSafety.OtherKingFrom(b, c, 0, 0)
      {
        var chesspiece := b[row][col];
        if chesspiece.Some? && chesspiece.value.kind.King? && chesspiece.value.color != c {
          return Some(chesspiece.value.pos);
        }
      }
    }
    return None;
  }

  /** King.temporary_board, cell by cell on the copy: the piece on `s` is
      written to `t`, given its new position there, and `s` is emptied. */
  method TemporaryBoard(b: Board, s: Pos, t: Pos) returns (r: Outcome<(Board, Option<Piece>)>)
    requires Valid(b) && InBounds(s) && InBounds(t)
    ensures r == TempBoard(b, s, t)
  {
    var temp: Board := b;
    var chesspiece: Option<Piece> := temp[s.0][s.1];
    if chesspiece.None? {
      return Raised;
    }
    temp := temp[t.0 := temp[t.0][t.1 := chesspiece]];
    temp := temp[t.0 := temp[t.0][t.1 := Some(chesspiece.value.(pos := t))]];
    assert temp[t.0] == b[t.0][t.1 := Some(chesspiece.value.(pos := t))];
    assert temp == Put(b, t, Some(chesspiece.value.(pos := t)));
    temp := temp[s.0 := temp[s.0][s.1 := None]];
    return Done((temp, temp[t.0][t.1]));
  }

  /** Piece._get_moves, dispatched on the kind of piece. */
  method GetMoves(q: Piece, b: Board, skip: bool) returns (r: Outcome<Gen>)
    requires Valid(b) && InBounds(q.pos)
    ensures r == KingSafety.GetMoves(q, b, skip)
    decreases Count(b), KingSafety.Lvl(skip), 3
  {
    match q.kind
    case Pawn(_, _, _) =>
      var g := Pawn.GetPawnMoves(b, q);
      r := Done(g);
    case Knight =>
      var moves := Knight.GetKnightMoves(b, q);
      r := Done(Gen(moves, q));
    case King(_, _) =>
      r := KingGetMoves(q, b, skip);
    case _ =>
      var moves := Sliding.GetSlidingMoves(b, q);
      r := Done(Gen(moves, q));
  }

  /** King._get_moves. */
  method KingGetMoves(k: Piece, b: Board, skip: bool) returns (r: Outcome<Gen>)
    requires Valid(b) && InBounds(k.pos) && k.kind.King?
    ensures r == KingSafety.KingMoves(k, b, skip)
    decreases Count(b), KingSafety.Lvl(skip), 2
  {
    var other := OtherKingLocation(b, k.color);
    if other.None? {
      return Raised;
    }
    var castling := Gen([], k);
    if !skip {
      var c := CanCastle(k, b);
      if c.Raised? {
        return Raised;
      }
      castling := c.value;
    }
    var steps := KingSteps(castling.piece, b, other.value);
    if steps.Raised? {
      return Raised;
    }
    r := Done(Gen(steps.value.moves + castling.moves, steps.value.piece));
  }

  /** The loop of King._get_moves over TILE_MOVEMENTS. */
  method KingSteps(k: Piece, b: Board, other: Pos) returns (r: Outcome<Gen>)
    requires Valid(b) && InBounds(k.pos) && k.kind.King?
    ensures r == KingSafety.KingSteps(k, b, other, 0, [])
    decreases Count(b), 0, 1
  {
    var self, viable := k, [];
    KingSafety.KingOffsetsUnit();
    for i := 0 to 8
      invariant KingSafety.SameKing(k, self)
      invariant KingSafety.KingSteps(self, b, other, i, viable) == KingSafety.KingSteps(k, b, other, 0, [])
    {
      var t := Plus(self.pos, KingSafety.KingOffsets[i]);
      if !InBounds(t) || KingSafety.NextToOther(t, other) {
        continue;
      }
      var piece := At(b, t);
      if piece.None? {
        viable := viable + [t];
      } else if piece.value.color != self.color {
        assert t != self.pos by { assert Sliding.UnitDir(KingSafety.KingOffsets[i]); }
        var temp := TempBoard(b, self.pos, t);
        if temp.Raised? {
          return Raised;
        }
        var c := IsChecked(self, temp.value.0, temp.value.1, true);
        if c.Raised? {
          return Raised;
        }
        if !c.value.checked {
          viable := viable + [t];
        }
        self := c.value.king;
      }
    }
    r := Done(Gen(viable, self));
  }

  /** King.is_checked. */
  method IsChecked(k: Piece, b: Board, temp: Option<Piece>, skip: bool) returns (r: Outcome<KingSafety.Check>)
    requires Valid(b) && k.kind.King?
    ensures r == KingSafety.IsChecked(k, b, temp, skip)
    decreases Count(b), KingSafety.Lvl(skip), 5
  {
    var loc := KingSafety.KingLocation(k, temp);
    ghost var total := KingSafety.AttackedFrom(b, k.color, loc, skip, 0, 0);
    for row := 0 to 8
      invariant KingSafety.AttackedFrom(b, k.color, loc, skip, row, 0) == total
    {
      for col := 0 to 8
        invariant KingSafety.AttackedFrom(b, k.color, loc, skip, row, col) == total
      {
        var chesspiece := b[row][col];
        if chesspiece.Some? && chesspiece.value.color != k.color {
          assert chesspiece.value.pos == (row, col);
          var moves := GetMoves(chesspiece.value, b, skip);
          if moves.Raised? {
            return Raised;
          }
          if loc in moves.value.moves {
            return Done(KingSafety.Check(true, k.(kind := k.kind.(cannotCastle := true))));
          }
        }
      }
    }
    return Done(KingSafety.Check(false, k));
  }

  /** The rook loop of King._can_castle. */
  method UnmovedRooks(b: Board, rank: int) returns (rooks: seq<Pos>)
    requires Shaped(b) && 0 <= rank < 8
    ensures rooks == KingSafety.UnmovedRooks(b, rank, 0)
  {
    rooks := [];
    ghost var all := KingSafety.UnmovedRooks(b, rank, 0);
    assert rooks + all == all;
    for col := 0 to 8
      invariant rooks + KingSafety.UnmovedRooks(b, rank, col) == all
    {
      RooksStep(b, rank, col, rooks);
      var p := b[rank][col];
      if p.Some? && p.value.kind.Rook? && !p.value.moved {
        rooks := rooks + [(rank, col)];
      }
    }
    assert rooks + [] == rooks;
  }

  /** One column of the rook loop. */
  lemma RooksStep(b: Board, rank: int, col: int, rooks: seq<Pos>)
    requires Shaped(b) && 0 <= rank < 8 && 0 <= col < 8
    ensures var p := b[rank][col];
      rooks + KingSafety.UnmovedRooks(b, rank, col) ==
      (if p.Some? && p.value.kind.Rook? && !p.value.moved then rooks + [(rank, col)] else rooks) +
      KingSafety.UnmovedRooks(b, rank, col + 1)
  {
    var rest := KingSafety.UnmovedRooks(b, rank, col + 1);
    var p := b[rank][col];
    if p.Some? && p.value.kind.Rook? && !p.value.moved {
      assert rooks + ([(rank, col)] + rest) == (rooks + [(rank, col)]) + rest;
    } else {
      assert [] + rest == rest;
    }
  }

  /** check_path, the helper of King._can_castle. */
  method CheckPath(b: Board, rank: int, colKing: int, colRook: int) returns (clear: bool)
    requires Shaped(b) && 0 <= rank < 8 && 0 <= colKing < 8 && 0 <= colRook < 8
    ensures clear == KingSafety.PathClear(b, rank, colKing, colRook)
  {
    var start, stop := colRook, colKing;
    if colKing < colRook {
      start, stop := colKing, colRook;
    }
    var col := start + 1;
    while col < stop
      invariant start + 1 <= col && (col <= stop || stop <= start + 1)
      invariant forall c :: start < c < col ==> b[rank][c].None?
      decreases stop - col
    {
      if b[rank][col].Some? {
        return false;
      }
      col := col + 1;
    }
    return true;
  }

  /** King._can_castle. */
  method CanCastle(k: Piece, b: Board) returns (r: Outcome<Gen>)
    requires Valid(b) && InBounds(k.pos) && k.kind.King?
    ensures r == KingSafety.CanCastle(k, b)
    decreases Count(b), 1, 1
  {
    if k.kind.cannotCastle {
      return Done(Gen([], k));
    }
    var rank := KingSafety.CastleRank(k.color);
    var dests := KingSafety.CastleDestinations(k.color);
    var rooks := UnmovedRooks(b, rank);
    var castle := CastleMoves(b, rank, k.pos.1, rooks, dests);
    if castle.Raised? {
      return Raised;
    }
    KingSafety.CastlePairsIn(b, rank, k.pos.1, rooks, dests, 0);
    r := CastleSafe(k, b, castle.value);
  }

  /** `r` with `pre` put in front of its value. */
  function Prefixed(pre: seq<Pos>, r: Outcome<seq<Pos>>): Outcome<seq<Pos>>
  {
    match r
    case Raised => Raised
    case Done(rest) => Done(pre + rest)
  }

  /** The pairing loop of King._can_castle: the i-th rook with a clear path
      pairs with the i-th destination, past which the list raises. */
  method CastleMoves(b: Board, rank: int, colKing: int, rooks: seq<Pos>, dests: seq<Pos>) returns (r: Outcome<seq<Pos>>)
    requires Shaped(b) && 0 <= rank < 8 && 0 <= colKing < 8
    requires forall j :: 0 <= j < |rooks| ==> 0 <= rooks[j].1 < 8
    ensures r == KingSafety.CastlePairs(b, rank, colKing, rooks, dests, 0)
  {
    var moves := [];
    ghost var all := KingSafety.CastlePairs(b, rank, colKing, rooks, dests, 0);
    if all.Done? {
      assert moves + all.value == all.value;
    }
    for index := 0 to |rooks|
      invariant KingSafety.CastlePairs(b, rank, colKing, rooks, dests, 0) ==
        Prefixed(moves, KingSafety.CastlePairs(b, rank, colKing, rooks, dests, index))
    {
      var clear := CheckPath(b, rank, colKing, rooks[index].1);
      if clear {
        if index >= |dests| {
          return Raised;
        }
        ghost var rest := KingSafety.CastlePairs(b, rank, colKing, rooks, dests, index + 1);
        if rest.Done? {
          assert moves + ([dests[index]] + rest.value) == (moves + [dests[index]]) + rest.value;
        }
        moves := moves + [dests[index]];
      }
    }
    assert moves + [] == moves;
    r := Done(moves);
  }

  /** The safety loop of King._can_castle. */
  method CastleSafe(k: Piece, b: Board, moves: seq<Pos>) returns (r: Outcome<Gen>)
    requires Valid(b) && InBounds(k.pos) && k.kind.King?
    requires forall m :: m in moves ==> InBounds(m)
    ensures r == KingSafety.CastleSafe(k, b, moves, 0, [])
    decreases Count(b), 1, 0
  {
    var self, viable := k, [];
    for i := 0 to |moves|
      invariant KingSafety.SameKing(k, self)
      invariant KingSafety.CastleSafe(self, b, moves, i, viable) == KingSafety.CastleSafe(k, b, moves, 0, [])
    {
      var temp := TempBoard(b, self.pos, moves[i]);
      if temp.Raised? {
        return Raised;
      }
      var old_square := IsChecked(self, temp.value.0, None, true);
      if old_square.Raised? {
        return Raised;
      }
      self := old_square.value.king;
      if !old_square.value.checked {
        var new_square := IsChecked(self, temp.value.0, temp.value.1, true);
        if new_square.Raised? {
          return Raised;
        }
        self := new_square.value.king;
        if !new_square.value.checked {
          viable := viable + [moves[i]];
          self := self.(kind := self.kind.(castle := true));
        }
      }
    }
    r := Done(Gen(viable, self));
  }

  /** The move loop of the piece scan of King.is_checkmate, for the piece on `from`. */
  method TryMoves(k: Piece, b: Board, from: Pos, moves: Moves) returns (r: Outcome<Terminal.Search>)
    requires Valid(b) && InBounds(k.pos) && k.kind.King? && InBounds(from)
    requires forall m :: m in moves ==> InBounds(m)
    ensures r == Terminal.MoveEscape(k, b, from, moves, 0)
  {
    var self := k;
    for i := 0 to |moves|
      invariant KingSafety.SameKing(k, self)
      invariant Terminal.MoveEscape(self, b, from, moves, i) == Terminal.MoveEscape(k, b, from, moves, 0)
    {
      var temp := TempBoard(b, from, moves[i]);
      if temp.Raised? {
        return Raised;
      }
      var c := IsChecked(self, temp.value.0, None, true);
      if c.Raised? {
        return Raised;
      }
      self := c.value.king;
      if !c.value.checked {
        return Done(Terminal.Search(true, self));
      }
    }
    r := Done(Terminal.Search(false, self));
  }

  /** The king-move loop of King.is_checkmate. */
  method TryKingMoves(k: Piece, b: Board, moves: Moves) returns (r: Outcome<Terminal.Search>)
    requires Valid(b) && InBounds(k.pos) && k.kind.King?
    requires forall m :: m in moves ==> InBounds(m)
    ensures r == Terminal.KingEscape(k, b, moves, 0)
  {
    var self := k;
    for i := 0 to |moves|
      invariant KingSafety.SameKing(k, self)
      invariant Terminal.KingEscape(self, b, moves, i) == Terminal.KingEscape(k, b, moves, 0)
    {
      var temp := TempBoard(b, self.pos, moves[i]);
      if temp.Raised? {
        return Raised;
      }
      var c := IsChecked(self, temp.value.0, temp.value.1, true);
      if c.Raised? {
        return Raised;
      }
      self := c.value.king;
      if !c.value.checked {
        return Done(Terminal.Search(true, self));
      }
    }
    r := Done(Terminal.Search(false, self));
  }

  /** The piece scan of King.is_checkmate. */
  method TryPieces(k: Piece, b: Board) returns (r: Outcome<Terminal.Search>)
    requires Valid(b) && InBounds(k.pos) && k.kind.King? && Terminal.OwnPawnsInside(b, k.color)
    ensures r == Terminal.PieceEscape(k, b, 0, 0)
  {
    var self := k;
    for row := 0 to 8
      invariant KingSafety.SameKing(k, self)
      invariant Terminal.PieceEscape(self, b, row, 0) == Terminal.PieceEscape(k, b, 0, 0)
    {
      for col := 0 to 8
        invariant KingSafety.SameKing(k, self)
        invariant Terminal.PieceEscape(self, b, row, col) == Terminal.PieceEscape(k, b, 0, 0)
      {
        var chesspiece := b[row][col];
        if chesspiece.Some? && chesspiece.value.color == self.color {
          var q := Terminal.CellPiece(self, chesspiece.value, row, col);
          assert q.pos == (row, col) && Terminal.InsideRanks(b, q);
          Terminal.MovesOnBoard(q, b, false);
          var viable := GetMoves(q, b, false);
          if viable.Raised? {
            return Raised;
          }
          var s := TryMoves(if (row, col) == self.pos then viable.value.piece else self, b, (row, col), viable.value.moves);
          if s.Raised? {
            return Raised;
          }
          self := s.value.king;
          if s.value.found {
            return s;
          }
        }
      }
    }
    r := Done(Terminal.Search(false, self));
  }

  /** King.is_checkmate. */
  method IsCheckmate(k: Piece, b: Board) returns (r: Outcome<Terminal.Verdict>)
    requires Valid(b) && InBounds(k.pos) && k.kind.King? && Terminal.OwnPawnsInside(b, k.color)
    requires At(b, k.pos) == Some(k)
    ensures r == Terminal.Checkmate(k, b)
  {
    var kingMoves := KingGetMoves(k, b, true);
    if kingMoves.Raised? {
      return Raised;
    }
    Terminal.MovesOnBoard(k, b, true);
    var s := TryKingMoves(kingMoves.value.piece, b, kingMoves.value.moves);
    if s.Raised? {
      return Raised;
    }
    if s.value.found {
      return Done(Terminal.Verdict(false, s.value.king));
    }
    var t := TryPieces(s.value.king, b);
    if t.Raised? {
      return Raised;
    }
    r := Done(Terminal.Verdict(!t.value.found, t.value.king));
  }

  /** King.is_stalemate. */
  method IsStalemate(k: Piece, b: Board) returns (r: Outcome<Terminal.Verdict>)
    requires Valid(b) && InBounds(k.pos) && k.kind.King?
    requires At(b, k.pos) == Some(k)
    ensures r == Terminal.Stalemate(k, b)
  {
    var checked := IsChecked(k, b, None, false);
    if checked.Raised? {
      return Raised;
    }
    if checked.value.checked {
      return Done(Terminal.Verdict(false, checked.value.king));
    }
    var kingMoves := KingGetMoves(checked.value.king, b, false);
    if kingMoves.Raised? {
      return Raised;
    }
    var self := kingMoves.value.piece;
    if kingMoves.value.moves != [] {
      return Done(Terminal.Verdict(false, self));
    }
    var scan := ScanMoves(self, b);
    if scan.Raised? {
      return Raised;
    }
    r := Done(Terminal.Verdict(!scan.value.found, scan.value.king));
  }

  /** The board scan of King.is_stalemate. */
  method ScanMoves(k: Piece, b: Board) returns (r: Outcome<Terminal.Search>)
    requires Valid(b) && InBounds(k.pos) && k.kind.King?
    ensures r == Terminal.AnyMoves(k, b, 0, 0)
  {
    var self := k;
    ghost var scan := Terminal.AnyMoves(k, b, 0, 0);
    for row := 0 to 8
      invariant KingSafety.SameKing(k, self)
      invariant Terminal.AnyMoves(self, b, row, 0) == scan
    {
      for col := 0 to 8
        invariant KingSafety.SameKing(k, self)
        invariant Terminal.AnyMoves(self, b, row, col) == scan
      {
        var chesspiece := b[row][col];
        if chesspiece.Some? && chesspiece.value.color == self.color {
          var q := Terminal.CellPiece(self, chesspiece.value, row, col);
          assert q.pos == (row, col);
          var viable := GetMoves(q, b, false);
          if viable.Raised? {
            return Raised;
          }
          if (row, col) == self.pos {
            self := viable.value.piece;
          }
          if viable.value.moves != [] {
            return Done(Terminal.Search(true, self));
          }
        }
      }
    }
    r := Done(Terminal.Search(false, self));
  }

  /** Piece.check_move. */
  method CheckMove(p: Piece, t: Pos, b: Board, pColor: string) returns (r: Outcome<Verdict.MoveCheck>)
    requires Valid(b) && InBounds(p.pos) && Terminal.InsideRanks(b, p)
    ensures r == Verdict.CheckMove(p, t, b, pColor)
  {
    if pColor != Key(p.color) {
      return Done(Verdict.MoveCheck(false, p));
    }
    var viable := GetMoves(p, b, false);
    if viable.Raised? {
      return Raised;
    }
    Terminal.MovesOnBoard(p, b, false);
    var self := viable.value.piece;
    if t !in viable.value.moves {
      return Done(Verdict.MoveCheck(false, self));
    }
    var piece := At(b, t);
    self := self.(moved := true);
    if piece.None? {
      if self.kind.Pawn? {
        self := Pawn.IsPromotion(self, t);
        self := Pawn.CheckEnPassant(self, t);
      }
      return Done(Verdict.MoveCheck(true, self));
    }
    if !piece.value.kind.King? {
      if self.kind.Pawn? {
        self := Pawn.IsPromotion(self, t);
      }
      return Done(Verdict.MoveCheck(true, self));
    }
    r := Done(Verdict.MoveCheck(false, self));
  }
}
