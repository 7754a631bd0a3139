/** What is_checkmate and is_stalemate decide, stated as conditions on the
    board and proved against their definitions. */
module TerminalFacts {
  import opened Board
  import opened KingSafety
  import opened Terminal
  import KingFacts
  import Sliding

  /** The king with `cannot_castle` set when `flag` holds. */
  function Barred(k: Piece, flag: bool): Piece
    requires k.kind.King?
  {
    k.(kind := k.kind.(cannotCastle := k.kind.cannotCastle || flag))
  }

  /** Some move from index `i` on leaves the king unattacked on its new square. */
  predicate StepRelief(b: Board, c: Color, from: Pos, moves: Moves, i: nat)
    requires Valid(b) && InBounds(from)
  {
    exists j :: i <= j < |moves| && Relieves(b, c, moves[j], from, moves[j])
  }

  lemma StepReliefNext(b: Board, c: Color, from: Pos, moves: Moves, i: nat)
    requires Valid(b) && InBounds(from) && i < |moves|
    ensures StepRelief(b, c, from, moves, i) == (Relieves(b, c, moves[i], from, moves[i]) || StepRelief(b, c, from, moves, i + 1))
  {
    if StepRelief(b, c, from, moves, i) {
      var j :| i <= j < |moves| && Relieves(b, c, moves[j], from, moves[j]);
      if j != i {
        assert i + 1 <= j < |moves| && Relieves(b, c, moves[j], from, moves[j]);
      }
    }
    if Relieves(b, c, moves[i], from, moves[i]) {
      assert i <= i < |moves| && Relieves(b, c, moves[i], from, moves[i]);
    }
    if StepRelief(b, c, from, moves, i + 1) {
      var j :| i + 1 <= j < |moves| && Relieves(b, c, moves[j], from, moves[j]);
      assert i <= j < |moves| && Relieves(b, c, moves[j], from, moves[j]);
    }
  }

  /** The king-move loop, exactly: it finds a move iff some remaining move
      leaves the king unattacked on its new square; when it finds none, each
      failed test has set `cannot_castle`. */
  lemma {:induction false} KingEscapeExact(k: Piece, b: Board, moves: Moves, i: nat)
    requires Valid(b) && InBounds(k.pos) && k.kind.King? && i <= |moves|
    requires forall m :: m in moves ==> InBounds(m)
    ensures var r := KingEscape(k, b, moves, i);
      r.Done? ==>
        (r.value.found <==> StepRelief(b, k.color, k.pos, moves, i)) &&
        (!r.value.found ==> r.value.king == Barred(k, i < |moves|))
    decreases |moves| - i, 1
  {
    if i < |moves| && KingEscape(k, b, moves, i).Done? {
      KingEscapeNext(k, b, moves, i);
    }
  }

  lemma {:induction false} KingEscapeNext(k: Piece, b: Board, moves: Moves, i: nat)
    requires Valid(b) && InBounds(k.pos) && k.kind.King? && i < |moves|
    requires forall m :: m in moves ==> InBounds(m)
    requires KingEscape(k, b, moves, i).Done?
    ensures var r := KingEscape(k, b, moves, i);
      r.Done? ==>
        (r.value.found <==> StepRelief(b, k.color, k.pos, moves, i)) &&
        (!r.value.found ==> r.value.king == Barred(k, i < |moves|))
    decreases |moves| - i, 0
  {
    var checked, k' := KingEscapeStep(k, b, moves, i);
    StepReliefNext(b, k.color, k.pos, moves, i);
    if checked {
      KingEscapeExact(k', b, moves, i + 1);
    }
  }

  /** One move of the king-move loop. */
  lemma KingEscapeStep(k: Piece, b: Board, moves: Moves, i: nat) returns (checked: bool, k': Piece)
    requires Valid(b) && InBounds(k.pos) && k.kind.King? && i < |moves|
    requires forall m :: m in moves ==> InBounds(m)
    requires KingEscape(k, b, moves, i).Done?
    ensures checked == !Relieves(b, k.color, moves[i], k.pos, moves[i])
    ensures k' == Barred(k, checked) && k'.pos == k.pos && k'.color == k.color
    ensures !checked ==> KingEscape(k, b, moves, i).value.found
    ensures checked ==> KingEscape(k, b, moves, i) == KingEscape(k', b, moves, i + 1)
  {
    var m := moves[i];
    var tmp := TempBoard(b, k.pos, m).value;
    assert KingLocation(k, tmp.1) == m;
    var c := IsChecked(k, tmp.0, tmp.1, true).value;
    checked, k' := c.checked, c.king;
  }

  /** Some move from index `i` of the piece on `from` leaves the king's square unattacked. */
  predicate MoveRelief(b: Board, c: Color, loc: Pos, from: Pos, moves: Moves, i: nat)
    requires Valid(b) && InBounds(from)
  {
    exists j :: i <= j < |moves| && Relieves(b, c, loc, from, moves[j])
  }

  lemma MoveReliefNext(b: Board, c: Color, loc: Pos, from: Pos, moves: Moves, i: nat)
    requires Valid(b) && InBounds(from) && i < |moves|
    ensures MoveRelief(b, c, loc, from, moves, i) == (Relieves(b, c, loc, from, moves[i]) || MoveRelief(b, c, loc, from, moves, i + 1))
  {
    if MoveRelief(b, c, loc, from, moves, i) {
      var j :| i <= j < |moves| && Relieves(b, c, loc, from, moves[j]);
      if j != i {
        assert i + 1 <= j < |moves| && Relieves(b, c, loc, from, moves[j]);
      }
    }
    if Relieves(b, c, loc, from, moves[i]) {
      assert i <= i < |moves| && Relieves(b, c, loc, from, moves[i]);
    }
    if MoveRelief(b, c, loc, from, moves, i + 1) {
      var j :| i + 1 <= j < |moves| && Relieves(b, c, loc, from, moves[j]);
      assert i <= j < |moves| && Relieves(b, c, loc, from, moves[j]);
    }
  }

  /** The move loop of the piece scan, exactly: it finds a move iff some
      remaining move leaves the king's own square unattacked. */
  lemma {:induction false} MoveEscapeExact(k: Piece, b: Board, from: Pos, moves: Moves, i: nat)
    requires Valid(b) && InBounds(k.pos) && k.kind.King? && InBounds(from) && i <= |moves|
    requires forall m :: m in moves ==> InBounds(m)
    ensures var r := MoveEscape(k, b, from, moves, i);
      r.Done? ==>
        (r.value.found <==> MoveRelief(b, k.color, k.pos, from, moves, i)) &&
        (!r.value.found ==> r.value.king == Barred(k, i < |moves|))
    decreases |moves| - i, 1
  {
    if i < |moves| && MoveEscape(k, b, from, moves, i).Done? {
      MoveEscapeNext(k, b, from, moves, i);
    }
  }

  lemma {:induction false} MoveEscapeNext(k: Piece, b: Board, from: Pos, moves: Moves, i: nat)
    requires Valid(b) && InBounds(k.pos) && k.kind.King? && InBounds(from) && i < |moves|
    requires forall m :: m in moves ==> InBounds(m)
    requires MoveEscape(k, b, from, moves, i).Done?
    ensures var r := MoveEscape(k, b, from, moves, i);
      r.Done? ==>
        (r.value.found <==> MoveRelief(b, k.color, k.pos, from, moves, i)) &&
        (!r.value.found ==> r.value.king == Barred(k, i < |moves|))
    decreases |moves| - i, 0
  {
    var checked, k' := MoveEscapeStep(k, b, from, moves, i);
    MoveReliefNext(b, k.color, k.pos, from, moves, i);
    if checked {
      MoveEscapeExact(k', b, from, moves, i + 1);
    }
  }

  /** One move of the move loop of the piece scan. */
  lemma MoveEscapeStep(k: Piece, b: Board, from: Pos, moves: Moves, i: nat) returns (checked: bool, k': Piece)
    requires Valid(b) && InBounds(k.pos) && k.kind.King? && InBounds(from) && i < |moves|
    requires forall m :: m in moves ==> InBounds(m)
    requires MoveEscape(k, b, from, moves, i).Done?
    ensures checked == !Relieves(b, k.color, k.pos, from, moves[i])
    ensures k' == Barred(k, checked) && k'.pos == k.pos && k'.color == k.color
    ensures !checked ==> MoveEscape(k, b, from, moves, i).value.found
    ensures checked ==> MoveEscape(k, b, from, moves, i) == MoveEscape(k', b, from, moves, i + 1)
  {
    var tmp := TempBoard(b, from, moves[i]).value;
    var c := IsChecked(k, tmp.0, None, true).value;
    checked, k' := c.checked, c.king;
  }

  /** A castling move always relieves the king in the piece scan: the scan
      tests the king's old square on the same copy that _can_castle already
      found unattacked. */
  lemma CastleRelieves(k: Piece, b: Board, d: Pos)
    requires Valid(b) && InBounds(k.pos) && k.kind.King?
    requires CanCastle(k, b).Done? && d in CanCastle(k, b).value.moves
    ensures Relieves(b, k.color, k.pos, k.pos, d)
  {
    if !k.kind.cannotCastle {
      KingFacts.CanCastleExact(k, b);
      var j :| 0 <= j < |UnmovedRooks(b, CastleRank(k.color), 0)| && j < |CastleDestinations(k.color)| &&
        d == CastleDestinations(k.color)[j] &&
        PathClear(b, CastleRank(k.color), k.pos.1, UnmovedRooks(b, CastleRank(k.color), 0)[j].1) &&
        KingFacts.CastleOk(b, k.color, k.pos, d);
    }
  }

  /** (r, c) comes strictly before `p` in row-major order. */
  predicate Before(r: int, c: int, p: Pos)
  {
    r < p.0 || (r == p.0 && c < p.1)
  }

  /** The cell (r, c) holds a piece of the king's colour other than the king
      itself, with some generated move. */
  predicate OtherHasMoves(b: Board, k: Piece, r: int, c: int)
    requires Valid(b) && 0 <= r < 8 && 0 <= c < 8
  {
    (r, c) != k.pos && b[r][c].Some? && b[r][c].value.color == k.color &&
    assert b[r][c].value.pos == (r, c);
    GetMoves(b[r][c].value, b, false).Done? && GetMoves(b[r][c].value, b, false).value.moves != []
  }

  /** Some piece of the king's colour at or after (row, col) and before the
      king's square has a move: the scan tests (and fails) one of those moves
      before reaching the king, setting `cannot_castle`. */
  predicate MovesBefore(b: Board, k: Piece, row: int, col: int)
    requires Valid(b)
  {
    exists r, c :: 0 <= r < 8 && 0 <= c < 8 && KingFacts.AtOrAfter(r, c, row, col) && Before(r, c, k.pos) &&
      OtherHasMoves(b, k, r, c)
  }

  /** The cell (r, c) holds a piece of the king's colour (the king itself in
      state `ks` on its own square) with a move that relieves the king. */
  predicate Escapes(b: Board, k: Piece, ks: Piece, r: int, c: int)
    requires Valid(b) && InBounds(k.pos) && OwnPawnsInside(b, k.color) && 0 <= r < 8 && 0 <= c < 8
    requires ks.pos == k.pos && ks.color == k.color && ks.kind.King?
  {
    b[r][c].Some? && b[r][c].value.color == k.color &&
    var q := CellPiece(ks, b[r][c].value, r, c);
    assert q.pos == (r, c) && InsideRanks(b, q);
    GetMoves(q, b, false).Done? &&
    exists m :: m in GetMoves(q, b, false).value.moves && Relieves(b, k.color, k.pos, (r, c), m)
  }

  /** Some cell at or after (row, col) escapes as Escapes says. */
  predicate EscapesFrom(b: Board, k: Piece, ks: Piece, row: int, col: int)
    requires Valid(b) && InBounds(k.pos) && OwnPawnsInside(b, k.color)
    requires ks.pos == k.pos && ks.color == k.color && ks.kind.King?
  {
    exists rr, cc :: 0 <= rr < 8 && 0 <= cc < 8 && KingFacts.AtOrAfter(rr, cc, row, col) && Escapes(b, k, ks, rr, cc)
  }

  lemma EscapesState(b: Board, k1: Piece, ks1: Piece, k2: Piece, ks2: Piece, r: int, c: int)
    requires Valid(b) && InBounds(k1.pos) && OwnPawnsInside(b, k1.color) && 0 <= r < 8 && 0 <= c < 8
    requires ks1.pos == k1.pos && ks1.color == k1.color && ks1.kind.King?
    requires ks2.pos == k1.pos && ks2.color == k1.color && ks2.kind.King?
    requires k2.pos == k1.pos && k2.color == k1.color
    requires (r, c) != k1.pos || ks1 == ks2
    ensures Escapes(b, k1, ks1, r, c) == Escapes(b, k2, ks2, r, c)
  {
  }

  lemma MovesBeforeState(b: Board, k1: Piece, k2: Piece, row: int, col: int)
    requires Valid(b) && k2.pos == k1.pos && k2.color == k1.color
    ensures MovesBefore(b, k1, row, col) == MovesBefore(b, k2, row, col)
  {
    if MovesBefore(b, k1, row, col) {
      var r, c :| 0 <= r < 8 && 0 <= c < 8 && KingFacts.AtOrAfter(r, c, row, col) && Before(r, c, k1.pos) &&
        OtherHasMoves(b, k1, r, c);
      assert OtherHasMoves(b, k2, r, c);
    }
    if MovesBefore(b, k2, row, col) {
      var r, c :| 0 <= r < 8 && 0 <= c < 8 && KingFacts.AtOrAfter(r, c, row, col) && Before(r, c, k2.pos) &&
        OtherHasMoves(b, k2, r, c);
      assert OtherHasMoves(b, k1, r, c);
    }
  }

  lemma MovesBeforeStep(b: Board, k: Piece, row: int, col: int)
    requires Valid(b) && 0 <= row < 8 && 0 <= col < 8
    ensures MovesBefore(b, k, row, col) ==
      ((Before(row, col, k.pos) && OtherHasMoves(b, k, row, col)) || MovesBefore(b, k, row, col + 1))
  {
    if MovesBefore(b, k, row, col) {
      MovesBeforeLater(b, k, row, col);
    }
    if Before(row, col, k.pos) && OtherHasMoves(b, k, row, col) {
      assert 0 <= row < 8 && 0 <= col < 8 && KingFacts.AtOrAfter(row, col, row, col) && Before(row, col, k.pos) &&
        OtherHasMoves(b, k, row, col);
    }
    if MovesBefore(b, k, row, col + 1) {
      var r, c :| 0 <= r < 8 && 0 <= c < 8 && KingFacts.AtOrAfter(r, c, row, col + 1) && Before(r, c, k.pos) &&
        OtherHasMoves(b, k, r, c);
      assert 0 <= r < 8 && 0 <= c < 8 && KingFacts.AtOrAfter(r, c, row, col) && Before(r, c, k.pos) &&
        OtherHasMoves(b, k, r, c);
    }
  }

  lemma MovesBeforeLater(b: Board, k: Piece, row: int, col: int)
    requires Valid(b) && 0 <= row < 8 && 0 <= col < 8 && MovesBefore(b, k, row, col)
    ensures (Before(row, col, k.pos) && OtherHasMoves(b, k, row, col)) || MovesBefore(b, k, row, col + 1)
  {
    var r, c :| 0 <= r < 8 && 0 <= c < 8 && KingFacts.AtOrAfter(r, c, row, col) && Before(r, c, k.pos) &&
      OtherHasMoves(b, k, r, c);
    if (r, c) != (row, col) {
      assert 0 <= r < 8 && 0 <= c < 8 && KingFacts.AtOrAfter(r, c, row, col + 1) && Before(r, c, k.pos) &&
        OtherHasMoves(b, k, r, c);
    }
  }

  lemma MovesBeforeRow(b: Board, k: Piece, row: int)
    requires Valid(b) && 0 <= row < 8
    ensures MovesBefore(b, k, row, 8) == MovesBefore(b, k, row + 1, 0)
  {
    if MovesBefore(b, k, row, 8) {
      var r, c :| 0 <= r < 8 && 0 <= c < 8 && KingFacts.AtOrAfter(r, c, row, 8) && Before(r, c, k.pos) &&
        OtherHasMoves(b, k, r, c);
      assert KingFacts.AtOrAfter(r, c, row + 1, 0);
    }
    if MovesBefore(b, k, row + 1, 0) {
      var r, c :| 0 <= r < 8 && 0 <= c < 8 && KingFacts.AtOrAfter(r, c, row + 1, 0) && Before(r, c, k.pos) &&
        OtherHasMoves(b, k, r, c);
      assert KingFacts.AtOrAfter(r, c, row, 8);
    }
  }

  lemma MovesBeforePassed(b: Board, k: Piece, row: int, col: int)
    requires Valid(b) && !Before(row, col, k.pos)
    ensures !MovesBefore(b, k, row, col)
  {
  }

  /** The piece scan of is_checkmate, exactly: it finds a relieving move iff
      some piece of the king's colour at or after (row, col) has one, the
      king's own moves being generated with `cannot_castle` set when an
      earlier piece of its colour had any move (whose failed test set it). */
  lemma {:induction false} PieceEscapeExact(k: Piece, b: Board, row: int, col: int)
    requires Valid(b) && InBounds(k.pos) && k.kind.King? && OwnPawnsInside(b, k.color)
    requires 0 <= row <= 8 && 0 <= col <= 8
    ensures var r := PieceEscape(k, b, row, col);
      r.Done? ==> (r.value.found <==> EscapesFrom(b, k, Barred(k, MovesBefore(b, k, row, col)), row, col))
    decreases 8 - row, 8 - col, 1
  {
    if row < 8 && PieceEscape(k, b, row, col).Done? {
      if col == 8 {
        PieceEscapeNextRow(k, b, row);
      } else {
        PieceEscapeNextCell(k, b, row, col);
      }
    }
  }

  /** PieceEscapeExact past the end of a row. */
  lemma {:induction false} PieceEscapeNextRow(k: Piece, b: Board, row: int)
    requires Valid(b) && InBounds(k.pos) && k.kind.King? && OwnPawnsInside(b, k.color)
    requires 0 <= row < 8
    ensures var r := PieceEscape(k, b, row, 8);
      r.Done? ==> (r.value.found <==> EscapesFrom(b, k, Barred(k, MovesBefore(b, k, row, 8)), row, 8))
    decreases 8 - row, 0, 0
  {
    PieceEscapeExact(k, b, row + 1, 0);
    MovesBeforeRow(b, k, row);
    ScanRow(b, k, Barred(k, MovesBefore(b, k, row, 8)), row);
  }

  /** PieceEscapeExact at a cell of the board. */
  lemma {:induction false} PieceEscapeNextCell(k: Piece, b: Board, row: int, col: int)
    requires Valid(b) && InBounds(k.pos) && k.kind.King? && OwnPawnsInside(b, k.color)
    requires 0 <= row < 8 && 0 <= col < 8
    ensures var r := PieceEscape(k, b, row, col);
      r.Done? ==> (r.value.found <==> EscapesFrom(b, k, Barred(k, MovesBefore(b, k, row, col)), row, col))
    decreases 8 - row, 8 - col, 0
  {
    var ks := Barred(k, MovesBefore(b, k, row, col));
    if PieceEscape(k, b, row, col).Done? {
      MovesBeforeStep(b, k, row, col);
      if b[row][col].None? || b[row][col].value.color != k.color {
        PieceEscapeExact(k, b, row, col + 1);
        assert !Escapes(b, k, ks, row, col);
        ScanCell(b, k, ks, k, ks, row, col);
      } else {
        var st := OwnCell(k, b, row, col);
        if !st.found {
          PieceEscapeExact(st.king, b, row, col + 1);
          ScanCell(b, k, ks, st.king, Barred(st.king, MovesBefore(b, st.king, row, col + 1)), row, col);
        } else {
          assert 0 <= row < 8 && 0 <= col < 8 && KingFacts.AtOrAfter(row, col, row, col) && Escapes(b, k, ks, row, col);
        }
      }
    }
  }

  /** One own cell of the piece scan: its verdict, and the king state the
      scan goes on with. */
  lemma OwnCell(k: Piece, b: Board, row: int, col: int) returns (st: Search)
    requires Valid(b) && InBounds(k.pos) && k.kind.King? && OwnPawnsInside(b, k.color)
    requires 0 <= row < 8 && 0 <= col < 8 && b[row][col].Some? && b[row][col].value.color == k.color
    requires PieceEscape(k, b, row, col).Done?
    ensures st.king.kind.King? && st.king.pos == k.pos && st.king.color == k.color
    ensures st.found == Escapes(b, k, Barred(k, MovesBefore(b, k, row, col)), row, col)
    ensures st.found ==> PieceEscape(k, b, row, col).value.found
    ensures !st.found ==> PieceEscape(k, b, row, col) == PieceEscape(st.king, b, row, col + 1)
    ensures !st.found && KingFacts.AtOrAfter(k.pos.0, k.pos.1, row, col + 1) ==>
      Barred(st.king, MovesBefore(b, st.king, row, col + 1)) == Barred(k, MovesBefore(b, k, row, col))
  {
    var ks := Barred(k, MovesBefore(b, k, row, col));
    MovesBeforeStep(b, k, row, col);
    var p := b[row][col].value;
    var q := CellPiece(k, p, row, col);
    assert q.pos == (row, col) && InsideRanks(b, q);
    MovesOnBoard(q, b, false);
    var g := GetMoves(q, b, false).value;
    var home := (row, col) == k.pos;
    var k0 := if home then g.piece else k;
    MoveEscapeExact(k0, b, (row, col), g.moves, 0);
    st := MoveEscape(k0, b, (row, col), g.moves, 0).value;
    if home {
      MovesBeforePassed(b, k, row, col);
      assert ks == k;
    } else {
      assert OtherHasMoves(b, k, row, col) <==> g.moves != [];
    }
    MovesBeforeState(b, k, st.king, row, col + 1);
  }

  /** Past the end of a row the cells still to scan are those of the next row on. */
  lemma ScanRow(b: Board, k: Piece, ks: Piece, row: int)
    requires Valid(b) && InBounds(k.pos) && OwnPawnsInside(b, k.color) && 0 <= row < 8
    requires ks.pos == k.pos && ks.color == k.color && ks.kind.King?
    ensures EscapesFrom(b, k, ks, row, 8) == EscapesFrom(b, k, ks, row + 1, 0)
  {
    if exists rr, cc :: 0 <= rr < 8 && 0 <= cc < 8 && KingFacts.AtOrAfter(rr, cc, row + 1, 0) && Escapes(b, k, ks, rr, cc) {
      var rr, cc :| 0 <= rr < 8 && 0 <= cc < 8 && KingFacts.AtOrAfter(rr, cc, row + 1, 0) && Escapes(b, k, ks, rr, cc);
      assert KingFacts.AtOrAfter(rr, cc, row, 8);
    }
  }

  /** One cell of the scan: the cells from (row, col + 1) on judged with the
      king state after the cell stand for those from (row, col) on, apart
      from the cell itself. */
  lemma ScanCell(b: Board, k: Piece, ks: Piece, k2: Piece, ks2: Piece, row: int, col: int)
    requires Valid(b) && InBounds(k.pos) && OwnPawnsInside(b, k.color) && 0 <= row < 8 && 0 <= col < 8
    requires ks.pos == k.pos && ks.color == k.color && ks.kind.King?
    requires ks2.pos == k.pos && ks2.color == k.color && ks2.kind.King?
    requires k2.pos == k.pos && k2.color == k.color
    requires KingFacts.AtOrAfter(k.pos.0, k.pos.1, row, col + 1) ==> ks2 == ks
    ensures EscapesFrom(b, k, ks, row, col) == (Escapes(b, k, ks, row, col) || EscapesFrom(b, k2, ks2, row, col + 1))
  {
    if EscapesFrom(b, k, ks, row, col) {
      ScanCellLater(b, k, ks, k2, ks2, row, col);
    }
    if EscapesFrom(b, k2, ks2, row, col + 1) {
      ScanCellEarlier(b, k, ks, k2, ks2, row, col);
    }
    if Escapes(b, k, ks, row, col) {
      assert 0 <= row < 8 && 0 <= col < 8 && KingFacts.AtOrAfter(row, col, row, col) && Escapes(b, k, ks, row, col);
    }
  }

  lemma ScanCellLater(b: Board, k: Piece, ks: Piece, k2: Piece, ks2: Piece, row: int, col: int)
    requires Valid(b) && InBounds(k.pos) && OwnPawnsInside(b, k.color) && 0 <= row < 8 && 0 <= col < 8
    requires ks.pos == k.pos && ks.color == k.color && ks.kind.King?
    requires ks2.pos == k.pos && ks2.color == k.color && ks2.kind.King?
    requires k2.pos == k.pos && k2.color == k.color
    requires KingFacts.AtOrAfter(k.pos.0, k.pos.1, row, col + 1) ==> ks2 == ks
    requires EscapesFrom(b, k, ks, row, col)
    ensures Escapes(b, k, ks, row, col) || EscapesFrom(b, k2, ks2, row, col + 1)
  {
    var rr, cc :| 0 <= rr < 8 && 0 <= cc < 8 && KingFacts.AtOrAfter(rr, cc, row, col) && Escapes(b, k, ks, rr, cc);
    if (rr, cc) != (row, col) {
      EscapesState(b, k, ks, k2, ks2, rr, cc);
      assert 0 <= rr < 8 && 0 <= cc < 8 && KingFacts.AtOrAfter(rr, cc, row, col + 1) && Escapes(b, k2, ks2, rr, cc);
    }
  }

  lemma ScanCellEarlier(b: Board, k: Piece, ks: Piece, k2: Piece, ks2: Piece, row: int, col: int)
    requires Valid(b) && InBounds(k.pos) && OwnPawnsInside(b, k.color) && 0 <= row < 8 && 0 <= col < 8
    requires ks.pos == k.pos && ks.color == k.color && ks.kind.King?
    requires ks2.pos == k.pos && ks2.color == k.color && ks2.kind.King?
    requires k2.pos == k.pos && k2.color == k.color
    requires KingFacts.AtOrAfter(k.pos.0, k.pos.1, row, col + 1) ==> ks2 == ks
    requires EscapesFrom(b, k2, ks2, row, col + 1)
    ensures EscapesFrom(b, k, ks, row, col)
  {
    var rr, cc :| 0 <= rr < 8 && 0 <= cc < 8 && KingFacts.AtOrAfter(rr, cc, row, col + 1) && Escapes(b, k2, ks2, rr, cc);
    EscapesState(b, k, ks, k2, ks2, rr, cc);
    assert 0 <= rr < 8 && 0 <= cc < 8 && KingFacts.AtOrAfter(rr, cc, row, col) && Escapes(b, k, ks, rr, cc);
  }

  /** Some king step (castling off) leaves the king unattacked on its new square. */
  predicate StepEscape(b: Board, k: Piece, g: Gen)
    requires Valid(b) && InBounds(k.pos)
  {
    StepRelief(b, k.color, k.pos, g.moves, 0)
  }

  /** Some piece of the king's colour (the king in state `ks`) has a move
      after which the king's square is unattacked. */
  predicate ScanEscape(b: Board, k: Piece, ks: Piece)
    requires Valid(b) && InBounds(k.pos) && OwnPawnsInside(b, k.color)
    requires ks.pos == k.pos && ks.color == k.color && ks.kind.King?
  {
    exists rr, cc :: 0 <= rr < 8 && 0 <= cc < 8 && Escapes(b, k, ks, rr, cc)
  }

  /** The king as the piece scan of is_checkmate generates it: after the
      king-move loop (`g` is its generation with castling off) every failed
      test set `cannot_castle`, and so did every failed move of a piece of
      its colour before its square. */
  function KingInScan(b: Board, k: Piece, g: Gen): (ks: Piece)
    requires Valid(b) && g.piece.kind.King?
    ensures ks.pos == g.piece.pos && ks.color == g.piece.color && ks.kind.King?
  {
    Barred(Barred(g.piece, g.moves != []), MovesBefore(b, k, 0, 0))
  }

  /** King.is_checkmate, exactly: it answers false iff a king step (castling
      off) leaves the king unattacked on its new square, or a piece of its
      colour has a move after which the king's square is unattacked, the
      king being generated in that scan with castling on (see KingInScan). */
  lemma CheckmateExact(k: Piece, b: Board)
    requires Valid(b) && InBounds(k.pos) && k.kind.King? && OwnPawnsInside(b, k.color)
    requires At(b, k.pos) == Some(k)
    ensures Checkmate(k, b).Done? ==>
      KingMoves(k, b, true).Done? && SameKing(k, KingMoves(k, b, true).value.piece) &&
      (!Checkmate(k, b).value.holds <==>
        StepEscape(b, k, KingMoves(k, b, true).value) ||
        ScanEscape(b, k, KingInScan(b, k, KingMoves(k, b, true).value)))
  {
    if Checkmate(k, b).Done? {
      var g, s := CheckmateUnfold(k, b);
      KingEscapeExact(g.piece, b, g.moves, 0);
      if !s.found {
        var ks := KingInScan(b, k, g);
        PieceEscapeExact(s.king, b, 0, 0);
        MovesBeforeState(b, k, s.king, 0, 0);
        EscapesRebase(b, k, ks, s.king, Barred(s.king, MovesBefore(b, s.king, 0, 0)));
      }
    }
  }

  /** The two phases of is_checkmate. */
  lemma CheckmateUnfold(k: Piece, b: Board) returns (g: Gen, s: Search)
    requires Valid(b) && InBounds(k.pos) && k.kind.King? && OwnPawnsInside(b, k.color)
    requires At(b, k.pos) == Some(k)
    requires Checkmate(k, b).Done?
    ensures KingMoves(k, b, true) == Done(g) && g.piece.kind.King? && g.piece.pos == k.pos && g.piece.color == k.color
    ensures forall m :: m in g.moves ==> InBounds(m)
    ensures KingEscape(g.piece, b, g.moves, 0) == Done(s)
    ensures s.found == StepEscape(b, g.piece, g)
    ensures s.found ==> !Checkmate(k, b).value.holds
    ensures !s.found ==> (s.king == Barred(g.piece, g.moves != []) &&
      PieceEscape(s.king, b, 0, 0).Done? && Checkmate(k, b).value.holds == !PieceEscape(s.king, b, 0, 0).value.found)
  {
    g := KingMoves(k, b, true).value;
    MovesOnBoard(k, b, true);
    s := KingEscape(g.piece, b, g.moves, 0).value;
    KingEscapeExact(g.piece, b, g.moves, 0);
  }

  lemma EscapesRebase(b: Board, k: Piece, ks: Piece, k2: Piece, ks2: Piece)
    requires Valid(b) && InBounds(k.pos) && OwnPawnsInside(b, k.color)
    requires ks.pos == k.pos && ks.color == k.color && ks.kind.King?
    requires k2.pos == k.pos && k2.color == k.color && ks2 == ks
    ensures ScanEscape(b, k, ks) == EscapesFrom(b, k2, ks2, 0, 0)
  {
    forall rr, cc | 0 <= rr < 8 && 0 <= cc < 8
      ensures Escapes(b, k, ks, rr, cc) == (KingFacts.AtOrAfter(rr, cc, 0, 0) && Escapes(b, k2, ks2, rr, cc))
    {
      EscapesState(b, k, ks, k2, ks2, rr, cc);
    }
  }

  /** The step loop of King._get_moves without the king's flags: the
      capture test asks directly whether the captured square is attacked. */
  function StepsOf(c: Color, from: Pos, b: Board, other: Pos, i: nat, acc: Moves): Outcome<Moves>
    requires Valid(b) && InBounds(from) && i <= 8
    decreases 8 - i
  {
    if i == 8 then Done(acc)
    else
      var t := Plus(from, KingOffsets[i]);
      if !InBounds(t) || NextToOther(t, other) then StepsOf(c, from, b, other, i + 1, acc)
      else if Empty(b, t) then StepsOf(c, from, b, other, i + 1, acc + [t])
      else if At(b, t).value.color == c then StepsOf(c, from, b, other, i + 1, acc)
      else
        match TempBoard(b, from, t)
        case Raised => Raised
        case Done(tmp) =>
          match AttackedFrom(tmp.0, c, t, true, 0, 0)
          case Raised => Raised
          case Done(hit) => StepsOf(c, from, b, other, i + 1, if hit then acc else acc + [t])
  }

  /** The flags the step loop writes on the king never change its steps. */
  lemma {:induction false} KingStepsFlagFree(k: Piece, b: Board, other: Pos, i: nat, acc: Moves)
    requires Valid(b) && InBounds(k.pos) && k.kind.King? && i <= 8
    ensures KingSteps(k, b, other, i, acc).Done? == StepsOf(k.color, k.pos, b, other, i, acc).Done?
    ensures KingSteps(k, b, other, i, acc).Done? ==>
      KingSteps(k, b, other, i, acc).value.moves == StepsOf(k.color, k.pos, b, other, i, acc).value
    decreases 8 - i
  {
    if i < 8 {
      var k', acc', raised := StepsNext(k, b, other, i, acc);
      if !raised {
        KingStepsFlagFree(k', b, other, i + 1, acc');
      }
    }
  }

  /** One offset of the step loop, taken in both the flagged and the
      flag-free version. */
  lemma StepsNext(k: Piece, b: Board, other: Pos, i: nat, acc: Moves) returns (k': Piece, acc': Moves, raised: bool)
    requires Valid(b) && InBounds(k.pos) && k.kind.King? && i < 8
    ensures k'.kind.King? && k'.pos == k.pos && k'.color == k.color
    ensures raised ==> KingSteps(k, b, other, i, acc).Raised? && StepsOf(k.color, k.pos, b, other, i, acc).Raised?
    ensures !raised ==> KingSteps(k, b, other, i, acc) == KingSteps(k', b, other, i + 1, acc')
    ensures !raised ==> StepsOf(k.color, k.pos, b, other, i, acc) == StepsOf(k.color, k.pos, b, other, i + 1, acc')
  {
    var t := Plus(k.pos, KingOffsets[i]);
    k', acc', raised := k, acc, false;
    if !InBounds(t) || NextToOther(t, other) {
    } else if Empty(b, t) {
      acc' := acc + [t];
    } else if At(b, t).value.color == k.color {
    } else {
      KingOffsetsUnit();
      assert Sliding.UnitDir(KingOffsets[i]);
      var tb := TempBoard(b, k.pos, t);
      if tb.Raised? {
        raised := true;
      } else {
        var tmp := tb.value;
        assert KingLocation(k, tmp.1) == t;
        var c := IsChecked(k, tmp.0, tmp.1, true);
        if c.Raised? {
          raised := true;
        } else {
          k' := c.value.king;
          acc' := if c.value.checked then acc else acc + [t];
        }
      }
    }
  }

  /** A king without moves still has none when generated again after the
      flag updates of its first generation. */
  lemma KingMovesRegen(k: Piece, b: Board)
    requires Valid(b) && InBounds(k.pos) && k.kind.King?
    requires KingMoves(k, b, false).Done? && KingMoves(k, b, false).value.moves == []
    ensures var k' := KingMoves(k, b, false).value.piece;
      KingMoves(k', b, false).Done? && KingMoves(k', b, false).value.moves == []
  {
    var g := KingMoves(k, b, false).value;
    var other := OtherKingFrom(b, k.color, 0, 0).value;
    var cg := CanCastle(k, b).value;
    var sg := KingSteps(cg.piece, b, other, 0, []).value;
    assert g == Gen(sg.moves + cg.moves, sg.piece);
    var k' := g.piece;
    if !k'.kind.cannotCastle {
      assert k' == k.(moved := k'.moved, kind := k.kind.(castle := k'.kind.castle));
      KingFacts.CastleIgnoresMoved(k, b, k'.moved, k'.kind.castle);
    }
    var cg' := CanCastle(k', b).value;
    KingStepsFlagFree(cg.piece, b, other, 0, []);
    KingStepsFlagFree(cg'.piece, b, other, 0, []);
  }

  /** Some piece of the king's colour at or after (row, col), other than the king, has a move. */
  predicate OtherMovesFrom(b: Board, k: Piece, row: int, col: int)
    requires Valid(b)
  {
    exists rr, cc :: 0 <= rr < 8 && 0 <= cc < 8 && KingFacts.AtOrAfter(rr, cc, row, col) && OtherHasMoves(b, k, rr, cc)
  }

  /** The stalemate scan from (row, col) finds a piece iff some piece of the
      king's colour from there on, other than the king, has a move. */
  predicate ScanAgrees(k: Piece, b: Board, row: int, col: int)
    requires Valid(b) && InBounds(k.pos) && k.kind.King? && 0 <= row <= 8 && 0 <= col <= 8
  {
    var r := AnyMoves(k, b, row, col);
    r.Done? ==> (r.value.found <==> OtherMovesFrom(b, k, row, col))
  }

  /** The piece scan of is_stalemate, exactly: it finds a piece iff some
      piece of the king's colour at or after (row, col), other than the king,
      has a generated move (the king itself has none). */
  lemma {:induction false} AnyMovesExact(k: Piece, b: Board, row: int, col: int)
    requires Valid(b) && InBounds(k.pos) && k.kind.King? && 0 <= row <= 8 && 0 <= col <= 8
    requires KingMoves(k, b, false).Done? && KingMoves(k, b, false).value.moves == []
    ensures ScanAgrees(k, b, row, col)
    decreases 8 - row, 8 - col, 1
  {
    if row < 8 && AnyMoves(k, b, row, col).Done? {
      if col == 8 {
        AnyMovesNextRow(k, b, row);
      } else {
        AnyMovesNextCell(k, b, row, col);
      }
    }
  }

  /** AnyMovesExact past the end of a row. */
  lemma {:induction false} AnyMovesNextRow(k: Piece, b: Board, row: int)
    requires Valid(b) && InBounds(k.pos) && k.kind.King? && 0 <= row < 8
    requires KingMoves(k, b, false).Done? && KingMoves(k, b, false).value.moves == []
    ensures ScanAgrees(k, b, row, 8)
    decreases 8 - row, 0, 0
  {
    AnyMovesExact(k, b, row + 1, 0);
    AnyMovesRow(b, k, row);
  }

  /** AnyMovesExact at a cell of the board. */
  lemma {:induction false} AnyMovesNextCell(k: Piece, b: Board, row: int, col: int)
    requires Valid(b) && InBounds(k.pos) && k.kind.King? && 0 <= row < 8 && 0 <= col < 8
    requires KingMoves(k, b, false).Done? && KingMoves(k, b, false).value.moves == []
    ensures ScanAgrees(k, b, row, col)
    decreases 8 - row, 8 - col, 0
  {
    if AnyMoves(k, b, row, col).Done? {
      var k' := AnyMovesCell(k, b, row, col);
      if !OtherHasMoves(b, k, row, col) {
        AnyMovesExact(k', b, row, col + 1);
        AnyMovesShift(b, k, k', row, col);
      } else {
        OtherMovesHere(b, k, row, col);
      }
    }
  }

  lemma OtherMovesHere(b: Board, k: Piece, row: int, col: int)
    requires Valid(b) && 0 <= row < 8 && 0 <= col < 8 && OtherHasMoves(b, k, row, col)
    ensures OtherMovesFrom(b, k, row, col)
  {
    assert KingFacts.AtOrAfter(row, col, row, col);
  }

  /** Past the end of a row the stalemate scan goes on with the next row. */
  lemma AnyMovesRow(b: Board, k: Piece, row: int)
    requires Valid(b) && InBounds(k.pos) && k.kind.King? && 0 <= row < 8
    ensures AnyMoves(k, b, row, 8) == AnyMoves(k, b, row + 1, 0)
    ensures OtherMovesFrom(b, k, row, 8) == OtherMovesFrom(b, k, row + 1, 0)
  {
    if OtherMovesFrom(b, k, row, 8) {
      var rr, cc :| 0 <= rr < 8 && 0 <= cc < 8 && KingFacts.AtOrAfter(rr, cc, row, 8) && OtherHasMoves(b, k, rr, cc);
      assert KingFacts.AtOrAfter(rr, cc, row + 1, 0);
    }
    if OtherMovesFrom(b, k, row + 1, 0) {
      var rr, cc :| 0 <= rr < 8 && 0 <= cc < 8 && KingFacts.AtOrAfter(rr, cc, row + 1, 0) && OtherHasMoves(b, k, rr, cc);
      assert KingFacts.AtOrAfter(rr, cc, row, 8);
    }
  }

  /** One cell of the stalemate scan: a piece with moves is found there, and
      otherwise the scan goes on with a king that still has no moves. */
  lemma AnyMovesCell(k: Piece, b: Board, row: int, col: int) returns (k': Piece)
    requires Valid(b) && InBounds(k.pos) && k.kind.King? && 0 <= row < 8 && 0 <= col < 8
    requires KingMoves(k, b, false).Done? && KingMoves(k, b, false).value.moves == []
    requires AnyMoves(k, b, row, col).Done?
    ensures k'.kind.King? && k'.pos == k.pos && k'.color == k.color
    ensures KingMoves(k', b, false).Done? && KingMoves(k', b, false).value.moves == []
    ensures OtherHasMoves(b, k, row, col) ==> AnyMoves(k, b, row, col).value.found
    ensures !OtherHasMoves(b, k, row, col) ==> AnyMoves(k, b, row, col) == AnyMoves(k', b, row, col + 1)
  {
    if b[row][col].Some? && b[row][col].value.color == k.color && (row, col) == k.pos {
      k' := AnyMovesHome(k, b, row, col);
    } else if b[row][col].Some? && b[row][col].value.color == k.color {
      k' := k;
      AnyMovesOwn(k, b, row, col);
    } else {
      k' := k;
      AnyMovesPass(k, b, row, col);
    }
  }

  /** A cell of the stalemate scan holding another piece of the king's colour. */
  lemma AnyMovesOwn(k: Piece, b: Board, row: int, col: int)
    requires Valid(b) && InBounds(k.pos) && k.kind.King? && 0 <= row < 8 && 0 <= col < 8
    requires b[row][col].Some? && b[row][col].value.color == k.color && (row, col) != k.pos
    requires AnyMoves(k, b, row, col).Done?
    ensures OtherHasMoves(b, k, row, col) ==> AnyMoves(k, b, row, col).value.found
    ensures !OtherHasMoves(b, k, row, col) ==> AnyMoves(k, b, row, col) == AnyMoves(k, b, row, col + 1)
  {
    var p := b[row][col].value;
    assert p.pos == (row, col);
    assert CellPiece(k, p, row, col) == p;
    var g := GetMoves(p, b, false);
    assert OtherHasMoves(b, k, row, col) <==> g.Done? && g.value.moves != [];
  }

  /** A cell of the stalemate scan that is empty or holds a piece of the other colour. */
  lemma AnyMovesPass(k: Piece, b: Board, row: int, col: int)
    requires Valid(b) && InBounds(k.pos) && k.kind.King? && 0 <= row < 8 && 0 <= col < 8
    requires b[row][col].None? || b[row][col].value.color != k.color
    ensures !OtherHasMoves(b, k, row, col)
    ensures AnyMoves(k, b, row, col) == AnyMoves(k, b, row, col + 1)
  {
  }

  /** The king's own cell in the stalemate scan: it is generated again and
      still has no move. */
  lemma AnyMovesHome(k: Piece, b: Board, row: int, col: int) returns (k': Piece)
    requires Valid(b) && InBounds(k.pos) && k.kind.King? && (row, col) == k.pos
    requires b[row][col].Some? && b[row][col].value.color == k.color
    requires KingMoves(k, b, false).Done? && KingMoves(k, b, false).value.moves == []
    ensures k'.kind.King? && k'.pos == k.pos && k'.color == k.color
    ensures KingMoves(k', b, false).Done? && KingMoves(k', b, false).value.moves == []
    ensures !OtherHasMoves(b, k, row, col)
    ensures AnyMoves(k, b, row, col) == AnyMoves(k', b, row, col + 1)
  {
    var g := KingMoves(k, b, false).value;
    k' := g.piece;
    KingMovesRegen(k, b);
    GetMovesOfKing(k, b, false);
    AnyMovesAtKing(k, b, row, col, g);
  }

  /** The scan steps over the king's cell with the king as generated there. */
  lemma AnyMovesAtKing(k: Piece, b: Board, row: int, col: int, g: Gen)
    requires Valid(b) && InBounds(k.pos) && k.kind.King? && (row, col) == k.pos
    requires b[row][col].Some? && b[row][col].value.color == k.color
    requires GetMoves(k, b, false) == Done(g) && g.moves == []
    ensures AnyMoves(k, b, row, col) == AnyMoves(g.piece, b, row, col + 1)
  {
    assert CellPiece(k, b[row][col].value, row, col) == k;
  }

  lemma AnyMovesShift(b: Board, k: Piece, k': Piece, row: int, col: int)
    requires Valid(b) && 0 <= row < 8 && 0 <= col < 8 && k'.pos == k.pos && k'.color == k.color
    requires !OtherHasMoves(b, k, row, col)
    ensures OtherMovesFrom(b, k, row, col) == OtherMovesFrom(b, k', row, col + 1)
  {
    if OtherMovesFrom(b, k, row, col) {
      var rr, cc :| 0 <= rr < 8 && 0 <= cc < 8 && KingFacts.AtOrAfter(rr, cc, row, col) && OtherHasMoves(b, k, rr, cc);
      assert KingFacts.AtOrAfter(rr, cc, row, col + 1);
      assert OtherHasMoves(b, k', rr, cc);
    }
    if OtherMovesFrom(b, k', row, col + 1) {
      var rr, cc :| 0 <= rr < 8 && 0 <= cc < 8 && KingFacts.AtOrAfter(rr, cc, row, col + 1) && OtherHasMoves(b, k', rr, cc);
      assert KingFacts.AtOrAfter(rr, cc, row, col);
      assert OtherHasMoves(b, k, rr, cc);
    }
  }

  /** King.is_stalemate, exactly: true iff the king is not checked (castling
      on), has no generated move, and no other piece of its colour has one;
      no move is filtered for leaving the king in check. */
  lemma StalemateExact(k: Piece, b: Board)
    requires Valid(b) && InBounds(k.pos) && k.kind.King?
    requires At(b, k.pos) == Some(k)
    ensures var r := Stalemate(k, b);
      r.Done? ==> (IsChecked(k, b, None, false).Done? &&
        (r.value.holds <==>
          !IsChecked(k, b, None, false).value.checked &&
          KingMoves(k, b, false).Done? && KingMoves(k, b, false).value.moves == [] &&
          !exists rr, cc :: 0 <= rr < 8 && 0 <= cc < 8 && OtherHasMoves(b, k, rr, cc)))
  {
    var r := Stalemate(k, b);
    if r.Done? {
      var c := IsChecked(k, b, None, false).value;
      if !c.checked {
        assert c.king == k;
        var g := KingMoves(k, b, false).value;
        if g.moves == [] {
          KingMovesRegen(k, b);
          AnyMovesExact(g.piece, b, 0, 0);
          forall rr, cc | 0 <= rr < 8 && 0 <= cc < 8
            ensures OtherHasMoves(b, k, rr, cc) == (KingFacts.AtOrAfter(rr, cc, 0, 0) && OtherHasMoves(b, g.piece, rr, cc))
          {
          }
        }
      }
    }
  }
}
