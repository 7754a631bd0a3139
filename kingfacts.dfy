/** What King._get_moves, King.is_checked and King._can_castle compute,
    stated square by square and proved against their definitions. */
module KingFacts {
  import opened Board
  import opened KingSafety
  import Sliding
  import Pawn

  /** (r, c) comes at or after (row, col) in row-major order. */
  predicate AtOrAfter(r: int, c: int, row: int, col: int)
  {
    r > row || (r == row && c >= col)
  }

  /** (r, c) holds a king of a colour other than `c`. */
  predicate OpposingKingAt(b: Board, c: Color, r: int, cc: int)
    requires Valid(b) && 0 <= r < 8 && 0 <= cc < 8
  {
    b[r][cc].Some? && b[r][cc].value.kind.King? && b[r][cc].value.color != c
  }

  /** No opposing king stands at or after (row, col) and strictly before `p`. */
  predicate NoOpposingKingBefore(b: Board, c: Color, row: int, col: int, p: Pos)
    requires Valid(b)
  {
    forall rr, cc :: 0 <= rr < 8 && 0 <= cc < 8 && AtOrAfter(rr, cc, row, col) && !AtOrAfter(rr, cc, p.0, p.1) ==>
      !OpposingKingAt(b, c, rr, cc)
  }

  /** The lookup of other_king_location, exactly: None iff no opposing king
      stands at or after (row, col), and otherwise the first such king in
      row-major order. */
  lemma {:induction false} OtherKingFromExact(b: Board, c: Color, row: int, col: int)
    requires Valid(b) && 0 <= row <= 8 && 0 <= col <= 8
    ensures OtherKingFrom(b, c, row, col).None? <==>
      !exists rr, cc :: 0 <= rr < 8 && 0 <= cc < 8 && AtOrAfter(rr, cc, row, col) && OpposingKingAt(b, c, rr, cc)
    ensures var r := OtherKingFrom(b, c, row, col);
      r.Some? ==> (InBounds(r.value) && AtOrAfter(r.value.0, r.value.1, row, col) &&
        OpposingKingAt(b, c, r.value.0, r.value.1) && NoOpposingKingBefore(b, c, row, col, r.value))
    decreases 8 - row, 8 - col
  {
    if row < 8 && col == 8 {
      OtherKingFromExact(b, c, row + 1, 0);
      assert forall rr, cc :: 0 <= cc < 8 ==> (AtOrAfter(rr, cc, row, 8) <==> AtOrAfter(rr, cc, row + 1, 0));
    } else if row < 8 && !OpposingKingAt(b, c, row, col) {
      OtherKingFromExact(b, c, row, col + 1);
      assert forall rr, cc :: AtOrAfter(rr, cc, row, col) <==> (rr, cc) == (row, col) || AtOrAfter(rr, cc, row, col + 1);
    }
  }

  /** The piece on (r, c) has a colour other than `c0` and its generated
      moves (the king's with the given skip) contain `loc`. */
  predicate Attacker(b: Board, c0: Color, loc: Pos, skip: bool, r: int, c: int)
    requires Valid(b) && 0 <= r < 8 && 0 <= c < 8
  {
    b[r][c].Some? && b[r][c].value.color != c0 &&
    assert b[r][c].value.pos == (r, c);
    GetMoves(b[r][c].value, b, skip).Done? && loc in GetMoves(b[r][c].value, b, skip).value.moves
  }

  /** The scan finds an attacker iff there is one at or after its start. */
  lemma {:induction false} AttackedExact(b: Board, c0: Color, loc: Pos, skip: bool, row: int, col: int)
    requires Valid(b) && 0 <= row <= 8 && 0 <= col <= 8
    ensures var r := AttackedFrom(b, c0, loc, skip, row, col);
      r.Done? ==> (r.value <==> exists rr, cc :: 0 <= rr < 8 && 0 <= cc < 8 && AtOrAfter(rr, cc, row, col) && Attacker(b, c0, loc, skip, rr, cc))
    decreases 8 - row, 8 - col, 1
  {
    if row < 8 && col == 8 {
      AttackedExactRow(b, c0, loc, skip, row);
    } else if row < 8 {
      AttackedExactCell(b, c0, loc, skip, row, col);
    }
  }

  lemma {:induction false} AttackedExactRow(b: Board, c0: Color, loc: Pos, skip: bool, row: int)
    requires Valid(b) && 0 <= row < 8
    ensures var r := AttackedFrom(b, c0, loc, skip, row, 8);
      r.Done? ==> (r.value <==> exists rr, cc :: 0 <= rr < 8 && 0 <= cc < 8 && AtOrAfter(rr, cc, row, 8) && Attacker(b, c0, loc, skip, rr, cc))
    decreases 8 - row, 0, 0
  {
    AttackedExact(b, c0, loc, skip, row + 1, 0);
    if exists rr, cc :: 0 <= rr < 8 && 0 <= cc < 8 && AtOrAfter(rr, cc, row, 8) && Attacker(b, c0, loc, skip, rr, cc) {
      var rr, cc :| 0 <= rr < 8 && 0 <= cc < 8 && AtOrAfter(rr, cc, row, 8) && Attacker(b, c0, loc, skip, rr, cc);
      assert 0 <= rr < 8 && 0 <= cc < 8 && AtOrAfter(rr, cc, row + 1, 0) && Attacker(b, c0, loc, skip, rr, cc);
    }
    if exists rr, cc :: 0 <= rr < 8 && 0 <= cc < 8 && AtOrAfter(rr, cc, row + 1, 0) && Attacker(b, c0, loc, skip, rr, cc) {
      var rr, cc :| 0 <= rr < 8 && 0 <= cc < 8 && AtOrAfter(rr, cc, row + 1, 0) && Attacker(b, c0, loc, skip, rr, cc);
      assert 0 <= rr < 8 && 0 <= cc < 8 && AtOrAfter(rr, cc, row, 8) && Attacker(b, c0, loc, skip, rr, cc);
    }
  }

  lemma {:induction false} AttackedExactCell(b: Board, c0: Color, loc: Pos, skip: bool, row: int, col: int)
    requires Valid(b) && 0 <= row < 8 && 0 <= col < 8
    ensures var r := AttackedFrom(b, c0, loc, skip, row, col);
      r.Done? ==> (r.value <==> exists rr, cc :: 0 <= rr < 8 && 0 <= cc < 8 && AtOrAfter(rr, cc, row, col) && Attacker(b, c0, loc, skip, rr, cc))
    decreases 8 - row, 8 - col, 0
  {
    AttackedExact(b, c0, loc, skip, row, col + 1);
    var r := AttackedFrom(b, c0, loc, skip, row, col);
    if r.Done? {
      if Attacker(b, c0, loc, skip, row, col) {
        assert AtOrAfter(row, col, row, col);
      } else {
        assert r == AttackedFrom(b, c0, loc, skip, row, col + 1);
        forall rr, cc | 0 <= rr < 8 && 0 <= cc < 8 && AtOrAfter(rr, cc, row, col) && !(rr == row && cc == col)
          ensures AtOrAfter(rr, cc, row, col + 1)
        {
        }
      }
    }
  }

  /** The cell (r, c) holds a king of the other colour whose generator raises. */
  predicate RaisingKing(b: Board, c0: Color, skip: bool, r: int, c: int)
    requires Valid(b) && 0 <= r < 8 && 0 <= c < 8
  {
    b[r][c].Some? && b[r][c].value.color != c0 && b[r][c].value.kind.King? &&
    assert b[r][c].value.pos == (r, c);
    KingMoves(b[r][c].value, b, skip).Raised?
  }

  /** The scan raises only when the generator of some piece of the other
      colour at or after its start raises (it can only be a king). */
  lemma {:induction false} AttackedRaises(b: Board, c0: Color, loc: Pos, skip: bool, row: int, col: int)
    requires Valid(b) && 0 <= row <= 8 && 0 <= col <= 8
    ensures AttackedFrom(b, c0, loc, skip, row, col).Raised? ==>
      exists rr, cc :: 0 <= rr < 8 && 0 <= cc < 8 && AtOrAfter(rr, cc, row, col) && RaisingKing(b, c0, skip, rr, cc)
    decreases 8 - row, 8 - col, 1
  {
    if row < 8 && col == 8 {
      AttackedRaisesRow(b, c0, loc, skip, row);
    } else if row < 8 {
      AttackedRaisesCell(b, c0, loc, skip, row, col);
    }
  }

  lemma {:induction false} AttackedRaisesRow(b: Board, c0: Color, loc: Pos, skip: bool, row: int)
    requires Valid(b) && 0 <= row < 8
    ensures AttackedFrom(b, c0, loc, skip, row, 8).Raised? ==>
      exists rr, cc :: 0 <= rr < 8 && 0 <= cc < 8 && AtOrAfter(rr, cc, row, 8) && RaisingKing(b, c0, skip, rr, cc)
    decreases 8 - row, 0, 0
  {
    AttackedRaises(b, c0, loc, skip, row + 1, 0);
    if AttackedFrom(b, c0, loc, skip, row, 8).Raised? {
      var rr, cc :| 0 <= rr < 8 && 0 <= cc < 8 && AtOrAfter(rr, cc, row + 1, 0) && RaisingKing(b, c0, skip, rr, cc);
      assert 0 <= rr < 8 && 0 <= cc < 8 && AtOrAfter(rr, cc, row, 8) && RaisingKing(b, c0, skip, rr, cc);
    }
  }

  lemma {:induction false} AttackedRaisesCell(b: Board, c0: Color, loc: Pos, skip: bool, row: int, col: int)
    requires Valid(b) && 0 <= row < 8 && 0 <= col < 8
    ensures AttackedFrom(b, c0, loc, skip, row, col).Raised? ==>
      exists rr, cc :: 0 <= rr < 8 && 0 <= cc < 8 && AtOrAfter(rr, cc, row, col) && RaisingKing(b, c0, skip, rr, cc)
    decreases 8 - row, 8 - col, 0
  {
    AttackedRaises(b, c0, loc, skip, row, col + 1);
    if AttackedFrom(b, c0, loc, skip, row, col).Raised? {
      if AttackedFrom(b, c0, loc, skip, row, col + 1).Raised? {
        var rr, cc :| 0 <= rr < 8 && 0 <= cc < 8 && AtOrAfter(rr, cc, row, col + 1) && RaisingKing(b, c0, skip, rr, cc);
        assert 0 <= rr < 8 && 0 <= cc < 8 && AtOrAfter(rr, cc, row, col) && RaisingKing(b, c0, skip, rr, cc);
      } else {
        var q := b[row][col].value;
        assert q.pos == (row, col) && q.color != c0;
        assert GetMoves(q, b, skip).Raised?;
        assert q.kind.King?;
        assert 0 <= row < 8 && 0 <= col < 8 && AtOrAfter(row, col, row, col) && RaisingKing(b, c0, skip, row, col);
      }
    }
  }

  /** King.is_checked, exactly: when it returns, the verdict is true iff some
      piece of the other colour generates the king's location (the king's
      own square, or the simulated piece's); the king's `cannot_castle` is
      then set, and otherwise the king is unchanged. */
  lemma IsCheckedExact(k: Piece, b: Board, temp: Option<Piece>, skip: bool)
    requires Valid(b) && k.kind.King?
    ensures var r := IsChecked(k, b, temp, skip);
      r.Done? ==>
        (r.value.checked <==> exists rr, cc :: 0 <= rr < 8 && 0 <= cc < 8 &&
                                 Attacker(b, k.color, KingLocation(k, temp), skip, rr, cc)) &&
        r.value.king.kind.cannotCastle == (k.kind.cannotCastle || r.value.checked)
  {
    AttackedExact(b, k.color, KingLocation(k, temp), skip, 0, 0);
    var r := IsChecked(k, b, temp, skip);
    if r.Done? && (exists rr, cc :: 0 <= rr < 8 && 0 <= cc < 8 && Attacker(b, k.color, KingLocation(k, temp), skip, rr, cc)) {
      var rr, cc :| 0 <= rr < 8 && 0 <= cc < 8 && Attacker(b, k.color, KingLocation(k, temp), skip, rr, cc);
      assert AtOrAfter(rr, cc, 0, 0);
    }
  }

  /** The simulated capture of `t` by the king on `from` leaves `t` unattacked. */
  predicate SafeCapture(b: Board, c: Color, from: Pos, t: Pos)
    requires Valid(b) && InBounds(from) && InBounds(t)
  {
    match TempBoard(b, from, t)
    case Raised => false
    case Done(tmp) => AttackedFrom(tmp.0, c, t, true, 0, 0) == Done(false)
  }

  /** The step to `t` is kept by King._get_moves. */
  predicate KeepStep(b: Board, c: Color, from: Pos, other: Pos, t: Pos)
    requires Valid(b) && InBounds(from)
  {
    InBounds(t) && t != other &&
    (Empty(b, t) || (HoldsOther(b, t, c) && SafeCapture(b, c, from, t)))
  }

  /** The step loop keeps exactly the neighbouring squares on the board,
      other than the opposing king's square, that are empty, or hold a piece
      of the other colour whose capture does not leave the king in check. */
  lemma {:induction false} KingStepsExact(k: Piece, b: Board, other: Pos, i: nat, acc: Moves)
    requires Valid(b) && InBounds(k.pos) && k.kind.King? && i <= 8
    ensures var r := KingSteps(k, b, other, i, acc);
      r.Done? ==> forall m :: m in r.value.moves <==>
        m in acc || (Neighbour(k.pos, i, m) && KeepStep(b, k.color, k.pos, other, m))
    decreases 8 - i
  {
    var r := KingSteps(k, b, other, i, acc);
    if i < 8 && r.Done? {
      var k', acc' := KingStepsStep(k, b, other, i, acc);
      KingStepsExact(k', b, other, i + 1, acc');
      StepsTail(k, b, other, i, acc, acc', Plus(k.pos, KingOffsets[i]), r);
    }
  }

  /** One round of the step loop: offset `i` adds its square iff the step is kept. */
  lemma KingStepsStep(k: Piece, b: Board, other: Pos, i: nat, acc: Moves) returns (k': Piece, acc': Moves)
    requires Valid(b) && InBounds(k.pos) && k.kind.King? && i < 8
    requires KingSteps(k, b, other, i, acc).Done?
    ensures k'.kind.King? && k'.pos == k.pos && k'.color == k.color
    ensures KingSteps(k, b, other, i, acc) == KingSteps(k', b, other, i + 1, acc')
    ensures forall m :: m in acc' <==>
      m in acc || (m == Plus(k.pos, KingOffsets[i]) && KeepStep(b, k.color, k.pos, other, m))
  {
    var t := Plus(k.pos, KingOffsets[i]);
    k', acc' := k, acc;
    if !InBounds(t) || NextToOther(t, other) {
    } else if Empty(b, t) {
      acc' := acc + [t];
    } else if At(b, t).value.color == k.color {
    } else {
      KingOffsetsUnit();
      assert Sliding.UnitDir(KingOffsets[i]);
      var tmp := TempBoard(b, k.pos, t).value;
      assert KingLocation(k, tmp.1) == t;
      var v := IsChecked(k, tmp.0, tmp.1, true).value;
      assert SafeCapture(b, k.color, k.pos, t) == !v.checked;
      k' := v.king;
      if !v.checked {
        acc' := acc + [t];
      }
    }
  }

  /** The bookkeeping step of KingStepsExact: offset `i` contributes `t` iff
      the loop kept it. */
  lemma StepsTail(k: Piece, b: Board, other: Pos, i: nat, acc: Moves, acc': Moves, t: Pos, r: Outcome<Gen>)
    requires Valid(b) && InBounds(k.pos) && k.kind.King? && i < 8 && t == Plus(k.pos, KingOffsets[i])
    requires forall m :: m in acc' <==> m in acc || (m == t && KeepStep(b, k.color, k.pos, other, t))
    requires r.Done? ==> forall m :: m in r.value.moves <==>
      m in acc' || (Neighbour(k.pos, i + 1, m) && KeepStep(b, k.color, k.pos, other, m))
    ensures r.Done? ==> forall m :: m in r.value.moves <==>
      m in acc || (Neighbour(k.pos, i, m) && KeepStep(b, k.color, k.pos, other, m))
  {
    if r.Done? {
      forall m
        ensures m in r.value.moves <==> m in acc || (Neighbour(k.pos, i, m) && KeepStep(b, k.color, k.pos, other, m))
      {
        NeighbourNext(k.pos, i, m);
      }
    }
  }

  /** `m` is one king step from `from` by an offset of index `i` or later. */
  predicate Neighbour(from: Pos, i: nat, m: Pos)
  {
    exists j :: i <= j < 8 && m == Plus(from, KingOffsets[j])
  }

  lemma NeighbourNext(from: Pos, i: nat, m: Pos)
    requires i < 8
    ensures Neighbour(from, i, m) == (m == Plus(from, KingOffsets[i]) || Neighbour(from, i + 1, m))
  {
    if Neighbour(from, i, m) {
      var j :| i <= j < 8 && m == Plus(from, KingOffsets[j]);
      if j > i {
        assert i + 1 <= j < 8 && m == Plus(from, KingOffsets[j]);
      }
    }
    if m == Plus(from, KingOffsets[i]) {
      assert i <= i < 8 && m == Plus(from, KingOffsets[i]);
    }
    if Neighbour(from, i + 1, m) {
      var j :| i + 1 <= j < 8 && m == Plus(from, KingOffsets[j]);
      assert i <= j < 8 && m == Plus(from, KingOffsets[j]);
    }
  }

  /** King._get_moves, exactly: it raises when there is no king of the other
      colour; otherwise its moves are the kept single steps and, only when
      the skip is off, the castling moves of _can_castle. */
  lemma KingMovesExact(k: Piece, b: Board, skip: bool)
    requires Valid(b) && InBounds(k.pos) && k.kind.King?
    ensures OtherKingFrom(b, k.color, 0, 0).None? ==> KingMoves(k, b, skip) == Raised
    ensures var r := KingMoves(k, b, skip);
      r.Done? ==> (OtherKingFrom(b, k.color, 0, 0).Some? &&
        forall m :: m in r.value.moves <==>
          (Neighbour(k.pos, 0, m) && KeepStep(b, k.color, k.pos, OtherKingFrom(b, k.color, 0, 0).value, m)) ||
          (!skip && CanCastle(k, b).Done? && m in CanCastle(k, b).value.moves))
  {
    var r := KingMoves(k, b, skip);
    if r.Done? {
      var other := OtherKingFrom(b, k.color, 0, 0).value;
      var castling := if skip then Done(Gen([], k)) else CanCastle(k, b);
      var cg := castling.value;
      KingStepsExact(cg.piece, b, other, 0, []);
    }
  }

  /** King._get_moves raises exactly when the board holds no king of the
      other colour (the unpack of None at the top of the method). */
  lemma KingMovesNoOtherKing(k: Piece, b: Board, skip: bool)
    requires Valid(b) && InBounds(k.pos) && k.kind.King?
    requires !exists rr, cc :: 0 <= rr < 8 && 0 <= cc < 8 && OpposingKingAt(b, k.color, rr, cc)
    ensures KingMoves(k, b, skip) == Raised
  {
    OtherKingFromExact(b, k.color, 0, 0);
  }

  /** With the skip on (as every check test asks), the king's moves are
      single steps only, never onto the opposing king's square. */
  lemma KingSkipSteps(k: Piece, b: Board, m: Pos)
    requires Valid(b) && InBounds(k.pos) && k.kind.King?
    requires KingMoves(k, b, true).Done? && m in KingMoves(k, b, true).value.moves
    ensures Pawn.Abs(m.0 - k.pos.0) <= 1 && Pawn.Abs(m.1 - k.pos.1) <= 1 && m != k.pos
    ensures m != OtherKingFrom(b, k.color, 0, 0).value
  {
    KingMovesExact(k, b, true);
    KingOffsetsUnit();
    var j :| 0 <= j < 8 && m == Plus(k.pos, KingOffsets[j]);
    assert Sliding.UnitDir(KingOffsets[j]);
  }

  /** The unmoved rooks of a rank: exactly the squares on it holding a rook
      whose `moved` flag is clear, whatever its colour, strictly left to right. */
  lemma {:induction false} UnmovedRooksExact(b: Board, rank: int, col: int)
    requires Shaped(b) && 0 <= rank < 8 && 0 <= col <= 8
    ensures var rooks := UnmovedRooks(b, rank, col);
      (forall c :: (rank, c) in rooks <==>
        col <= c < 8 && b[rank][c].Some? && b[rank][c].value.kind.Rook? && !b[rank][c].value.moved) &&
      (forall i, j :: 0 <= i < j < |rooks| ==> rooks[i].1 < rooks[j].1)
    decreases 8 - col
  {
    if col < 8 {
      UnmovedRooksExact(b, rank, col + 1);
    }
  }

  /** The pairing loop, exactly: it raises iff a rook with a clear path has
      no destination of its index; otherwise it pairs each rook with a clear
      path with the destination of the same index. */
  lemma {:induction false} CastlePairsExact(b: Board, rank: int, colKing: int, rooks: seq<Pos>, dests: seq<Pos>, i: nat)
    requires Shaped(b) && 0 <= rank < 8 && 0 <= colKing < 8 && i <= |rooks|
    requires forall j :: 0 <= j < |rooks| ==> 0 <= rooks[j].1 < 8
    ensures var r := CastlePairs(b, rank, colKing, rooks, dests, i);
      (r.Done? <==> forall j :: i <= j < |rooks| && PathClear(b, rank, colKing, rooks[j].1) ==> j < |dests|) &&
      (r.Done? ==> forall m :: m in r.value <==>
        exists j :: i <= j < |rooks| && j < |dests| && m == dests[j] && PathClear(b, rank, colKing, rooks[j].1))
    decreases |rooks| - i
  {
    if i < |rooks| {
      CastlePairsExact(b, rank, colKing, rooks, dests, i + 1);
      var r := CastlePairs(b, rank, colKing, rooks, dests, i);
      if r.Done? {
        forall m | m in r.value
          ensures exists j :: i <= j < |rooks| && j < |dests| && m == dests[j] && PathClear(b, rank, colKing, rooks[j].1)
        {
          if !(PathClear(b, rank, colKing, rooks[i].1) && m == dests[i]) {
            var j :| i + 1 <= j < |rooks| && j < |dests| && m == dests[j] && PathClear(b, rank, colKing, rooks[j].1);
          }
        }
      }
    }
  }

  /** The two safety tests of _can_castle for destination `d`, on the copy of
      the board with the king moved there: neither the king's old square nor
      `d` is attacked. */
  predicate CastleOk(b: Board, c: Color, from: Pos, d: Pos)
    requires Valid(b) && InBounds(from) && InBounds(d)
  {
    match TempBoard(b, from, d)
    case Raised => false
    case Done(tmp) =>
      AttackedFrom(tmp.0, c, from, true, 0, 0) == Done(false) &&
      AttackedFrom(tmp.0, c, d, true, 0, 0) == Done(false)
  }

  /** One round of the safety loop: destination `i` is kept (and `castle`
      set) iff it passes both tests; the king keeps its square and colour. */
  lemma CastleSafeStep(k: Piece, b: Board, dests: seq<Pos>, i: nat, acc: Moves) returns (acc': Moves, k': Piece)
    requires Valid(b) && InBounds(k.pos) && k.kind.King? && i < |dests|
    requires forall m :: m in dests ==> InBounds(m)
    requires CastleSafe(k, b, dests, i, acc).Done?
    ensures k'.kind.King? && k'.pos == k.pos && k'.color == k.color
    ensures CastleSafe(k, b, dests, i, acc) == CastleSafe(k', b, dests, i + 1, acc')
    ensures CastleOk(b, k.color, k.pos, dests[i]) ==> acc' == acc + [dests[i]] && k'.kind.castle
    ensures !CastleOk(b, k.color, k.pos, dests[i]) ==> acc' == acc && k'.kind.castle == k.kind.castle
  {
    var d := dests[i];
    var tmp := TempBoard(b, k.pos, d).value;
    assert KingLocation(k, tmp.1) == d;
    var c1 := IsChecked(k, tmp.0, None, true).value;
    if c1.checked {
      acc', k' := acc, c1.king;
    } else {
      var c2 := IsChecked(c1.king, tmp.0, tmp.1, true).value;
      if c2.checked {
        acc', k' := acc, c2.king;
      } else {
        acc', k' := acc + [d], c2.king.(kind := c2.king.kind.(castle := true));
      }
    }
  }

  /** The destinations among `ds` that pass both safety tests, in order. */
  function Kept(b: Board, c: Color, from: Pos, ds: seq<Pos>): seq<Pos>
    requires Valid(b) && InBounds(from) && forall m :: m in ds ==> InBounds(m)
  {
    if ds == [] then []
    else (if CastleOk(b, c, from, ds[0]) then [ds[0]] else []) + Kept(b, c, from, ds[1..])
  }

  /** A destination is kept iff it is a candidate passing both tests. */
  lemma {:induction false} KeptExact(b: Board, c: Color, from: Pos, ds: seq<Pos>, m: Pos)
    requires Valid(b) && InBounds(from) && forall m :: m in ds ==> InBounds(m)
    ensures m in Kept(b, c, from, ds) <==> m in ds && CastleOk(b, c, from, m)
  {
    if ds != [] {
      KeptExact(b, c, from, ds[1..], m);
      assert ds == [ds[0]] + ds[1..];
    }
  }

  lemma KeptMembers(b: Board, c: Color, from: Pos, ds: seq<Pos>, mv: Moves)
    requires Valid(b) && InBounds(from) && (forall m :: m in ds ==> InBounds(m)) && mv == Kept(b, c, from, ds)
    ensures forall m :: m in mv <==> m in ds && InBounds(m) && CastleOk(b, c, from, m)
  {
    forall m
      ensures m in mv <==> m in ds && InBounds(m) && CastleOk(b, c, from, m)
    {
      KeptExact(b, c, from, ds, m);
    }
  }

  lemma KeptStep(b: Board, c: Color, from: Pos, ds: seq<Pos>, i: nat, acc: Moves)
    requires Valid(b) && InBounds(from) && (forall m :: m in ds ==> InBounds(m)) && i < |ds|
    ensures var ok := CastleOk(b, c, from, ds[i]);
      var rest := Kept(b, c, from, ds[i + 1..]);
      acc + Kept(b, c, from, ds[i..]) == (if ok then acc + [ds[i]] else acc) + rest &&
      (Kept(b, c, from, ds[i..]) != [] <==> ok || rest != [])
  {
    assert ds[i..][0] == ds[i] && ds[i..][1..] == ds[i + 1..];
    var rest := Kept(b, c, from, ds[i + 1..]);
    if CastleOk(b, c, from, ds[i]) {
      assert acc + ([ds[i]] + rest) == (acc + [ds[i]]) + rest;
    } else {
      assert [] + rest == rest;
    }
  }

  /** The safety loop appends to what it was given exactly the kept
      destinations, and sets `castle` iff it keeps one. */
  lemma {:induction false} CastleSafeExact(k: Piece, b: Board, dests: seq<Pos>, i: nat, acc: Moves)
    requires Valid(b) && InBounds(k.pos) && k.kind.King? && i <= |dests|
    requires forall m :: m in dests ==> InBounds(m)
    ensures var r := CastleSafe(k, b, dests, i, acc);
      var kept := Kept(b, k.color, k.pos, dests[i..]);
      r.Done? ==>
        r.value.moves == acc + kept &&
        (r.value.piece.kind.castle <==> k.kind.castle || kept != [])
    decreases |dests| - i
  {
    if i == |dests| {
      assert dests[i..] == [] && acc + [] == acc;
    } else if CastleSafe(k, b, dests, i, acc).Done? {
      var acc', k' := CastleSafeStep(k, b, dests, i, acc);
      CastleSafeExact(k', b, dests, i + 1, acc');
      KeptStep(b, k.color, k.pos, dests, i, acc);
    }
  }

  /** King._can_castle returns nothing, unchanged, when `cannot_castle` is set. */
  lemma CanCastleBlocked(k: Piece, b: Board)
    requires Valid(b) && InBounds(k.pos) && k.kind.King? && k.kind.cannotCastle
    ensures CanCastle(k, b) == Done(Gen([], k))
  {
  }

  /** King._can_castle raises when a third unmoved rook on the castling rank
      has a clear path to the king (the destination list has two entries). */
  lemma CanCastleThirdRook(k: Piece, b: Board, j: int)
    requires Valid(b) && InBounds(k.pos) && k.kind.King? && !k.kind.cannotCastle
    requires 2 <= j < |UnmovedRooks(b, CastleRank(k.color), 0)|
    requires PathClear(b, CastleRank(k.color), k.pos.1, UnmovedRooks(b, CastleRank(k.color), 0)[j].1)
    ensures CanCastle(k, b) == Raised
  {
    var rank := CastleRank(k.color);
    var rooks := UnmovedRooks(b, rank, 0);
    var dests := CastleDestinations(k.color);
    CastlePairsExact(b, rank, k.pos.1, rooks, dests, 0);
    assert !(j < |dests|);
    assert CastlePairs(b, rank, k.pos.1, rooks, dests, 0) == Raised;
  }

  /** King._can_castle, exactly: its moves are the destinations of index 0
      (c-file) and 1 (g-file) whose unmoved rook of that index on the
      castling rank has a clear path to the king and which pass both safety
      tests; `castle` is set iff one is returned. */
  lemma CanCastleExact(k: Piece, b: Board)
    requires Valid(b) && InBounds(k.pos) && k.kind.King? && !k.kind.cannotCastle
    ensures var rank := CastleRank(k.color);
      var rooks := UnmovedRooks(b, rank, 0);
      var r := CanCastle(k, b);
      r.Done? ==>
        (forall m :: m in r.value.moves <==>
          exists j :: 0 <= j < |rooks| && j < |CastleDestinations(k.color)| && m == CastleDestinations(k.color)[j] &&
                      PathClear(b, rank, k.pos.1, rooks[j].1) && CastleOk(b, k.color, k.pos, m)) &&
        (r.value.piece.kind.castle <==> k.kind.castle || r.value.moves != [])
  {
    var rank := CastleRank(k.color);
    var rooks := UnmovedRooks(b, rank, 0);
    var dests := CastleDestinations(k.color);
    var r := CanCastle(k, b);
    if r.Done? {
      var pr := CastlePairs(b, rank, k.pos.1, rooks, dests, 0);
      assert pr.Done?;
      CastlePairsExact(b, rank, k.pos.1, rooks, dests, 0);
      CastlePairsIn(b, rank, k.pos.1, rooks, dests, 0);
      var cm := pr.value;
      assert r == CastleSafe(k, b, cm, 0, []);
      CastleSafeMembers(k, b, cm);
      PairedSafe(k, b, rank, rooks, dests, cm, r.value.moves);
    }
  }

  /** The whole safety loop over the paired destinations `cm`. */
  lemma CastleSafeMembers(k: Piece, b: Board, cm: seq<Pos>)
    requires Valid(b) && InBounds(k.pos) && k.kind.King? && forall m :: m in cm ==> InBounds(m)
    ensures var r := CastleSafe(k, b, cm, 0, []);
      r.Done? ==>
        (forall m :: m in r.value.moves <==> m in cm && InBounds(m) && CastleOk(b, k.color, k.pos, m)) &&
        (r.value.piece.kind.castle <==> k.kind.castle || r.value.moves != [])
  {
    var r := CastleSafe(k, b, cm, 0, []);
    if r.Done? {
      CastleSafeExact(k, b, cm, 0, []);
      var kept := Kept(b, k.color, k.pos, cm);
      assert cm[0..] == cm && [] + kept == kept;
      KeptMembers(b, k.color, k.pos, cm, r.value.moves);
    }
  }

  /** Joins the pairing and the safety characterizations. */
  lemma PairedSafe(k: Piece, b: Board, rank: int, rooks: seq<Pos>, dests: seq<Pos>, cm: seq<Pos>, mv: Moves)
    requires Valid(b) && InBounds(k.pos) && 0 <= rank < 8
    requires forall j :: 0 <= j < |rooks| ==> 0 <= rooks[j].1 < 8
    requires forall m :: m in dests ==> InBounds(m)
    requires forall m :: m in cm <==>
      exists j :: 0 <= j < |rooks| && j < |dests| && m == dests[j] && PathClear(b, rank, k.pos.1, rooks[j].1)
    requires forall m :: m in mv <==> m in cm && InBounds(m) && CastleOk(b, k.color, k.pos, m)
    ensures forall m :: m in mv <==>
      exists j :: 0 <= j < |rooks| && j < |dests| && m == dests[j] &&
                  PathClear(b, rank, k.pos.1, rooks[j].1) && CastleOk(b, k.color, k.pos, m)
  {
    forall m
      ensures m in mv <==>
        exists j :: 0 <= j < |rooks| && j < |dests| && m == dests[j] &&
                    PathClear(b, rank, k.pos.1, rooks[j].1) && CastleOk(b, k.color, k.pos, m)
    {
      if exists j :: 0 <= j < |rooks| && j < |dests| && m == dests[j] &&
                    PathClear(b, rank, k.pos.1, rooks[j].1) && CastleOk(b, k.color, k.pos, m) {
        assert m in cm;
      }
    }
  }

  /** The safety loop consults only the king's square and colour. */
  lemma {:induction false} CastleSafeSameSquare(k1: Piece, k2: Piece, b: Board, dests: seq<Pos>, i: nat, acc: Moves)
    requires Valid(b) && InBounds(k1.pos) && k1.kind.King? && k2.kind.King? && i <= |dests|
    requires k2.pos == k1.pos && k2.color == k1.color
    requires forall m :: m in dests ==> InBounds(m)
    ensures CastleSafe(k1, b, dests, i, acc).Done? == CastleSafe(k2, b, dests, i, acc).Done?
    ensures CastleSafe(k1, b, dests, i, acc).Done? ==>
      CastleSafe(k1, b, dests, i, acc).value.moves == CastleSafe(k2, b, dests, i, acc).value.moves
    decreases |dests| - i
  {
    if i < |dests| {
      var d := dests[i];
      var t := TempBoard(b, k1.pos, d);
      if t.Done? {
        var tmp := t.value;
        var c1 := IsChecked(k1, tmp.0, None, true);
        var e1 := IsChecked(k2, tmp.0, None, true);
        assert c1.Done? == e1.Done?;
        if c1.Done? {
          assert c1.value.checked == e1.value.checked;
          if c1.value.checked {
            CastleSafeSameSquare(c1.value.king, e1.value.king, b, dests, i + 1, acc);
          } else {
            var c2 := IsChecked(c1.value.king, tmp.0, tmp.1, true);
            var e2 := IsChecked(e1.value.king, tmp.0, tmp.1, true);
            assert c2.Done? == e2.Done?;
            if c2.Done? {
              assert c2.value.checked == e2.value.checked;
              if c2.value.checked {
                CastleSafeSameSquare(c2.value.king, e2.value.king, b, dests, i + 1, acc);
              } else {
                CastleSafeSameSquare(c2.value.king.(kind := c2.value.king.kind.(castle := true)),
                                     e2.value.king.(kind := e2.value.king.kind.(castle := true)),
                                     b, dests, i + 1, acc + [d]);
              }
            }
          }
        }
      }
    }
  }

  /** _can_castle does not consult the king's own `moved` flag (nor its
      `castle` flag): two kings differing only there get the same outcome
      and the same castling moves. */
  lemma CastleIgnoresMoved(k: Piece, b: Board, moved: bool, castle: bool)
    requires Valid(b) && InBounds(k.pos) && k.kind.King?
    ensures var k2 := k.(moved := moved, kind := k.kind.(castle := castle));
      CanCastle(k, b).Done? == CanCastle(k2, b).Done? &&
      (CanCastle(k, b).Done? ==> CanCastle(k, b).value.moves == CanCastle(k2, b).value.moves)
  {
    var k2 := k.(moved := moved, kind := k.kind.(castle := castle));
    if !k.kind.cannotCastle {
      var rank := CastleRank(k.color);
      var rooks := UnmovedRooks(b, rank, 0);
      var dests := CastleDestinations(k.color);
      var pr := CastlePairs(b, rank, k.pos.1, rooks, dests, 0);
      if pr.Done? {
        CastlePairsIn(b, rank, k.pos.1, rooks, dests, 0);
        CastleSafeSameSquare(k, k2, b, pr.value, 0, []);
      }
    }
  }
}
