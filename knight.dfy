/** Knight._get_moves: the eight L-shaped jumps that land on the board on a
    square that is empty or holds a piece of the other colour. */
module Knight {
  import opened Board

  const KnightOffsets: seq<Pos> :=
    [(-2, -1), (-1, -2), (1, -2), (2, -1), (-2, 1), (-1, 2), (1, 2), (2, 1)]

  /** A jump lands on `t` when `t` is on the board and holds no piece of colour `c`. */
  predicate Lands(b: Board, t: Pos, c: Color)
    requires Shaped(b)
  {
    InBounds(t) && !HoldsOwn(b, t, c)
  }

  /** The kept jumps among `offs`, in order. */
  function Jumps(b: Board, p: Piece, offs: seq<Pos>): (r: Moves)
    requires Shaped(b)
    ensures |r| <= |offs|
    ensures forall m :: m in r ==> Lands(b, m, p.color)
  {
    if offs == [] then []
    else (if Lands(b, Plus(p.pos, offs[0]), p.color) then [Plus(p.pos, offs[0])] else [])
         + Jumps(b, p, offs[1..])
  }

  function KnightMoves(b: Board, p: Piece): (r: Moves)
    requires Shaped(b)
    ensures |r| <= 8
    ensures forall m :: m in r ==> Lands(b, m, p.color)
  {
    Jumps(b, p, KnightOffsets)
  }

  /** A square is kept iff some offset leads to it and the jump lands there. */
  lemma {:induction false} JumpsExact(b: Board, p: Piece, offs: seq<Pos>, m: Pos)
    requires Shaped(b)
    ensures m in Jumps(b, p, offs) <==>
      Lands(b, m, p.color) && exists i :: 0 <= i < |offs| && m == Plus(p.pos, offs[i])
  {
    if offs != [] {
      JumpsExact(b, p, offs[1..], m);
      if m in Jumps(b, p, offs[1..]) {
        var i :| 0 <= i < |offs[1..]| && m == Plus(p.pos, offs[1..][i]);
        assert m == Plus(p.pos, offs[i + 1]);
      }
      if Lands(b, m, p.color) && exists i :: 0 <= i < |offs| && m == Plus(p.pos, offs[i]) {
        var i :| 0 <= i < |offs| && m == Plus(p.pos, offs[i]);
        if i > 0 {
          assert m == Plus(p.pos, offs[1..][i - 1]);
        }
      }
    }
  }

  /** The knight's move set, exactly: the on-board squares free of own pieces
      at a (1, 2) or (2, 1) L-jump in any orientation. */
  lemma KnightMovesExact(b: Board, p: Piece, m: Pos)
    requires Shaped(b)
    ensures m in KnightMoves(b, p) <==>
      InBounds(m) && !HoldsOwn(b, m, p.color) && LJump(m.0 - p.pos.0, m.1 - p.pos.1)
  {
    JumpsExact(b, p, KnightOffsets, m);
    if Lands(b, m, p.color) && LJump(m.0 - p.pos.0, m.1 - p.pos.1) {
      var i := OffsetIndex(m.0 - p.pos.0, m.1 - p.pos.1);
      assert 0 <= i < |KnightOffsets| && m == Plus(p.pos, KnightOffsets[i]);
    }
    if m in KnightMoves(b, p) {
      var i :| 0 <= i < |KnightOffsets| && m == Plus(p.pos, KnightOffsets[i]);
      OffsetShape(i);
    }
  }

  /** A displacement by one square and two squares across, in either order. */
  predicate LJump(dr: int, dc: int)
  {
    ((dr == 1 || dr == -1) && (dc == 2 || dc == -2)) || ((dr == 2 || dr == -2) && (dc == 1 || dc == -1))
  }

  /** Every offset is an L-jump. */
  lemma OffsetShape(i: int)
    requires 0 <= i < |KnightOffsets|
    ensures LJump(KnightOffsets[i].0, KnightOffsets[i].1)
  {
  }

  /** Every L-jump is an offset. */
  lemma OffsetIndex(dr: int, dc: int) returns (i: int)
    requires LJump(dr, dc)
    ensures 0 <= i < |KnightOffsets| && KnightOffsets[i] == (dr, dc)
  {
    if dr == -2 {
      i := if dc == -1 then 0 else 4;
    } else if dr == -1 {
      i := if dc == -2 then 1 else 5;
    } else if dr == 1 {
      i := if dc == -2 then 2 else 6;
    } else {
      i := if dc == -1 then 3 else 7;
    }
  }

  /** The loop of Knight._get_moves. */
  method GetKnightMoves(b: Board, p: Piece) returns (moves: Moves)
    requires Shaped(b)
    ensures moves == KnightMoves(b, p)
  {
    var offs := KnightOffsets;
    moves := [];
    for i := 0 to |offs|
      invariant moves + Jumps(b, p, offs[i..]) == KnightMoves(b, p)
    {
      JumpsStep(b, p, offs, i, moves);
      var t := Plus(p.pos, offs[i]);
      if InBounds(t) {
        if Empty(b, t) {
          moves := moves + [t];
        } else if At(b, t).value.color != p.color {
          moves := moves + [t];
        }
      }
    }
    assert offs[|offs|..] == [] && moves + [] == moves;
  }

  /** One offset of the loop of Knight._get_moves. */
  lemma JumpsStep(b: Board, p: Piece, offs: seq<Pos>, i: int, moves: Moves)
    requires Shaped(b) && 0 <= i < |offs|
    ensures var t := Plus(p.pos, offs[i]);
      moves + Jumps(b, p, offs[i..]) ==
      (if Lands(b, t, p.color) then moves + [t] else moves) + Jumps(b, p, offs[i + 1..])
  {
    assert offs[i..][1..] == offs[i + 1..];
    var t := Plus(p.pos, offs[i]);
    var rest := Jumps(b, p, offs[i + 1..]);
    if Lands(b, t, p.color) {
      assert moves + ([t] + rest) == (moves + [t]) + rest;
    } else {
      assert [] + rest == rest;
    }
  }
}
