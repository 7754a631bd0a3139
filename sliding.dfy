/** Piece._rook_bishop_queen_move_check and the direction tables of Bishop,
    Rook and Queen: a walk along each direction that keeps empty squares,
    stops at the first occupied one and keeps that square only when it holds
    a piece of the other colour. */
module Sliding {
  import opened Board

  const BishopDirections: seq<Pos> := [(-1, 1), (1, 1), (-1, -1), (1, -1)]
  const RookDirections: seq<Pos> := [(-1, 0), (0, 1), (1, 0), (0, -1)]
  const QueenDirections: seq<Pos> :=
    [(-1, 1), (1, 1), (-1, -1), (1, -1), (-1, 0), (0, 1), (1, 0), (0, -1)]

  /** A single step in one of the eight directions. */
  predicate UnitDir(d: Pos)
  {
    -1 <= d.0 <= 1 && -1 <= d.1 <= 1 && d != (0, 0)
  }

  predicate UnitDirs(dirs: seq<Pos>)
  {
    forall i :: 0 <= i < |dirs| ==> UnitDir(dirs[i])
  }

  /** An upper bound on the number of on-board squares left along `d` from `t`. */
  function Reach(t: Pos, d: Pos): nat
  {
    if !InBounds(t) then 0
    else
      (if d.0 > 0 then 8 - t.0 else if d.0 < 0 then t.0 + 1 else 0) +
      (if d.1 > 0 then 8 - t.1 else if d.1 < 0 then t.1 + 1 else 0)
  }

  /** The square `k` steps along `d` from `t`. */
  function Step(t: Pos, d: Pos, k: int): Pos
  {
    (t.0 + k * d.0, t.1 + k * d.1)
  }

  /** The squares kept by the walk that starts at `t` and goes along `d`, for
      a piece of colour `c`. */
  function Ray(b: Board, c: Color, t: Pos, d: Pos): (r: Moves)
    requires Shaped(b) && UnitDir(d)
    ensures forall m :: m in r ==> InBounds(m) && !HoldsOwn(b, m, c)
    decreases Reach(t, d)
  {
    if !InBounds(t) then []
    else if Empty(b, t) then [t] + Ray(b, c, Plus(t, d), d)
    else if At(b, t).value.color != c then [t]
    else []
  }

  /** The walks of every direction in `dirs`, one after the other. */
  function Slide(b: Board, p: Piece, dirs: seq<Pos>): (r: Moves)
    requires Shaped(b) && UnitDirs(dirs)
    ensures forall m :: m in r ==> InBounds(m) && !HoldsOwn(b, m, p.color)
  {
    if dirs == [] then [] else Ray(b, p.color, Plus(p.pos, dirs[0]), dirs[0]) + Slide(b, p, dirs[1..])
  }

  /** The direction table of a sliding piece. */
  function Directions(k: Kind): (dirs: seq<Pos>)
    requires k.Bishop? || k.Rook? || k.Queen?
    ensures UnitDirs(dirs)
  {
    if k.Bishop? then BishopDirections else if k.Rook? then RookDirections else QueenDirections
  }

  /** Bishop, Rook and Queen `_get_moves`. */
  function SlidingMoves(b: Board, p: Piece): (r: Moves)
    requires Shaped(b) && (p.kind.Bishop? || p.kind.Rook? || p.kind.Queen?)
    ensures forall m :: m in r ==> InBounds(m) && !HoldsOwn(b, m, p.color)
  {
    Slide(b, p, Directions(p.kind))
  }

  lemma StepNext(t: Pos, d: Pos, k: int)
    requires UnitDir(d)
    ensures Step(Plus(t, d), d, k) == Step(t, d, k + 1)
  {
    assert (k + 1) * d.0 == k * d.0 + d.0;
    assert (k + 1) * d.1 == k * d.1 + d.1;
  }

  /** The walk lists the squares along `d` from `t`, in order, all on the board. */
  lemma {:induction false} RayPositions(b: Board, c: Color, t: Pos, d: Pos)
    requires Shaped(b) && UnitDir(d)
    ensures var r := Ray(b, c, t, d);
      forall k :: 0 <= k < |r| ==> r[k] == Step(t, d, k) && InBounds(r[k])
    decreases Reach(t, d)
  {
    var r := Ray(b, c, t, d);
    if InBounds(t) && Empty(b, t) {
      var t' := Plus(t, d);
      RayPositions(b, c, t', d);
      var r' := Ray(b, c, t', d);
      assert r == [t] + r';
      forall k | 0 <= k < |r|
        ensures r[k] == Step(t, d, k) && InBounds(r[k])
      {
        if k > 0 {
          assert r[k] == r'[k - 1];
          StepNext(t, d, k - 1);
        } else {
          assert Step(t, d, 0) == t;
        }
      }
    } else if r != [] {
      assert Step(t, d, 0) == t;
    }
  }

  /** Where the walk stops: every listed square but possibly the last is
      empty; the last one, when occupied, holds a piece of the other colour;
      and when the last one is empty (or there is none) the next square along
      `d` is off the board or holds a piece of colour `c`. */
  lemma RayStops(b: Board, c: Color, t: Pos, d: Pos)
    requires Shaped(b) && UnitDir(d)
    ensures var r := Ray(b, c, t, d);
      (forall k :: 0 <= k < |r| - 1 ==> InBounds(r[k]) && Empty(b, r[k])) &&
      (|r| > 0 ==> InBounds(r[|r| - 1]) && (Empty(b, r[|r| - 1]) || HoldsOther(b, r[|r| - 1], c))) &&
      ((|r| == 0 || (InBounds(r[|r| - 1]) && Empty(b, r[|r| - 1]))) ==>
         !InBounds(Step(t, d, |r|)) || HoldsOwn(b, Step(t, d, |r|), c))
  {
    RayInterior(b, c, t, d);
    RayLast(b, c, t, d);
    RayEnd(b, c, t, d);
  }

  lemma {:induction false} RayInterior(b: Board, c: Color, t: Pos, d: Pos)
    requires Shaped(b) && UnitDir(d)
    ensures forall k :: 0 <= k < |Ray(b, c, t, d)| - 1 ==> InBounds(Ray(b, c, t, d)[k]) && Empty(b, Ray(b, c, t, d)[k])
    decreases Reach(t, d)
  {
    var r := Ray(b, c, t, d);
    if InBounds(t) && Empty(b, t) {
      var t' := Plus(t, d);
      RayInterior(b, c, t', d);
      var r' := Ray(b, c, t', d);
      assert r == [t] + r';
      forall k | 0 <= k < |r| - 1
        ensures InBounds(r[k]) && Empty(b, r[k])
      {
        if k > 0 {
          assert r[k] == r'[k - 1];
        } else {
          assert r[k] == t;
        }
      }
    }
  }

  lemma {:induction false} RayLast(b: Board, c: Color, t: Pos, d: Pos)
    requires Shaped(b) && UnitDir(d)
    ensures |Ray(b, c, t, d)| > 0 ==> LastKept(b, c, Ray(b, c, t, d))
    decreases Reach(t, d)
  {
    var r := Ray(b, c, t, d);
    if InBounds(t) && Empty(b, t) {
      var t' := Plus(t, d);
      RayLast(b, c, t', d);
      var r' := Ray(b, c, t', d);
      assert r == [t] + r';
      if |r'| > 0 {
        assert r[|r| - 1] == r'[|r'| - 1];
      } else {
        assert r == [t];
      }
    }
  }

  /** The last square of a walk is on the board, and empty or held by the other colour. */
  predicate LastKept(b: Board, c: Color, r: Moves)
    requires Shaped(b) && |r| > 0
  {
    InBounds(r[|r| - 1]) && (Empty(b, r[|r| - 1]) || HoldsOther(b, r[|r| - 1], c))
  }

  lemma {:induction false} RayEnd(b: Board, c: Color, t: Pos, d: Pos)
    requires Shaped(b) && UnitDir(d)
    ensures var r := Ray(b, c, t, d);
      (|r| == 0 || (InBounds(r[|r| - 1]) && Empty(b, r[|r| - 1]))) ==>
        !InBounds(Step(t, d, |r|)) || HoldsOwn(b, Step(t, d, |r|), c)
    decreases Reach(t, d)
  {
    var r := Ray(b, c, t, d);
    if InBounds(t) && Empty(b, t) {
      var t' := Plus(t, d);
      RayEnd(b, c, t', d);
      var r' := Ray(b, c, t', d);
      assert r == [t] + r';
      StepNext(t, d, |r'|);
      if |r'| > 0 {
        assert r[|r| - 1] == r'[|r'| - 1];
      }
    } else {
      assert Step(t, d, 0) == t;
    }
  }

  /** Every square a walk keeps is on the board and free of pieces of colour `c`. */
  lemma RayTargets(b: Board, c: Color, t: Pos, d: Pos, m: Pos)
    requires Shaped(b) && UnitDir(d) && m in Ray(b, c, t, d)
    ensures InBounds(m) && !HoldsOwn(b, m, c)
    ensures exists k :: 0 <= k && m == Step(t, d, k)
  {
    RayPositions(b, c, t, d);
    RayStops(b, c, t, d);
    var r := Ray(b, c, t, d);
    var k :| 0 <= k < |r| && r[k] == m;
    assert m == Step(t, d, k);
  }

  /** The walks of `d1 + d2` are the walks of `d1` followed by those of `d2`. */
  lemma {:induction false} SlideAppend(b: Board, p: Piece, d1: seq<Pos>, d2: seq<Pos>)
    requires Shaped(b) && UnitDirs(d1) && UnitDirs(d2)
    ensures UnitDirs(d1 + d2)
    ensures Slide(b, p, d1 + d2) == Slide(b, p, d1) + Slide(b, p, d2)
  {
    if d1 != [] {
      assert (d1 + d2)[1..] == d1[1..] + d2;
      SlideAppend(b, p, d1[1..], d2);
    } else {
      assert d1 + d2 == d2;
    }
  }

  /** A sliding move along a direction of `dirs` is a square `k >= 1` steps away
      along one of them, on the board and free of own pieces. */
  lemma {:induction false} SlideTargets(b: Board, p: Piece, dirs: seq<Pos>, m: Pos)
    requires Shaped(b) && UnitDirs(dirs) && m in Slide(b, p, dirs)
    ensures InBounds(m) && !HoldsOwn(b, m, p.color)
    ensures exists i, k :: 0 <= i < |dirs| && 1 <= k && m == Step(p.pos, dirs[i], k)
  {
    var d := dirs[0];
    if m in Ray(b, p.color, Plus(p.pos, d), d) {
      RayTargets(b, p.color, Plus(p.pos, d), d, m);
      var k :| 0 <= k && m == Step(Plus(p.pos, d), d, k);
      StepNext(p.pos, d, k);
    } else {
      SlideTargets(b, p, dirs[1..], m);
      var i, k :| 0 <= i < |dirs[1..]| && 1 <= k && m == Step(p.pos, dirs[1..][i], k);
      assert m == Step(p.pos, dirs[i + 1], k);
    }
  }

  /** The offset of the square `k` steps along a unit direction, coordinate by coordinate. */
  lemma StepOffset(t: Pos, d: Pos, k: int)
    requires UnitDir(d)
    ensures Step(t, d, k).0 - t.0 == (if d.0 == 1 then k else if d.0 == -1 then -k else 0)
    ensures Step(t, d, k).1 - t.1 == (if d.1 == 1 then k else if d.1 == -1 then -k else 0)
  {
    if d.0 == -1 { assert k * d.0 == -k; } else if d.0 == 0 { assert k * d.0 == 0; }
    if d.1 == -1 { assert k * d.1 == -k; } else if d.1 == 0 { assert k * d.1 == 0; }
  }

  /** Bishop moves are diagonal. */
  lemma BishopDiagonal(b: Board, p: Piece, m: Pos)
    requires Shaped(b) && p.kind.Bishop? && m in SlidingMoves(b, p)
    ensures InBounds(m) && !HoldsOwn(b, m, p.color)
    ensures m.0 != p.pos.0 && (m.0 - p.pos.0 == m.1 - p.pos.1 || m.0 - p.pos.0 == p.pos.1 - m.1)
  {
    SlideTargets(b, p, BishopDirections, m);
    var i, k :| 0 <= i < |BishopDirections| && 1 <= k && m == Step(p.pos, BishopDirections[i], k);
    assert BishopDirections[i].0 != 0 && BishopDirections[i].1 != 0;
    StepOffset(p.pos, BishopDirections[i], k);
  }

  /** Rook moves are orthogonal. */
  lemma RookOrthogonal(b: Board, p: Piece, m: Pos)
    requires Shaped(b) && p.kind.Rook? && m in SlidingMoves(b, p)
    ensures InBounds(m) && !HoldsOwn(b, m, p.color)
    ensures m != p.pos && (m.0 == p.pos.0 || m.1 == p.pos.1)
  {
    SlideTargets(b, p, RookDirections, m);
    var i, k :| 0 <= i < |RookDirections| && 1 <= k && m == Step(p.pos, RookDirections[i], k);
    assert RookDirections[i].0 == 0 || RookDirections[i].1 == 0;
    StepOffset(p.pos, RookDirections[i], k);
  }

  /** Queen moves are the bishop moves followed by the rook moves from the same square. */
  lemma QueenIsBishopThenRook(b: Board, p: Piece)
    requires Shaped(b) && p.kind.Queen?
    ensures SlidingMoves(b, p) == SlidingMoves(b, p.(kind := Bishop)) + SlidingMoves(b, p.(kind := Rook))
  {
    assert QueenDirections == BishopDirections + RookDirections;
    SlideAppend(b, p, BishopDirections, RookDirections);
    assert SlidingMoves(b, p.(kind := Bishop)) == Slide(b, p, BishopDirections) by {
      SlideSameSquare(b, p.(kind := Bishop), p, BishopDirections);
    }
    assert SlidingMoves(b, p.(kind := Rook)) == Slide(b, p, RookDirections) by {
      SlideSameSquare(b, p.(kind := Rook), p, RookDirections);
    }
  }

  /** The walks depend only on the square and the colour of the piece. */
  lemma {:induction false} SlideSameSquare(b: Board, p: Piece, q: Piece, dirs: seq<Pos>)
    requires Shaped(b) && UnitDirs(dirs) && p.pos == q.pos && p.color == q.color
    ensures Slide(b, p, dirs) == Slide(b, q, dirs)
  {
    if dirs != [] {
      SlideSameSquare(b, p, q, dirs[1..]);
    }
  }

  /** The `while` loop of `_rook_bishop_queen_move_check`: walk from `start`
      along `d` until off the board or blocked. */
  method Walk(b: Board, c: Color, start: Pos, d: Pos) returns (ray: Moves)
    requires Shaped(b) && UnitDir(d)
    ensures ray == Ray(b, c, start, d)
  {
    ray := [];
    var t := start;
    while InBounds(t)
      invariant ray + Ray(b, c, t, d) == Ray(b, c, start, d)
      decreases Reach(t, d)
    {
      if Empty(b, t) {
        assert ray + Ray(b, c, t, d) == (ray + [t]) + Ray(b, c, Plus(t, d), d);
        ray := ray + [t];
      } else {
        if At(b, t).value.color != c {
          ray := ray + [t];
        }
        return;
      }
      t := Plus(t, d);
    }
    assert ray + [] == ray;
  }

  /** The loop of `_rook_bishop_queen_move_check` over the directions. */
  method SlideMovesLoop(b: Board, p: Piece, dirs: seq<Pos>) returns (moves: Moves)
    requires Shaped(b) && UnitDirs(dirs)
    ensures moves == Slide(b, p, dirs)
  {
    moves := [];
    for i := 0 to |dirs|
      invariant moves + Slide(b, p, dirs[i..]) == Slide(b, p, dirs)
    {
      var ray := Walk(b, p.color, Plus(p.pos, dirs[i]), dirs[i]);
      SlideStep(b, p, dirs, i, moves);
      moves := moves + ray;
    }
    assert dirs[|dirs|..] == [];
    assert moves + [] == moves;
  }

  /** One direction of the loop over the directions. */
  lemma SlideStep(b: Board, p: Piece, dirs: seq<Pos>, i: int, moves: Moves)
    requires Shaped(b) && UnitDirs(dirs) && 0 <= i < |dirs|
    ensures moves + Slide(b, p, dirs[i..]) ==
      (moves + Ray(b, p.color, Plus(p.pos, dirs[i]), dirs[i])) + Slide(b, p, dirs[i + 1..])
  {
    assert dirs[i..][1..] == dirs[i + 1..];
  }

  /** Bishop, Rook and Queen `_get_moves`, by the loop. */
  method GetSlidingMoves(b: Board, p: Piece) returns (moves: Moves)
    requires Shaped(b) && (p.kind.Bishop? || p.kind.Rook? || p.kind.Queen?)
    ensures moves == SlidingMoves(b, p)
  {
    moves := SlideMovesLoop(b, p, Directions(p.kind));
  }
}
