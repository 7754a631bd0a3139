/** Pawn._get_moves, Pawn._check_en_passant and Pawn._is_promotion. */
module Pawn {
  import opened Board

  /** The row step of a pawn: White moves up the rows, Black down. */
  function Ahead(c: Color): int
  {
    if c == White then 1 else -1
  }

  /** The non-capturing offsets: one step, and a second step when the pawn
      has not moved yet. */
  function Moveset(p: Piece): seq<Pos>
  {
    [(Ahead(p.color), 0)] + (if !p.moved then [(2 * Ahead(p.color), 0)] else [])
  }

  const WhiteAttack: seq<Pos> := [(1, 1), (1, -1)]
  const BlackAttack: seq<Pos> := [(-1, -1), (-1, 1)]

  function Attack(c: Color): seq<Pos>
  {
    if c == White then WhiteAttack else BlackAttack
  }

  /** Offsets of the squares beside the pawn that may hold a pawn to take en passant. */
  const EnPassantCheck: seq<Pos> := [(0, 1), (0, -1)]

  /** The forward walk: an on-board empty square is kept, an on-board occupied
      square ends the walk, an off-board square is skipped. */
  function Advance(b: Board, p: Piece, offs: seq<Pos>): Moves
    requires Shaped(b)
  {
    if offs == [] then []
    else
      var t := Plus(p.pos, offs[0]);
      if InBounds(t) then
        (if Empty(b, t) then [t] + Advance(b, p, offs[1..]) else [])
      else Advance(b, p, offs[1..])
  }

  /** The diagonal squares that hold a piece of the other colour. */
  function Captures(b: Board, p: Piece, offs: seq<Pos>): Moves
    requires Shaped(b)
  {
    if offs == [] then []
    else
      var t := Plus(p.pos, offs[0]);
      (if InBounds(t) && HoldsOther(b, t, p.color) then [t] else []) + Captures(b, p, offs[1..])
  }

  /** `t` holds a pawn of the other colour that has just made its double step. */
  predicate Victim(b: Board, p: Piece, t: Pos)
    requires Shaped(b)
  {
    InBounds(t) && At(b, t).Some? && At(b, t).value.color != p.color &&
    At(b, t).value.kind.Pawn? && At(b, t).value.kind.enPassant
  }

  /** The en passant destinations: the square one step forward (for the
      moving pawn) of each adjacent victim. This is the evident intent of
      SimpleChessGame/pieces.py:168-172; see the as-written variant below. */
  function EnPassantTargets(b: Board, p: Piece, offs: seq<Pos>): Moves
    requires Shaped(b)
  {
    if offs == [] then []
    else
      var t := Plus(p.pos, offs[0]);
      (if Victim(b, p, t) then [Plus(t, (Ahead(p.color), 0))] else []) + EnPassantTargets(b, p, offs[1..])
  }

  /** Pawn._get_moves: forward moves, then captures, then en passant moves;
      `can_en_passant` is set on the pawn when an en passant move is found. */
  function PawnMoves(b: Board, p: Piece): (g: Gen)
    requires Shaped(b) && p.kind.Pawn?
    ensures g.piece.pos == p.pos && g.piece.color == p.color && g.piece.moved == p.moved && g.piece.kind.Pawn?
    ensures g.piece.kind.enPassant == p.kind.enPassant && g.piece.kind.promotion == p.kind.promotion
  {
    var ep := EnPassantTargets(b, p, EnPassantCheck);
    Gen(Advance(b, p, Moveset(p)) + Captures(b, p, Attack(p.color)) + ep,
        if ep != [] then p.(kind := p.kind.(canEnPassant := true)) else p)
  }

  /** The forward moves in closed form: the one-step square when it is on the
      board and empty, followed by the two-step square only when the pawn has
      not moved, the one-step square was taken and the two-step square is on
      the board and empty. */
  lemma AdvanceExact(b: Board, p: Piece)
    requires Shaped(b) && InBounds(p.pos)
    ensures var one, two := Plus(p.pos, (Ahead(p.color), 0)), Plus(p.pos, (2 * Ahead(p.color), 0));
      Advance(b, p, Moveset(p)) ==
        if InBounds(one) && Empty(b, one)
        then [one] + (if !p.moved && InBounds(two) && Empty(b, two) then [two] else [])
        else []
  {
    var a := Ahead(p.color);
    var one, two := Plus(p.pos, (a, 0)), Plus(p.pos, (2 * a, 0));
    var tail := if !p.moved then [(2 * a, 0)] else [];
    assert Moveset(p) == [(a, 0)] + tail;
    assert Moveset(p)[1..] == tail;
    if !p.moved {
      assert tail[1..] == [];
      assert Advance(b, p, tail) == if InBounds(two) && Empty(b, two) then [two] else [];
    }
  }

  /** The capture squares of the two diagonal offsets. */
  lemma CapturesUnfold(b: Board, p: Piece)
    requires Shaped(b)
    ensures var offs := Attack(p.color);
      var t0, t1 := Plus(p.pos, offs[0]), Plus(p.pos, offs[1]);
      |offs| == 2 &&
      Captures(b, p, offs) ==
        (if InBounds(t0) && HoldsOther(b, t0, p.color) then [t0] else []) +
        (if InBounds(t1) && HoldsOther(b, t1, p.color) then [t1] else [])
  {
    var offs := Attack(p.color);
    assert offs[1..][1..] == [];
    var t1 := Plus(p.pos, offs[1]);
    var c1 := if InBounds(t1) && HoldsOther(b, t1, p.color) then [t1] else [];
    assert Captures(b, p, offs[1..]) == c1 + [];
    assert c1 + [] == c1;
  }

  /** Captures are exactly the forward-diagonal squares holding a piece of the other colour. */
  lemma CapturesExact(b: Board, p: Piece, m: Pos)
    requires Shaped(b)
    ensures m in Captures(b, p, Attack(p.color)) <==>
      InBounds(m) && HoldsOther(b, m, p.color) &&
      m.0 == p.pos.0 + Ahead(p.color) && (m.1 == p.pos.1 + 1 || m.1 == p.pos.1 - 1)
  {
    CapturesUnfold(b, p);
    var offs := Attack(p.color);
    var a := Ahead(p.color);
    assert (offs[0] == (a, 1) && offs[1] == (a, -1)) || (offs[0] == (a, -1) && offs[1] == (a, 1));
  }

  /** The en passant destinations of the right-hand and of the left-hand neighbour. */
  lemma EnPassantUnfold(b: Board, p: Piece)
    requires Shaped(b)
    ensures var right, left := (p.pos.0, p.pos.1 + 1), (p.pos.0, p.pos.1 - 1);
      EnPassantTargets(b, p, EnPassantCheck) ==
        (if Victim(b, p, right) then [(p.pos.0 + Ahead(p.color), p.pos.1 + 1)] else []) +
        (if Victim(b, p, left) then [(p.pos.0 + Ahead(p.color), p.pos.1 - 1)] else [])
  {
    var offs := EnPassantCheck;
    var a := Ahead(p.color);
    var right, left := (p.pos.0, p.pos.1 + 1), (p.pos.0, p.pos.1 - 1);
    assert offs[1..] == [(0, -1)];
    assert offs[1..][1..] == [];
    assert Plus(p.pos, offs[0]) == right && Plus(right, (a, 0)) == (p.pos.0 + a, p.pos.1 + 1);
    assert Plus(p.pos, offs[1]) == left && Plus(left, (a, 0)) == (p.pos.0 + a, p.pos.1 - 1);
    assert EnPassantTargets(b, p, offs[1..]) ==
      (if Victim(b, p, left) then [(p.pos.0 + a, p.pos.1 - 1)] else []) + EnPassantTargets(b, p, offs[1..][1..]);
  }

  /** En passant destinations are exactly the squares one step forward of an
      adjacent victim. */
  lemma EnPassantExact(b: Board, p: Piece, m: Pos)
    requires Shaped(b)
    ensures m in EnPassantTargets(b, p, EnPassantCheck) <==>
      (Victim(b, p, (p.pos.0, p.pos.1 + 1)) && m == (p.pos.0 + Ahead(p.color), p.pos.1 + 1)) ||
      (Victim(b, p, (p.pos.0, p.pos.1 - 1)) && m == (p.pos.0 + Ahead(p.color), p.pos.1 - 1))
  {
    EnPassantUnfold(b, p);
  }

  /** The pawn's move list, described square by square: forward moves land on
      empty squares only (the two-step only for an unmoved pawn whose one-step
      square is free), diagonal moves only on a piece of the other colour or
      beside a victim, and every move goes one row (two for the double step)
      in the pawn's direction. Only `can_en_passant` may change on the pawn,
      and it is set iff a neighbour is a victim. */
  lemma PawnMovesShape(b: Board, p: Piece, m: Pos)
    requires Shaped(b) && InBounds(p.pos) && p.kind.Pawn?
    ensures var g := PawnMoves(b, p);
      g.piece == p.(kind := p.kind.(canEnPassant := g.piece.kind.canEnPassant)) &&
      (g.piece.kind.canEnPassant <==>
        (p.kind.canEnPassant || Victim(b, p, (p.pos.0, p.pos.1 + 1)) || Victim(b, p, (p.pos.0, p.pos.1 - 1)))) &&
      (m in g.moves <==>
        (m == (p.pos.0 + Ahead(p.color), p.pos.1) && InBounds(m) && Empty(b, m)) ||
        (m == (p.pos.0 + 2 * Ahead(p.color), p.pos.1) && !p.moved && InBounds(m) && Empty(b, m) &&
           Empty(b, (p.pos.0 + Ahead(p.color), p.pos.1))) ||
        (m.0 == p.pos.0 + Ahead(p.color) && (m.1 == p.pos.1 + 1 || m.1 == p.pos.1 - 1) &&
           ((InBounds(m) && HoldsOther(b, m, p.color)) || Victim(b, p, (p.pos.0, m.1)))))
  {
    PawnPiece(b, p);
    PawnMember(b, p, m);
  }

  /** The pawn after its generator: only `can_en_passant` may change. */
  lemma PawnPiece(b: Board, p: Piece)
    requires Shaped(b) && InBounds(p.pos) && p.kind.Pawn?
    ensures var g := PawnMoves(b, p);
      g.piece == p.(kind := p.kind.(canEnPassant := g.piece.kind.canEnPassant)) &&
      (g.piece.kind.canEnPassant <==>
        (p.kind.canEnPassant || Victim(b, p, (p.pos.0, p.pos.1 + 1)) || Victim(b, p, (p.pos.0, p.pos.1 - 1))))
  {
    EnPassantUnfold(b, p);
  }

  /** The pawn's moves square by square. */
  lemma PawnMember(b: Board, p: Piece, m: Pos)
    requires Shaped(b) && InBounds(p.pos) && p.kind.Pawn?
    ensures m in PawnMoves(b, p).moves <==>
        (m == (p.pos.0 + Ahead(p.color), p.pos.1) && InBounds(m) && Empty(b, m)) ||
        (m == (p.pos.0 + 2 * Ahead(p.color), p.pos.1) && !p.moved && InBounds(m) && Empty(b, m) &&
           Empty(b, (p.pos.0 + Ahead(p.color), p.pos.1))) ||
        (m.0 == p.pos.0 + Ahead(p.color) && (m.1 == p.pos.1 + 1 || m.1 == p.pos.1 - 1) &&
           ((InBounds(m) && HoldsOther(b, m, p.color)) || Victim(b, p, (p.pos.0, m.1))))
  {
    var a := Ahead(p.color);
    var one, two := (p.pos.0 + a, p.pos.1), (p.pos.0 + 2 * a, p.pos.1);
    var fwd, cap, ep := Advance(b, p, Moveset(p)), Captures(b, p, Attack(p.color)), EnPassantTargets(b, p, EnPassantCheck);
    AdvanceMember(b, p, m);
    var side := m.0 == p.pos.0 + a && (m.1 == p.pos.1 + 1 || m.1 == p.pos.1 - 1);
    assert m in cap <==> side && InBounds(m) && HoldsOther(b, m, p.color) by {
      CapturesExact(b, p, m);
    }
    assert m in ep <==> side && Victim(b, p, (p.pos.0, m.1)) by {
      EnPassantExact(b, p, m);
    }
    InThree(m, fwd, cap, ep);
  }

  /** The forward moves square by square. */
  lemma AdvanceMember(b: Board, p: Piece, m: Pos)
    requires Shaped(b) && InBounds(p.pos)
    ensures var one, two := Plus(p.pos, (Ahead(p.color), 0)), Plus(p.pos, (2 * Ahead(p.color), 0));
      m in Advance(b, p, Moveset(p)) <==>
        (m == one && InBounds(m) && Empty(b, m)) ||
        (m == two && !p.moved && InBounds(m) && Empty(b, m) && Empty(b, one))
  {
    AdvanceExact(b, p);
  }

  lemma InThree(m: Pos, x: Moves, y: Moves, z: Moves)
    ensures m in x + y + z <==> m in x || m in y || m in z
  {
  }

  /** The regular-movement loop of Pawn._get_moves; an occupied square ends it. */
  method AdvanceLoop(b: Board, p: Piece, offs: seq<Pos>) returns (moves: Moves)
    requires Shaped(b)
    ensures moves == Advance(b, p, offs)
  {
    moves := [];
    for i := 0 to |offs|
      invariant moves + Advance(b, p, offs[i..]) == Advance(b, p, offs)
    {
      AdvanceStep(b, p, offs, i, moves);
      var t := Plus(p.pos, offs[i]);
      if InBounds(t) {
        if Empty(b, t) {
          moves := moves + [t];
        } else {
          return;
        }
      }
    }
    assert offs[|offs|..] == [] && moves + [] == moves;
  }

  /** One offset of the regular-movement loop. */
  lemma AdvanceStep(b: Board, p: Piece, offs: seq<Pos>, i: int, moves: Moves)
    requires Shaped(b) && 0 <= i < |offs|
    ensures var t := Plus(p.pos, offs[i]);
      (!InBounds(t) ==> moves + Advance(b, p, offs[i..]) == moves + Advance(b, p, offs[i + 1..])) &&
      (InBounds(t) && Empty(b, t) ==> moves + Advance(b, p, offs[i..]) == (moves + [t]) + Advance(b, p, offs[i + 1..])) &&
      (InBounds(t) && !Empty(b, t) ==> moves + Advance(b, p, offs[i..]) == moves)
  {
    assert offs[i..][1..] == offs[i + 1..];
    var t := Plus(p.pos, offs[i]);
    if InBounds(t) && Empty(b, t) {
      var rest := Advance(b, p, offs[i + 1..]);
      assert moves + ([t] + rest) == (moves + [t]) + rest;
    } else if InBounds(t) {
      assert moves + [] == moves;
    }
  }

  /** The capturing loop of Pawn._get_moves. */
  method CapturesLoop(b: Board, p: Piece, offs: seq<Pos>) returns (moves: Moves)
    requires Shaped(b)
    ensures moves == Captures(b, p, offs)
  {
    moves := [];
    for i := 0 to |offs|
      invariant moves + Captures(b, p, offs[i..]) == Captures(b, p, offs)
    {
      CapturesStep(b, p, offs, i, moves);
      var t := Plus(p.pos, offs[i]);
      if InBounds(t) && At(b, t).Some? && At(b, t).value.color != p.color {
        moves := moves + [t];
      }
    }
    assert offs[|offs|..] == [] && moves + [] == moves;
  }

  /** One offset of the capturing loop. */
  lemma CapturesStep(b: Board, p: Piece, offs: seq<Pos>, i: int, moves: Moves)
    requires Shaped(b) && 0 <= i < |offs|
    ensures var t := Plus(p.pos, offs[i]);
      moves + Captures(b, p, offs[i..]) ==
      (if InBounds(t) && HoldsOther(b, t, p.color) then moves + [t] else moves) + Captures(b, p, offs[i + 1..])
  {
    assert offs[i..][1..] == offs[i + 1..];
    var t := Plus(p.pos, offs[i]);
    var rest := Captures(b, p, offs[i + 1..]);
    if InBounds(t) && HoldsOther(b, t, p.color) {
      assert moves + ([t] + rest) == (moves + [t]) + rest;
    } else {
      assert [] + rest == rest;
    }
  }

  /** The en passant loop of Pawn._get_moves, which also sets `can_en_passant`. */
  method EnPassantLoop(b: Board, p: Piece, offs: seq<Pos>) returns (moves: Moves, self: Piece)
    requires Shaped(b) && p.kind.Pawn?
    ensures moves == EnPassantTargets(b, p, offs)
    ensures self == if moves == [] then p else p.(kind := p.kind.(canEnPassant := true))
  {
    moves := [];
    self := p;
    for i := 0 to |offs|
      invariant moves + EnPassantTargets(b, p, offs[i..]) == EnPassantTargets(b, p, offs)
      invariant self == if |moves| == 0 then p else p.(kind := p.kind.(canEnPassant := true))
    {
      EnPassantStep(b, p, offs, i, moves);
      var t := Plus(p.pos, offs[i]);
      if InBounds(t) {
        var piece := At(b, t);
        if piece.Some? && piece.value.color != p.color && piece.value.kind.Pawn? && piece.value.kind.enPassant {
          moves := moves + [Plus(t, (Ahead(p.color), 0))];
          self := self.(kind := self.kind.(canEnPassant := true));
        }
      }
    }
    assert offs[|offs|..] == [] && moves + [] == moves;
  }

  /** One offset of the en passant loop. */
  lemma EnPassantStep(b: Board, p: Piece, offs: seq<Pos>, i: int, moves: Moves)
    requires Shaped(b) && 0 <= i < |offs|
    ensures var t := Plus(p.pos, offs[i]);
      moves + EnPassantTargets(b, p, offs[i..]) ==
      (if Victim(b, p, t) then moves + [Plus(t, (Ahead(p.color), 0))] else moves) + EnPassantTargets(b, p, offs[i + 1..])
  {
    assert offs[i..][1..] == offs[i + 1..];
    var t := Plus(p.pos, offs[i]);
    var rest := EnPassantTargets(b, p, offs[i + 1..]);
    if Victim(b, p, t) {
      assert moves + ([Plus(t, (Ahead(p.color), 0))] + rest) == (moves + [Plus(t, (Ahead(p.color), 0))]) + rest;
    } else {
      assert [] + rest == rest;
    }
  }

  /** Pawn._get_moves by its three loops. */
  method GetPawnMoves(b: Board, p: Piece) returns (g: Gen)
    requires Shaped(b) && p.kind.Pawn?
    ensures g == PawnMoves(b, p)
  {
    var forward := AdvanceLoop(b, p, Moveset(p));
    var captures := CapturesLoop(b, p, Attack(p.color));
    var ep, self := EnPassantLoop(b, p, EnPassantCheck);
    g := Gen(forward + captures + ep, self);
  }

  /** Pawn._check_en_passant, worked out from the pawn's old position: a pawn
      not yet marked becomes marked iff it moves exactly two rows along its
      column; a marked pawn is unmarked whatever the move. Nothing else on the
      pawn changes. */
  function CheckEnPassant(p: Piece, t: Pos): (r: Piece)
    requires p.kind.Pawn?
    ensures r.kind.Pawn? && r.pos == p.pos && r.color == p.color && r.moved == p.moved
    ensures r.kind.canEnPassant == p.kind.canEnPassant && r.kind.promotion == p.kind.promotion
    ensures r.kind.enPassant <==>
      !p.kind.enPassant && t.1 == p.pos.1 && (t.0 == p.pos.0 + 2 || t.0 == p.pos.0 - 2)
  {
    if !p.kind.enPassant then
      var diff := (Abs(t.0 - p.pos.0), Abs(t.1 - p.pos.1));
      if diff == (2, 0) then p.(kind := p.kind.(enPassant := true)) else p
    else p.(kind := p.kind.(enPassant := false))
  }

  function Abs(x: int): nat
  {
    if x < 0 then -x else x
  }

  const WhitePromotion: seq<Pos> := [(7, 0), (7, 1), (7, 2), (7, 3), (7, 4), (7, 5), (7, 6), (7, 7)]
  /** As in the source: (0, 0) appears twice and (0, 7) is missing. */
  const BlackPromotion: seq<Pos> := [(0, 0), (0, 1), (0, 2), (0, 3), (0, 4), (0, 5), (0, 6), (0, 0)]

  /** Pawn.get_promotion_tile: eight tiles, every one on the far rank. */
  function PromotionTiles(c: Color): (r: seq<Pos>)
    ensures |r| == 8
    ensures forall i :: 0 <= i < |r| ==> r[i].0 == (if c == White then 7 else 0)
  {
    if c == White then WhitePromotion else BlackPromotion
  }

  /** Pawn._is_promotion: sets `promotion` when the target is in the pawn's
      promotion table, which for White is the whole of row 7 and for Black
      row 0 without its last column. The flag is never cleared and nothing
      else on the pawn changes. */
  function IsPromotion(p: Piece, t: Pos): (r: Piece)
    requires p.kind.Pawn?
    ensures r.kind.Pawn? && r.pos == p.pos && r.color == p.color && r.moved == p.moved
    ensures r.kind.enPassant == p.kind.enPassant && r.kind.canEnPassant == p.kind.canEnPassant
    ensures r.kind.promotion <==>
      p.kind.promotion ||
      (p.color == White && t.0 == 7 && 0 <= t.1 <= 7) ||
      (p.color == Black && t.0 == 0 && 0 <= t.1 <= 6)
  {
    if t in PromotionTiles(p.color) then p.(kind := p.kind.(promotion := true)) else p
  }

  /** Pieces.py:170-171 as written: the first line unpacks a one-element
      tuple into two names and raises, so reaching the en passant branch
      raises instead of producing a move. */
  function EnPassantAsWritten(b: Board, p: Piece, offs: seq<Pos>): (r: Outcome<Moves>)
    requires Shaped(b)
    ensures r.Done? ==> r.value == []
    ensures r.Done? <==> EnPassantTargets(b, p, offs) == []
  {
    if offs == [] then Done([])
    else if Victim(b, p, Plus(p.pos, offs[0])) then Raised
    else EnPassantAsWritten(b, p, offs[1..])
  }

  /** Pawn._get_moves as written. */
  function PawnMovesAsWritten(b: Board, p: Piece): (r: Outcome<Gen>)
    requires Shaped(b) && p.kind.Pawn?
    ensures r.Raised? <==> EnPassantTargets(b, p, EnPassantCheck) != []
    ensures r.Done? ==> r.value == PawnMoves(b, p)
  {
    match EnPassantAsWritten(b, p, EnPassantCheck)
    case Raised => Raised
    case Done(ep) => Done(Gen(Advance(b, p, Moveset(p)) + Captures(b, p, Attack(p.color)) + ep, p))
  }

  function EmptyBoard(): (b: Board)
    ensures Valid(b) && forall q :: InBounds(q) ==> Empty(b, q)
  {
    var row: seq<Option<Piece>> := [None, None, None, None, None, None, None, None];
    [row, row, row, row, row, row, row, row]
  }

  /** White pawn on e5, Black pawn beside it on f5 just after its double
      step: as written the generator raises; the intended generator offers
      f6, one step forward of the Black pawn. */
  lemma EnPassantAsWrittenRaises()
    ensures var w := Piece(Pawn(false, false, false), White, (4, 4), true);
      var bl := Piece(Pawn(true, false, false), Black, (4, 5), true);
      var b := Put(Put(EmptyBoard(), (4, 4), Some(w)), (4, 5), Some(bl));
      PawnMovesAsWritten(b, w) == Raised && (5, 5) in PawnMoves(b, w).moves
  {
    var w := Piece(Pawn(false, false, false), White, (4, 4), true);
    var bl := Piece(Pawn(true, false, false), Black, (4, 5), true);
    var b := Put(Put(EmptyBoard(), (4, 4), Some(w)), (4, 5), Some(bl));
    assert Victim(b, w, Plus(w.pos, EnPassantCheck[0]));
    EnPassantExact(b, w, (5, 5));
  }
}
