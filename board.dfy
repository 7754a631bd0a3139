/** Board state, piece records and the small helpers shared by every piece:
    the square-naming function, the colour-name lookup and the what-if copy
    of the board that the king uses for its simulations. */
module Board {

  datatype Option<T> = None | Some(value: T)

  /** The result of an operation of the engine; `Raised` stands for a Python
      exception (a failed tuple unpack, an index out of range, a method called
      on None) that escapes the operation. */
  datatype Outcome<T> = Done(value: T) | Raised

  datatype Color = White | Black

  /** The piece kinds, each carrying the flags its Python class keeps in `info`. */
  datatype Kind =
    | Pawn(enPassant: bool, canEnPassant: bool, promotion: bool)
    | Knight
    | Bishop
    | Rook
    | Queen
    | King(cannotCastle: bool, castle: bool)

  /** A (row, column) pair; row 0 is White's back rank. */
  type Pos = (int, int)

  datatype Piece = Piece(kind: Kind, color: Color, pos: Pos, moved: bool)

  /** An 8 x 8 grid; `None` is an empty square. */
  type Board = seq<seq<Option<Piece>>>

  /** A move list, in the order the Python code appends to it. */
  type Moves = seq<Pos>

  /** What a move generator returns: the move list and the generating piece
      as it stands afterwards (generators set flags on the piece itself). */
  datatype Gen = Gen(moves: Moves, piece: Piece)

  /** The colour key the Python pieces store ("W" or "B"). */
  function Key(c: Color): (k: string)
    ensures |k| == 1
  {
    if c == White then "W" else "B"
  }

  function Opponent(c: Color): Color
  {
    if c == White then Black else White
  }

  predicate InBounds(p: Pos)
  {
    0 <= p.0 < 8 && 0 <= p.1 < 8
  }

  function Plus(p: Pos, d: Pos): Pos
  {
    (p.0 + d.0, p.1 + d.1)
  }

  predicate Shaped(b: Board)
  {
    |b| == 8 && forall r :: 0 <= r < 8 ==> |b[r]| == 8
  }

  /** The grid is 8 x 8 and every piece's stored position is the square it
      stands on. */
  predicate Valid(b: Board)
  {
    Shaped(b) &&
    forall r, c :: 0 <= r < 8 && 0 <= c < 8 && b[r][c].Some? ==> b[r][c].value.pos == (r, c)
  }

  function At(b: Board, p: Pos): Option<Piece>
    requires Shaped(b) && InBounds(p)
  {
    b[p.0][p.1]
  }

  predicate Empty(b: Board, p: Pos)
    requires Shaped(b) && InBounds(p)
  {
    At(b, p).None?
  }

  /** The square holds a piece of a colour other than `c`. */
  predicate HoldsOther(b: Board, p: Pos, c: Color)
    requires Shaped(b) && InBounds(p)
  {
    At(b, p).Some? && At(b, p).value.color != c
  }

  /** The square holds a piece of colour `c`. */
  predicate HoldsOwn(b: Board, p: Pos, c: Color)
    requires Shaped(b) && InBounds(p)
  {
    At(b, p).Some? && At(b, p).value.color == c
  }

  function Put(b: Board, p: Pos, x: Option<Piece>): (r: Board)
    requires Shaped(b) && InBounds(p)
    ensures Shaped(r) && At(r, p) == x
    ensures forall q :: InBounds(q) && q != p ==> At(r, q) == At(b, q)
  {
    b[p.0 := b[p.0][p.1 := x]]
  }

  function Occupied(x: Option<Piece>): nat
  {
    if x.Some? then 1 else 0
  }

  function RowCount(row: seq<Option<Piece>>): nat
  {
    if row == [] then 0 else Occupied(row[0]) + RowCount(row[1..])
  }

  /** The number of pieces on the board. */
  function Count(b: Board): nat
  {
    if b == [] then 0 else RowCount(b[0]) + Count(b[1..])
  }

  lemma {:induction false} RowCountUpdate(row: seq<Option<Piece>>, i: int, x: Option<Piece>)
    requires 0 <= i < |row|
    ensures RowCount(row[i := x]) + Occupied(row[i]) == RowCount(row) + Occupied(x)
  {
    if i > 0 {
      assert row[i := x][1..] == row[1..][i - 1 := x];
      RowCountUpdate(row[1..], i - 1, x);
    } else {
      assert row[i := x][1..] == row[1..];
    }
  }

  lemma {:induction false} CountUpdate(b: Board, r: int, row: seq<Option<Piece>>)
    requires 0 <= r < |b|
    ensures Count(b[r := row]) + RowCount(b[r]) == Count(b) + RowCount(row)
  {
    if r > 0 {
      assert b[r := row][1..] == b[1..][r - 1 := row];
      CountUpdate(b[1..], r - 1, row);
    } else {
      assert b[r := row][1..] == b[1..];
    }
  }

  lemma PutCount(b: Board, p: Pos, x: Option<Piece>)
    requires Shaped(b) && InBounds(p)
    ensures Count(Put(b, p, x)) + Occupied(At(b, p)) == Count(b) + Occupied(x)
  {
    RowCountUpdate(b[p.0], p.1, x);
    CountUpdate(b, p.0, b[p.0][p.1 := x]);
  }

  /** King.temporary_board: a copy of the board in which the piece on `s`
      has been moved to `t` (its stored position updated) and `s` emptied,
      together with what the copy then holds on `t`. The input board is a
      value and is left as it was. When `s == t` the piece is written and
      then erased, so it vanishes and the returned square is empty; when `s`
      is empty the Python code calls a method on None and raises. */
  function TempBoard(b: Board, s: Pos, t: Pos): (r: Outcome<(Board, Option<Piece>)>)
    requires Valid(b) && InBounds(s) && InBounds(t)
    ensures r.Done? <==> At(b, s).Some?
    ensures r.Done? ==> Valid(r.value.0) && Count(r.value.0) <= Count(b)
    ensures r.Done? && s != t && At(b, t).Some? ==> Count(r.value.0) < Count(b)
    ensures r.Done? ==> At(r.value.0, s) == None && r.value.1 == At(r.value.0, t)
    ensures r.Done? && s != t ==> At(r.value.0, t) == Some(At(b, s).value.(pos := t))
    ensures r.Done? ==> forall q :: InBounds(q) && q != s && q != t ==> At(r.value.0, q) == At(b, q)
  {
    match At(b, s)
    case None => Raised
    case Some(p) =>
      var b1 := Put(b, t, Some(p.(pos := t)));
      var b2 := Put(b1, s, None);
      PutCount(b, t, Some(p.(pos := t)));
      PutCount(b1, s, None);
      assert Valid(b2) by {
        forall r, c | 0 <= r < 8 && 0 <= c < 8 && b2[r][c].Some?
          ensures b2[r][c].value.pos == (r, c)
        {
          assert At(b2, (r, c)) == b2[r][c];
        }
      }
      Done((b2, At(b2, t)))
  }

  /** Letters used for the columns by Piece.chess_format. */
  const Files: string := "abcdefgh"

  function DigitChar(d: int): (ch: char)
    requires 0 <= d < 10
    ensures '0' <= ch <= '9'
  {
    "0123456789"[d]
  }

  /** Python's str() of a non-negative integer. */
  function Digits(n: nat): (s: string)
    ensures |s| >= 1 && forall i :: 0 <= i < |s| ==> '0' <= s[i] <= '9'
    ensures n < 10 ==> |s| == 1
  {
    if n < 10 then [DigitChar(n)] else Digits(n / 10) + [DigitChar(n % 10)]
  }

  /** Python's str() of an integer. */
  function IntStr(n: int): string
  {
    if n < 0 then "-" + Digits(-n) else Digits(n)
  }

  /** Piece.chess_format: the column letter followed by the 1-based row
      number. A column outside 0..7 makes the letter lookup return None and
      the concatenation raise. */
  function ChessFormat(p: Pos): (r: Outcome<string>)
    ensures r.Done? <==> 0 <= p.1 < 8
    ensures r.Done? ==> |r.value| >= 2 && 'a' <= r.value[0] <= 'h'
    ensures InBounds(p) ==> r.Done? && |r.value| == 2 && '1' <= r.value[1] <= '8'
  {
    if 0 <= p.1 < 8 then Done([Files[p.1]] + IntStr(p.0 + 1)) else Raised
  }

  /** The independent reading of a two-character square name. */
  function ParseSquare(s: string): Option<Pos>
  {
    if |s| == 2 && 'a' <= s[0] <= 'h' && '1' <= s[1] <= '8'
    then Some((s[1] as int - '1' as int, s[0] as int - 'a' as int))
    else None
  }

  /** Every square of the board gets a distinct two-character name that reads back. */
  lemma ChessFormatRoundTrip(p: Pos)
    requires InBounds(p)
    ensures ChessFormat(p).Done? && ParseSquare(ChessFormat(p).value) == Some(p)
  {
    var s := ChessFormat(p).value;
    assert s == [Files[p.1], DigitChar(p.0 + 1)];
    assert Files[p.1] as int - 'a' as int == p.1;
    assert DigitChar(p.0 + 1) as int - '1' as int == p.0;
  }

  /** Piece.color: the colour name for a colour key, None for any other key. */
  function ColorName(key: string): (r: Option<string>)
    ensures r.Some? <==> key == "W" || key == "B"
    ensures key == Key(White) ==> r == Some("White")
    ensures key == Key(Black) ==> r == Some("Black")
  {
    if key == "W" then Some("White") else if key == "B" then Some("Black") else None
  }
}
