# Chess rules engine of SimpleChessGame, modelled in Dafny

SimpleChessGame keeps its chess rules in `SimpleChessGame/pieces.py`. This
project models those rules:

- **Move generators.** The pseudo-legal move generators of every piece:
  - the shared sliding walk of bishop, rook and queen;
  - the knight's jumps;
  - the pawn's advance, capture and en passant loops;
  - the king's steps and castling.
- **Move verdict.** `Piece.check_move` and the pawn bookkeeping it does in
  `_check_en_passant` and `_is_promotion`.
- **King's analysis.**
  - The what-if board copy, `temporary_board`.
  - The opposing king lookup, `other_king_location`.
  - The check oracle, `is_checked`.
  - The castling search, `_can_castle`.
  - The terminal tests, `is_checkmate` and `is_stalemate`.
- **Helpers.** `chess_format` and `color`.

The board is an 8 x 8 value (`seq<seq<Option<Piece>>>`). A `Piece` carries its
kind, its colour, its position and its `moved` flag. Each kind carries the
flags its Python class keeps in `info`:

| kind | flags |
|---|---|
| pawn | `en_passant`, `can_en_passant`, `promotion` |
| king | `cannot_castle`, `castle` |

A Python exception that escapes an operation is the result `Raised`. These are:

- the unpack of `None` when there is no opposing king;
- the index past the two castling destinations;
- the tuple unpack at the en passant line as written (only in `Pawn.EnPassantAsWritten` and `Pawn.PawnMovesAsWritten`);
- `set_position` called on `None` when `temporary_board` starts from an empty square (`Board.TempBoard`);
- `None + str` in `chess_format` for a column outside 0..7 (`Board.ChessFormat`).

`KingSafety.GetMoves`, `KingSafety.KingMoves`, `KingSafety.IsChecked`,
`Verdict.CheckMove`, `Terminal.Checkmate` and `Terminal.Stalemate`, and the
methods proved to compute them, are built on the corrected pawn generator
`Pawn.PawnMoves`. Where the source raises `ValueError` at
`SimpleChessGame/pieces.py:170`, because a pawn is generated beside an
opposing pawn just after its double step (White pawn on e5, Black pawn on f5),
these members return an answer instead (see "## Findings").

The flags a method writes on `self` come back as part of its result: the
generating piece after the generator ran, and the king after a check test.

The model has three layers:

- **Specification functions.** `Board`, `Sliding`, `Knight`, `Pawn`,
  `KingSafety`, `Terminal` and `Verdict` define each operation as a function.
  The mutual recursion of `King._get_moves`, `is_checked` and `_can_castle`
  terminates by the lexicographic measure (piece count, castling-skip level,
  call rank, loop positions).
- **Imperative methods.**
  - The generators' loops are methods in `Sliding`, `Knight` and `Pawn`.
  - `PieceMethods` writes the King's scans and `check_move` as the source
    does: nested row/column loops, the step loop over `TILE_MOVEMENTS` and
    the three loops of `_can_castle`.
  - Each method is proved to compute its specification function.
- **Properties.**
  - Lemmas in the generator modules, `KingFacts`, `TerminalFacts` and
    `Verdict` describe every function square by square.
  - They also state why `is_checkmate` and `is_stalemate` answer as they do.

## Model

| member | source | states |
|---|---|---|
| Board.TempBoard | SimpleChessGame/pieces.py:296-307 | raises iff the start square is empty; otherwise the copy is a valid board with the start square emptied, the target holding the moved piece with its position updated (or emptied when start and target coincide), every other square unchanged, no more pieces than before and one fewer on a capture; the returned piece is what the copy holds on the target |
| PieceMethods.TemporaryBoard | SimpleChessGame/pieces.py:300-307 | the cell-by-cell writes on the copy produce exactly Board.TempBoard |
| Board.ChessFormat | SimpleChessGame/pieces.py:22-26 | succeeds iff the column is 0..7 (the letter lookup returns None otherwise and the concatenation raises); the name starts with the column letter, and a square of the board gets a two-character name with rank digit 1..8 |
| Board.ChessFormatRoundTrip | SimpleChessGame/pieces.py:22-26 | every square of the board gets a name that an independent parser reads back as the same square |
| Board.ColorName | SimpleChessGame/pieces.py:28-31 | a colour key has a name iff it is "W" or "B", and these give "White" and "Black" |
| Sliding.Directions | SimpleChessGame/pieces.py:210-267 | every direction of the bishop (line 210), rook (line 252) and queen (lines 266-267) tables is a single step in one of the eight directions |
| Sliding.Ray | SimpleChessGame/pieces.py:79-90 | the walk along one direction: every square it keeps is on the board and holds no own piece (RayPositions, RayStops and RayEnd pin down which squares) |
| Sliding.Slide | SimpleChessGame/pieces.py:79-91 | the walks of the directions one after the other: every square kept is on the board and holds no own piece |
| Sliding.SlidingMoves | SimpleChessGame/pieces.py:71-91 | bishop, rook and queen moves are on the board and free of own pieces (SlideTargets, BishopDiagonal and RookOrthogonal give their shape) |
| Sliding.RayPositions | SimpleChessGame/pieces.py:79-90 | a walk lists the squares 0, 1, 2, ... steps along its direction from its first square, in order, all on the board |
| Sliding.RayStops | SimpleChessGame/pieces.py:81-88 | every listed square but the last is empty; the last is empty or holds an opposing piece; when it is empty (or nothing is listed) the next square is off the board or holds an own piece, so the walk stops at the first occupied square and keeps it iff it is opposing |
| Sliding.RayTargets | SimpleChessGame/pieces.py:81-88 | every square a walk keeps is on the board, free of own pieces and on the ray |
| Sliding.SlideTargets | SimpleChessGame/pieces.py:71-91 | every sliding move is on the board, free of own pieces and k >= 1 steps along a direction of the table |
| Sliding.BishopDiagonal | SimpleChessGame/pieces.py:210 | bishop moves are on the board, free of own pieces and diagonal |
| Sliding.RookOrthogonal | SimpleChessGame/pieces.py:252 | rook moves are on the board, free of own pieces and orthogonal |
| Sliding.QueenIsBishopThenRook | SimpleChessGame/pieces.py:266-267 | queen moves are the bishop moves followed by the rook moves from the same square |
| Sliding.SlideSameSquare | SimpleChessGame/pieces.py:76-91 | the walks read only the piece's square and colour |
| Sliding.Walk | SimpleChessGame/pieces.py:80-90 | the while loop computes the walk of one direction |
| Sliding.SlideMovesLoop | SimpleChessGame/pieces.py:79-91 | the loop over the directions computes the walks one after the other |
| Sliding.GetSlidingMoves | SimpleChessGame/pieces.py:71-91 | bishop, rook and queen `_get_moves` compute the sliding moves of their table |
| Knight.Jumps | SimpleChessGame/pieces.py:232-240 | the jumps kept from a list of offsets: at most one per offset, each on the board and free of own pieces |
| Knight.KnightMoves | SimpleChessGame/pieces.py:224-241 | at most eight moves, each on the board and free of own pieces |
| Knight.JumpsExact | SimpleChessGame/pieces.py:232-240 | a square is kept iff some offset leads to it and it is on the board and free of own pieces |
| Knight.KnightMovesExact | SimpleChessGame/pieces.py:224-241 | the knight's moves are exactly the on-board squares free of own pieces at an L-jump (1 and 2 squares, in either order and any orientation) |
| Knight.GetKnightMoves | SimpleChessGame/pieces.py:227-241 | the loop over the offsets computes the knight's moves |
| Pawn.Advance | SimpleChessGame/pieces.py:144-150 | the forward walk over the offsets: an empty square is kept, an occupied one ends the walk, an off-board one is skipped; it has no contract of its own, AdvanceExact and AdvanceMember state what it returns |
| Pawn.Captures | SimpleChessGame/pieces.py:152-158 | the diagonal offsets whose square holds an opposing piece; it has no contract of its own, CapturesExact states what it returns |
| Pawn.EnPassantTargets | SimpleChessGame/pieces.py:159-173 | the intended en passant loop: one square forward of each adjacent victim; it has no contract of its own, EnPassantExact states what it returns |
| Pawn.PawnMoves | SimpleChessGame/pieces.py:133-175 | the pawn after its generator keeps its square, colour, `moved`, `en_passant` and `promotion` (PawnMovesShape gives the move list, PawnPiece the flag) |
| Pawn.AdvanceMember | SimpleChessGame/pieces.py:139-150 | a square is a forward move iff it is the one-step square, on the board and empty, or the two-step square of an unmoved pawn, on the board and empty, with the one-step square empty |
| Pawn.AdvanceExact | SimpleChessGame/pieces.py:139-150 | the forward moves are the one-step square when it is on the board and empty, followed by the two-step square only when the pawn has not moved, the one-step square was taken and the two-step square is on the board and empty |
| Pawn.CapturesExact | SimpleChessGame/pieces.py:152-158 | captures are exactly the squares one row forward (up for White, down for Black) and one column aside that hold an opposing piece |
| Pawn.Victim | SimpleChessGame/pieces.py:162-167 | the test the en passant loop applies to a neighbouring square: on the board, holding a pawn of the other colour whose `en_passant` flag is set; it has no contract of its own, EnPassantExact states the destinations it yields |
| Pawn.EnPassantExact | SimpleChessGame/pieces.py:159-173 | en passant destinations are exactly the squares one row forward of an adjacent opposing pawn whose `en_passant` flag is set |
| Pawn.PawnMovesShape | SimpleChessGame/pieces.py:133-175 | the pawn's move list square by square (forward moves only onto empty squares, the double step only when unmoved and unblocked, diagonal moves only onto an opposing piece or beside an en passant victim); only `can_en_passant` may change on the pawn, and it is set iff a neighbour is a victim |
| Pawn.PawnPiece | SimpleChessGame/pieces.py:173 | the generator changes only `can_en_passant` on the pawn, setting it iff a neighbour is an en passant victim |
| Pawn.AdvanceLoop | SimpleChessGame/pieces.py:144-150 | the regular-movement loop, with its `break` on an occupied square, computes the forward moves |
| Pawn.CapturesLoop | SimpleChessGame/pieces.py:152-158 | the capturing loop computes the captures |
| Pawn.EnPassantLoop | SimpleChessGame/pieces.py:160-173 | the en passant loop computes the en passant destinations and sets `can_en_passant` iff it finds one |
| Pawn.GetPawnMoves | SimpleChessGame/pieces.py:133-175 | the three loops compute the pawn's moves (forward, then captures, then en passant) and the pawn afterwards |
| Pawn.CheckEnPassant | SimpleChessGame/pieces.py:177-188 | a pawn not yet marked becomes marked iff the target is two rows away in its own column; a marked pawn is unmarked; nothing else on the pawn changes |
| Pawn.PromotionTiles | SimpleChessGame/pieces.py:127-131 | `get_promotion_tile` returns eight tiles, all on row 7 for White and all on row 0 for Black (the tables of lines 109-112, Black's repeating (0, 0)) |
| Pawn.IsPromotion | SimpleChessGame/pieces.py:193-199 | `promotion` is set iff it was set or the target is in the pawn's table: all of row 7 for White, row 0 without column 7 for Black; nothing else changes |
| Pawn.EnPassantAsWritten | SimpleChessGame/pieces.py:168-172 | as written, the en passant branch never yields a move: it raises iff the intended loop finds a destination, and otherwise yields nothing |
| Pawn.PawnMovesAsWritten | SimpleChessGame/pieces.py:133-175 | the generator as written raises iff an en passant victim stands beside the pawn, and otherwise returns exactly what the intended generator returns |
| Pawn.EnPassantAsWrittenRaises | SimpleChessGame/pieces.py:170-171 | on a board with a White pawn on e5 and a Black pawn on f5 just after its double step, the generator as written raises, while the intended one offers f6 |
| KingSafety.CastleDestinations | SimpleChessGame/pieces.py:451-452 | each colour has two castling destinations, on its castling rank and on the board |
| KingSafety.OtherKingFrom | SimpleChessGame/pieces.py:341-353 | a found location holds a king of the other colour (OtherKingFromExact proves the converse and the order) |
| KingFacts.OtherKingFromExact | SimpleChessGame/pieces.py:341-353 | the lookup is None iff no king of the other colour stands at or after its start in row-major order; otherwise it returns a square holding such a king, and no such king stands between the start and that square |
| KingFacts.KingMovesNoOtherKing | SimpleChessGame/pieces.py:309-315 | when the board holds no king of the other colour, King._get_moves raises (the unpack of None) |
| PieceMethods.OtherKingLocation | SimpleChessGame/pieces.py:341-353 | the nested scan returns the first opposing king's square in row-major order, or None |
| KingSafety.GetMoves | SimpleChessGame/pieces.py:373-377 | the generator dispatched on the kind of piece changes only the piece's own kind flags, and only the king's generator can raise |
| PieceMethods.GetMoves | SimpleChessGame/pieces.py:373-377 | the dispatch calls the generator of the piece's kind |
| KingSafety.KingMoves | SimpleChessGame/pieces.py:309-339 | the king after its generator keeps its square, colour and `moved`, and no castling flag is cleared |
| PieceMethods.KingGetMoves | SimpleChessGame/pieces.py:309-339 | King._get_moves computes the king's moves: kept steps followed by castling moves |
| KingSafety.KingSteps | SimpleChessGame/pieces.py:319-335 | the step loop keeps the king's square, colour and `moved` |
| PieceMethods.KingSteps | SimpleChessGame/pieces.py:319-335 | the loop over `TILE_MOVEMENTS` computes the kept steps |
| KingSafety.KingLocation | SimpleChessGame/pieces.py:362-365 | the square `is_checked` tests: the king's own square without a simulated piece, the simulated piece's square with one; it has no contract of its own, IsCheckedExact states the verdict in terms of it |
| KingSafety.IsChecked | SimpleChessGame/pieces.py:355-386 | the king afterwards is the king with `cannot_castle` set when the verdict is true, and unchanged otherwise |
| PieceMethods.IsChecked | SimpleChessGame/pieces.py:355-386 | the nested scan computes the verdict and the king |
| KingSafety.AttackedFrom | SimpleChessGame/pieces.py:367-386 | the board scan of `is_checked`: a hit is always a piece of the other colour at or after its start (AttackedExact and AttackedRaises state exactly when it hits and when it raises) |
| KingFacts.AttackedExact | SimpleChessGame/pieces.py:367-386 | the scan finds an attacker iff some opposing piece at or after its start generates the king's location |
| KingFacts.AttackedRaises | SimpleChessGame/pieces.py:367-377 | the scan raises only when the generator of some opposing king at or after its start raises |
| KingFacts.IsCheckedExact | SimpleChessGame/pieces.py:355-386 | the verdict is true iff some opposing piece generates the king's location (own square, or the simulated piece's square), the opposing king with the given skip; `cannot_castle` is then set and never cleared |
| KingSafety.NextToOther | SimpleChessGame/pieces.py:322-324 | the adjacency test with `< 1` on both coordinates holds iff the square is the opposing king's own square |
| KingFacts.KingStepsExact | SimpleChessGame/pieces.py:319-335 | the step loop keeps exactly the on-board neighbours, other than the opposing king's square, that are empty or hold an opposing piece whose simulated capture leaves the king unattacked |
| KingFacts.KingMovesExact | SimpleChessGame/pieces.py:309-339 | King._get_moves raises when there is no opposing king; otherwise its moves are the kept steps and, only when the skip is off, the castling moves |
| KingFacts.KingSkipSteps | SimpleChessGame/pieces.py:316-324 | with the skip set, every king move is one step away and never onto the opposing king's square |
| TerminalFacts.KingStepsFlagFree | SimpleChessGame/pieces.py:319-335 | the flags the step loop writes on the king never change its steps |
| KingSafety.UnmovedRooks | SimpleChessGame/pieces.py:461-465 | every listed rook square is on the scanned rank, at or after the starting column |
| PieceMethods.UnmovedRooks | SimpleChessGame/pieces.py:461-465 | the rook loop computes the unmoved rooks of the rank |
| KingFacts.UnmovedRooksExact | SimpleChessGame/pieces.py:461-465 | the list is exactly the squares of the rank holding a rook of either colour with `moved` clear, strictly left to right |
| KingSafety.PathClear | SimpleChessGame/pieces.py:438-449 | `check_path` holds iff every square strictly between the two columns, whichever is smaller, is empty |
| PieceMethods.CheckPath | SimpleChessGame/pieces.py:438-449 | `check_path` is true iff every square strictly between the king's and the rook's columns is empty |
| KingSafety.CastlePairs | SimpleChessGame/pieces.py:467-470 | the pairing loop over the unmoved rooks; it has no contract of its own, CastlePairsExact states when it raises and what it pairs, CastlePairsIn that it pairs only destinations |
| KingSafety.CastlePairsIn | SimpleChessGame/pieces.py:467-470 | every paired destination is a castling destination |
| KingFacts.CastlePairsExact | SimpleChessGame/pieces.py:467-470 | the pairing raises iff a rook with a clear path has no destination of its index; otherwise it pairs exactly the rooks with a clear path with the destination of the same index |
| PieceMethods.CastleMoves | SimpleChessGame/pieces.py:467-470 | the enumerate loop computes the pairing |
| KingSafety.CastleSafe | SimpleChessGame/pieces.py:471-480 | the safety loop keeps the king's square, colour and `moved`, and clears no castling flag |
| PieceMethods.CastleSafe | SimpleChessGame/pieces.py:471-480 | the safety loop computes the kept destinations and the king |
| KingFacts.KeptExact | SimpleChessGame/pieces.py:471-480 | a destination is kept iff it is a candidate and, on the copy with the king there, neither the old square nor the destination is attacked |
| KingFacts.CastleSafeExact | SimpleChessGame/pieces.py:471-480 | the safety loop appends exactly the kept destinations, in order, and sets `castle` iff it was already set or it keeps a destination |
| KingSafety.CanCastle | SimpleChessGame/pieces.py:436-482 | the king afterwards keeps its square, colour and `moved`, and no castling flag is cleared |
| PieceMethods.CanCastle | SimpleChessGame/pieces.py:436-482 | King._can_castle computes the castling moves and the king |
| KingFacts.CanCastleBlocked | SimpleChessGame/pieces.py:457-459 | with `cannot_castle` set there are no castling moves and the king is unchanged |
| KingFacts.CanCastleThirdRook | SimpleChessGame/pieces.py:468-470 | a third unmoved rook on the castling rank with a clear path makes `_can_castle` raise |
| KingFacts.CanCastleExact | SimpleChessGame/pieces.py:436-482 | the castling moves are exactly the destinations of index 0 and 1 whose unmoved rook of the same index has a clear path and which pass both safety tests; `castle` is set iff it was already set or a destination is returned |
| KingFacts.CastleSafeSameSquare | SimpleChessGame/pieces.py:472-480 | the safety loop reads only the king's square and colour |
| KingFacts.CastleIgnoresMoved | SimpleChessGame/pieces.py:436-482 | `_can_castle` reads neither the king's own `moved` flag nor its `castle` flag |
| Terminal.CellPiece | SimpleChessGame/pieces.py:404-407 | the piece both scans (lines 404-407 and 428-431) generate on an own cell: on the king's square, `board_state[row][col]` is `self`, so it is the king with the flags its earlier calls wrote; elsewhere the board's piece. It has no contract of its own; PieceEscapeExact and AnyMovesExact state the scans it feeds |
| Terminal.Relieves | SimpleChessGame/pieces.py:395-413 | the test both loops of `is_checkmate` apply to a move: a relieving move is a square of the board and starts from an occupied square, so the copy exists |
| Terminal.KingEscape | SimpleChessGame/pieces.py:395-400 | the king-move loop keeps the king's square, colour and `moved` |
| PieceMethods.TryKingMoves | SimpleChessGame/pieces.py:395-400 | the king-move loop of `is_checkmate` computes the search |
| TerminalFacts.KingEscapeExact | SimpleChessGame/pieces.py:395-400 | the king-move loop finds a move iff some remaining move leaves the king unattacked on its new square; when it finds none, every failed test has set `cannot_castle` |
| Terminal.MoveEscape | SimpleChessGame/pieces.py:408-413 | the move loop keeps the king's square, colour and `moved` |
| PieceMethods.TryMoves | SimpleChessGame/pieces.py:408-413 | the move loop of the piece scan computes the search |
| TerminalFacts.MoveEscapeExact | SimpleChessGame/pieces.py:408-413 | the move loop finds a move iff some remaining move of the piece leaves the king's own square unattacked |
| TerminalFacts.CastleRelieves | SimpleChessGame/pieces.py:409-412 | a castling move of the king always passes the piece scan's test, which checks the old square `_can_castle` already found unattacked |
| Terminal.PieceEscape | SimpleChessGame/pieces.py:402-413 | the piece scan keeps the king's square, colour and `moved` |
| PieceMethods.TryPieces | SimpleChessGame/pieces.py:402-413 | the nested piece scan computes the search |
| TerminalFacts.PieceEscapeExact | SimpleChessGame/pieces.py:402-413 | the scan finds a relieving move iff some piece of the king's colour at or after its start has one; the king is generated with `cannot_castle` set when an earlier piece of its colour had a move |
| Terminal.Checkmate | SimpleChessGame/pieces.py:388-414 | the king afterwards keeps its square, colour and `moved` |
| PieceMethods.IsCheckmate | SimpleChessGame/pieces.py:388-414 | King.is_checkmate computes the verdict and the king |
| TerminalFacts.CheckmateExact | SimpleChessGame/pieces.py:388-414 | the verdict is false iff a king step (castling off) leaves the king unattacked on its new square, or a piece of its colour has a move after which the king's square is unattacked; it is true otherwise, also when nothing can move |
| Terminal.AnyMoves | SimpleChessGame/pieces.py:426-432 | the stalemate scan keeps the king's square, colour and `moved` |
| PieceMethods.ScanMoves | SimpleChessGame/pieces.py:426-432 | the nested scan of `is_stalemate` computes the search |
| TerminalFacts.AnyMovesExact | SimpleChessGame/pieces.py:426-432 | for a king without moves, the scan finds a piece iff some other piece of its colour at or after its start has a generated move |
| TerminalFacts.KingMovesRegen | SimpleChessGame/pieces.py:423-431 | a king without moves still has none when generated again after its flag updates |
| Terminal.Stalemate | SimpleChessGame/pieces.py:416-434 | the king afterwards keeps its square, colour and `moved` |
| PieceMethods.IsStalemate | SimpleChessGame/pieces.py:416-434 | King.is_stalemate computes the verdict and the king |
| TerminalFacts.StalemateExact | SimpleChessGame/pieces.py:416-434 | the verdict is true iff the king is not checked (castling on), has no generated move and no other piece of its colour has one; no move is filtered for exposing the king |
| Verdict.CheckMove | SimpleChessGame/pieces.py:33-69 | a colour other than the piece's is refused with the piece unchanged; the piece never changes square or colour, and the board is a value left unchanged |
| PieceMethods.CheckMove | SimpleChessGame/pieces.py:33-69 | Piece.check_move computes the verdict and the piece |
| Verdict.Decide | SimpleChessGame/pieces.py:44-66 | the decision never changes the piece's square or colour |
| Verdict.DecideExact | SimpleChessGame/pieces.py:44-66 | the verdict is true iff the target is generated and holds no king; `moved` is set iff the target is generated, even when a king there makes the verdict false; a refused target leaves the piece as it was |
| Verdict.DecidePawn | SimpleChessGame/pieces.py:46-59 | a pawn's `promotion` is set iff the accepted target is in its table; `en_passant` changes as `_check_en_passant` says iff the move is accepted onto an empty square, so captures leave it alone |
| Verdict.CheckMoveVerdict | SimpleChessGame/pieces.py:42-66 | for the right colour, the verdict is true iff the target is among the generated moves and holds no king, and `moved` is set iff the target is generated |
| Verdict.CheckMovePawn | SimpleChessGame/pieces.py:42-59 | a pawn's flags after check_move are as DecidePawn states, and `can_en_passant` is what its generator left |
| Verdict.CheckMoveOther | SimpleChessGame/pieces.py:42-61 | a piece other than a pawn or a king only gains `moved` |

## Left out

- **Output.** The `print` calls are no-ops, and so are the Unicode symbols.
- **The rest of the file.** The position getters and setters and `set_castle_on` / `set_castle_off` appear only through their effect on the piece value.
- **Object copying.** `copy.deepcopy` and object aliasing are not modelled: every board is a value. The one alias the code relies on, `self` being the piece on its own square, is a requires of the members below, and `Terminal.CellPiece` stands for the board's cell at that square. `temporary_board` copies the board for every simulation, so no write to a copy can reach the real board.
- Terminal.Checkmate: requires `At(b, k.pos) == Some(k)`; in Python the king `self` is the object at `board_state[row][col]` for its square, and a king value that differs from the board's piece there is not covered.
- PieceMethods.IsCheckmate: requires `At(b, k.pos) == Some(k)`, the king being the piece on its own square.
- TerminalFacts.CheckmateExact: requires `At(b, k.pos) == Some(k)`, the king being the piece on its own square.
- Terminal.Stalemate: requires `At(b, k.pos) == Some(k)`, the king being the piece on its own square.
- PieceMethods.IsStalemate: requires `At(b, k.pos) == Some(k)`, the king being the piece on its own square.
- TerminalFacts.StalemateExact: requires `At(b, k.pos) == Some(k)`, the king being the piece on its own square.
- **Writes to other pieces.** A scan can write a flag on a piece other than `self`:
  - an opposing pawn's `can_en_passant`, when `is_checked` generates its moves;
  - the opposing king's `cannot_castle` and `castle`, when `is_checked` generates its moves with castling on;
  - an own pawn's `can_en_passant`, when `is_checkmate` and `is_stalemate` generate its moves.

  On the real board these writes outlive the call; the model drops them. Only the flags of `self`, the piece whose method runs, are results.
- **Game-loop effects.** The module never moves a piece on the real board, never moves the rook when castling, never removes a pawn taken en passant and never replaces a promoted pawn. The game loop does that, and it is not part of this model.
- **Stricter rules of chess.** The model keeps the code's departures from the rules and does not correct them:
  - moves are never filtered for leaving the own king in check;
  - the adjacency test excludes only the opposing king's own square;
  - castling pairs rooks with destinations by index, in column order, whatever the rook's colour;
  - castling does not consult the king's own `moved` flag or the square the king passes over;
  - Black's promotion table repeats (0, 0) and omits (0, 7);
  - `is_checkmate` treats a castling move as relieving the king;
  - `is_checkmate` tests the king's old square when the king itself moves in its second loop;
  - a pawn's `en_passant` mark stays set until that pawn's own next move onto an empty square, not for one ply: `_check_en_passant` runs only on that branch of `check_move`, so a capture leaves the mark set.
- **En passant off the board.** `Terminal.InsideRanks` excludes a pawn on its far rank with an en passant victim beside it, and nothing else. Only for such a pawn would the intended generator offer a square off the board. Row 8 makes the board indexing raise, in `check_move` when it is the target and in `temporary_board` when `is_checkmate` tries it; row -1 wraps around to row 7. As written, the generator raises earlier, at `SimpleChessGame/pieces.py:170`, for any victim. The members below carry this requires, for the moving piece or for every piece of the king's colour:
- Verdict.CheckMove: requires `Terminal.InsideRanks` of the moving piece.
- PieceMethods.CheckMove: requires `Terminal.InsideRanks` of the moving piece.
- Verdict.CheckMoveVerdict: requires `Terminal.InsideRanks` of the moving piece.
- Verdict.CheckMovePawn: requires `Terminal.InsideRanks` of the moving pawn.
- Verdict.CheckMoveOther: requires `Terminal.InsideRanks` of the moving piece.
- Terminal.Checkmate: requires `Terminal.InsideRanks` of every piece of the king's colour.
- PieceMethods.IsCheckmate: requires `Terminal.InsideRanks` of every piece of the king's colour.
- Terminal.PieceEscape: requires `Terminal.InsideRanks` of every piece of the king's colour.
- PieceMethods.TryPieces: requires `Terminal.InsideRanks` of every piece of the king's colour.
- TerminalFacts.PieceEscapeExact: requires `Terminal.InsideRanks` of every piece of the king's colour.
- TerminalFacts.CheckmateExact: requires `Terminal.InsideRanks` of every piece of the king's colour.
- **Colour keys.** A piece's colour is White or Black. A Python piece whose `color` entry is another string has no counterpart in the model. A `p_color` other than the piece's key is refused, as in the source.
- **Extra methods.** `PieceMethods.ScanMoves`, `PieceMethods.TryPieces`, `PieceMethods.TryMoves` and `PieceMethods.TryKingMoves` are loops of `is_stalemate` and `is_checkmate` given a method of their own. They compute what the inline loops compute.

## Findings

| source | as written | input that shows it | evidently intended | confidence | as-written member | corrected member |
|---|---|---|---|---|---|---|
| SimpleChessGame/pieces.py:170-171 | the line break makes line 170 assign the one-element tuple `(trgt_row + row_move,)` to two names, and line 171 a separate expression, so reaching the en passant branch raises | White pawn on e5, Black pawn on f5 with `en_passant` set, nothing else in the way | the square one row forward of the adjacent pawn (f6) is offered and `can_en_passant` is set | not executed | Pawn.EnPassantAsWrittenRaises | Pawn.EnPassantExact |
