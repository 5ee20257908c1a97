# pgchess in Dafny

A model of `pgchess.c`, a PostgreSQL extension that exposes chess values
(piece, square, piece-square, move) as small packed types with text input and
output, orders them with one integer comparator, and answers queries about a
position (legal move, captures from a square, attackers of a square, pieces on
the board) on top of an external chess library.

Modules:

- `ChessLib` (`chesslib.dfy`): the chess library interface the extension calls.
  Its code is not part of this model. The ordinals, characters and move layout
  are one concrete choice:
  - pieces: NONE = 0, white pawn..king = 1..6, black pawn..king = 7..12;
  - files and ranks: 0..7, with -1 for invalid; square = file + 8 * rank;
  - promotion codes: NONE..QUEEN = 0..4, letters `nbrq`;
  - move: `from | to << 6 | promote << 12`.
  The codec contracts are stated against this one concrete choice: file
  letters a..h, rank digits 1..8, square = file + 8 * rank. The facts about it
  that the codecs use are lemmas at the end of `ChessLib`, which the codecs
  call. Each says that a character mapping and its reverse undo each other,
  which characters and squares are valid, how squares are numbered, or that
  the move extractors invert the move constructor.
- `Codec` (`codec.dfy`): text input and output for the four types, piece-square
  packing, and the two error kinds. `InvalidSyntax` is the "invalid input
  syntax" error, with the type name and the text the message prints.
  `CorruptData` is the "corrupt internal data" error, with the type name.
  Round-trip lemmas connect each decoder to its encoder.
- `Order` (`order.dfy`): `_cmp_internal` and the six operators derived from it.
- `Positions` (`positions.dfy`): a position is the board the engine parsed
  (64 occupants, indexed by square ordinal) plus the legal moves it generated,
  in generation order. The loops of the source are methods whose results equal
  recursive filter functions. Lemmas about those filters give membership,
  ordering, length and symmetry.
- `Scenarios` (`scenarios.dfy`): concrete values. `e2e4`, `e7e8q` and `Pe2`
  decode and print back. Malformed and corrupt values are rejected. A rook on
  a1 capturing on a8 is reported by both attack queries.

Packed values are 16-bit patterns held as integers 0..65535. In the source, a
shift-and-mask `x >> k & (2^n - 1)` is written here as `x / 2^k % 2^n`, and
`a << k | b` with `b < 2^k` as `a * 2^k + b`. These are the same for
non-negative 16-bit values. A move arrives as a signed 16-bit integer; the
model takes its bit pattern.

Text values are the bytes of the C string before its terminating NUL. Dafny's
`char` is a Unicode scalar value, but the model reads each element as one C
`char`: every element is one byte (below 256) and none is NUL, so `strlen` is
the sequence length. A multi-byte character such as `é` is as many elements as
it has bytes.

## Model

| member | source | states |
|---|---|---|
| `Order.Cmp` | pgchess.c:164-184 | result is -1, 0 or 1; 0 exactly when equal, negative exactly when a < b, positive exactly when a > b |
| `Order.CmpEq` | pgchess.c:186-193 | `cmp == 0` holds exactly when the two packed values are equal |
| `Order.CmpNeq` | pgchess.c:195-202 | `cmp != 0` holds exactly when they differ |
| `Order.CmpLt` | pgchess.c:204-211 | `cmp < 0` holds exactly when a < b |
| `Order.CmpGt` | pgchess.c:213-220 | `cmp > 0` holds exactly when a > b |
| `Order.CmpLtEq` | pgchess.c:222-229 | `cmp <= 0` holds exactly when a <= b |
| `Order.CmpGtEq` | pgchess.c:231-238 | `cmp >= 0` holds exactly when a >= b |
| `Order.CmpAntisymmetric` | pgchess.c:164-175 | swapping the arguments negates the comparison |
| `Order.CmpTransitive` | pgchess.c:164-175 | the comparison is transitive, both strict and non-strict |
| `Order.CmpTrichotomy` | pgchess.c:186-220 | exactly one of lt, eq, gt holds for any two values |
| `Order.CmpOperatorsAgree` | pgchess.c:186-238 | lteq = lt or eq, gteq = gt or eq, neq = not eq, lt(a,b) = gt(b,a) |
| `ChessLib.PieceCharRoundTrip` | pgchess.c:249-252 | a piece letter reads as a piece 1..12 whose letter is that same letter |
| `ChessLib.PieceOrdinalRoundTrip` | pgchess.c:257-259 | the letter written for a piece 1..12 reads back as that piece |
| `ChessLib.FileCharRoundTrip` | pgchess.c:297-301 | a character is a file exactly when it is a..h, its ordinal is its distance from 'a', and it prints back as itself |
| `ChessLib.RankCharRoundTrip` | pgchess.c:298-301 | a character is a rank exactly when it is 1..8, its ordinal is its distance from '1', and it prints back as itself |
| `ChessLib.FileOrdinalRoundTrip` | pgchess.c:319 | the letter written for a file 0..7 reads back as that file |
| `ChessLib.RankOrdinalRoundTrip` | pgchess.c:320 | the digit written for a rank 0..7 reads back as that rank |
| `ChessLib.SquareOfFileRank` | pgchess.c:303-306 | a valid (file, rank) pair makes square file + 8 * rank, never the invalid square, whose file and rank are the pair |
| `ChessLib.FileRankOfSquare` | pgchess.c:313-317 | a square has a valid file and a valid rank exactly when it is 0..63, and then it is file + 8 * rank |
| `ChessLib.PromoteCharRoundTrip` | pgchess.c:473-475 | a promotion letter of `nbrq` reads as a code 1..4 that prints back as that letter |
| `ChessLib.PromoteOrdinalRoundTrip` | pgchess.c:447-450 | the letter written for a promotion code 1..4 reads back as that code |
| `ChessLib.MoveFieldsOfMake` | pgchess.c:437-478 | the from, to and promotion extractors return exactly what the move constructor packed |
| `ChessLib.MakeOfMoveFields` | pgchess.c:437-478 | repacking the fields of a move with an in-range promotion gives its low 15 bits |
| `ChessLib.MoveFrom` | pgchess.c:494-499 | the from-square of any 16-bit move is a valid square 0..63 |
| `ChessLib.MoveTo` | pgchess.c:501-506 | the to-square of any 16-bit move is a valid square 0..63 |
| `Codec.ParsePiece` | pgchess.c:247-253 | accepts exactly a leading piece letter, giving a piece 1..12 whose letter it is; otherwise an invalid-syntax error for "piece" with the whole text |
| `Codec.PieceIn` | pgchess.c:263-274 | accepts exactly a one-character text that is a piece letter; any other length or letter is an invalid-syntax error |
| `Codec.FormatPiece` | pgchess.c:255-260 | succeeds exactly for ordinals WHITE_PAWN..BLACK_KING, giving the letter that maps back to it; otherwise corrupt data for "piece" |
| `Codec.PieceOut` | pgchess.c:277-287 | one-character text for a valid piece ordinal, corrupt data otherwise |
| `Codec.ParseSquare` | pgchess.c:294-309 | accepts exactly a file letter a-h then a rank digit 1-8, giving file + 8 * rank; otherwise an invalid-syntax error for "square" with the text it was given |
| `Codec.SquareIn` | pgchess.c:324-336 | accepts exactly two-character square texts; a wrong length or bad character is an invalid-syntax error |
| `Codec.SquareOut` | pgchess.c:311-349 | succeeds exactly for ordinals 0..63, writing the file letter then the rank digit that name it; otherwise corrupt data for "square" |
| `Codec.PackPieceSquare` | pgchess.c:356-362 | `piece << 6` or-ed with `square` fits in 10 bits, with the piece in bits 6-9 and the square in bits 0-5 |
| `Codec.UnpackSquare` | pgchess.c:373-376 | `& 63` yields a valid square for every 16-bit input (also `piecesquare_square`, lines 413-418) |
| `Codec.UnpackPiece` | pgchess.c:364-371 | accepts exactly the patterns whose bits 6-9 hold a piece 1..12, rejecting the rest as corrupt data for "piece" (also `piecesquare_piece`, lines 421-426) |
| `Codec.PieceSquareIn` | pgchess.c:380-394 | accepts exactly a 3-character text of a piece letter and a square, giving a 10-bit value whose fields decode to that piece and square; the length error names "piece", a bad letter is a piece error, a bad square is a square error on the last two characters |
| `Codec.PieceSquareOut` | pgchess.c:397-410 | succeeds exactly when the piece field is valid, writing the piece letter then the square text of the two fields; otherwise corrupt data for "piece" |
| `Codec.MoveIn` | pgchess.c:457-480 | accepts exactly 4- or 5-character texts of two squares plus, at length 5, a letter of `nbrq`; the result's from, to and promotion fields are those squares and that letter (NONE at length 4); each failure is reported with the source's type name and text |
| `Codec.MoveOut` | pgchess.c:434-491 | succeeds exactly when the promotion code is NONE..QUEEN, writing 4 characters without promotion and 5 with one, whose squares and letter are the move's fields; otherwise corrupt data for "move" |
| `Codec.PieceRoundTrip` | pgchess.c:247-287 | piece text to ordinal to text, and ordinal to text to ordinal, are identities |
| `Codec.SquareRoundTrip` | pgchess.c:294-349 | square text to ordinal to text, and ordinal to text to ordinal, are identities |
| `Codec.PieceSquareFields` | pgchess.c:356-376 | the extractors return exactly the packed piece and square |
| `Codec.PackPieceSquareInjective` | pgchess.c:356-362 | two packed piece-squares are equal exactly when their pieces and squares are |
| `Codec.PieceSquareRepack` | pgchess.c:356-376 | repacking the two extracted fields gives the pattern's low ten bits |
| `Codec.PieceSquareTextRoundTrip` | pgchess.c:380-410 | valid piece-square text decodes and encodes back to itself |
| `Codec.PieceSquareValueRoundTrip` | pgchess.c:380-410 | a printable piece-square encodes and decodes back to its low ten bits |
| `Codec.MoveTextRoundTrip` | pgchess.c:434-480 | valid 4- and 5-character move text decodes and encodes back to itself |
| `Codec.MoveValueRoundTrip` | pgchess.c:434-480 | a printable move encodes and decodes back to its low 15 bits |
| `Positions.PositionPiece` | pgchess.c:579-591 | NULL exactly when the square is empty, otherwise the piece (1..12) on it |
| `Positions.IsAttacking` | pgchess.c:664-678 | true exactly when one end holds a white piece and the other a black piece; a move to an empty square never counts |
| `Positions.AttackingMovesMove` | pgchess.c:664-678 | an attacking move has two distinct, occupied squares |
| `Positions.AttackTargets` | pgchess.c:700-705 | the filtered to-squares are valid squares, no more of them than moves |
| `Positions.Attackers` | pgchess.c:733-739 | the filtered attackers are valid 10-bit piece-squares, no more of them than moves |
| `Positions.OccupiedSquares` | pgchess.c:568-574 | the pieces list has valid piece-squares, no more entries than scanned squares, each on a scanned square, and no two on the same square |
| `Positions.AttackTargetsMembership` | pgchess.c:700-705 | t is reported from s exactly when some generated move from s to t is attacking |
| `Positions.AttackersMembership` | pgchess.c:733-739 | x is reported for t exactly when some generated attacking move onto t starts at the piece and square x packs |
| `Positions.AttackSymmetry` | pgchess.c:680-745 | for an occupied s1: s2 is in attacks-from(s1) exactly when the piece-square of s1 is in attacked-by(s2); such an s2 is occupied |
| `Positions.OccupiedSquaresMembership` | pgchess.c:568-574 | (p, sq) is listed exactly when sq was scanned and holds p |
| `Positions.OccupiedSquaresOrdered` | pgchess.c:568-574 | the list is in strictly increasing square order, A1 first |
| `Positions.PiecesAgreeWithPiece` | pgchess.c:559-591 | the pieces list contains (p, sq) exactly when the single-square query on sq gives p |
| `Positions.IsMoveLegal` | pgchess.c:524-543 | true exactly when the move occurs in the generated moves; the scan covers the whole list |
| `Positions.AttacksFrom` | pgchess.c:680-711 | NULL exactly when the square is empty; otherwise the to-squares of the attacking moves from it, in generation order |
| `Positions.AttackedBy` | pgchess.c:713-745 | NULL exactly when the square is empty; otherwise the piece-squares of the attacking moves onto it, in generation order |
| `Positions.PositionPieces` | pgchess.c:559-577 | the piece-square of every occupied square, scanning A1 to H8 |
| `Positions.MoveSan` | pgchess.c:646-660 | NULL exactly when the move is not among the generated moves, otherwise the engine's SAN text for it |
| `Positions.MakeMove` | pgchess.c:748-765 | NULL exactly when the move is not among the generated moves, otherwise the engine's text of the position after it |
| `Scenarios.PawnPushText` | pgchess.c:457-491 | `e2e4` decodes to from e2, to e4, no promotion, and prints back as `e2e4` |
| `Scenarios.QueenPromotionText` | pgchess.c:457-491 | `e7e8q` decodes with a queen promotion and prints back as `e7e8q` |
| `Scenarios.PawnOnE2Text` | pgchess.c:380-426 | `Pe2` is the white pawn on e2, and both extractors return those |
| `Scenarios.RejectedTexts` | pgchess.c:457-480 | a 3-character move, a bad file in the second square (reported on the tail text), a bad promotion letter and a bad square file are syntax errors |
| `Scenarios.RejectedPackedValues` | pgchess.c:397-454 | a move with promotion code 5 and a piece-square with piece field 15 are corrupt data |
| `Scenarios.RookCapturesAlongFile` | pgchess.c:680-745 | a rook on a1 with a black knight on a8 is reported by attacks-from(a1) as [a8] and by attacked-by(a8) as [rook on a1]; its quiet move is not reported |

## Left out

- PostgreSQL glue: argument and return macros, `palloc`, `make_array` and
  the array construction, text datums, `PG_MODULE_MAGIC`. An `ereport` error is
  returned as an `Err` value, and a NULL return as `None`.
- Chess library internals: FEN parsing and saving, move generation and its
  global initialisation tables, SAN printing, making a move, and the real
  definitions of the character, square and move helpers. The board and the
  generated moves are inputs. SAN rendering and making-then-saving a move are
  function parameters of `MoveSan` and `MakeMove`.
- The source does not check whether FEN parsing failed. The model starts from a
  parsed position.
- `position_test`: a FEN round trip through the library only.
- `position_moves` and `position_moves_san`: they copy the generated list, or
  its SAN renderings, into the result. They are outside the modelled core.
- `position_score` and `position_material`: declared but without code.
- Resource handling: the position is not destroyed on the NULL early returns.
  Memory management is not modelled.
- The commented bit-layout notes and hex table describe no code.
- Text elements above 255: a C string holds only bytes, so such a character has
  no counterpart in the source. The codecs accept any `char` sequence and do
  not exclude them.
- `Codec.Error`: the numeric value that the "corrupt internal data" message
  prints is not carried.
- `Positions.PositionPieces`: requires at most 32 occupied squares. The source's
  buffer holds `MAX_PIECES` (32) entries and is not guarded against more; that
  overflow is not modelled.
- `Positions.PositionPiece`, `Positions.AttacksFrom`, `Positions.AttackedBy`:
  require a square ordinal 0..63. The source passes its argument to the library
  unchecked, so an out-of-range ordinal is undefined there.
- `Positions.AttacksFrom`, `Positions.AttackedBy`: require at most 192
  generated moves, the engine's generation cap and the size of the result buffer.
- `Order.Cmp`: compares unbounded integers. The source's 32-bit arguments only
  take part in comparisons, so nothing can overflow.
