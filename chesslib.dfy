/**
 * The part of the chess library's interface that the extension relies on:
 * piece, file, rank, square and promotion ordinals, their characters, and
 * the packed move.  The library's own definitions are not part of this
 * model; the bijections below are one concrete choice.  The codec
 * contracts are stated against it: file letters a..h, rank digits 1..8 and
 * square = file + 8 * rank.  The facts about it that the codecs use are the
 * lemmas at the end of this module.
 *
 * Packed values are 16-bit patterns held as non-negative integers.  A C
 * shift and mask `x >> k & (2^n - 1)` on such a pattern is `x / 2^k % 2^n`,
 * and `a << k | b` with `b < 2^k` is `a * 2^k + b`.
 */
module ChessLib {

  /** A 16-bit pattern: the carrier of a packed piece-square or move. */
  type Word16 = x: int | 0 <= x < 0x1_0000

  // Piece ordinals: NONE, then the six white pieces, then the six black ones.
  const PIECE_NONE := 0
  const WHITE_PAWN := 1
  const WHITE_KING := 6
  const BLACK_PAWN := 7
  const BLACK_KING := 12

  /** The letters of the twelve pieces, in ordinal order from WHITE_PAWN. */
  const PIECE_LETTERS := "PNBRQKpnbrqk"

  predicate IsPiece(p: int) {
    WHITE_PAWN <= p <= BLACK_KING
  }

  datatype Color = White | Black

  function PieceColor(p: int): (c: Color)
    requires IsPiece(p)
    ensures c == White <==> p <= WHITE_KING
  {
    if p <= WHITE_KING then White else Black
  }

  /** The piece a letter names, or PIECE_NONE for any other character. */
  function PieceFromChar(c: char): (p: int)
    ensures p == PIECE_NONE || IsPiece(p)
    ensures p != PIECE_NONE <==> c in PIECE_LETTERS
    ensures p != PIECE_NONE ==> PIECE_LETTERS[p - 1] == c
  {
    match c
    case 'P' => 1
    case 'N' => 2
    case 'B' => 3
    case 'R' => 4
    case 'Q' => 5
    case 'K' => 6
    case 'p' => 7
    case 'n' => 8
    case 'b' => 9
    case 'r' => 10
    case 'q' => 11
    case 'k' => 12
    case _ => PIECE_NONE
  }

  function PieceToChar(p: int): (c: char)
    requires IsPiece(p)
    ensures c in PIECE_LETTERS
  {
    PIECE_LETTERS[p - 1]
  }

  // Files a..h and ranks 1..8 are ordinals 0..7; -1 marks an invalid one.
  const FILE_INVALID := -1
  const RANK_INVALID := -1
  const SQUARE_INVALID := 64

  function FileFromChar(c: char): (f: int)
    ensures f == FILE_INVALID || 0 <= f < 8
  {
    if 'a' <= c <= 'h' then c as int - 'a' as int else FILE_INVALID
  }

  function RankFromChar(c: char): (r: int)
    ensures r == RANK_INVALID || 0 <= r < 8
  {
    if '1' <= c <= '8' then c as int - '1' as int else RANK_INVALID
  }

  function FileToChar(f: int): (c: char)
    requires 0 <= f < 8
    ensures 'a' <= c <= 'h'
  {
    ('a' as int + f) as char
  }

  function RankToChar(r: int): (c: char)
    requires 0 <= r < 8
    ensures '1' <= c <= '8'
  {
    ('1' as int + r) as char
  }

  /** Square ordinal of a (file, rank) pair: file + 8 * rank. */
  function SquareFromFileRank(f: int, r: int): (sq: int)
    ensures sq == SQUARE_INVALID || 0 <= sq < 64
  {
    if 0 <= f < 8 && 0 <= r < 8 then f + 8 * r else SQUARE_INVALID
  }

  function SquareFile(sq: int): (f: int)
    ensures f == FILE_INVALID || 0 <= f < 8
  {
    if 0 <= sq < 64 then sq % 8 else FILE_INVALID
  }

  function SquareRank(sq: int): (r: int)
    ensures r == RANK_INVALID || 0 <= r < 8
  {
    if 0 <= sq < 64 then sq / 8 else RANK_INVALID
  }

  // Promotion classes carried by a move.
  const PROMOTE_NONE := 0
  const PROMOTE_QUEEN := 4

  /** The promotion letters, in ordinal order from the knight. */
  const PROMOTE_LETTERS := "nbrq"

  function PromoteFromChar(c: char): (p: int)
    ensures PROMOTE_NONE <= p <= PROMOTE_QUEEN
    ensures p != PROMOTE_NONE <==> c in PROMOTE_LETTERS
    ensures p != PROMOTE_NONE ==> PROMOTE_LETTERS[p - 1] == c
  {
    match c
    case 'n' => 1
    case 'b' => 2
    case 'r' => 3
    case 'q' => 4
    case _ => PROMOTE_NONE
  }

  function PromoteToChar(p: int): (c: char)
    requires PROMOTE_NONE < p <= PROMOTE_QUEEN
    ensures c in PROMOTE_LETTERS
  {
    PROMOTE_LETTERS[p - 1]
  }

  /** A move packs from-square (bits 0-5), to-square (bits 6-11) and promotion (bits 12-14). */
  function MakePromote(from: int, to: int, promote: int): (m: Word16)
    requires 0 <= from < 64 && 0 <= to < 64 && PROMOTE_NONE <= promote <= PROMOTE_QUEEN
    ensures m < 0x8000
  {
    from + 64 * to + 4096 * promote
  }

  /** The from-square of a move; a valid square for every 16-bit pattern. */
  function MoveFrom(m: Word16): (sq: int)
    ensures 0 <= sq < 64
  {
    m % 64
  }

  /** The to-square of a move; a valid square for every 16-bit pattern. */
  function MoveTo(m: Word16): (sq: int)
    ensures 0 <= sq < 64
  {
    m / 64 % 64
  }

  /** The promotion field of a move; may hold the out-of-range codes 5..7. */
  function MovePromotes(m: Word16): (p: int)
    ensures 0 <= p < 8
  {
    m / 4096 % 8
  }

  /** A piece letter read as an ordinal prints back as the same letter. */
  lemma PieceCharRoundTrip(c: char)
    requires c in PIECE_LETTERS
    ensures IsPiece(PieceFromChar(c)) && PieceToChar(PieceFromChar(c)) == c
  {
  }

  /** A piece ordinal printed as a letter reads back as the same ordinal. */
  lemma PieceOrdinalRoundTrip(p: int)
    requires IsPiece(p)
    ensures PieceFromChar(PieceToChar(p)) == p
  {
  }

  /** Exactly the letters a..h are files, numbered from 'a'; each prints back as itself. */
  lemma FileCharRoundTrip(c: char)
    ensures FileFromChar(c) != FILE_INVALID <==> 'a' <= c <= 'h'
    ensures FileFromChar(c) != FILE_INVALID ==> FileFromChar(c) == c as int - 'a' as int
    ensures FileFromChar(c) != FILE_INVALID ==> FileToChar(FileFromChar(c)) == c
  {
  }

  /** A file ordinal printed as a letter reads back as the same ordinal. */
  lemma FileOrdinalRoundTrip(f: int)
    requires 0 <= f < 8
    ensures FileFromChar(FileToChar(f)) == f
  {
  }

  /** Exactly the digits 1..8 are ranks, numbered from '1'; each prints back as itself. */
  lemma RankCharRoundTrip(c: char)
    ensures RankFromChar(c) != RANK_INVALID <==> '1' <= c <= '8'
    ensures RankFromChar(c) != RANK_INVALID ==> RankFromChar(c) == c as int - '1' as int
    ensures RankFromChar(c) != RANK_INVALID ==> RankToChar(RankFromChar(c)) == c
  {
  }

  /** A rank ordinal printed as a digit reads back as the same ordinal. */
  lemma RankOrdinalRoundTrip(r: int)
    requires 0 <= r < 8
    ensures RankFromChar(RankToChar(r)) == r
  {
  }

  /** A valid (file, rank) pair is the square file + 8 * rank, whose file and rank it is. */
  lemma SquareOfFileRank(f: int, r: int)
    requires 0 <= f < 8 && 0 <= r < 8
    ensures SquareFromFileRank(f, r) == f + 8 * r
    ensures SquareFile(SquareFromFileRank(f, r)) == f && SquareRank(SquareFromFileRank(f, r)) == r
  {
  }

  /**
   * A square has a file and a rank exactly when it is 0..63, and those
   * rebuild it.
   */
  lemma FileRankOfSquare(sq: int)
    ensures SquareFile(sq) != FILE_INVALID <==> 0 <= sq < 64
    ensures SquareRank(sq) != RANK_INVALID <==> 0 <= sq < 64
    ensures 0 <= sq < 64 ==> sq == SquareFile(sq) + 8 * SquareRank(sq)
                             && SquareFromFileRank(SquareFile(sq), SquareRank(sq)) == sq
  {
  }

  /** A promotion letter read as a code prints back as the same letter. */
  lemma PromoteCharRoundTrip(c: char)
    requires c in PROMOTE_LETTERS
    ensures PromoteFromChar(c) != PROMOTE_NONE && PromoteToChar(PromoteFromChar(c)) == c
  {
  }

  /** A promotion code 1..4 printed as a letter reads back as the same code. */
  lemma PromoteOrdinalRoundTrip(p: int)
    requires PROMOTE_NONE < p <= PROMOTE_QUEEN
    ensures PromoteFromChar(PromoteToChar(p)) == p
  {
  }

  /** The move extractors recover exactly the fields MakePromote packed. */
  lemma MoveFieldsOfMake(from: int, to: int, promote: int)
    requires 0 <= from < 64 && 0 <= to < 64 && PROMOTE_NONE <= promote <= PROMOTE_QUEEN
    ensures MoveFrom(MakePromote(from, to, promote)) == from
    ensures MoveTo(MakePromote(from, to, promote)) == to
    ensures MovePromotes(MakePromote(from, to, promote)) == promote
  {
  }

  /**
   * Repacking the fields of any move whose promotion code is in range gives
   * back its low 15 bits: bit 15 is the only part of the pattern the
   * extractors ignore.
   */
  lemma MakeOfMoveFields(m: Word16)
    requires MovePromotes(m) <= PROMOTE_QUEEN
    ensures MakePromote(MoveFrom(m), MoveTo(m), MovePromotes(m)) == m % 0x8000
  {
    var lo, q := m % 64, m / 64;
    var mid, q2 := q % 64, q / 64;
    var pr := q2 % 8;
    assert m == lo + 64 * q;
    assert q == mid + 64 * q2;
    assert q2 / 8 == m / 0x8000 by {
      assert m / 4096 == q2;
    }
    assert m == lo + 64 * mid + 4096 * pr + 0x8000 * (q2 / 8);
  }
}
