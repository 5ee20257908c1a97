/**
 * Text input/output and packing for the four value types of the extension:
 * piece, square, piece-square and move.  Every decoder checks its text and
 * every encoder checks its packed value; the two failures are distinct.
 *
 * Text is the sequence of bytes of the C string, up to its NUL: each element
 * is one byte (below 256) and none is NUL, so the length is `strlen`.
 */
module Codec {
  import opened ChessLib

  // Type names used in the error messages.
  const TYPE_MOVE := "move"
  const TYPE_SQUARE := "square"
  const TYPE_PIECE := "piece"

  datatype Error =
    /** "invalid input syntax for <type>": the text the message prints. */
    | InvalidSyntax(typeName: string, input: string)
    /** "corrupt internal data for <type>": a packed value with a bad field. */
    | CorruptData(typeName: string)

  datatype Result<T> = Ok(value: T) | Err(error: Error) {
    predicate IsFailure() {
      Err?
    }

    function PropagateFailure<U>(): Result<U>
      requires Err?
    {
      Err(error)
    }

    function Extract(): T
      requires Ok?
    {
      value
    }
  }

  /** The character pair names a square: a file letter then a rank digit. */
  predicate IsSquareText(file: char, rank: char) {
    'a' <= file <= 'h' && '1' <= rank <= '8'
  }

  /** The ordinal of the square a valid pair names: file + 8 * rank. */
  function SquareOfText(file: char, rank: char): int
    requires IsSquareText(file, rank)
  {
    (file as int - 'a' as int) + 8 * (rank as int - '1' as int)
  }

  // ---------------------------------------------------------------- piece

  /** Reads the piece letter at the head of a text. */
  function ParsePiece(s: string): (r: Result<int>)
    requires |s| >= 1
    ensures r.Ok? <==> s[0] in PIECE_LETTERS
    ensures r.Ok? ==> IsPiece(r.value) && PieceToChar(r.value) == s[0]
    ensures r.Err? ==> r.error == InvalidSyntax(TYPE_PIECE, s)
  {
    var piece := PieceFromChar(s[0]);
    if piece == PIECE_NONE then Err(InvalidSyntax(TYPE_PIECE, s))
    else
      PieceCharRoundTrip(s[0]);
      Ok(piece)
  }

  /** Text input of a piece: exactly one piece letter. */
  function PieceIn(s: string): (r: Result<int>)
    ensures r.Ok? <==> |s| == 1 && s[0] in PIECE_LETTERS
    ensures r.Ok? ==> IsPiece(r.value) && s == [PieceToChar(r.value)]
    ensures r.Err? ==> r.error == InvalidSyntax(TYPE_PIECE, s)
  {
    if |s| != 1 then Err(InvalidSyntax(TYPE_PIECE, s)) else ParsePiece(s)
  }

  /** The letter of a piece ordinal; anything outside WHITE_PAWN..BLACK_KING is corrupt. */
  function FormatPiece(p: int): (r: Result<char>)
    ensures r.Ok? <==> IsPiece(p)
    ensures r.Ok? ==> r.value in PIECE_LETTERS && PieceFromChar(r.value) == p
    ensures r.Err? ==> r.error == CorruptData(TYPE_PIECE)
  {
    if !(WHITE_PAWN <= p <= BLACK_KING) then Err(CorruptData(TYPE_PIECE))
    else
      PieceOrdinalRoundTrip(p);
      Ok(PieceToChar(p))
  }

  /** Text output of a piece: its one letter. */
  function PieceOut(p: int): (r: Result<string>)
    ensures r.Ok? <==> IsPiece(p)
    ensures r.Ok? ==> |r.value| == 1 && PieceFromChar(r.value[0]) == p
    ensures r.Err? ==> r.error == CorruptData(TYPE_PIECE)
  {
    var c :- FormatPiece(p);
    Ok([c])
  }

  // ---------------------------------------------------------------- square

  /** Reads the square named by the first two characters of a text. */
  function ParseSquare(s: string): (r: Result<int>)
    requires |s| >= 2
    ensures r.Ok? <==> IsSquareText(s[0], s[1])
    ensures r.Ok? ==> 0 <= r.value < 64 && r.value == SquareOfText(s[0], s[1])
    ensures r.Err? ==> r.error == InvalidSyntax(TYPE_SQUARE, s)
  {
    var file := FileFromChar(s[0]);
    var rank := RankFromChar(s[1]);
    FileCharRoundTrip(s[0]);
    RankCharRoundTrip(s[1]);
    if file == FILE_INVALID || rank == RANK_INVALID then Err(InvalidSyntax(TYPE_SQUARE, s))
    else
      SquareOfFileRank(file, rank);
      var square := SquareFromFileRank(file, rank);
      if square == SQUARE_INVALID then Err(InvalidSyntax(TYPE_SQUARE, s)) else Ok(square)
  }

  /** Text input of a square: exactly a file letter and a rank digit. */
  function SquareIn(s: string): (r: Result<int>)
    ensures r.Ok? <==> |s| == 2 && IsSquareText(s[0], s[1])
    ensures r.Ok? ==> 0 <= r.value < 64 && r.value == SquareOfText(s[0], s[1])
    ensures r.Err? ==> r.error == InvalidSyntax(TYPE_SQUARE, s)
  {
    if |s| != 2 then Err(InvalidSyntax(TYPE_SQUARE, s)) else ParseSquare(s)
  }

  /** Text output of a square: file letter then rank digit; an ordinal outside 0..63 is corrupt. */
  function SquareOut(sq: int): (r: Result<string>)
    ensures r.Ok? <==> 0 <= sq < 64
    ensures r.Ok? ==> |r.value| == 2 && IsSquareText(r.value[0], r.value[1])
                      && SquareOfText(r.value[0], r.value[1]) == sq
    ensures r.Err? ==> r.error == CorruptData(TYPE_SQUARE)
  {
    var file := SquareFile(sq);
    var rank := SquareRank(sq);
    FileRankOfSquare(sq);
    if file == FILE_INVALID || rank == RANK_INVALID then Err(CorruptData(TYPE_SQUARE))
    else
      FileOrdinalRoundTrip(file);
      FileCharRoundTrip(FileToChar(file));
      RankOrdinalRoundTrip(rank);
      RankCharRoundTrip(RankToChar(rank));
      Ok([FileToChar(file), RankToChar(rank)])
  }

  // ---------------------------------------------------------------- piece-square

  /** Packs a piece and a square as `piece << 6 | square`. */
  function PackPieceSquare(p: int, sq: int): (r: Word16)
    requires IsPiece(p) && 0 <= sq < 64
    ensures r < 1024
    ensures r / 64 == p && r % 64 == sq
  {
    p * 64 + sq
  }

  /** The square field, `piecesquare & 63`: a valid square for every pattern. */
  function UnpackSquare(ps: Word16): (sq: int)
    ensures 0 <= sq < 64
  {
    ps % 64
  }

  /** The low ten bits of a pattern are its piece field over its square field. */
  lemma LowTenBits(ps: Word16)
    ensures ps % 1024 == 64 * (ps / 64 % 16) + ps % 64
  {
    var q, sq := ps / 64, ps % 64;
    var hi, piece := q / 16, q % 16;
    assert ps == 64 * q + sq;
    assert q == 16 * hi + piece;
    assert ps == 1024 * hi + (64 * piece + sq);
    assert 0 <= 64 * piece + sq < 1024;
  }

  /** The piece field, `piecesquare >> 6 & 15`, rejected unless it is a piece. */
  function UnpackPiece(ps: Word16): (r: Result<int>)
    ensures r.Ok? <==> 64 <= ps % 1024 < 13 * 64
    ensures r.Ok? ==> IsPiece(r.value)
    ensures r.Err? ==> r.error == CorruptData(TYPE_PIECE)
  {
    var piece := ps / 64 % 16;
    LowTenBits(ps);
    if !(WHITE_PAWN <= piece <= BLACK_KING) then Err(CorruptData(TYPE_PIECE)) else Ok(piece)
  }

  /** Text input of a piece-square: a piece letter followed by a square. */
  function PieceSquareIn(s: string): (r: Result<Word16>)
    ensures r.Ok? <==> |s| == 3 && s[0] in PIECE_LETTERS && IsSquareText(s[1], s[2])
    ensures r.Ok? ==> r.value < 1024 && PieceIn(s[..1]) == UnpackPiece(r.value)
                      && SquareIn(s[1..]) == Ok(UnpackSquare(r.value))
    // the length check names the piece type, not the piece-square type
    ensures |s| != 3 ==> r == Err(InvalidSyntax(TYPE_PIECE, s))
    ensures |s| == 3 && s[0] !in PIECE_LETTERS ==> r == Err(InvalidSyntax(TYPE_PIECE, s))
    ensures |s| == 3 && s[0] in PIECE_LETTERS && !IsSquareText(s[1], s[2]) ==>
      r == Err(InvalidSyntax(TYPE_SQUARE, s[1..]))
  {
    if |s| != 3 then Err(InvalidSyntax(TYPE_PIECE, s))
    else
      var piece :- ParsePiece(s);
      var square :- ParseSquare(s[1..]);
      var ps := PackPieceSquare(piece, square);
      assert UnpackPiece(ps) == Ok(piece);
      assert s[..1] == [s[0]];
      Ok(ps)
  }

  /** Text output of a piece-square; a piece field outside the pieces is corrupt. */
  function PieceSquareOut(ps: Word16): (r: Result<string>)
    ensures r.Ok? <==> UnpackPiece(ps).Ok?
    ensures r.Ok? ==> |r.value| == 3 && Ok(PieceFromChar(r.value[0])) == UnpackPiece(ps)
                      && SquareIn(r.value[1..]) == Ok(UnpackSquare(ps))
    ensures r.Err? ==> r.error == CorruptData(TYPE_PIECE)
  {
    var piece :- UnpackPiece(ps);
    var square := UnpackSquare(ps);
    // the piece is valid and the square a mask, so neither can fail here
    var c := FormatPiece(piece).value;
    var t := SquareOut(square).value;
    Ok([c] + t)
  }

  // ---------------------------------------------------------------- move

  /** Text input of a move: two squares and an optional promotion letter. */
  function MoveIn(s: string): (r: Result<Word16>)
    ensures r.Ok? <==> (|s| == 4 || |s| == 5) && IsSquareText(s[0], s[1]) && IsSquareText(s[2], s[3])
                       && (|s| == 5 ==> s[4] in PROMOTE_LETTERS)
    ensures r.Ok? ==> r.value < 0x8000
                      && MoveFrom(r.value) == SquareOfText(s[0], s[1])
                      && MoveTo(r.value) == SquareOfText(s[2], s[3])
                      && MovePromotes(r.value) == (if |s| == 4 then PROMOTE_NONE else PromoteFromChar(s[4]))
    ensures |s| != 4 && |s| != 5 ==> r == Err(InvalidSyntax(TYPE_MOVE, s))
    ensures (|s| == 4 || |s| == 5) && !IsSquareText(s[0], s[1]) ==>
      r == Err(InvalidSyntax(TYPE_SQUARE, s))
    ensures (|s| == 4 || |s| == 5) && IsSquareText(s[0], s[1]) && !IsSquareText(s[2], s[3]) ==>
      r == Err(InvalidSyntax(TYPE_SQUARE, s[2..]))
    ensures |s| == 5 && IsSquareText(s[0], s[1]) && IsSquareText(s[2], s[3]) && s[4] !in PROMOTE_LETTERS ==>
      r == Err(InvalidSyntax(TYPE_MOVE, s))
  {
    if |s| != 4 && |s| != 5 then Err(InvalidSyntax(TYPE_MOVE, s))
    else
      var from :- ParseSquare(s);
      var to :- ParseSquare(s[2..]);
      var promote := if |s| == 5 then PromoteFromChar(s[4]) else PROMOTE_NONE;
      if |s| == 5 && promote == PROMOTE_NONE then Err(InvalidSyntax(TYPE_MOVE, s))
      else
        MoveFieldsOfMake(from, to, promote);
        Ok(MakePromote(from, to, promote))
  }

  /**
   * Text output of a move: four characters, or five when it promotes.  A
   * promotion code outside NONE..QUEEN is corrupt; the squares, being masks
   * of the pattern, are always valid.
   */
  function MoveOut(m: Word16): (r: Result<string>)
    ensures r.Ok? <==> MovePromotes(m) <= PROMOTE_QUEEN
    ensures r.Ok? ==> |r.value| == (if MovePromotes(m) == PROMOTE_NONE then 4 else 5)
    ensures r.Ok? ==> IsSquareText(r.value[0], r.value[1]) && IsSquareText(r.value[2], r.value[3])
                      && SquareOfText(r.value[0], r.value[1]) == MoveFrom(m)
                      && SquareOfText(r.value[2], r.value[3]) == MoveTo(m)
                      && (|r.value| == 5 ==> PromoteFromChar(r.value[4]) == MovePromotes(m))
    ensures r.Err? ==> r.error == CorruptData(TYPE_MOVE)
  {
    var promote := MovePromotes(m);
    if !(PROMOTE_NONE <= promote <= PROMOTE_QUEEN) then Err(CorruptData(TYPE_MOVE))
    else
      var from := SquareOut(MoveFrom(m)).value;
      var to := SquareOut(MoveTo(m)).value;
      if promote != PROMOTE_NONE then
        PromoteOrdinalRoundTrip(promote);
        Ok(from + to + [PromoteToChar(promote)])
      else Ok(from + to)
  }

  // ---------------------------------------------------------------- round trips

  /** Two square texts naming the same ordinal are the same characters. */
  lemma SquareTextInjective(a: char, b: char, c: char, d: char)
    requires IsSquareText(a, b) && IsSquareText(c, d)
    requires SquareOfText(a, b) == SquareOfText(c, d)
    ensures a == c && b == d
  {
    var x := SquareOfText(a, b);
    assert x % 8 == a as int - 'a' as int && x / 8 == b as int - '1' as int;
    assert x % 8 == c as int - 'a' as int && x / 8 == d as int - '1' as int;
  }

  /** Piece text and piece ordinals convert into each other exactly. */
  lemma PieceRoundTrip(s: string, p: int)
    ensures PieceIn(s).Ok? ==> PieceOut(PieceIn(s).value) == Ok(s)
    ensures PieceOut(p).Ok? ==> PieceIn(PieceOut(p).value) == Ok(p)
  {
    if PieceIn(s).Ok? {
      PieceCharRoundTrip(s[0]);
      assert PieceOut(PieceIn(s).value).value == s;
    }
    if PieceOut(p).Ok? {
      PieceOrdinalRoundTrip(p);
    }
  }

  /** Square text and square ordinals convert into each other exactly. */
  lemma SquareRoundTrip(s: string, sq: int)
    ensures SquareIn(s).Ok? ==> SquareOut(SquareIn(s).value) == Ok(s)
    ensures SquareOut(sq).Ok? ==> SquareIn(SquareOut(sq).value) == Ok(sq)
  {
    if SquareIn(s).Ok? {
      var t := SquareOut(SquareIn(s).value).value;
      SquareTextInjective(s[0], s[1], t[0], t[1]);
      assert t == s;
    }
  }

  /** The extractors recover exactly the piece and square that were packed. */
  lemma PieceSquareFields(p: int, sq: int)
    requires IsPiece(p) && 0 <= sq < 64
    ensures UnpackPiece(PackPieceSquare(p, sq)) == Ok(p)
    ensures UnpackSquare(PackPieceSquare(p, sq)) == sq
  {
  }

  /** Packing is injective, so a piece-square names one piece on one square. */
  lemma PackPieceSquareInjective(p: int, sq: int, q: int, sq': int)
    requires IsPiece(p) && 0 <= sq < 64 && IsPiece(q) && 0 <= sq' < 64
    ensures PackPieceSquare(p, sq) == PackPieceSquare(q, sq') <==> p == q && sq == sq'
  {
  }

  /**
   * Repacking what the extractors accept gives back the pattern's low ten
   * bits; bits 10-15 are ignored by both extractors.
   */
  lemma PieceSquareRepack(ps: Word16)
    requires UnpackPiece(ps).Ok?
    ensures PackPieceSquare(UnpackPiece(ps).value, UnpackSquare(ps)) == ps % 1024
  {
    LowTenBits(ps);
  }

  /** Valid piece-square text survives decoding then encoding unchanged. */
  lemma PieceSquareTextRoundTrip(s: string)
    requires PieceSquareIn(s).Ok?
    ensures PieceSquareOut(PieceSquareIn(s).value) == Ok(s)
  {
    var ps := PieceSquareIn(s).value;
    var t := PieceSquareOut(ps).value;
    PieceCharRoundTrip(s[0]);
    PieceCharRoundTrip(t[0]);
    assert t[0] == s[0];
    SquareTextInjective(s[1], s[2], t[1], t[2]);
    assert t == s;
  }

  /** Encoding then decoding a piece-square keeps its low ten bits. */
  lemma PieceSquareValueRoundTrip(ps: Word16)
    requires PieceSquareOut(ps).Ok?
    ensures PieceSquareIn(PieceSquareOut(ps).value) == Ok(ps % 1024)
  {
    var t := PieceSquareOut(ps).value;
    var piece, square := UnpackPiece(ps).value, UnpackSquare(ps);
    PieceCharRoundTrip(t[0]);
    assert t[1..] == [t[1], t[2]];
    PieceSquareRepack(ps);
    assert PieceSquareIn(t).value == PackPieceSquare(piece, square);
  }

  /** Valid move text survives decoding then encoding unchanged, in both lengths. */
  lemma MoveTextRoundTrip(s: string)
    ensures MoveIn(s).Ok? ==> MoveOut(MoveIn(s).value) == Ok(s)
  {
    if MoveIn(s).Err? {
      return;
    }
    var m := MoveIn(s).value;
    var t := MoveOut(m).value;
    assert |t| == |s|;
    SquareTextInjective(s[0], s[1], t[0], t[1]);
    SquareTextInjective(s[2], s[3], t[2], t[3]);
    if |s| == 5 {
      PromoteCharRoundTrip(s[4]);
      PromoteCharRoundTrip(t[4]);
    }
    assert t == s;
  }

  /** Encoding then decoding a move keeps all but bit 15 of its pattern. */
  lemma MoveValueRoundTrip(m: Word16)
    requires MoveOut(m).Ok?
    ensures MoveIn(MoveOut(m).value) == Ok(m % 0x8000)
  {
    var t := MoveOut(m).value;
    if |t| == 5 {
      PromoteCharRoundTrip(t[4]);
    }
    MakeOfMoveFields(m);
    MoveFieldsOfMake(MoveFrom(m), MoveTo(m), MovePromotes(m));
    var r := MoveIn(t).value;
    assert MoveFrom(r) == MoveFrom(m) && MoveTo(r) == MoveTo(m) && MovePromotes(r) == MovePromotes(m);
    MakeOfMoveFields(r);
  }
}
