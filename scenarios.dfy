/**
 * Concrete values: the coordinate texts of a few moves and piece-squares,
 * and a rook capture along the a-file.
 */
module Scenarios {
  import opened ChessLib
  import opened Codec
  import opened Positions

  const E2 := 12
  const E4 := 28
  const E7 := 52
  const E8 := 60
  const A1 := 0
  const A8 := 56
  const WHITE_ROOK := 4
  const BLACK_KNIGHT := 8

  /** "e2e4" is a plain pawn push and prints back unchanged. */
  lemma PawnPushText()
    ensures MoveIn("e2e4") == Ok(MakePromote(E2, E4, PROMOTE_NONE))
    ensures MoveOut(MakePromote(E2, E4, PROMOTE_NONE)) == Ok("e2e4")
  {
    assert MoveIn("e2e4").Ok?;
    var m := MoveIn("e2e4").value;
    MakeOfMoveFields(m);
    MoveTextRoundTrip("e2e4");
  }

  /** "e7e8q" promotes to a queen and prints back with its fifth letter. */
  lemma QueenPromotionText()
    ensures MoveIn("e7e8q") == Ok(MakePromote(E7, E8, PROMOTE_QUEEN))
    ensures MoveOut(MakePromote(E7, E8, PROMOTE_QUEEN)) == Ok("e7e8q")
  {
    assert "e7e8q"[4] == 'q' && PromoteFromChar('q') == PROMOTE_QUEEN;
    assert MoveIn("e7e8q").Ok?;
    var m := MoveIn("e7e8q").value;
    MakeOfMoveFields(m);
    MoveTextRoundTrip("e7e8q");
  }

  /** "Pe2" is the white pawn on e2, and both extractors say so. */
  lemma PawnOnE2Text()
    ensures PieceSquareIn("Pe2") == Ok(PackPieceSquare(WHITE_PAWN, E2))
    ensures UnpackSquare(PackPieceSquare(WHITE_PAWN, E2)) == E2
    ensures UnpackPiece(PackPieceSquare(WHITE_PAWN, E2)) == Ok(WHITE_PAWN)
  {
    assert "Pe2"[1..] == "e2";
  }

  /** Wrong lengths, a bad file and a bad promotion letter are syntax errors. */
  lemma RejectedTexts()
    ensures MoveIn("e2e") == Err(InvalidSyntax(TYPE_MOVE, "e2e"))
    ensures MoveIn("e2x4") == Err(InvalidSyntax(TYPE_SQUARE, "x4"))
    ensures MoveIn("e7e8k") == Err(InvalidSyntax(TYPE_MOVE, "e7e8k"))
    ensures SquareIn("i1") == Err(InvalidSyntax(TYPE_SQUARE, "i1"))
  {
    assert "e2x4"[2..] == "x4";
    assert "e7e8k"[4] == 'k' && 'k' !in PROMOTE_LETTERS;
  }

  /** A promotion code of 5 and a piece field of 15 are corrupt data. */
  lemma RejectedPackedValues()
    ensures MoveOut(5 * 4096) == Err(CorruptData(TYPE_MOVE))
    ensures PieceSquareOut(15 * 64) == Err(CorruptData(TYPE_PIECE))
  {
    assert MovePromotes(5 * 4096) == 5;
    assert (15 * 64) % 1024 == 960;
  }

  /** A board with a white rook on a1 and a black knight on a8 and nothing else. */
  function RookAndKnight(): (board: seq<int>)
    ensures ValidBoard(board)
    ensures board[A1] == WHITE_ROOK && board[A8] == BLACK_KNIGHT
  {
    seq(64, sq => if sq == A1 then WHITE_ROOK else if sq == A8 then BLACK_KNIGHT else PIECE_NONE)
  }

  /** The rook's capture on a8 is reported by both attack queries. */
  lemma RookCapturesAlongFile(quiet: Word16)
    requires MoveFrom(quiet) == A1 && MoveTo(quiet) == 8
    ensures AttackTargets(RookAndKnight(), [quiet, MakePromote(A1, A8, PROMOTE_NONE)], A1) == [A8]
    ensures Attackers(RookAndKnight(), [quiet, MakePromote(A1, A8, PROMOTE_NONE)], A8)
            == [PackPieceSquare(WHITE_ROOK, A1)]
  {
    var board := RookAndKnight();
    var moves := [quiet, MakePromote(A1, A8, PROMOTE_NONE)];
    MoveFieldsOfMake(A1, A8, PROMOTE_NONE);
    assert moves[..1] == [quiet] && [quiet][..0] == [];
    assert !IsAttacking(board, quiet);
  }
}
