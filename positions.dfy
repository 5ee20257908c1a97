/**
 * Queries over a position: legality of a move, the captures a piece can
 * make, the pieces that can capture on a square, the pieces on the board,
 * and the legality gate in front of SAN rendering and making a move.
 *
 * A position is what the rules engine reports once it has parsed the
 * Forsyth-Edwards text: the occupant of each of the 64 squares (a piece
 * ordinal or PIECE_NONE, indexed by square ordinal) and the legal moves it
 * generated, in generation order.
 */
module Positions {
  import opened ChessLib
  import opened Codec

  /** The engine generates at most this many moves; the result buffers hold this many. */
  const MAX_MOVES := 192
  /** The pieces buffer holds this many piece-squares. */
  const MAX_PIECES := 32

  datatype Option<T> = None | Some(value: T)

  datatype Position = Position(board: seq<int>, moves: seq<Word16>)

  /** Every square holds nothing or one of the twelve pieces. */
  predicate ValidBoard(board: seq<int>) {
    |board| == 64 && forall sq | 0 <= sq < 64 :: board[sq] == PIECE_NONE || IsPiece(board[sq])
  }

  /** What the engine guarantees of a parsed position. */
  predicate ValidPosition(pos: Position) {
    ValidBoard(pos.board) && |pos.moves| <= MAX_MOVES
  }

  predicate IsWhitePiece(p: int) {
    WHITE_PAWN <= p <= WHITE_KING
  }

  predicate IsBlackPiece(p: int) {
    BLACK_PAWN <= p <= BLACK_KING
  }

  /** The piece on a square, or None when it is empty. */
  function PositionPiece(pos: Position, sq: int): (r: Option<int>)
    requires ValidBoard(pos.board) && 0 <= sq < 64
    ensures r.None? <==> pos.board[sq] == PIECE_NONE
    ensures r.Some? ==> IsPiece(r.value) && pos.board[sq] == r.value
  {
    var piece := pos.board[sq];
    if piece == PIECE_NONE then None else Some(piece)
  }

  /**
   * A move attacks when both of its squares are occupied and by pieces of
   * opposite colours: only captures count, never a move to an empty square.
   */
  function IsAttacking(board: seq<int>, m: Word16): (r: bool)
    requires ValidBoard(board)
    ensures r <==> ((IsWhitePiece(board[MoveFrom(m)]) && IsBlackPiece(board[MoveTo(m)]))
                    || (IsBlackPiece(board[MoveFrom(m)]) && IsWhitePiece(board[MoveTo(m)])))
  {
    var subject := board[MoveFrom(m)];
    var target := board[MoveTo(m)];
    !(subject == PIECE_NONE || target == PIECE_NONE || PieceColor(subject) == PieceColor(target))
  }

  /** A capture never stays on its own square. */
  lemma AttackingMovesMove(board: seq<int>, m: Word16)
    requires ValidBoard(board) && IsAttacking(board, m)
    ensures MoveFrom(m) != MoveTo(m)
    ensures board[MoveFrom(m)] != PIECE_NONE && board[MoveTo(m)] != PIECE_NONE
  {
  }

  // ---------------------------------------------------------------- specifications

  /** The to-squares, in order, of the attacking moves from `subject`. */
  function AttackTargets(board: seq<int>, moves: seq<Word16>, subject: int): (r: seq<int>)
    requires ValidBoard(board)
    ensures |r| <= |moves|
    ensures forall i | 0 <= i < |r| :: 0 <= r[i] < 64
  {
    if moves == [] then []
    else
      var m := moves[|moves| - 1];
      AttackTargets(board, moves[..|moves| - 1], subject)
        + (if MoveFrom(m) == subject && IsAttacking(board, m) then [MoveTo(m)] else [])
  }

  /** The piece-squares, in order, of the attacking moves onto `target`. */
  function Attackers(board: seq<int>, moves: seq<Word16>, target: int): (r: seq<Word16>)
    requires ValidBoard(board)
    ensures |r| <= |moves|
    ensures forall i | 0 <= i < |r| :: r[i] < 1024 && UnpackPiece(r[i]).Ok?
  {
    if moves == [] then []
    else
      var m := moves[|moves| - 1];
      var from := MoveFrom(m);
      Attackers(board, moves[..|moves| - 1], target)
        + (if MoveTo(m) == target && IsAttacking(board, m) then [PackPieceSquare(board[from], from)] else [])
  }

  /** The piece-squares of the occupied squares below `n`, in square order. */
  function OccupiedSquares(board: seq<int>, n: nat): (r: seq<Word16>)
    requires ValidBoard(board) && n <= 64
    ensures |r| <= n
    ensures forall i | 0 <= i < |r| :: r[i] < 1024 && UnpackPiece(r[i]).Ok? && UnpackSquare(r[i]) < n
    ensures forall i, j | 0 <= i < j < |r| :: UnpackSquare(r[i]) != UnpackSquare(r[j])
  {
    if n == 0 then []
    else
      var sq := n - 1;
      OccupiedSquares(board, sq)
        + (if board[sq] != PIECE_NONE then [PackPieceSquare(board[sq], sq)] else [])
  }

  // ---------------------------------------------------------------- properties

  /** A square is an attack target exactly when some attacking move goes there from `subject`. */
  lemma {:induction false} AttackTargetsMembership(board: seq<int>, moves: seq<Word16>, subject: int, t: int)
    requires ValidBoard(board)
    ensures t in AttackTargets(board, moves, subject) <==>
      exists i | 0 <= i < |moves| :: MoveFrom(moves[i]) == subject && MoveTo(moves[i]) == t && IsAttacking(board, moves[i])
  {
    if moves != [] {
      var init := moves[..|moves| - 1];
      AttackTargetsMembership(board, init, subject, t);
      if t in AttackTargets(board, moves, subject) && t !in AttackTargets(board, init, subject) {
        assert MoveTo(moves[|moves| - 1]) == t;
      }
      if t !in AttackTargets(board, moves, subject) {
        forall i | 0 <= i < |moves|
          ensures !(MoveFrom(moves[i]) == subject && MoveTo(moves[i]) == t && IsAttacking(board, moves[i]))
        {
          if i < |moves| - 1 {
            assert moves[i] == init[i];
          }
        }
      }
      if exists i | 0 <= i < |init| :: MoveFrom(init[i]) == subject && MoveTo(init[i]) == t && IsAttacking(board, init[i]) {
        var i :| 0 <= i < |init| && MoveFrom(init[i]) == subject && MoveTo(init[i]) == t && IsAttacking(board, init[i]);
        assert moves[i] == init[i];
      }
    }
  }

  /** A piece-square is an attacker exactly when some attacking move goes from it onto `target`. */
  lemma {:induction false} AttackersMembership(board: seq<int>, moves: seq<Word16>, target: int, x: Word16)
    requires ValidBoard(board)
    ensures x in Attackers(board, moves, target) <==>
      exists i | 0 <= i < |moves| :: MoveTo(moves[i]) == target && IsAttacking(board, moves[i])
                                     && x == PackPieceSquare(board[MoveFrom(moves[i])], MoveFrom(moves[i]))
  {
    if moves != [] {
      var init := moves[..|moves| - 1];
      AttackersMembership(board, init, target, x);
      if x !in Attackers(board, moves, target) {
        forall i | 0 <= i < |moves|
          ensures !(MoveTo(moves[i]) == target && IsAttacking(board, moves[i])
                    && x == PackPieceSquare(board[MoveFrom(moves[i])], MoveFrom(moves[i])))
        {
          if i < |moves| - 1 {
            assert moves[i] == init[i];
          }
        }
      }
      if exists i | 0 <= i < |init| :: MoveTo(init[i]) == target && IsAttacking(board, init[i])
                                       && x == PackPieceSquare(board[MoveFrom(init[i])], MoveFrom(init[i])) {
        var i :| 0 <= i < |init| && MoveTo(init[i]) == target && IsAttacking(board, init[i])
                 && x == PackPieceSquare(board[MoveFrom(init[i])], MoveFrom(init[i]));
        assert moves[i] == init[i];
      }
    }
  }

  /**
   * The two attack queries agree: s2 is among the captures from an occupied
   * s1 exactly when the piece on s1, as a piece-square, is among the
   * attackers of s2; and such an s2 is itself occupied, so the attackers
   * query on it has a result.
   */
  lemma {:induction false} AttackSymmetry(board: seq<int>, moves: seq<Word16>, s1: int, s2: int)
    requires ValidBoard(board) && 0 <= s1 < 64 && 0 <= s2 < 64 && board[s1] != PIECE_NONE
    ensures s2 in AttackTargets(board, moves, s1) <==>
            PackPieceSquare(board[s1], s1) in Attackers(board, moves, s2)
    ensures s2 in AttackTargets(board, moves, s1) ==> board[s2] != PIECE_NONE
  {
    var x := PackPieceSquare(board[s1], s1);
    AttackTargetsMembership(board, moves, s1, s2);
    AttackersMembership(board, moves, s2, x);
    if x in Attackers(board, moves, s2) {
      var i :| 0 <= i < |moves| && MoveTo(moves[i]) == s2 && IsAttacking(board, moves[i])
               && x == PackPieceSquare(board[MoveFrom(moves[i])], MoveFrom(moves[i]));
      PackPieceSquareInjective(board[s1], s1, board[MoveFrom(moves[i])], MoveFrom(moves[i]));
    }
  }

  /** The pieces list holds exactly the occupied squares below `n`, each with its piece. */
  lemma {:induction false} OccupiedSquaresMembership(board: seq<int>, n: nat, p: int, sq: int)
    requires ValidBoard(board) && n <= 64 && IsPiece(p) && 0 <= sq < 64
    ensures PackPieceSquare(p, sq) in OccupiedSquares(board, n) <==> sq < n && board[sq] == p
  {
    if n > 0 {
      OccupiedSquaresMembership(board, n - 1, p, sq);
      if board[n - 1] != PIECE_NONE {
        PackPieceSquareInjective(p, sq, board[n - 1], n - 1);
      }
    }
  }

  /** The pieces list is in strictly increasing square order, A1 first. */
  lemma {:induction false} OccupiedSquaresOrdered(board: seq<int>, n: nat)
    requires ValidBoard(board) && n <= 64
    ensures forall i, j | 0 <= i < j < |OccupiedSquares(board, n)| ::
      UnpackSquare(OccupiedSquares(board, n)[i]) < UnpackSquare(OccupiedSquares(board, n)[j])
  {
    if n > 0 {
      OccupiedSquaresOrdered(board, n - 1);
      var prev := OccupiedSquares(board, n - 1);
      var r := OccupiedSquares(board, n);
      if board[n - 1] != PIECE_NONE {
        PieceSquareFields(board[n - 1], n - 1);
        assert r == prev + [PackPieceSquare(board[n - 1], n - 1)];
        forall i, j | 0 <= i < j < |r| ensures UnpackSquare(r[i]) < UnpackSquare(r[j]) {
          if j < |prev| {
            assert r[i] == prev[i] && r[j] == prev[j];
          } else {
            assert r[i] == prev[i];
          }
        }
      }
    }
  }

  // ---------------------------------------------------------------- queries

  /** A move is legal exactly when the generated moves contain it; the whole list is scanned. */
  method IsMoveLegal(pos: Position, move: Word16) returns (isLegal: bool)
    ensures isLegal <==> move in pos.moves
  {
    isLegal := false;
    var idx := 0;
    while idx < |pos.moves|
      invariant 0 <= idx <= |pos.moves|
      invariant isLegal <==> move in pos.moves[..idx]
    {
      var testMove := pos.moves[idx];
      if testMove == move {
        isLegal := true;
      }
      assert pos.moves[..idx + 1] == pos.moves[..idx] + [testMove];
      idx := idx + 1;
    }
    assert pos.moves[..idx] == pos.moves;
  }

  /** The squares the piece on `subject` can capture on, or None when `subject` is empty. */
  method AttacksFrom(pos: Position, subject: int) returns (r: Option<seq<int>>)
    requires ValidPosition(pos) && 0 <= subject < 64
    ensures r.None? <==> pos.board[subject] == PIECE_NONE
    ensures r.Some? ==> r.value == AttackTargets(pos.board, pos.moves, subject)
  {
    if pos.board[subject] == PIECE_NONE {
      return None;
    }
    var d := new int[MAX_MOVES];
    var elements := 0;
    for idx := 0 to |pos.moves|
      invariant elements <= idx
      invariant d[..elements] == AttackTargets(pos.board, pos.moves[..idx], subject)
    {
      var move := pos.moves[idx];
      assert pos.moves[..idx + 1][..idx] == pos.moves[..idx];
      if MoveFrom(move) == subject && IsAttacking(pos.board, move) {
        d[elements] := MoveTo(move);
        elements := elements + 1;
      }
    }
    assert pos.moves[..|pos.moves|] == pos.moves;
    return Some(d[..elements]);
  }

  /** The piece-squares that can capture on `target`, or None when `target` is empty. */
  method AttackedBy(pos: Position, target: int) returns (r: Option<seq<Word16>>)
    requires ValidPosition(pos) && 0 <= target < 64
    ensures r.None? <==> pos.board[target] == PIECE_NONE
    ensures r.Some? ==> r.value == Attackers(pos.board, pos.moves, target)
  {
    if pos.board[target] == PIECE_NONE {
      return None;
    }
    var d := new Word16[MAX_MOVES];
    var elements := 0;
    for idx := 0 to |pos.moves|
      invariant elements <= idx
      invariant d[..elements] == Attackers(pos.board, pos.moves[..idx], target)
    {
      var move := pos.moves[idx];
      var from := MoveFrom(move);
      assert pos.moves[..idx + 1][..idx] == pos.moves[..idx];
      if MoveTo(move) == target && IsAttacking(pos.board, move) {
        d[elements] := PackPieceSquare(pos.board[from], from);
        elements := elements + 1;
      }
    }
    assert pos.moves[..|pos.moves|] == pos.moves;
    return Some(d[..elements]);
  }

  /** The piece-square of every occupied square, scanning A1 to H8. */
  method PositionPieces(pos: Position) returns (r: seq<Word16>)
    requires ValidBoard(pos.board) && |OccupiedSquares(pos.board, 64)| <= MAX_PIECES
    ensures r == OccupiedSquares(pos.board, 64)
  {
    var d := new Word16[MAX_PIECES];
    var idx := 0;
    for sq := 0 to 64
      invariant idx == |OccupiedSquares(pos.board, sq)| <= MAX_PIECES
      invariant d[..idx] == OccupiedSquares(pos.board, sq)
    {
      var piece := pos.board[sq];
      OccupiedSquaresGrow(pos.board, sq + 1, 64);
      if piece != PIECE_NONE {
        d[idx] := PackPieceSquare(piece, sq);
        idx := idx + 1;
      }
    }
    return d[..idx];
  }

  /** The pieces list only grows as more squares are scanned. */
  lemma {:induction false} OccupiedSquaresGrow(board: seq<int>, m: nat, n: nat)
    requires ValidBoard(board) && m <= n <= 64
    ensures |OccupiedSquares(board, m)| <= |OccupiedSquares(board, n)|
    decreases n - m
  {
    if m < n {
      OccupiedSquaresGrow(board, m + 1, n);
    }
  }

  /** SAN text of a legal move, rendered by the engine; None for an illegal one. */
  method MoveSan(pos: Position, move: Word16, renderSan: (Position, Word16) -> string)
    returns (r: Option<string>)
    ensures r.None? <==> move !in pos.moves
    ensures r.Some? ==> r.value == renderSan(pos, move)
  {
    var legal := IsMoveLegal(pos, move);
    if legal {
      r := Some(renderSan(pos, move));
    } else {
      r := None;
    }
  }

  /** The position text after a legal move, made and saved by the engine; None for an illegal one. */
  method MakeMove(pos: Position, move: Word16, playAndSave: (Position, Word16) -> string)
    returns (r: Option<string>)
    ensures r.None? <==> move !in pos.moves
    ensures r.Some? ==> r.value == playAndSave(pos, move)
  {
    var legal := IsMoveLegal(pos, move);
    if legal {
      r := Some(playAndSave(pos, move));
    } else {
      r := None;
    }
  }

  /** The pieces query and the single-square query agree on every square. */
  lemma {:induction false} PiecesAgreeWithPiece(pos: Position, p: int, sq: int)
    requires ValidBoard(pos.board) && IsPiece(p) && 0 <= sq < 64
    ensures PackPieceSquare(p, sq) in OccupiedSquares(pos.board, 64) <==> PositionPiece(pos, sq) == Some(p)
  {
    OccupiedSquaresMembership(pos.board, 64, p, sq);
  }
}
