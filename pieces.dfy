/**
 * The collaborators of the move generators that this model keeps only as
 * small value stubs: the two alliances, a piece, the board a piece moves
 * on and the two kinds of move that knights and rooks generate.
 */
module Pieces {
  import opened Wrappers
  import opened BoardUtils

  datatype Alliance = White | Black {
    predicate IsBlack() { this == Black }
  }

  datatype PieceType = Pawn | Knight | Bishop | Rook | Queen | King {
    /** The one-letter name a piece prints as (upper case). */
    function Name(): string {
      match this
      case Pawn => "P"
      case Knight => "N"
      case Bishop => "B"
      case Rook => "R"
      case Queen => "Q"
      case King => "K"
    }
  }

  /** A piece is a value: its type, its alliance, its square and whether it has moved. */
  datatype Piece = Piece(pieceType: PieceType, alliance: Alliance, position: int, isFirstMove: bool) {
    function ToString(): string { pieceType.Name() }
  }

  /** A board is what a move generator can ask of it: the piece on each of its 64 squares, if any. */
  type Board = b: seq<Option<Piece>> | |b| == NumTiles
    witness seq(64, _ => None)

  const EmptyBoard: Board := seq(64, _ => None)

  function GetPiece(board: Board, c: int): Option<Piece>
    requires IsValidTileCoordinate(c)
  {
    board[c]
  }

  /**
   * A quiet move (MajorMove) or a capture (MajorAttackMove); both carry
   * the board they were generated on, the piece that moves and the
   * destination, and a capture also the piece it takes.
   */
  datatype Move =
    | MajorMove(board: Board, movedPiece: Piece, destination: int)
    | MajorAttackMove(board: Board, movedPiece: Piece, destination: int, attackedPiece: Piece)

  /**
   * What a knight or a rook generates for one destination it reaches:
   * a quiet move onto an empty square, a capture of an enemy piece, and
   * nothing when the square holds a piece of its own alliance.
   */
  function MoveTo(piece: Piece, board: Board, d: int): (r: Option<Move>)
    requires IsValidTileCoordinate(d)
    ensures r.Some? ==> r.value.board == board && r.value.movedPiece == piece && r.value.destination == d
    ensures GetPiece(board, d).None? <==> r.Some? && r.value.MajorMove?
    ensures (GetPiece(board, d).Some? && GetPiece(board, d).value.alliance != piece.alliance)
            <==> r.Some? && r.value.MajorAttackMove?
    ensures r.Some? && r.value.MajorAttackMove? ==> r.value.attackedPiece == GetPiece(board, d).value
    ensures r.None? <==> GetPiece(board, d).Some? && GetPiece(board, d).value.alliance == piece.alliance
  {
    match GetPiece(board, d)
    case None => Some(MajorMove(board, piece, d))
    case Some(p) =>
      if piece.alliance != p.alliance then Some(MajorAttackMove(board, piece, d, p)) else None
  }

  /** The moves a piece generates for a sequence of destinations, in their order. */
  function MovesTo(piece: Piece, board: Board, dests: seq<int>): (r: seq<Move>)
    requires forall i :: 0 <= i < |dests| ==> IsValidTileCoordinate(dests[i])
  {
    if dests == [] then []
    else
      var last := dests[|dests| - 1];
      MovesTo(piece, board, dests[..|dests| - 1]) +
      match MoveTo(piece, board, last) case Some(m) => [m] case None => []
  }

  /**
   * A move is generated for a sequence of destinations exactly when it is
   * what its own destination, one of them, yields; so there are no more
   * moves than destinations.
   */
  lemma {:induction false} MovesToSpec(piece: Piece, board: Board, dests: seq<int>)
    requires forall i :: 0 <= i < |dests| ==> IsValidTileCoordinate(dests[i])
    ensures |MovesTo(piece, board, dests)| <= |dests|
    ensures forall m :: m in MovesTo(piece, board, dests) <==>
              m.destination in dests && MoveTo(piece, board, m.destination) == Some(m)
  {
    if dests != [] {
      var init := dests[..|dests| - 1];
      MovesToSpec(piece, board, init);
      assert dests == init + [dests[|dests| - 1]];
    }
  }
}
