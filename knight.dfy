/**
 * Knight move generation (Knight.java): a table of knight destinations
 * per square, built once, and the moves a knight generates from it on a
 * given board.
 */
module Knights {
  import opened Wrappers
  import opened BoardUtils
  import opened Pieces

  /** The eight knight offsets, in the order the table is filled. */
  function CandidateMoveCoordinates(): seq<int> { [-17, -15, -10, -6, 6, 10, 15, 17] }

  /* The four edge rules: an offset from one of the two outer columns on a
     side that would leave the board sideways and re-enter on the far side. */

  predicate IsFirstColumnExclusion(currentPosition: int, candidateOffset: int) {
    FirstColumn(currentPosition) &&
    (candidateOffset == -17 || candidateOffset == -10 || candidateOffset == 6 || candidateOffset == 15)
  }

  predicate IsSecondColumnExclusion(currentPosition: int, candidateOffset: int) {
    SecondColumn(currentPosition) && (candidateOffset == -10 || candidateOffset == 6)
  }

  predicate IsSeventhColumnExclusion(currentPosition: int, candidateOffset: int) {
    SeventhColumn(currentPosition) && (candidateOffset == -6 || candidateOffset == 10)
  }

  predicate IsEighthColumnExclusion(currentPosition: int, candidateOffset: int) {
    EighthColumn(currentPosition) &&
    (candidateOffset == -15 || candidateOffset == -6 || candidateOffset == 10 || candidateOffset == 17)
  }

  predicate IsExcluded(position: int, offset: int) {
    IsFirstColumnExclusion(position, offset) || IsSecondColumnExclusion(position, offset) ||
    IsSeventhColumnExclusion(position, offset) || IsEighthColumnExclusion(position, offset)
  }

  /** Whether the table for `position` gets an entry for `offset`. */
  predicate Keeps(position: int, offset: int) {
    !IsExcluded(position, offset) && IsValidTileCoordinate(position + offset)
  }

  /** The destinations kept for `position` from a sequence of offsets, in their order. */
  function Destinations(position: int, offsets: seq<int>): (r: seq<int>)
    ensures |r| <= |offsets|
  {
    if offsets == [] then []
    else
      var last := offsets[|offsets| - 1];
      Destinations(position, offsets[..|offsets| - 1]) +
      (if Keeps(position, last) then [position + last] else [])
  }

  /** The knight table's entry for one square. */
  function KnightDestinations(position: int): (r: seq<int>)
    ensures |r| <= 8
    ensures forall i :: 0 <= i < |r| ==> IsValidTileCoordinate(r[i])
  {
    var r := Destinations(position, CandidateMoveCoordinates());
    DestinationsMembers(position, CandidateMoveCoordinates());
    assert forall i :: 0 <= i < |r| ==> r[i] in r;
    r
  }

  /** The whole precomputed table (PRECOMPUTED_CANDIDATES). */
  function PrecomputedCandidates(): map<int, seq<int>> {
    map p | 0 <= p < NumTiles :: KnightDestinations(p)
  }

  /** A geometric knight jump: two rows and one column apart, or one row and two columns. */
  predicate IsKnightJump(from: int, to: int) {
    var dr, dc := Abs(Row(to) - Row(from)), Abs(Col(to) - Col(from));
    (dr == 2 && dc == 1) || (dr == 1 && dc == 2)
  }

  /** A destination is kept from a list of offsets exactly when some offset in the list gives it. */
  lemma {:induction false} DestinationsMembers(position: int, offsets: seq<int>)
    ensures |Destinations(position, offsets)| <= |offsets|
    ensures forall d :: d in Destinations(position, offsets) <==>
              d - position in offsets && Keeps(position, d - position)
  {
    if offsets != [] {
      var init := offsets[..|offsets| - 1];
      DestinationsMembers(position, init);
      assert offsets == init + [offsets[|offsets| - 1]];
    }
  }

  /** Offsets in increasing order give destinations in increasing order. */
  lemma {:induction false} DestinationsIncreasing(position: int, offsets: seq<int>)
    requires forall i, j :: 0 <= i < j < |offsets| ==> offsets[i] < offsets[j]
    ensures forall i, j :: 0 <= i < j < |Destinations(position, offsets)| ==>
              Destinations(position, offsets)[i] < Destinations(position, offsets)[j]
  {
    if offsets != [] {
      var init := offsets[..|offsets| - 1];
      var last := offsets[|offsets| - 1];
      DestinationsIncreasing(position, init);
      DestinationsMembers(position, init);
      var ds := Destinations(position, init);
      forall i | 0 <= i < |ds| ensures ds[i] < position + last {
        assert ds[i] in ds;
        assert ds[i] - position in init;
      }
    }
  }

  /** The table offsets of an in-range square are exactly the jumps that stay on the board. */
  lemma KeepsIsKnightJump(p: int, o: int)
    requires IsValidTileCoordinate(p)
    requires o in CandidateMoveCoordinates()
    ensures Keeps(p, o) <==> IsValidTileCoordinate(p + o) && IsKnightJump(p, p + o)
  {
    var r, c := Row(p), Col(p);
    RowCol(p);
    if IsValidTileCoordinate(p + o) {
      var d := p + o;
      RowCol(d);
      if o == -17 {
        if c >= 1 { OfRowCol(r - 2, c - 1); } else { OfRowCol(r - 3, c + 7); }
      } else if o == -15 {
        if c <= 6 { OfRowCol(r - 2, c + 1); } else { OfRowCol(r - 1, c - 7); }
      } else if o == -10 {
        if c >= 2 { OfRowCol(r - 1, c - 2); } else { OfRowCol(r - 2, c + 6); }
      } else if o == -6 {
        if c <= 5 { OfRowCol(r - 1, c + 2); } else { OfRowCol(r, c - 6); }
      } else if o == 6 {
        if c >= 2 { OfRowCol(r + 1, c - 2); } else { OfRowCol(r, c + 6); }
      } else if o == 10 {
        if c <= 5 { OfRowCol(r + 1, c + 2); } else { OfRowCol(r + 2, c - 6); }
      } else if o == 15 {
        if c >= 1 { OfRowCol(r + 2, c - 1); } else { OfRowCol(r + 1, c + 7); }
      } else {
        if c <= 6 { OfRowCol(r + 2, c + 1); } else { OfRowCol(r + 3, c - 7); }
      }
    }
  }

  /** Every on-board knight jump from p is p plus one of the eight offsets. */
  lemma JumpIsCandidateOffset(p: int, d: int)
    requires IsValidTileCoordinate(p) && IsValidTileCoordinate(d)
    requires IsKnightJump(p, d)
    ensures d - p in CandidateMoveCoordinates()
  {
    RowCol(p);
    RowCol(d);
    assert d - p == 8 * (Row(d) - Row(p)) + (Col(d) - Col(p));
  }

  /** Every destination of an on-board square is an on-board knight jump away. */
  lemma KnightDestinationsSound(p: int, d: int)
    requires IsValidTileCoordinate(p)
    requires d in KnightDestinations(p)
    ensures IsValidTileCoordinate(d) && IsKnightJump(p, d)
  {
    DestinationsMembers(p, CandidateMoveCoordinates());
    KeepsIsKnightJump(p, d - p);
  }

  /** Every on-board knight jump from an on-board square is in its table entry. */
  lemma KnightDestinationsComplete(p: int, d: int)
    requires IsValidTileCoordinate(p) && IsValidTileCoordinate(d) && IsKnightJump(p, d)
    ensures d in KnightDestinations(p)
  {
    DestinationsMembers(p, CandidateMoveCoordinates());
    JumpIsCandidateOffset(p, d);
    KeepsIsKnightJump(p, d - p);
  }

  /** The destinations of an on-board square are exactly the on-board squares a knight jump reaches. */
  lemma KnightDestinationsExact(p: int)
    requires IsValidTileCoordinate(p)
    ensures forall d :: d in KnightDestinations(p) <==> IsValidTileCoordinate(d) && IsKnightJump(p, d)
  {
    forall d ensures d in KnightDestinations(p) <==> IsValidTileCoordinate(d) && IsKnightJump(p, d) {
      if d in KnightDestinations(p) {
        KnightDestinationsSound(p, d);
      }
      if IsValidTileCoordinate(d) && IsKnightJump(p, d) {
        KnightDestinationsComplete(p, d);
      }
    }
  }

  /**
   * The table entry of every square holds at most eight destinations, all
   * on the board, increasing (the order of the offset list), and they are
   * exactly the squares a knight jump reaches without wrapping round an edge.
   */
  lemma KnightDestinationsSpec(p: int)
    requires IsValidTileCoordinate(p)
    ensures |KnightDestinations(p)| <= 8
    ensures forall i, j :: 0 <= i < j < |KnightDestinations(p)| ==>
              KnightDestinations(p)[i] < KnightDestinations(p)[j]
    ensures forall d :: d in KnightDestinations(p) <==> IsValidTileCoordinate(d) && IsKnightJump(p, d)
  {
    DestinationsMembers(p, CandidateMoveCoordinates());
    DestinationsIncreasing(p, CandidateMoveCoordinates());
    KnightDestinationsExact(p);
  }

  /** The corner square 0 reaches only 10 and 17. */
  lemma CornerDestinations()
    ensures KnightDestinations(0) == [10, 17]
  {
    var offs := CandidateMoveCoordinates();
    assert offs[..2][..1] == offs[..1];
    assert offs[..3][..2] == offs[..2];
    assert offs[..4][..3] == offs[..3];
    assert offs[..5][..4] == offs[..4];
    assert offs[..6][..5] == offs[..5];
    assert offs[..7][..6] == offs[..6];
    assert offs[..8][..7] == offs[..7];
    assert offs[..1][..0] == [];
    assert Destinations(0, offs[..1]) == [];
    assert Destinations(0, offs[..2]) == [];
    assert Destinations(0, offs[..3]) == [];
    assert Destinations(0, offs[..4]) == [];
    assert Destinations(0, offs[..5]) == [];
    assert Destinations(0, offs[..6]) == [10];
    assert Destinations(0, offs[..7]) == [10];
    assert offs[..8] == offs;
  }

  /** Square 57, on the second column, loses the two jumps that would wrap to the eighth. */
  lemma SecondColumnDestinations()
    ensures KnightDestinations(57) == [40, 42, 51]
  {
    var offs := CandidateMoveCoordinates();
    assert offs[..2][..1] == offs[..1];
    assert offs[..3][..2] == offs[..2];
    assert offs[..4][..3] == offs[..3];
    assert offs[..5][..4] == offs[..4];
    assert offs[..6][..5] == offs[..5];
    assert offs[..7][..6] == offs[..6];
    assert offs[..8][..7] == offs[..7];
    assert offs[..1][..0] == [];
    assert Destinations(57, offs[..1]) == [40];
    assert Destinations(57, offs[..2]) == [40, 42];
    assert Destinations(57, offs[..3]) == [40, 42];
    assert Destinations(57, offs[..4]) == [40, 42, 51];
    assert Destinations(57, offs[..5]) == [40, 42, 51];
    assert Destinations(57, offs[..6]) == [40, 42, 51];
    assert Destinations(57, offs[..7]) == [40, 42, 51];
    assert offs[..8] == offs;
  }

  /** Adding offset i to the destinations kept so far. */
  lemma DestinationsStep(position: int, i: nat)
    requires i < |CandidateMoveCoordinates()|
    ensures var o := CandidateMoveCoordinates()[i];
            Destinations(position, CandidateMoveCoordinates()[..i + 1]) ==
            Destinations(position, CandidateMoveCoordinates()[..i]) + (if Keeps(position, o) then [position + o] else [])
  {
    assert CandidateMoveCoordinates()[..i + 1][..i] == CandidateMoveCoordinates()[..i];
  }

  /** The table after squares 0..n-1 have been visited. */
  function KnightTableUpTo(n: nat): map<int, seq<int>> {
    if n == 0 then map[] else KnightTableUpTo(n - 1)[n - 1 := KnightDestinations(n - 1)]
  }

  /** Once every square has been visited, the table built is the precomputed one. */
  lemma {:induction false} KnightTableUpToSpec(n: nat)
    ensures forall p :: p in KnightTableUpTo(n) <==> 0 <= p < n
    ensures forall p :: p in KnightTableUpTo(n) ==> KnightTableUpTo(n)[p] == KnightDestinations(p)
  {
    if n > 0 {
      KnightTableUpToSpec(n - 1);
    }
  }

  lemma KnightTableComplete()
    ensures KnightTableUpTo(NumTiles) == PrecomputedCandidates()
  {
    KnightTableUpToSpec(NumTiles);
    assert KnightTableUpTo(NumTiles).Keys == PrecomputedCandidates().Keys;
  }

  /**
   * The per-square body of computeCandidates: collect the kept
   * destinations in a buffer of eight through a counter, and return the
   * filled prefix.
   */
  method LegalDestinations(position: int) returns (destinations: seq<int>)
    ensures destinations == KnightDestinations(position)
  {
    var offsets := CandidateMoveCoordinates();
    var legalOffsets := new int[|offsets|];
    var numLegalMoves := 0;
    var i := 0;
    while i < |offsets|
      invariant 0 <= i <= |offsets|
      invariant 0 <= numLegalMoves <= i
      invariant legalOffsets[..numLegalMoves] == Destinations(position, offsets[..i])
    {
      var offset := offsets[i];
      DestinationsStep(position, i);
      if IsFirstColumnExclusion(position, offset) || IsSecondColumnExclusion(position, offset) ||
         IsSeventhColumnExclusion(position, offset) || IsEighthColumnExclusion(position, offset) {
        assert !Keeps(position, offset);
        i := i + 1;
        continue;
      }
      var destination := position + offset;
      if IsValidTileCoordinate(destination) {
        assert Keeps(position, offset);
        ghost var kept := legalOffsets[..numLegalMoves];
        legalOffsets[numLegalMoves] := destination;
        assert legalOffsets[..numLegalMoves + 1] == kept + [destination];
        numLegalMoves := numLegalMoves + 1;
      } else {
        assert !Keeps(position, offset);
      }
      i := i + 1;
    }
    assert offsets[..i] == offsets;
    destinations := legalOffsets[..numLegalMoves];
  }

  /** computeCandidates: the table entry of every square, put into a map in a loop. */
  method ComputeCandidates() returns (candidates: map<int, seq<int>>)
    ensures candidates == PrecomputedCandidates()
  {
    candidates := map[];
    var position := 0;
    while position < NumTiles
      invariant 0 <= position <= NumTiles
      invariant candidates == KnightTableUpTo(position)
    {
      var legalOffsets := LegalDestinations(position);
      candidates := candidates[position := legalOffsets];
      position := position + 1;
    }
    KnightTableComplete();
  }


  /** The moves a knight generates on a board (calculateLegalMoves). */
  function KnightMoves(knight: Piece, board: Board): seq<Move>
    requires IsValidTileCoordinate(knight.position)
  {
    KnightDestinationsSpec(knight.position);
    MovesTo(knight, board, PrecomputedCandidates()[knight.position])
  }

  /**
   * calculateLegalMoves: walk the knight's table entry and add a quiet
   * move for an empty destination and a capture for an enemy one.
   */
  method CalculateLegalMoves(knight: Piece, board: Board) returns (legalMoves: seq<Move>)
    requires IsValidTileCoordinate(knight.position)
    ensures legalMoves == KnightMoves(knight, board)
  {
    var candidates := PrecomputedCandidates()[knight.position];
    KnightDestinationsSpec(knight.position);
    legalMoves := [];
    var i := 0;
    while i < |candidates|
      invariant 0 <= i <= |candidates|
      invariant legalMoves == MovesTo(knight, board, candidates[..i])
    {
      var candidateDestinationCoordinate := candidates[i];
      assert candidates[..i + 1][..i] == candidates[..i];
      var pieceAtDestination := GetPiece(board, candidateDestinationCoordinate);
      if pieceAtDestination.None? {
        legalMoves := legalMoves + [MajorMove(board, knight, candidateDestinationCoordinate)];
      } else {
        var pieceAtDestinationAllegiance := pieceAtDestination.value.alliance;
        if knight.alliance != pieceAtDestinationAllegiance {
          legalMoves := legalMoves + [MajorAttackMove(board, knight, candidateDestinationCoordinate,
                                                      pieceAtDestination.value)];
        }
      }
      i := i + 1;
    }
    assert candidates[..i] == candidates;
  }

  /**
   * Every move a knight generates is a jump of that knight to a table
   * destination: a quiet move onto an empty square or a capture of the
   * enemy piece standing there; a destination holding a piece of its own
   * alliance gives no move; and there are at most as many moves as table
   * entries.
   */
  lemma KnightMovesSpec(knight: Piece, board: Board)
    requires IsValidTileCoordinate(knight.position)
    ensures |KnightMoves(knight, board)| <= |KnightDestinations(knight.position)|
    ensures forall m :: m in KnightMoves(knight, board) ==>
              IsValidTileCoordinate(m.destination) && IsKnightJump(knight.position, m.destination) &&
              m.movedPiece == knight && m.board == board &&
              (GetPiece(board, m.destination).None? ||
               GetPiece(board, m.destination).value.alliance != knight.alliance)
    ensures forall m :: m in KnightMoves(knight, board) <==>
              IsValidTileCoordinate(m.destination) && m.destination in KnightDestinations(knight.position) &&
              MoveTo(knight, board, m.destination) == Some(m)
    ensures forall d :: IsValidTileCoordinate(d) && d in KnightDestinations(knight.position) &&
                        GetPiece(board, d).None? ==>
              MajorMove(board, knight, d) in KnightMoves(knight, board)
    ensures forall d :: IsValidTileCoordinate(d) && d in KnightDestinations(knight.position) &&
                        GetPiece(board, d).Some? && GetPiece(board, d).value.alliance != knight.alliance ==>
              MajorAttackMove(board, knight, d, GetPiece(board, d).value) in KnightMoves(knight, board)
  {
    var dests := KnightDestinations(knight.position);
    KnightDestinationsSpec(knight.position);
    MovesToSpec(knight, board, dests);
    forall d | IsValidTileCoordinate(d) && d in dests && GetPiece(board, d).None?
      ensures MajorMove(board, knight, d) in KnightMoves(knight, board)
    {
      assert MoveTo(knight, board, d) == Some(MajorMove(board, knight, d));
    }
    forall d | IsValidTileCoordinate(d) && d in dests && GetPiece(board, d).Some? &&
               GetPiece(board, d).value.alliance != knight.alliance
      ensures MajorAttackMove(board, knight, d, GetPiece(board, d).value) in KnightMoves(knight, board)
    {
      assert MoveTo(knight, board, d) == Some(MajorAttackMove(board, knight, d, GetPiece(board, d).value));
    }
  }

  /** movePiece: the knight after a move, of the mover's alliance, on the destination, no longer on its first move. */
  function MovePiece(move: Move): Piece {
    Piece(Knight, move.movedPiece.alliance, move.destination, false)
  }

  /** A knight that makes one of its generated moves lands a knight jump away, with its alliance kept. */
  lemma MovedKnightJumps(knight: Piece, board: Board, m: Move)
    requires IsValidTileCoordinate(knight.position)
    requires m in KnightMoves(knight, board)
    ensures MovePiece(m).pieceType == Knight && !MovePiece(m).isFirstMove
    ensures MovePiece(m).position == m.destination
    ensures MovePiece(m).alliance == knight.alliance
    ensures IsValidTileCoordinate(MovePiece(m).position)
    ensures IsKnightJump(knight.position, MovePiece(m).position)
  {
    KnightMovesSpec(knight, board);
  }
}
