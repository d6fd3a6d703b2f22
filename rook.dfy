/**
 * Rook move generation (Rook.java): per-square rays ("lines") along the
 * four rook directions, built once, and the moves a rook generates by
 * walking each line up to the first occupied square.
 */
module Rooks {
  import opened Wrappers
  import opened BoardUtils
  import opened Pieces

  /** The four rook directions, in the order their lines are stored. */
  function CandidateMoveCoordinates(): seq<int> { [-8, -1, 1, 8] }

  /** The horizontal edge rule: no step left from the first column, no step right from the eighth. */
  predicate IsColumnExclusion(position: int, offset: int) {
    (FirstColumn(position) && offset == -1) || (EighthColumn(position) && offset == 1)
  }

  /** All coordinates in a line are on the board. */
  predicate OnBoard(line: seq<int>) {
    forall i :: 0 <= i < |line| ==> IsValidTileCoordinate(line[i])
  }

  /**
   * The squares a line from `d` in direction `offset` visits after `d`,
   * nearest first, as the construction loop steps; it stops at the board
   * edge or where the next step would wrap sideways.
   */
  function Ray(d: int, offset: int): (r: seq<int>)
    requires offset in CandidateMoveCoordinates()
    ensures OnBoard(r)
    decreases if offset > 0 then NumTiles - d else d + 1
  {
    if !IsValidTileCoordinate(d) || IsColumnExclusion(d, offset) then []
    else if IsValidTileCoordinate(d + offset) then [d + offset] + Ray(d + offset, offset)
    else []
  }

  /** The non-empty rays from `position` for a sequence of directions, in their order. */
  function Lines(position: int, offsets: seq<int>): (r: seq<seq<int>>)
    requires forall i :: 0 <= i < |offsets| ==> offsets[i] in CandidateMoveCoordinates()
    ensures forall i :: 0 <= i < |r| ==> r[i] != [] && OnBoard(r[i])
  {
    if offsets == [] then []
    else
      var last := offsets[|offsets| - 1];
      var line := Ray(position, last);
      Lines(position, offsets[..|offsets| - 1]) + (if line != [] then [line] else [])
  }

  /** The lines stored for one square. */
  function RookLines(position: int): seq<seq<int>> {
    Lines(position, CandidateMoveCoordinates())
  }

  /**
   * The table after squares 0..n-1 have been visited, each square getting
   * the lines `linesOf` gives it: only squares with some line get an entry.
   */
  function RookTableUpTo(n: nat, linesOf: int -> seq<seq<int>>): map<int, seq<seq<int>>> {
    if n == 0 then map[]
    else
      var m := RookTableUpTo(n - 1, linesOf);
      if linesOf(n - 1) != [] then m[n - 1 := linesOf(n - 1)] else m
  }

  /** The whole precomputed table (PRECOMPUTED_CANDIDATES): only squares with some line get an entry. */
  function RookCandidateTable(): map<int, seq<seq<int>>> {
    map p | 0 <= p < NumTiles && RookLines(p) != [] :: RookLines(p)
  }

  /** The table built so far holds exactly the visited squares that have some line, each with its lines. */
  lemma {:induction false} RookTableUpToSpec(n: nat, linesOf: int -> seq<seq<int>>)
    ensures forall p :: p in RookTableUpTo(n, linesOf) <==> 0 <= p < n && linesOf(p) != []
    ensures forall p :: p in RookTableUpTo(n, linesOf) ==> RookTableUpTo(n, linesOf)[p] == linesOf(p)
  {
    if n > 0 {
      RookTableUpToSpec(n - 1, linesOf);
    }
  }

  /** Once every square has been visited, the table built is the precomputed one. */
  lemma RookTableComplete()
    ensures RookTableUpTo(NumTiles, RookLines) == RookCandidateTable()
  {
    RookTableUpToSpec(NumTiles, RookLines);
    assert RookTableUpTo(NumTiles, RookLines).Keys == RookCandidateTable().Keys;
  }

  /** Where a ray in direction `offset` from `from` may go: the same row or column, on that side. */
  predicate InDirection(from: int, to: int, offset: int) {
    if offset == -8 then Col(to) == Col(from) && Row(to) < Row(from)
    else if offset == 8 then Col(to) == Col(from) && Row(to) > Row(from)
    else if offset == -1 then Row(to) == Row(from) && Col(to) < Col(from)
    else Row(to) == Row(from) && Col(to) > Col(from)
  }

  /** How many squares lie beyond `d` in direction `offset`. */
  function Reach(d: int, offset: int): int {
    if offset == -8 then Row(d)
    else if offset == 8 then 7 - Row(d)
    else if offset == -1 then Col(d)
    else 7 - Col(d)
  }

  /** A ray holds as many squares as lie beyond its start in its direction. */
  lemma {:induction false} RayLength(d: int, offset: int)
    requires IsValidTileCoordinate(d) && offset in CandidateMoveCoordinates()
    ensures |Ray(d, offset)| == Reach(d, offset)
    decreases if offset > 0 then NumTiles - d else d + 1
  {
    RowCol(d);
    var r, c := Row(d), Col(d);
    if IsColumnExclusion(d, offset) {
    } else if IsValidTileCoordinate(d + offset) {
      RayLength(d + offset, offset);
      if offset == -8 { OfRowCol(r - 1, c); }
      else if offset == 8 { OfRowCol(r + 1, c); }
      else if offset == -1 { OfRowCol(r, c - 1); }
      else { OfRowCol(r, c + 1); }
    } else {
      if offset == -8 { assert r == 0; }
      else if offset == 8 { assert r == 7; }
    }
  }

  /** A ray is ordered by distance: its k-th entry is k+1 steps from the start, in the ray's direction. */
  lemma {:induction false} RayEntries(d: int, offset: int)
    requires IsValidTileCoordinate(d) && offset in CandidateMoveCoordinates()
    ensures forall k :: 0 <= k < |Ray(d, offset)| ==> Ray(d, offset)[k] == d + (k + 1) * offset
    decreases if offset > 0 then NumTiles - d else d + 1
  {
    if !IsColumnExclusion(d, offset) && IsValidTileCoordinate(d + offset) {
      var n := d + offset;
      RayEntries(n, offset);
      var ray := Ray(d, offset);
      forall k | 0 <= k < |ray| ensures ray[k] == d + (k + 1) * offset {
        if k > 0 {
          assert ray[k] == Ray(n, offset)[k - 1];
        }
      }
    }
  }

  /** Every entry of a ray lies in the ray's direction; a horizontal ray keeps its row. */
  lemma {:induction false} RayDirection(d: int, offset: int)
    requires IsValidTileCoordinate(d) && offset in CandidateMoveCoordinates()
    ensures forall k :: 0 <= k < |Ray(d, offset)| ==> InDirection(d, Ray(d, offset)[k], offset)
    decreases if offset > 0 then NumTiles - d else d + 1
  {
    RowCol(d);
    var r, c := Row(d), Col(d);
    if !IsColumnExclusion(d, offset) && IsValidTileCoordinate(d + offset) {
      var n := d + offset;
      RayDirection(n, offset);
      if offset == -8 { OfRowCol(r - 1, c); }
      else if offset == 8 { OfRowCol(r + 1, c); }
      else if offset == -1 { OfRowCol(r, c - 1); }
      else { OfRowCol(r, c + 1); }
      var ray := Ray(d, offset);
      forall k | 0 <= k < |ray| ensures InDirection(d, ray[k], offset) {
        if k > 0 {
          assert ray[k] == Ray(n, offset)[k - 1];
        }
      }
    }
  }

  /**
   * A ray is ordered by distance (its k-th entry is k+1 steps away), as
   * long as the number of squares beyond the start in its direction, and
   * a horizontal ray stays in its row.
   */
  lemma RaySpec(d: int, offset: int)
    requires IsValidTileCoordinate(d) && offset in CandidateMoveCoordinates()
    ensures |Ray(d, offset)| == Reach(d, offset)
    ensures forall k :: 0 <= k < |Ray(d, offset)| ==> Ray(d, offset)[k] == d + (k + 1) * offset
    ensures forall k :: 0 <= k < |Ray(d, offset)| ==> InDirection(d, Ray(d, offset)[k], offset)
  {
    RayLength(d, offset);
    RayEntries(d, offset);
    RayDirection(d, offset);
  }

  /** A square is on the ray exactly when it is on the board in the ray's direction. */
  lemma RayMembers(d: int, offset: int, x: int)
    requires IsValidTileCoordinate(d) && offset in CandidateMoveCoordinates()
    ensures x in Ray(d, offset) <==> IsValidTileCoordinate(x) && InDirection(d, x, offset)
  {
    var ray := Ray(d, offset);
    RaySpec(d, offset);
    if IsValidTileCoordinate(x) && InDirection(d, x, offset) {
      RowCol(d);
      RowCol(x);
      var k := if offset == -8 then Row(d) - Row(x) - 1
               else if offset == 8 then Row(x) - Row(d) - 1
               else if offset == -1 then Col(d) - Col(x) - 1
               else Col(x) - Col(d) - 1;
      assert 0 <= k < |ray|;
      assert ray[k] == x;
    }
  }

  /** All coordinates of a list of lines, line after line. */
  function Flatten(lines: seq<seq<int>>): seq<int> {
    if lines == [] then [] else Flatten(lines[..|lines| - 1]) + lines[|lines| - 1]
  }

  /** All coordinates of the rays from `p` in a list of directions, direction after direction. */
  function AllRays(p: int, offsets: seq<int>): seq<int>
    requires forall i :: 0 <= i < |offsets| ==> offsets[i] in CandidateMoveCoordinates()
  {
    if offsets == [] then [] else AllRays(p, offsets[..|offsets| - 1]) + Ray(p, offsets[|offsets| - 1])
  }

  /** Dropping the empty rays loses no coordinate. */
  lemma {:induction false} LinesFlatten(p: int, offsets: seq<int>)
    requires forall i :: 0 <= i < |offsets| ==> offsets[i] in CandidateMoveCoordinates()
    ensures Flatten(Lines(p, offsets)) == AllRays(p, offsets)
  {
    if offsets != [] {
      var init := offsets[..|offsets| - 1];
      var line := Ray(p, offsets[|offsets| - 1]);
      LinesFlatten(p, init);
      var ls := Lines(p, offsets);
      if line != [] {
        assert ls[..|ls| - 1] == Lines(p, init) && ls[|ls| - 1] == line;
        assert Flatten(ls) == Flatten(Lines(p, init)) + line;
      } else {
        assert ls == Lines(p, init);
        assert AllRays(p, offsets) == AllRays(p, init) + [];
      }
    }
  }

  /** A square lies on one of the four rays from `p` exactly when it shares p's row or column and is not p. */
  lemma FourRaysMembers(p: int, x: int)
    requires IsValidTileCoordinate(p)
    ensures x in Ray(p, -8) + Ray(p, -1) + Ray(p, 1) + Ray(p, 8) <==>
              IsValidTileCoordinate(x) && x != p && (Row(x) == Row(p) || Col(x) == Col(p))
  {
    RowCol(p);
    RayMembers(p, -8, x);
    RayMembers(p, -1, x);
    RayMembers(p, 1, x);
    RayMembers(p, 8, x);
    if IsValidTileCoordinate(x) && x != p && Row(x) == Row(p) {
      RowCol(x);
    }
  }

  /** The lines of a square, run together, are its four rays in table order. */
  lemma RookLinesFlatten(p: int)
    ensures Flatten(RookLines(p)) == Ray(p, -8) + Ray(p, -1) + Ray(p, 1) + Ray(p, 8)
  {
    var offs := CandidateMoveCoordinates();
    LinesFlatten(p, offs);
    assert offs[..3][..2] == offs[..2] && offs[..2][..1] == offs[..1] && offs[..1][..0] == [];
    assert offs[..4] == offs;
    assert AllRays(p, offs[..1]) == Ray(p, -8);
    assert AllRays(p, offs[..2]) == Ray(p, -8) + Ray(p, -1);
    assert AllRays(p, offs[..3]) == Ray(p, -8) + Ray(p, -1) + Ray(p, 1);
  }

  /**
   * Every square stores at least one line, every line is non-empty and on
   * the board, the lines hold 14 coordinates in all, and a square is on
   * one of them exactly when it shares a row or a column with the rook's
   * square and is not that square.
   */
  lemma RookLinesSpec(p: int)
    requires IsValidTileCoordinate(p)
    ensures RookLines(p) != []
    ensures forall i :: 0 <= i < |RookLines(p)| ==> RookLines(p)[i] != [] && OnBoard(RookLines(p)[i])
    ensures |Flatten(RookLines(p))| == 14
    ensures forall x :: x in Flatten(RookLines(p)) <==>
              IsValidTileCoordinate(x) && x != p && (Row(x) == Row(p) || Col(x) == Col(p))
  {
    RookLinesFlatten(p);
    RayLength(p, -8);
    RayLength(p, -1);
    RayLength(p, 1);
    RayLength(p, 8);
    RowCol(p);
    assert Flatten([]) == [];
    forall x ensures x in Flatten(RookLines(p)) <==>
                     IsValidTileCoordinate(x) && x != p && (Row(x) == Row(p) || Col(x) == Col(p))
    {
      FourRaysMembers(p, x);
    }
  }

  /** One step of the line construction: a ray that can step is that step followed by the ray from there. */
  lemma RayStep(d: int, offset: int)
    requires offset in CandidateMoveCoordinates()
    requires IsValidTileCoordinate(d) && !IsColumnExclusion(d, offset)
    ensures Ray(d, offset) == if IsValidTileCoordinate(d + offset) then [d + offset] + Ray(d + offset, offset) else []
    ensures !IsValidTileCoordinate(d + offset) ==> Ray(d + offset, offset) == []
  {
  }

  /** Adding direction k to the lines built so far. */
  lemma LinesStep(position: int, k: nat)
    requires k < |CandidateMoveCoordinates()|
    ensures var line := Ray(position, CandidateMoveCoordinates()[k]);
            Lines(position, CandidateMoveCoordinates()[..k + 1]) ==
            Lines(position, CandidateMoveCoordinates()[..k]) + (if line != [] then [line] else [])
  {
    assert CandidateMoveCoordinates()[..k + 1][..k] == CandidateMoveCoordinates()[..k];
  }

  /**
   * The stepping loop of computeCandidates for one square and direction:
   * step from the square until the board edge or a wrapping step, and
   * collect the squares passed.
   */
  method ComputeLine(position: int, offset: int) returns (line: seq<int>)
    requires offset in CandidateMoveCoordinates()
    ensures line == Ray(position, offset)
  {
    var destination := position;
    line := [];
    while IsValidTileCoordinate(destination)
      invariant Ray(position, offset) == line + Ray(destination, offset)
      decreases if offset > 0 then NumTiles - destination else destination + 1
    {
      if IsColumnExclusion(destination, offset) {
        assert Ray(destination, offset) == [];
        break;
      }
      ghost var before := line;
      RayStep(destination, offset);
      destination := destination + offset;
      if IsValidTileCoordinate(destination) {
        line := line + [destination];
        assert before + ([destination] + Ray(destination, offset)) == line + Ray(destination, offset);
      }
    }
    if !IsValidTileCoordinate(destination) {
      assert Ray(destination, offset) == [];
    }
  }

  /**
   * computeCandidates: for every square, the line of each direction;
   * keep the non-empty lines, and store the square only when it has some
   * line.
   */
  method ComputeCandidates() returns (candidates: map<int, seq<seq<int>>>)
    ensures candidates == RookCandidateTable()
  {
    var offsets := CandidateMoveCoordinates();
    candidates := map[];
    var position := 0;
    while position < NumTiles
      invariant 0 <= position <= NumTiles
      invariant candidates == RookTableUpTo(position, RookLines)
    {
      var lines: seq<seq<int>> := [];
      var k := 0;
      while k < |offsets|
        invariant 0 <= k <= |offsets|
        invariant lines == Lines(position, offsets[..k])
      {
        var offset := offsets[k];
        LinesStep(position, k);
        var line := ComputeLine(position, offset);
        if line != [] {
          lines := lines + [line];
        }
        k := k + 1;
      }
      assert offsets[..k] == offsets;
      if lines != [] {
        candidates := candidates[position := lines];
      }
      position := position + 1;
    }
    RookTableComplete();
  }

  /** Index of the first occupied square of a line, or its length when none is. */
  function FirstOccupied(board: Board, line: seq<int>): (k: nat)
    requires OnBoard(line)
    ensures k <= |line|
    ensures forall i :: 0 <= i < k ==> GetPiece(board, line[i]).None?
    ensures k < |line| ==> GetPiece(board, line[k]).Some?
  {
    if line == [] || GetPiece(board, line[0]).Some? then 0 else 1 + FirstOccupied(board, line[1..])
  }

  /** The moves a rook generates along one line: quiet moves while the squares are empty, then what the first occupied square yields. */
  function LineMoves(rook: Piece, board: Board, line: seq<int>): seq<Move>
    requires OnBoard(line)
  {
    if line == [] then []
    else if GetPiece(board, line[0]).None? then [MajorMove(board, rook, line[0])] + LineMoves(rook, board, line[1..])
    else match MoveTo(rook, board, line[0]) case Some(m) => [m] case None => []
  }

  /**
   * Along a line a rook moves quietly to every square before the first
   * occupied one, in order; if that square holds an enemy a capture of
   * it follows; if it holds a piece of the rook's own alliance the line
   * ends before it; nothing beyond it is generated.
   */
  lemma {:induction false} LineMovesSpec(rook: Piece, board: Board, line: seq<int>)
    requires OnBoard(line)
    ensures var k, ms := FirstOccupied(board, line), LineMoves(rook, board, line);
      && (forall i :: 0 <= i < k ==> i < |ms| && ms[i] == MajorMove(board, rook, line[i]))
      && (k < |line| && GetPiece(board, line[k]).value.alliance != rook.alliance ==>
            |ms| == k + 1 && ms[k] == MajorAttackMove(board, rook, line[k], GetPiece(board, line[k]).value))
      && (k < |line| && GetPiece(board, line[k]).value.alliance == rook.alliance ==> |ms| == k)
      && (k == |line| ==> |ms| == k)
  {
    if line != [] && GetPiece(board, line[0]).None? {
      LineMovesSpec(rook, board, line[1..]);
    }
  }

  /** The moves a rook generates along a list of lines, line after line. */
  function LinesMoves(rook: Piece, board: Board, lines: seq<seq<int>>): seq<Move>
    requires forall i :: 0 <= i < |lines| ==> OnBoard(lines[i])
  {
    if lines == [] then []
    else LinesMoves(rook, board, lines[..|lines| - 1]) + LineMoves(rook, board, lines[|lines| - 1])
  }

  /** Every square of the board has an entry in the rook table. */
  lemma InRookTable(p: int)
    requires IsValidTileCoordinate(p)
    ensures p in RookCandidateTable() && RookCandidateTable()[p] == RookLines(p)
  {
    RookLinesSpec(p);
  }

  /** The moves a rook generates on a board (calculateLegalMoves). */
  function RookMoves(rook: Piece, board: Board): seq<Move>
    requires IsValidTileCoordinate(rook.position)
  {
    InRookTable(rook.position);
    LinesMoves(rook, board, RookCandidateTable()[rook.position])
  }

  /**
   * calculateLegalMoves: walk every line of the rook's square, adding a
   * quiet move per empty square and, at the first occupied square, a
   * capture if it holds an enemy, then leave the line.
   */
  method CalculateLegalMoves(rook: Piece, board: Board) returns (legalMoves: seq<Move>)
    requires IsValidTileCoordinate(rook.position)
    ensures legalMoves == RookMoves(rook, board)
  {
    InRookTable(rook.position);
    var lines := RookCandidateTable()[rook.position];
    legalMoves := [];
    var i := 0;
    while i < |lines|
      invariant 0 <= i <= |lines|
      invariant legalMoves == LinesMoves(rook, board, lines[..i])
    {
      var line := lines[i];
      assert lines[..i + 1][..i] == lines[..i];
      ghost var target := legalMoves + LineMoves(rook, board, line);
      var j := 0;
      while j < |line|
        invariant 0 <= j <= |line|
        invariant legalMoves + LineMoves(rook, board, line[j..]) == target
      {
        var candidateDestinationCoordinate := line[j];
        var pieceAtDestination := GetPiece(board, candidateDestinationCoordinate);
        if pieceAtDestination.None? {
          assert line[j..][1..] == line[j + 1..];
          legalMoves := legalMoves + [MajorMove(board, rook, candidateDestinationCoordinate)];
        } else {
          var pieceAlliance := pieceAtDestination.value.alliance;
          if rook.alliance != pieceAlliance {
            legalMoves := legalMoves + [MajorAttackMove(board, rook, candidateDestinationCoordinate,
                                                        pieceAtDestination.value)];
          }
          break;
        }
        j := j + 1;
      }
      assert legalMoves == target;
      i := i + 1;
    }
    assert lines[..i] == lines;
  }

  /** On an empty board every line is walked to its end with quiet moves only. */
  lemma {:induction false} EmptyBoardLineMoves(rook: Piece, line: seq<int>)
    requires OnBoard(line)
    ensures |LineMoves(rook, EmptyBoard, line)| == |line|
    ensures forall i :: 0 <= i < |line| ==> LineMoves(rook, EmptyBoard, line)[i] == MajorMove(EmptyBoard, rook, line[i])
  {
    if line != [] {
      EmptyBoardLineMoves(rook, line[1..]);
    }
  }

  /** Over all lines, the empty-board moves are quiet moves to each coordinate of the lines, in order. */
  lemma {:induction false} EmptyBoardLinesMoves(rook: Piece, lines: seq<seq<int>>)
    requires forall i :: 0 <= i < |lines| ==> OnBoard(lines[i])
    ensures |LinesMoves(rook, EmptyBoard, lines)| == |Flatten(lines)|
    ensures forall i :: 0 <= i < |Flatten(lines)| ==>
              LinesMoves(rook, EmptyBoard, lines)[i] == MajorMove(EmptyBoard, rook, Flatten(lines)[i])
  {
    if lines != [] {
      var init := lines[..|lines| - 1];
      EmptyBoardLinesMoves(rook, init);
      EmptyBoardLineMoves(rook, lines[|lines| - 1]);
    }
  }

  /**
   * A rook alone on the board has exactly 14 moves, all quiet, and they go
   * to exactly the squares sharing its row or its column.
   */
  lemma EmptyBoardRookMoves(rook: Piece)
    requires IsValidTileCoordinate(rook.position)
    ensures |RookMoves(rook, EmptyBoard)| == 14
    ensures forall m :: m in RookMoves(rook, EmptyBoard) ==> m.MajorMove?
    ensures forall x :: MajorMove(EmptyBoard, rook, x) in RookMoves(rook, EmptyBoard) <==>
              IsValidTileCoordinate(x) && x != rook.position &&
              (Row(x) == Row(rook.position) || Col(x) == Col(rook.position))
  {
    var p := rook.position;
    RookLinesSpec(p);
    var lines := RookCandidateTable()[p];
    EmptyBoardLinesMoves(rook, lines);
    var ms := RookMoves(rook, EmptyBoard);
    var flat := Flatten(lines);
    forall x ensures MajorMove(EmptyBoard, rook, x) in ms <==> x in flat {
      if x in flat {
        var i :| 0 <= i < |flat| && flat[i] == x;
        assert ms[i] == MajorMove(EmptyBoard, rook, x);
      }
    }
  }

  /** movePiece: the rook after a move, of the mover's alliance, on the destination, no longer on its first move. */
  function MovePiece(move: Move): Piece {
    Piece(Rook, move.movedPiece.alliance, move.destination, false)
  }

  /** Every move along a line goes to a square of that line and is what that square yields. */
  lemma {:induction false} LineMovesSound(rook: Piece, board: Board, line: seq<int>)
    requires OnBoard(line)
    ensures forall m :: m in LineMoves(rook, board, line) ==>
              m.destination in line && MoveTo(rook, board, m.destination) == Some(m)
  {
    if line != [] && GetPiece(board, line[0]).None? {
      LineMovesSound(rook, board, line[1..]);
    }
  }

  lemma {:induction false} LinesMovesSound(rook: Piece, board: Board, lines: seq<seq<int>>)
    requires forall i :: 0 <= i < |lines| ==> OnBoard(lines[i])
    ensures forall m :: m in LinesMoves(rook, board, lines) ==>
              m.destination in Flatten(lines) && IsValidTileCoordinate(m.destination) &&
              MoveTo(rook, board, m.destination) == Some(m)
  {
    if lines != [] {
      LinesMovesSound(rook, board, lines[..|lines| - 1]);
      LineMovesSound(rook, board, lines[|lines| - 1]);
    }
  }

  /**
   * Every move a rook generates goes along its row or its column, and is
   * a quiet move onto an empty square or a capture of the enemy piece
   * standing there, never of a piece of its own alliance.
   */
  lemma RookMovesSpec(rook: Piece, board: Board)
    requires IsValidTileCoordinate(rook.position)
    ensures forall m :: m in RookMoves(rook, board) ==>
              m.movedPiece == rook && m.board == board &&
              IsValidTileCoordinate(m.destination) && m.destination != rook.position &&
              (Row(m.destination) == Row(rook.position) || Col(m.destination) == Col(rook.position)) &&
              MoveTo(rook, board, m.destination) == Some(m)
    ensures forall m :: m in RookMoves(rook, board) ==>
              GetPiece(board, m.destination).None? ||
              GetPiece(board, m.destination).value.alliance != rook.alliance
  {
    InRookTable(rook.position);
    RookLinesSpec(rook.position);
    LinesMovesSound(rook, board, RookLines(rook.position));
  }

  /** A rook that makes one of its generated moves stays on its row or column, with its alliance kept. */
  lemma MovedRookStaysInLine(rook: Piece, board: Board, m: Move)
    requires IsValidTileCoordinate(rook.position)
    requires m in RookMoves(rook, board)
    ensures MovePiece(m).pieceType == Rook && !MovePiece(m).isFirstMove
    ensures MovePiece(m).position == m.destination
    ensures MovePiece(m).alliance == rook.alliance
    ensures IsValidTileCoordinate(MovePiece(m).position) && MovePiece(m).position != rook.position
    ensures Row(MovePiece(m).position) == Row(rook.position) || Col(MovePiece(m).position) == Col(rook.position)
  {
    RookMovesSpec(rook, board);
  }
}
