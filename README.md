# Knight and rook move generation and board tiles of a Java chess engine

This project models three pieces of a chess rules engine that works on a
flattened board of 64 squares, numbered 0..63 row by row, eight to a row:

- **Knight** (`Knights`, knight.dfy). At start-up a table gives every square
  its knight destinations: the eight offsets -17, -15, -10, -6, 6, 10, 15, 17.
  An offset is dropped when four column rules say it would wrap round a
  board edge, or when it leaves the board. On a given board, the knight
  walks its square's entry. An empty destination gives a quiet move
  (`MajorMove`). An enemy piece gives a capture (`MajorAttackMove`). A piece
  of its own alliance gives nothing.
- **Rook** (`Rooks`, rook.dfy). At start-up every square gets its rays
  ("lines") in the directions -8, -1, 1, 8. Each line steps outward until it
  leaves the board, or until a sideways step would wrap from the first or
  eighth column. Only non-empty lines are kept. On a given board, the rook
  walks each line and stops at the first occupied square, which it captures
  when that square holds an enemy.
- **Tile** (`Tiles`, tile.dfy). A square is either an empty tile or an
  occupied tile holding a piece. The 64 empty tiles are built once and
  shared. A factory returns the shared empty tile or a new occupied one.

The collaborators these files call are kept as small value stubs:
- `Pieces` (pieces.dfy) holds the two alliances, a piece (type, alliance,
  square, first-move flag), the board and the two kinds of move. It also
  holds the rule shared by both generators for what one reached square
  yields (`MoveTo`).
- `BoardUtils` (board_utils.dfy) holds the board geometry.
- `Wrappers` (wrappers.dfy) holds `Option`, which stands for Java's
  nullable references.

The static tables are modelled as functions that give the table's value:
`Knights.PrecomputedCandidates`, `Rooks.RookCandidateTable` and
`Tiles.EmptyTilesCache`. The static initialisers that fill them are
methods with the source's loops, proved to produce exactly that value.
The inner loop of each `computeCandidates` is its own method: the
knight's buffer loop is `Knights.LegalDestinations` and the rook's
stepping loop is `Rooks.ComputeLine`. This keeps each proof small.
The move generators are methods with the source's loops, proved equal to
`Knights.KnightMoves` and `Rooks.RookMoves`. What the engine promises is
proved as lemmas about those functions.

Assumptions about code that is not part of this model:
- BoardUtils: FIRST_COLUMN(c) is `c % 8 == 0`, SECOND_COLUMN is
  `c % 8 == 1`, SEVENTH_COLUMN is `c % 8 == 6`, EIGHTH_COLUMN is `c % 8 == 7`.
  `isValidTileCoordinate(c)` is `0 <= c < 64`.
- PieceUtils: `getMovedKnight` and `getMovedRook` give a piece of the given
  alliance on the given square with the first-move flag cleared.
- Piece.toString: it prints the piece type's letter, one of P N B R Q K.
- Board: `getPiece(c)` is the piece on square c, if any.

Two points of the code worth knowing:
- `isColumnExclusion` is tested before every step of a line
  (Rook.java:37-39), not only the first, and `Rooks.Ray` does the same.
- `createTile` does not check that the piece's own square equals the
  tile's coordinate, and neither does `Tiles.CreateTile`.

## Model

| member | source | states |
|---|---|---|
| `Pieces.MoveTo` | java-chess/src/com/chess/engine/pieces/Knight.java:62-71 | a reached square gives a quiet move exactly when it is empty; it gives a capture carrying the piece there exactly when that piece is an enemy; it gives nothing exactly when the piece there is of the mover's alliance |
| `Pieces.MovesToSpec` | java-chess/src/com/chess/engine/pieces/Knight.java:59-74 | walking a list of destinations gives at most one move per destination; a move is generated exactly when its destination is in the list and is what that destination yields |
| `Knights.Destinations` | java-chess/src/com/chess/engine/pieces/Knight.java:36-47 | a list of offsets keeps at most one destination per offset (which ones, and that they are on the board, is `Knights.DestinationsMembers`) |
| `Knights.KnightDestinations` | java-chess/src/com/chess/engine/pieces/Knight.java:33-48 | a square's knight table entry holds at most 8 destinations, each a valid coordinate |
| `Knights.DestinationsMembers` | java-chess/src/com/chess/engine/pieces/Knight.java:36-47 | a square is kept exactly when some offset in the list reaches it, passes the four column rules and stays on the board; no more destinations than offsets |
| `Knights.DestinationsIncreasing` | java-chess/src/com/chess/engine/pieces/Knight.java:36-46 | destinations come out in the order of the increasing offset list, hence strictly increasing |
| `Knights.KeepsIsKnightJump` | java-chess/src/com/chess/engine/pieces/Knight.java:91-111 | for an on-board square and one of the eight offsets, the column rules let the offset through exactly when it lands on the board two rows and one column away, or one row and two columns, so no kept offset wraps |
| `Knights.JumpIsCandidateOffset` | java-chess/src/com/chess/engine/pieces/Knight.java:17 | every on-board knight jump is one of the eight listed offsets |
| `Knights.KnightDestinationsSound` | java-chess/src/com/chess/engine/pieces/Knight.java:37-46 | every table destination of an on-board square is on the board a knight jump away: no kept offset wraps round an edge |
| `Knights.KnightDestinationsComplete` | java-chess/src/com/chess/engine/pieces/Knight.java:37-46 | every on-board knight jump from an on-board square is in its table entry: the column rules drop no real jump |
| `Knights.KnightDestinationsExact` | java-chess/src/com/chess/engine/pieces/Knight.java:33-48 | a square is in the table entry exactly when it is on the board a knight jump away |
| `Knights.KnightDestinationsSpec` | java-chess/src/com/chess/engine/pieces/Knight.java:33-48 | each square has at most 8 destinations, strictly increasing, and they are exactly the on-board squares a knight jump reaches |
| `Knights.CornerDestinations` | java-chess/src/com/chess/engine/pieces/Knight.java:37-46 | the corner square 0 has exactly the destinations 10 and 17 |
| `Knights.SecondColumnDestinations` | java-chess/src/com/chess/engine/pieces/Knight.java:97-100 | square 57, in the second column, has exactly 40, 42 and 51; the -10 and +6 jumps that would wrap are dropped |
| `Knights.LegalDestinations` | java-chess/src/com/chess/engine/pieces/Knight.java:34-48 | the loop over the offsets, with its eight-slot buffer and counter, returns exactly the square's table entry |
| `Knights.ComputeCandidates` | java-chess/src/com/chess/engine/pieces/Knight.java:31-51 | the start-up loop over the 64 squares builds exactly the knight table |
| `Knights.KnightTableUpToSpec` | java-chess/src/com/chess/engine/pieces/Knight.java:33-49 | after visiting squares 0..n-1 the map holds exactly those squares, each with its table entry |
| `Knights.KnightTableComplete` | java-chess/src/com/chess/engine/pieces/Knight.java:31-51 | once all 64 squares are visited the map built is the precomputed table |
| `Knights.CalculateLegalMoves` | java-chess/src/com/chess/engine/pieces/Knight.java:58-74 | the loop over the square's table entry returns exactly the knight's moves on the board |
| `Knights.KnightMovesSpec` | java-chess/src/com/chess/engine/pieces/Knight.java:59-74 | each generated move is a knight jump to a table destination; an empty destination gives a quiet move; an enemy gives a capture of that piece; an own piece gives no move; no more moves than table entries |
| `Knights.MovedKnightJumps` | java-chess/src/com/chess/engine/pieces/Knight.java:82-84 | the knight after any generated move is a knight of the mover's alliance on the move's destination, no longer on its first move, a knight jump away on the board |
| `Rooks.Ray` | java-chess/src/com/chess/engine/pieces/Rook.java:34-44 | every coordinate a line visits is on the board |
| `Rooks.Lines` | java-chess/src/com/chess/engine/pieces/Rook.java:33-47 | only non-empty lines are stored, all on the board |
| `Rooks.RayLength` | java-chess/src/com/chess/engine/pieces/Rook.java:34-44 | a line holds as many squares as lie beyond its start in its direction |
| `Rooks.RayEntries` | java-chess/src/com/chess/engine/pieces/Rook.java:34-44 | a line's k-th entry is position + (k+1)·offset: it is ordered by increasing distance |
| `Rooks.RayDirection` | java-chess/src/com/chess/engine/pieces/Rook.java:36-44 | every entry of a line lies in its direction; a horizontal line keeps its row, so it never steps left from column 1 or right from column 8 |
| `Rooks.RaySpec` | java-chess/src/com/chess/engine/pieces/Rook.java:34-44 | a line's k-th entry is position + (k+1)·offset (nearest first); its length is the number of squares beyond the start in that direction; every entry lies in that direction, so horizontal lines keep the row and never step left from column 1 or right from column 8 |
| `Rooks.RayMembers` | java-chess/src/com/chess/engine/pieces/Rook.java:36-44 | a square is on a line exactly when it is on the board in that line's direction |
| `Rooks.LinesFlatten` | java-chess/src/com/chess/engine/pieces/Rook.java:45-47 | dropping empty lines loses no coordinate |
| `Rooks.RookLinesSpec` | java-chess/src/com/chess/engine/pieces/Rook.java:29-54 | every square stores at least one line; the lines hold exactly 14 coordinates; a square is on them exactly when it shares the row or the column and is not the rook's own square |
| `Rooks.InRookTable` | java-chess/src/com/chess/engine/pieces/Rook.java:49-51 | every board square has an entry in the rook table, and that entry is its lines |
| `Rooks.ComputeLine` | java-chess/src/com/chess/engine/pieces/Rook.java:34-44 | the stepping `while` with its early exit returns exactly the line of the square in that direction |
| `Rooks.ComputeCandidates` | java-chess/src/com/chess/engine/pieces/Rook.java:29-54 | the start-up loops over squares and directions build exactly the rook table |
| `Rooks.RookTableUpToSpec` | java-chess/src/com/chess/engine/pieces/Rook.java:31-52 | after visiting squares 0..n-1 the map holds exactly those of them that have a line, each with its lines (for any function giving a square its lines) |
| `Rooks.RookLinesFlatten` | java-chess/src/com/chess/engine/pieces/Rook.java:33-45 | a square's stored lines, run together, are its rays in the order -8, -1, 1, 8: dropping empty rays loses no coordinate |
| `Rooks.FourRaysMembers` | java-chess/src/com/chess/engine/pieces/Rook.java:33-45 | a square is on one of the four rays exactly when it shares the row or the column and is not the rook's own square |
| `Rooks.RookTableComplete` | java-chess/src/com/chess/engine/pieces/Rook.java:29-54 | once all 64 squares are visited the map built is the precomputed table |
| `Rooks.FirstOccupied` | java-chess/src/com/chess/engine/pieces/Rook.java:61-72 | the index where a line's walk stops: every square before it is empty and the square at it, if any, is occupied |
| `Rooks.LineMovesSpec` | java-chess/src/com/chess/engine/pieces/Rook.java:61-73 | along a line: quiet moves to the squares before the first occupied one, in order; then one capture of it if it is an enemy; nothing if it is an own piece; nothing beyond it |
| `Rooks.CalculateLegalMoves` | java-chess/src/com/chess/engine/pieces/Rook.java:58-76 | the nested loop with its `break` returns exactly the rook's moves on the board |
| `Rooks.LineMovesSound` | java-chess/src/com/chess/engine/pieces/Rook.java:61-73 | every move along a line goes to a square of that line and is what that square yields |
| `Rooks.LinesMovesSound` | java-chess/src/com/chess/engine/pieces/Rook.java:60-74 | every move along a list of lines goes to one of their squares and is what that square yields |
| `Rooks.RookMovesSpec` | java-chess/src/com/chess/engine/pieces/Rook.java:58-76 | every rook move goes along its row or column to another board square; it is a quiet move onto an empty square or a capture of an enemy, never of an own piece |
| `Rooks.EmptyBoardLineMoves` | java-chess/src/com/chess/engine/pieces/Rook.java:61-73 | on an empty board a line gives one quiet move per square, in order |
| `Rooks.EmptyBoardLinesMoves` | java-chess/src/com/chess/engine/pieces/Rook.java:60-74 | on an empty board the lines give quiet moves to all their coordinates, in order |
| `Rooks.EmptyBoardRookMoves` | java-chess/src/com/chess/engine/pieces/Rook.java:58-76 | a rook alone on the board has exactly 14 moves, all quiet, to exactly the squares of its row and column |
| `Rooks.MovedRookStaysInLine` | java-chess/src/com/chess/engine/pieces/Rook.java:84-86 | the rook after any generated move is a rook of the mover's alliance on the move's destination, no longer on its first move, elsewhere on its row or column |
| `Tiles.Tile.IsTileOccupied` | java-chess/src/com/chess/engine/board/Tile.java:54-87 | a tile is occupied exactly when it has a piece: an empty tile gives false and no piece, an occupied one true and its piece |
| `Tiles.Tile.ToString` | java-chess/src/com/chess/engine/board/Tile.java:49-77 | a tile prints "-" exactly when it is empty; otherwise it prints the piece's string, and for a black piece each character of it lowered in place |
| `Tiles.ToLower` | java-chess/src/com/chess/engine/board/Tile.java:75 | lower-casing keeps the length and lowers each letter in place |
| `Tiles.CreateAllPossibleEmptyTiles` | java-chess/src/com/chess/engine/board/Tile.java:17-26 | the loop builds exactly the empty-tile cache |
| `Tiles.EmptyTilesCacheSpec` | java-chess/src/com/chess/engine/board/Tile.java:15-26 | the cache has exactly 64 entries, keyed by the board coordinates, and entry i is an empty tile with coordinate i |
| `Tiles.CreateTile` | java-chess/src/com/chess/engine/board/Tile.java:28-30 | with a piece: an occupied tile holding that piece; without one: the cached empty tile, or nothing off the board; the tile's coordinate is the one supplied |
| `Tiles.BlackPrintsLowerCase` | java-chess/src/com/chess/engine/board/Tile.java:73-77 | a black piece's tile prints the lower-case letter of the same piece printed white, and the two differ |

## Left out

- Table.java: Swing frames, menus, mouse listeners, image loading and `System.exit` hold no rules logic. Its move log and board flip are display helpers.
- `Knight.locationBonus` and `Rook.locationBonus`: they serve evaluation only. The rook's delegates to `Alliance.rookBonus`, which is not part of this model.
- Knight and Rook constructors: a piece is the value `Pieces.Piece`. The two-argument constructors' default first-move flag `true` is written out by the caller.
- `toString` of Knight and Rook: modelled as `Pieces.Piece.ToString`. PieceType's letters are assumed, not modelled.
- Board, Player, MoveTransition, MoveUtils.Line, PieceUtils and BoardUtils are not part of this model. They appear only as the stubs described above.
- Move application, legality against check, checkmate, castling and en passant are not in these files.
- Guava's `ImmutableMap` and `Collections.unmodifiable*`: the tables and move lists are immutable Dafny values already.
- Tiles.ToLower: it lowers only the ASCII letters A-Z. `String.toLowerCase` also covers other alphabets, but piece names never use them.
- Knights.CalculateLegalMoves and Rooks.CalculateLegalMoves: they require the piece's square to be on the board. In Java an off-board square finds no table entry and throws a NullPointerException. That error path is not modelled.
- Identity of objects: the shared empty tiles and the `new` occupied tiles are values here. Reference equality is not modelled.
