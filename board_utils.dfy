/**
 * Geometry of the flattened 0..63 board: coordinate 0 is the top-left
 * square, coordinates run row by row, eight squares to a row.
 *
 * The engine's BoardUtils class is not part of this model. Its column
 * tables and its validity check are given here the conventional meaning:
 * FIRST_COLUMN holds the coordinates c with c % 8 == 0, SECOND_COLUMN
 * c % 8 == 1, SEVENTH_COLUMN c % 8 == 6, EIGHTH_COLUMN c % 8 == 7, and
 * isValidTileCoordinate(c) is 0 <= c < 64.
 */
module BoardUtils {
  const NumTiles: int := 64

  predicate IsValidTileCoordinate(c: int) {
    0 <= c < NumTiles
  }

  /** Row and column of a coordinate, both in 0..7 for a valid one. */
  function Row(c: int): int { c / 8 }
  function Col(c: int): int { c % 8 }

  predicate FirstColumn(c: int) { Col(c) == 0 }
  predicate SecondColumn(c: int) { Col(c) == 1 }
  predicate SeventhColumn(c: int) { Col(c) == 6 }
  predicate EighthColumn(c: int) { Col(c) == 7 }

  function Abs(x: int): int { if x < 0 then -x else x }

  /** Every coordinate is its row times eight plus its column. */
  lemma RowCol(c: int)
    requires IsValidTileCoordinate(c)
    ensures 0 <= Row(c) < 8 && 0 <= Col(c) < 8 && c == 8 * Row(c) + Col(c)
  {
  }

  /** Row and column of a square given by row and column. */
  lemma OfRowCol(r: int, k: int)
    requires 0 <= k < 8
    ensures Row(8 * r + k) == r && Col(8 * r + k) == k
  {
  }
}
