/**
 * Board squares (Tile.java): a tile is empty or holds a piece; the 64
 * empty tiles are built once and shared, and a factory picks between the
 * shared empty tile and a new occupied one.
 */
module Tiles {
  import opened Wrappers
  import opened BoardUtils
  import opened Pieces

  datatype Tile =
    | EmptyTile(tileCoordinate: int)
    | OccupiedTile(tileCoordinate: int, pieceOnTile: Piece)
  {
    function GetTileCoordinate(): int { tileCoordinate }

    /** The piece on the tile; None stands for Java's null. */
    function GetPiece(): Option<Piece> {
      match this
      case EmptyTile(_) => None
      case OccupiedTile(_, p) => Some(p)
    }

    /** A tile is occupied exactly when it has a piece to give. */
    function IsTileOccupied(): (r: bool)
      ensures r <==> GetPiece().Some?
    {
      OccupiedTile?
    }

    /**
     * One character per tile: "-" for an empty one, otherwise the piece's
     * letter, lower case for a black piece.
     */
    function ToString(): (r: string)
      ensures r == "-" <==> !IsTileOccupied()
      ensures IsTileOccupied() && !GetPiece().value.alliance.IsBlack() ==> r == GetPiece().value.ToString()
      ensures IsTileOccupied() && GetPiece().value.alliance.IsBlack() ==>
                var s := GetPiece().value.ToString();
                |r| == |s| && forall i :: 0 <= i < |s| ==> r[i] == LowerChar(s[i])
    {
      match this
      case EmptyTile(_) => "-"
      case OccupiedTile(_, p) => if p.alliance.IsBlack() then ToLower(p.ToString()) else p.ToString()
    }
  }

  /** Java's String.toLowerCase restricted to the ASCII letters piece names use. */
  function LowerChar(ch: char): char {
    if 'A' <= ch <= 'Z' then (ch as int + 32) as char else ch
  }

  function ToLower(s: string): (r: string)
    ensures |r| == |s| && forall i :: 0 <= i < |s| ==> r[i] == LowerChar(s[i])
  {
    if s == [] then [] else [LowerChar(s[0])] + ToLower(s[1..])
  }

  /** The shared empty tiles (EMPTY_TILES_CACHE), one per coordinate. */
  function EmptyTilesCache(): map<int, Tile> {
    map i | 0 <= i < NumTiles :: EmptyTile(i)
  }

  /** createAllPossibleEmptyTiles: one empty tile per coordinate, put into a map in a loop. */
  method CreateAllPossibleEmptyTiles() returns (emptyTileMap: map<int, Tile>)
    ensures emptyTileMap == EmptyTilesCache()
  {
    emptyTileMap := map[];
    for i := 0 to NumTiles
      invariant emptyTileMap == map j | 0 <= j < i :: EmptyTile(j)
    {
      emptyTileMap := emptyTileMap[i := EmptyTile(i)];
    }
  }

  /** The coordinates 0..n-1, as a set with n elements. */
  function Coordinates(n: nat): (r: set<int>)
    ensures |r| == n && forall c :: c in r <==> 0 <= c < n
  {
    if n == 0 then {} else Coordinates(n - 1) + {n - 1}
  }

  /** The cache has 64 entries, those of the board's coordinates, and entry i is the empty tile of coordinate i. */
  lemma EmptyTilesCacheSpec()
    ensures |EmptyTilesCache()| == NumTiles
    ensures forall c :: c in EmptyTilesCache() <==> IsValidTileCoordinate(c)
    ensures forall c :: c in EmptyTilesCache() ==>
              EmptyTilesCache()[c].GetTileCoordinate() == c && !EmptyTilesCache()[c].IsTileOccupied()
  {
    assert EmptyTilesCache().Keys == Coordinates(NumTiles);
  }

  /**
   * createTile: a new occupied tile for a piece, else the cached empty
   * tile of the coordinate; the cache has no tile (Java's null) off the
   * board.
   */
  function CreateTile(tileCoordinate: int, piece: Option<Piece>): (r: Option<Tile>)
    ensures piece.Some? ==> r.Some? && r.value.IsTileOccupied() && r.value.GetPiece() == piece
    ensures piece.None? && IsValidTileCoordinate(tileCoordinate) ==>
              r == Some(EmptyTilesCache()[tileCoordinate]) && !r.value.IsTileOccupied()
    ensures piece.None? && !IsValidTileCoordinate(tileCoordinate) ==> r.None?
    ensures r.Some? ==> r.value.GetTileCoordinate() == tileCoordinate
  {
    match piece
    case Some(p) => Some(OccupiedTile(tileCoordinate, p))
    case None =>
      if tileCoordinate in EmptyTilesCache() then Some(EmptyTilesCache()[tileCoordinate]) else None
  }

  /** The tile of a black piece prints as the lower-case letter of the same piece printed white, one letter apart. */
  lemma BlackPrintsLowerCase(c: int, p: Piece)
    requires p.alliance == Black
    ensures var white := OccupiedTile(c, p.(alliance := White)).ToString();
            var black := OccupiedTile(c, p).ToString();
            |white| == 1 && 'A' <= white[0] <= 'Z' && black == [LowerChar(white[0])] &&
            'a' <= black[0] <= 'z' && black != white
  {
  }
}
