/**
 * The shared grid of the chat feature: an immutable `size` by `size` grid of
 * tiles with bounds-checked reads and a write that returns a new grid.
 * The Kotlin data class does not tie `size` to the list of rows, so a grid
 * whose rows are shorter than `size` fails on list indexing instead.
 */
module GridModel {
  import opened Wrappers
  import opened Symbols

  /** Both strings are code point sequences, as in the picker. */
  datatype Tile = Tile(symbol: Symbol, userId: int, locked: bool, synced: bool, message: Symbol)

  /** Rows first: `tiles[y][x]` is the tile in column `x` of row `y`. */
  datatype UserGrid = UserGrid(size: int, tiles: seq<seq<Tile>>)

  /**
   * Why a read or write failed: the `require` on the coordinates
   * (`IllegalArgumentException`), or a list index past the rows actually
   * there (`IndexOutOfBoundsException`).
   */
  datatype GridError = OutOfBounds(x: int, y: int) | IndexOutOfRange

  /** The tile every cell of a default grid holds: "⬜" (U+2B1C), user 0, unlocked, unsynced, no message. */
  const BlankTile: Tile := Tile([0x2B1C], 0, false, false, Empty)
  const DefaultSize: nat := 5

  /** `UserGrid()`: five rows of five blank tiles. */
  function DefaultGrid(): UserGrid
  {
    UserGrid(DefaultSize, seq(DefaultSize, _ => seq(DefaultSize, _ => BlankTile)))
  }

  /** `x in 0 until size && y in 0 until size`. */
  predicate InBounds(g: UserGrid, x: int, y: int) {
    0 <= x < g.size && 0 <= y < g.size
  }

  /** Every coordinate within `size` names exactly one tile. */
  predicate WellFormed(g: UserGrid) {
    |g.tiles| == g.size && forall y :: 0 <= y < |g.tiles| ==> |g.tiles[y]| == g.size
  }

  /** The tile at `(x, y)` exists in the row lists. */
  predicate HasCell(g: UserGrid, x: int, y: int) {
    0 <= y < |g.tiles| && 0 <= x < |g.tiles[y]|
  }

  /** `get(x, y)`. */
  function Get(g: UserGrid, x: int, y: int): (r: Result<Tile, GridError>)
    ensures !InBounds(g, x, y) ==> r == Failure(OutOfBounds(x, y))
    ensures InBounds(g, x, y) && !HasCell(g, x, y) ==> r == Failure(IndexOutOfRange)
    ensures r.Success? <==> InBounds(g, x, y) && HasCell(g, x, y)
    ensures WellFormed(g) ==> (r.Success? <==> InBounds(g, x, y))
    ensures r.Success? ==> HasCell(g, x, y) && r.value == g.tiles[y][x]
  {
    if !InBounds(g, x, y) then Failure(OutOfBounds(x, y))
    else if !HasCell(g, x, y) then Failure(IndexOutOfRange)
    else Success(g.tiles[y][x])
  }

  /** `set(x, y, tile)`: a copy of the grid with row `y` copied and its cell `x` replaced. */
  function Set(g: UserGrid, x: int, y: int, tile: Tile): (r: Result<UserGrid, GridError>)
    ensures !InBounds(g, x, y) ==> r == Failure(OutOfBounds(x, y))
    ensures InBounds(g, x, y) && !HasCell(g, x, y) ==> r == Failure(IndexOutOfRange)
    ensures r.Success? <==> InBounds(g, x, y) && HasCell(g, x, y)
  {
    if !InBounds(g, x, y) then Failure(OutOfBounds(x, y))
    else if !HasCell(g, x, y) then Failure(IndexOutOfRange)
    else
      var newRow := g.tiles[y][x := tile];
      Success(g.(tiles := g.tiles[y := newRow]))
  }

  /** The default grid is well formed, five by five, and blank everywhere. */
  lemma DefaultGridIsBlank()
    ensures WellFormed(DefaultGrid()) && DefaultGrid().size == 5
    ensures forall x, y :: 0 <= x < 5 && 0 <= y < 5 ==> Get(DefaultGrid(), x, y) == Success(BlankTile)
  {
  }

  /** On a well-formed grid, a write succeeds exactly within bounds. */
  lemma SetSucceedsInBounds(g: UserGrid, x: int, y: int, tile: Tile)
    requires WellFormed(g)
    ensures Set(g, x, y, tile).Success? <==> InBounds(g, x, y)
  {
  }

  /** Reading back what was written gives the tile. */
  lemma ReadAfterWrite(g: UserGrid, x: int, y: int, tile: Tile)
    requires Set(g, x, y, tile).Success?
    ensures Get(Set(g, x, y, tile).value, x, y) == Success(tile)
  {
  }

  /**
   * A write changes nothing else: the size, the number of rows, every row's
   * length and every read at another coordinate, failed reads included.
   */
  lemma WriteChangesOneCell(g: UserGrid, x: int, y: int, tile: Tile, x': int, y': int)
    requires Set(g, x, y, tile).Success?
    requires x' != x || y' != y
    ensures var h := Set(g, x, y, tile).value;
            h.size == g.size && |h.tiles| == |g.tiles| &&
            (forall j :: 0 <= j < |g.tiles| ==> |h.tiles[j]| == |g.tiles[j]|) &&
            (forall j, i :: 0 <= j < |g.tiles| && 0 <= i < |g.tiles[j]| && (i != x || j != y) ==>
               h.tiles[j][i] == g.tiles[j][i]) &&
            Get(h, x', y') == Get(g, x', y')
  {
  }

  /** A write keeps a well-formed grid well formed. */
  lemma WriteKeepsWellFormed(g: UserGrid, x: int, y: int, tile: Tile)
    requires WellFormed(g) && InBounds(g, x, y)
    ensures Set(g, x, y, tile).Success? && WellFormed(Set(g, x, y, tile).value)
  {
  }

  /** A read outside the grid fails with the coordinates. */
  lemma ReadPastEdge()
    ensures Get(DefaultGrid(), 5, 0) == Failure(OutOfBounds(5, 0))
  {
  }

  /**
   * `putSampleData(userGrid)`: for each row `y` and column `x` below 5 it
   * builds a tile and calls `set`, discarding the new grid. The argument is a
   * value and so stays as it was; the one effect is the exception of the first
   * write that fails. The random tiles are the parameter `sample`.
   */
  method PutSampleData(g: UserGrid, sample: (int, int) -> Tile) returns (thrown: Option<GridError>)
    ensures thrown.None? <==> forall x, y :: 0 <= x < 5 && 0 <= y < 5 ==> Set(g, x, y, sample(x, y)).Success?
    ensures WellFormed(g) ==> (thrown.None? <==> g.size >= 5)
    ensures WellFormed(g) && g.size < 5 ==> thrown == Some(OutOfBounds(g.size, 0))
    ensures thrown.Some? ==>
              exists x, y :: 0 <= x < 5 && 0 <= y < 5 &&
                Set(g, x, y, sample(x, y)) == Failure(thrown.value) &&
                forall x', y' :: 0 <= x' < 5 && 0 <= y' < 5 && (y' < y || (y' == y && x' < x)) ==>
                  Set(g, x', y', sample(x', y')).Success?
  {
    var y := 0;
    while y < 5
      invariant 0 <= y <= 5
      invariant forall x', y' :: 0 <= x' < 5 && 0 <= y' < y ==> Set(g, x', y', sample(x', y')).Success?
    {
      var x := 0;
      while x < 5
        invariant 0 <= x <= 5
        invariant forall x', y' :: 0 <= x' < 5 && 0 <= y' < y ==> Set(g, x', y', sample(x', y')).Success?
        invariant forall x' :: 0 <= x' < x ==> Set(g, x', y, sample(x', y)).Success?
      {
        var tile := sample(x, y);
        var written := Set(g, x, y, tile);
        if written.Failure? {
          if WellFormed(g) && g.size < 5 {
            assert Set(g, g.size, 0, sample(g.size, 0)).Failure?;
          }
          assert Set(g, x, y, sample(x, y)) == Failure(written.error);
          return Some(written.error);
        }
        x := x + 1;
      }
      y := y + 1;
    }
    assert Set(g, 4, 4, sample(4, 4)).Success?;
    return None;
  }
}
