/**
 * Level descriptors of the action game, the total tile lookup and the
 * row-major search for the player's spawn cell.
 */
module Levels {
  import opened Wrappers

  /** Side of a map tile in pixels. */
  const TILE: int := 32
  const WALL: char := '#'
  const SPAWN: char := 'P'

  /** A grid cell, in tile coordinates. */
  datatype Pos = Pos(x: int, y: int)

  /**
   * A level: its rows of tile characters (`map` in the game), the cells where its enemies and its
   * optional boss appear (their type tags do not affect the game logic), and
   * the index of the level that follows it (`None` for the last level).
   */
  datatype Level = Level(name: string, rows: seq<string>, enemies: seq<Pos>, boss: Option<Pos>, next: Option<nat>)

  /** The bounds the game checks: the number of rows, and the length of the first row. */
  predicate InGrid(level: Level, x: int, y: int) {
    0 <= y < |level.rows| && 0 <= x < |level.rows[0]|
  }

  /** Column count as the game reads it, from the first row. */
  function Cols(level: Level): nat {
    if |level.rows| == 0 then 0 else |level.rows[0]|
  }

  /**
   * `tileAt`: total over all coordinates. Outside the grid every cell reads as
   * a wall; `None` is the `undefined` read past the end of a row shorter than
   * the first one.
   */
  function TileAt(level: Level, x: int, y: int): (t: Option<char>)
    ensures !InGrid(level, x, y) ==> t == Some(WALL)
    ensures InGrid(level, x, y) && x < |level.rows[y]| ==> t == Some(level.rows[y][x])
    ensures InGrid(level, x, y) && x >= |level.rows[y]| ==> t == None
  {
    if y < 0 || x < 0 || y >= |level.rows| || x >= |level.rows[0]| then Some(WALL)
    else if x < |level.rows[y]| then Some(level.rows[y][x])
    else None
  }

  /** The cell stops the player. */
  predicate Blocked(level: Level, x: int, y: int) {
    TileAt(level, x, y) == Some(WALL)
  }

  predicate IsSpawnCell(level: Level, x: int, y: int) {
    TileAt(level, x, y) == Some(SPAWN)
  }

  ghost predicate HasSpawn(level: Level) {
    exists x, y :: IsSpawnCell(level, x, y)
  }

  /** Row-major scan order: cell (x1, y1) is visited no later than cell (x2, y2). */
  predicate NotAfter(x1: int, y1: int, x2: int, y2: int) {
    y1 < y2 || (y1 == y2 && x1 <= x2)
  }

  /** A cell outside the grid is never a floor, let alone a spawn cell. */
  lemma BlockedOutside(level: Level, x: int, y: int)
    ensures !InGrid(level, x, y) ==> Blocked(level, x, y) && !IsSpawnCell(level, x, y)
    ensures !Blocked(level, x, y) ==> InGrid(level, x, y)
  {
  }

  /** The last spawn column of row `y` among its first `k` columns. */
  function LastSpawnInRow(level: Level, y: int, k: int): (r: Option<int>)
    decreases k
    ensures r.Some? ==> r.value < k && IsSpawnCell(level, r.value, y)
    ensures r.Some? ==> forall x :: r.value < x < k ==> !IsSpawnCell(level, x, y)
    ensures r.None? ==> forall x :: x < k ==> !IsSpawnCell(level, x, y)
  {
    if k <= 0 then None
    else if IsSpawnCell(level, k - 1, y) then Some(k - 1)
    else LastSpawnInRow(level, y, k - 1)
  }

  /** The last spawn cell, in row-major order, among the first `n` rows. */
  function LastSpawnAbove(level: Level, n: int): (r: Option<Pos>)
    decreases n
    ensures r.Some? ==> r.value.y < n && IsSpawnCell(level, r.value.x, r.value.y)
    ensures r.Some? ==> forall x, y :: y < n && IsSpawnCell(level, x, y) ==> NotAfter(x, y, r.value.x, r.value.y)
    ensures r.None? ==> forall x, y :: y < n ==> !IsSpawnCell(level, x, y)
  {
    if n <= 0 then None
    else match LastSpawnInRow(level, n - 1, Cols(level))
      case Some(x) => Some(Pos(x, n - 1))
      case None => LastSpawnAbove(level, n - 1)
  }

  /**
   * The cell `player.reset` settles on: the last spawn cell of the map in
   * row-major order, or the player's previous cell `prev` when the map has none.
   */
  function SpawnTile(level: Level, prev: Pos): (r: Pos)
    ensures HasSpawn(level) ==> IsSpawnCell(level, r.x, r.y)
    ensures forall x, y :: IsSpawnCell(level, x, y) ==> NotAfter(x, y, r.x, r.y)
    ensures !HasSpawn(level) ==> r == prev
  {
    match LastSpawnAbove(level, |level.rows|)
    case Some(p) => p
    case None => prev
  }

  /** Every `next` names a level of the list, and there is a first level to start. */
  predicate ValidCatalogue(levels: seq<Level>) {
    && |levels| > 0
    && forall i :: 0 <= i < |levels| && levels[i].next.Some? ==> levels[i].next.value < |levels|
  }

  /** The game's two levels: a plain with two slimes, then a dungeon with two bats and the boss. */
  const Catalogue: seq<Level> := [
    Level(
      "Plaine Verte",
      [ "....................",
        "....................",
        "....####............",
        "...#....#...........",
        "...#..E.#.......E...",
        "...#....#...........",
        "....####............",
        "....................",
        "..........P.........",
        "...................." ],
      [Pos(6, 4), Pos(15, 4)],
      None,
      Some(1)),
    Level(
      "Donjon de la Forêt",
      [ "....................",
        ".####...............",
        ".#..#..E.....E......",
        ".#..#...............",
        ".#..#...............",
        ".####...............",
        "....................",
        "...#######..........",
        "...#.....#....B.....",
        "...#######.........." ],
      [Pos(7, 2), Pos(12, 2)],
      Some(Pos(15, 8)),
      None)
  ]

  lemma CatalogueIsValid()
    ensures ValidCatalogue(Catalogue)
  {
  }

  /** A row without the spawn character yields no spawn column. */
  lemma RowWithoutSpawn(level: Level, y: int, k: int)
    requires 0 <= y < |level.rows| && SPAWN !in level.rows[y]
    ensures LastSpawnInRow(level, y, k) == None
  {
    var row := level.rows[y];
    forall x | x < k
      ensures !IsSpawnCell(level, x, y)
    {
      if 0 <= x < |row| {
        assert row[x] in row;
      }
    }
  }

  /** A spawn column `c` with no spawn character after it in its row is the row's last one. */
  lemma RowLastSpawn(level: Level, y: int, k: int, c: int)
    requires 0 <= y < |level.rows| && c < k && IsSpawnCell(level, c, y)
    requires c + 1 <= |level.rows[y]| && SPAWN !in level.rows[y][c + 1..]
    ensures LastSpawnInRow(level, y, k) == Some(c)
  {
    var row := level.rows[y];
    forall x | c < x < k
      ensures !IsSpawnCell(level, x, y)
    {
      if c < x < |row| {
        assert row[x] == row[c + 1..][x - c - 1];
      }
    }
  }

  /** The first level spawns the player at column 10 of row 8, wherever it stood before. */
  lemma FirstLevelSpawn(prev: Pos)
    ensures SpawnTile(Catalogue[0], prev) == Pos(10, 8)
  {
    var plain := Catalogue[0];
    RowWithoutSpawn(plain, 9, 20);
    assert plain.rows[8][10] == SPAWN;
    RowLastSpawn(plain, 8, 20, 10);
    assert LastSpawnAbove(plain, 10) == Some(Pos(10, 8));
  }

  /** The dungeon's map has no spawn cell, so the player keeps the cell it cleared the plain on. */
  lemma SecondLevelHasNoSpawn(prev: Pos)
    ensures !HasSpawn(Catalogue[1])
    ensures SpawnTile(Catalogue[1], prev) == prev
  {
  }
}
