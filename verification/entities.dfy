/**
 * The action game's world: the player, the enemies, the boss, the game
 * state, and the level set-up that `startLevel` performs.
 */
module Entities {
  import opened Wrappers
  import opened Levels

  const PLAYER_SIZE: int := 28
  /** Pixel offset of the player's box inside its tile. */
  const INSET: int := (TILE - PLAYER_SIZE) / 2
  const PLAYER_HP: int := 3
  const BOSS_HP: int := 5
  /**
   * Enemy coordinates are counted in hundredths of a tile: enemies start on
   * whole tiles and only ever creep by 0.05 of a tile.
   */
  const HUNDREDTHS: int := 100

  datatype GameState = Menu | Play | GameOver | Win

  /** The input flags: four directions and the action button. */
  datatype Input = Input(left: bool, right: bool, up: bool, down: bool, action: bool)

  /**
   * The player: tile cell (x, y), pixel position (px, py) of the top-left
   * corner of its box, hit points, and the invulnerability and attack
   * countdowns in frames.
   */
  datatype Player = Player(x: int, y: int, px: int, py: int, hp: int, invuln: int, atkTimer: int)

  /** A regular enemy, at (x, y) hundredths of a tile. */
  datatype Enemy = Enemy(x: int, y: int, alive: bool)

  /** The boss, on whole tiles, with its attack-phase counter `atk`. */
  datatype Boss = Boss(x: int, y: int, hp: int, atk: int, alive: bool)

  /** Everything one frame reads and writes; `current` indexes the level list. */
  datatype World = World(state: GameState, current: nat, player: Player, enemies: seq<Enemy>, boss: Option<Boss>)

  /** The tile holding the centre of a player box whose corner is at pixel `p`. */
  function TileOf(p: int): int {
    (p + PLAYER_SIZE / 2) / TILE
  }

  /** The player's cell is the tile of its centre. */
  predicate Synced(p: Player) {
    p.x == TileOf(p.px) && p.y == TileOf(p.py)
  }

  /** The player's centre lies on a tile of the grid that is not a wall. */
  predicate Placed(level: Level, p: Player) {
    Synced(p) && !Blocked(level, p.x, p.y)
  }

  /** The state the page loads in: the menu, with the player object's initial fields. */
  const Initial: World := World(Menu, 0, Player(10, 8, 0, 0, PLAYER_HP, 0, 0), [], None)

  /**
   * `player.reset`: the player moves to the level's last spawn cell (keeping
   * its cell when the map has none), is centred in it, and gets full health
   * with both countdowns cleared.
   */
  function Reset(level: Level, p: Player): (r: Player)
    ensures HasSpawn(level) ==> IsSpawnCell(level, r.x, r.y)
    ensures forall x, y :: IsSpawnCell(level, x, y) ==> NotAfter(x, y, r.x, r.y)
    ensures !HasSpawn(level) ==> r.x == p.x && r.y == p.y
    ensures r.px == TILE * r.x + INSET && r.py == TILE * r.y + INSET
    ensures Synced(r)
    ensures HasSpawn(level) ==> Placed(level, r)
    ensures r.hp == PLAYER_HP && r.invuln == 0 && r.atkTimer == 0
  {
    var s := SpawnTile(level, Pos(p.x, p.y));
    Player(s.x, s.y, TILE * s.x + INSET, TILE * s.y + INSET, PLAYER_HP, 0, 0)
  }

  /** A fresh, living enemy on the descriptor's cell. */
  function Spawned(c: Pos): (e: Enemy)
    ensures e.alive
    ensures e.x == HUNDREDTHS * c.x && e.y == HUNDREDTHS * c.y
  {
    Enemy(HUNDREDTHS * c.x, HUNDREDTHS * c.y, true)
  }

  /**
   * `startLevel(n)`: make level `n` current, reset the player, and populate it
   * with living enemies and a fresh boss, if the level has one. The game state
   * is left as it was.
   */
  function StartLevel(levels: seq<Level>, n: nat, w: World): (r: World)
    requires n < |levels|
    ensures r.current == n && r.state == w.state
    ensures r.player == Reset(levels[n], w.player)
    ensures |r.enemies| == |levels[n].enemies|
    ensures forall i :: 0 <= i < |r.enemies| ==>
      r.enemies[i].alive
      && r.enemies[i].x == HUNDREDTHS * levels[n].enemies[i].x
      && r.enemies[i].y == HUNDREDTHS * levels[n].enemies[i].y
    ensures r.boss.Some? <==> levels[n].boss.Some?
    ensures r.boss.Some? ==> r.boss.value == Boss(levels[n].boss.value.x, levels[n].boss.value.y, BOSS_HP, 0, true)
  {
    var level := levels[n];
    var boss := match level.boss
      case None => None
      case Some(c) => Some(Boss(c.x, c.y, BOSS_HP, 0, true));
    World(w.state, n, Reset(level, w.player), seq(|level.enemies|, i requires 0 <= i < |level.enemies| => Spawned(level.enemies[i])), boss)
  }
}
