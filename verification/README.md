# Two browser games as pure state transitions

This project models the game logic of two small browser games and proves properties of it in Dafny 4.11.

- **The action game** (`games/rpg/game.js`) is a top-down action mini-game.
  - A level is a grid of tile characters (`#` wall, `.` floor, `P` player spawn). Each level lists its enemy cells, an optional boss cell and the index of the next level.
  - One frame (`update`) does these things in order:
    1. moves the player by one coarse wall check;
    2. runs the attack timer;
    3. lets every living enemy chase, hurt and be struck;
    4. runs the boss's 90-phase cycle;
    5. moves a cleared level on to the next one, or to victory;
    6. lowers the invulnerability countdown.
  - A 100 ms poller moves the game between `menu`, `play`, `gameover` and `win`.
- **The idle clicker** (`games/bitcoin/bitcoin.js`) keeps a wallet of coin count, miner price and coins per second. Three events act on it: a mine click, a buy click and a one-second tick.

Modules:

- `Wrappers`: `Option`, used for `null` and `undefined`.
- `JsMath`: `Math.abs`, `Math.sign` and JavaScript's truncating `%`.
- `Levels`: level descriptors, the two levels of the game, `tileAt` and the spawn search of `player.reset`.
- `Entities`: player, enemy, boss, world; `player.reset` and `startLevel`.
- `Step`: every phase of `update`, and `update` itself.
- `Game`: the poller, the state machine, the world invariant and the whole-frame lemmas.
- `Miner`: the clicker.

All of it is written as immutable datatypes and pure functions. The globals of the script become the fields of one `World` value. The held keys become an `Input` record of five booleans.

Modelling choices:

- **Enemy coordinates** are integers counting hundredths of a tile.
  - Enemies start on whole tiles and only move by 0.05 of a tile.
  - So the creep step is 5, the contact distance 0.7 is 70, the strike reach 1 is 100 and the chase radius 5 is 500.
  - The player's tile cell is multiplied by 100 before it is compared.
- **Player and boss positions** are integers, as in the game. Player pixel positions are `32 * x + 2` plus steps of 3. The tile of the centre is `floor((px + 14) / 32)`; Dafny's `/` by a positive divisor floors like `Math.floor`.
- **`tileAt`** returns `Option<char>`.
  - Outside the grid it returns `Some('#')`.
  - `None` is the `undefined` that the game reads past the end of a row shorter than the first row. The game treats `undefined` as passable, and so does the model.
- **`update` is split into phases**: `Act` (move, then attack timer), `StepEnemies`, `StepBoss`, `Progress` and `Decay`. `Combat` is everything before progression.
- **Frame order is kept exactly.**
  - A hit that empties the player's hit points sets `gameover`, but progression still runs on that same frame.
  - If that frame also clears the level, it ends either in `win` or in `gameover` with the next level already started and 3 hit points (`Game.DeathOnClearingFrame`).
- **Spawn carry-over.** The dungeon's map has no `P` cell, so `player.reset` keeps the cell the player cleared the plain on.
  - The model keeps this behaviour (`Levels.SecondLevelHasNoSpawn`).
  - As a result, "the player is never in a wall" holds for every frame that does not start a new level, and for a started level only if that level has a spawn cell (`Game.UpdateKeepsPlayerOffWalls`).
  - `Game.StuckInDungeonWall` shows a concrete case: a player who cleared the plain on cell (1, 1) starts the dungeon inside its wall, and no input moves it from there: movement is the only thing that changes its pixel position.

Behaviours of the code that are easy to get wrong:

- **Missing spawn.** Starting a level whose map has no `P` keeps the player's previous cell (see above).
- **Invulnerability after a hit.** The countdown also runs on the frame that deals the damage. So a frame that ends with fewer hit points than it started with ends with invulnerability 29, not 30 (`Game.UpdateHitBound`). A clearing frame that starts the next level resets hit points to 3 and invulnerability to 0 instead.
- **Attack timer.** The timer is set to 10 and lowered on the same frame, so it reads 9 at the end of that frame (`Step.TickAttack`).
- **Strike boxes.** The two strike boxes are not symmetric about the player:
  - The enemy test `Math.abs(e.y - player.y - 1) < 1` puts the enemies' box one tile *below* the player's cell (larger `y`).
  - The boss test `Math.abs(player.y - boss.y - 1) < 2` centres the boss's box one tile *above* the player's cell: the boss's row is the player's row or one or two rows above it.

## Model

| member | source | states |
|---|---|---|
| `JsMath.Abs` | games/rpg/game.js:198 | The absolute value is the number or its negation, and never negative |
| `JsMath.Sign` | games/rpg/game.js:228-229 | The sign is -1, 0 or 1, is 0 exactly for 0, and times the number gives its absolute value |
| `JsMath.Rem` | games/rpg/game.js:217-218 | JavaScript's remainder: for a non-negative number it lies in 0..n-1 and equals the Euclidean one; for a non-positive number it lies in -(n-1)..0; in every case its magnitude is the magnitude of the number modulo n, which fixes its value |
| `Levels.TileAt` | games/rpg/game.js:87-91 | Tile lookup is total: every cell outside the grid (rows by count, columns by the first row) reads as a wall; inside, the map character, or nothing past the end of a short row |
| `Levels.BlockedOutside` | games/rpg/game.js:87-91 | An out-of-grid cell is a wall and never a spawn cell; a cell that is not a wall is inside the grid |
| `Levels.LastSpawnInRow` | games/rpg/game.js:98-101 | Scanning one row, the result is a spawn cell and no later column of the row is one; no result means the scanned columns hold none |
| `Levels.LastSpawnAbove` | games/rpg/game.js:97-101 | Over the first n rows, the result is a spawn cell and every spawn cell comes no later in row-major order; no result means those rows hold none |
| `Levels.RowWithoutSpawn` | games/rpg/game.js:98-99 | Scanning a row that holds no spawn character finds no spawn column |
| `Levels.RowLastSpawn` | games/rpg/game.js:98-101 | A spawn column with no spawn character after it in its row is the one the row scan settles on |
| `Levels.SpawnTile` | games/rpg/game.js:96-101 | The reset cell is the last spawn cell in row-major order, or the previous cell when the map has no spawn cell |
| `Levels.CatalogueIsValid` | games/rpg/game.js:46-85 | There is a first level, and every level's successor index names a level |
| `Levels.FirstLevelSpawn` | games/rpg/game.js:47-65 | The plain spawns the player at column 10 of row 8, wherever it stood before |
| `Levels.SecondLevelHasNoSpawn` | games/rpg/game.js:66-84 | The dungeon's map has no spawn cell, so reset keeps the player's previous cell |
| `Entities.Reset` | games/rpg/game.js:96-107 | Reset puts the player on the last spawn cell (or keeps its cell), centred with pixel position 32·cell+2, its cell equal to its centre's tile, off any wall when a spawn exists, with 3 hit points and both countdowns at 0 |
| `Entities.Spawned` | games/rpg/game.js:113-115 | A freshly listed enemy is alive and stands on its descriptor's cell, at 100 times its tile coordinates in hundredths |
| `Entities.StartLevel` | games/rpg/game.js:110-117 | Starting level n makes it current, keeps the game state, resets the player, lists one living enemy per descriptor at its cell, and creates a boss with 5 hit points, phase 0 and alive exactly when the level has one |
| `Step.Axis` | games/rpg/game.js:172-173 | A direction key pair gives +1 exactly when only the positive key (right, down) is held, -1 exactly when only the negative key (left, up) is held, and 0 otherwise |
| `Step.Move` | games/rpg/game.js:172-186 | Movement keeps hit points and countdowns; no direction means no move; the player either stays exactly where it was or is displaced by the full 3-pixel step on both axes (no sliding); it moves exactly when the displaced centre's tile is not a wall; and the player stays on a non-wall, in-grid tile equal to its centre's tile |
| `Step.TickAttack` | games/rpg/game.js:189-192 | Only the attack timer changes; from 0..10 it ends in 0..9; action with no running attack gives 9; a running timer drops by one; otherwise it is unchanged |
| `Step.Act` | games/rpg/game.js:171-192 | The player's own part of a frame keeps hit points and invulnerability, keeps the player off walls and on its centre's tile, and keeps the attack timer in range |
| `Step.Hurt` | games/rpg/game.js:203-207 | Contact damage costs a hit point exactly when the player is not invulnerable, sets invulnerability to 30, ends the game when no hit points remain, and changes nothing else |
| `Step.AtMostOneHitTrans` | games/rpg/game.js:203-224 | Two successive combat phases together still cost at most one hit point, because every damage site sets invulnerability |
| `Step.Chase` | games/rpg/game.js:197-201 | An enemy moves only within Manhattan distance 5 of the player, along x when its x offset is larger and along y otherwise, by 0.05 of a tile toward the player, and by exactly that unless it is on the player's cell |
| `Step.StepEnemy` | games/rpg/game.js:195-214 | A dead enemy is skipped. A living one takes its chase position and hurts the player if and only if it touches there and the player is not invulnerable, at most once. It dies exactly when the running attack's box, one tile below the player, holds it. Other enemies, the boss and the level are unchanged |
| `Step.StepEnemies` | games/rpg/game.js:195-214 | Over the whole enemy loop, every living enemy ends at its chase position and dies exactly when struck there. The player loses one hit point if and only if it is not invulnerable and some living enemy touches it after chasing, and never more than one. Dead enemies stay exactly as they were and none is revived; the player's cell, its attack timer, the boss and the level are unchanged |
| `Step.StepBoss` | games/rpg/game.js:216-236 | A missing or dead boss changes nothing. A living boss's counter steps cyclically within 0..89. It hurts the player if and only if the new phase is divisible by 30, the player is within 2 tiles and not invulnerable. On a phase divisible by 50 it steps one tile toward the player on each axis, and it moves on no other phase. It loses one hit point exactly when a running attack's box (centred one tile up) holds it, and dies exactly when that strike leaves it with none |
| `Step.Progress` | games/rpg/game.js:238-244 | A level that is not cleared is kept; a cleared last level wins; a cleared level with a successor starts it without touching the game state |
| `Step.Decay` | games/rpg/game.js:246 | Only invulnerability changes: it drops by one when positive and is otherwise unchanged |
| `Step.Combat` | games/rpg/game.js:171-236 | Before progression, every living enemy ends at its chase position from the player's moved cell and dies exactly when struck there. The player loses one hit point if and only if it is not invulnerable and a living enemy touches it or the living boss attacks it, and never more. A living boss advances its phase, steps toward the player exactly on phases divisible by 50, and loses a hit point exactly when struck. Dead enemies and a dead boss are kept and nothing is revived |
| `Step.Update` | games/rpg/game.js:169-247 | A frame outside play changes nothing, and the current level stays a valid index |
| `Game.Poll` | games/rpg/game.js:290-298 | Action on the menu starts level 0 in play; action on game over or victory returns to the menu; anything else changes nothing |
| `Game.InitialInv` | games/rpg/game.js:94-95 | The page's starting world satisfies the world invariant |
| `Game.PollPreservesInv` | games/rpg/game.js:290-298 | The poller keeps the world invariant, follows the game-state machine, and never changes the state during play |
| `Game.CombatBounds` | games/rpg/game.js:188-236 | In play, the combat phase leaves hit points in 0..3 and at most one lower, sets invulnerability to 30 exactly on a hit and keeps it otherwise, keeps the attack timer in 0..9, the player on its centre's tile and the boss counter in 0..89, and ends the game exactly when no hit points remain |
| `Game.UpdatePreservesInv` | games/rpg/game.js:169-247 | A frame keeps the world invariant (hit points 0..3, invulnerability 0..29, attack timer 0..9, boss counter 0..89, a living, tile-synchronised player in play) and changes the game state only from play, along the state machine's edges |
| `Game.UpdateHitBound` | games/rpg/game.js:203-246 | A frame lowers hit points by at most one, a frame that lowers them ends with invulnerability 29, invulnerability never goes negative, and a frame that leaves no hit points ends play |
| `Game.UpdateWhileInvulnerable` | games/rpg/game.js:246 | While invulnerable, and unless a new level starts, a frame costs no hit point and the counter drops by exactly one |
| `Game.UpdateProgression` | games/rpg/game.js:238-244 | A frame that does not clear the level keeps it; clearing the last level wins; clearing another starts its successor with a fresh player, all enemies alive and its boss, keeping the state the frame reached |
| `Game.DeathOnClearingFrame` | games/rpg/game.js:203-244 | Losing the last hit point on a clearing frame ends in victory on the last level, and otherwise in game over with the next level started and 3 hit points |
| `Game.DeadStayDead` | games/rpg/game.js:195-236 | Unless a new level starts, a frame leaves dead enemies and a dead boss exactly as they were and revives nothing |
| `Game.UpdateKeepsPlayerOffWalls` | games/rpg/game.js:172-186 | Unless a new level starts, a frame keeps the player's centre on an in-grid non-wall tile; a started level with a spawn cell places it on one |
| `Game.StuckInDungeonWall` | games/rpg/game.js:96-103 | A player who cleared the plain on cell (1, 1) starts the dungeon inside a wall there, and a player at that pixel position does not move on any input |
| `Miner.Mine` | games/bitcoin/bitcoin.js:12-15 | Mining adds exactly one coin and changes nothing else |
| `Miner.NextCost` | games/bitcoin/bitcoin.js:21 | The new price is the floor of 1.1 times the old one, and it is strictly higher whenever the old price is at least 10 |
| `Miner.Buy` | games/bitcoin/bitcoin.js:17-28 | A purchase succeeds exactly when the coins cover the price. On success it pays the price, leaving no debt, adds one coin per second and raises the price to the floor of 1.1 times, strictly above a price of at least 10. On failure it only alerts and the wallet is unchanged |
| `Miner.Tick` | games/bitcoin/bitcoin.js:31-34 | A second adds exactly the per-second rate to the coins, keeps price and rate, and never lowers the coins when the rate is non-negative |
| `Miner.CostAfter` | games/bitcoin/bitcoin.js:9-21 | The price after n purchases is at least 10 + n |
| `Miner.InitialValid` | games/bitcoin/bitcoin.js:8-10 | The starting wallet (0 coins, price 10, rate 0) satisfies the wallet invariant |
| `Miner.ApplyKeepsValid` | games/bitcoin/bitcoin.js:12-34 | Every event keeps coins and rate non-negative and the price equal to the price after as many purchases as the rate counts |
| `Miner.RunKeepsValid` | games/bitcoin/bitcoin.js:12-34 | Any sequence of events keeps the wallet invariant |
| `Miner.Reachable` | games/bitcoin/bitcoin.js:8-34 | Every reachable wallet has non-negative coins and rate and a price of at least 10 |

## Left out

- DOM, touch and keyboard wiring (games/rpg/game.js:2-39, games/bitcoin/bitcoin.js:1-7): I/O. Held keys are an `Input` record of five booleans.
- Canvas drawing (`drawMap`, `drawPlayer`, `drawEnemies`, `drawBoss`, `draw`): these only read the world.
- `requestAnimationFrame` and both `setInterval` timers: scheduling only. A run of the game is any sequence of `Update` and `Poll` calls, and a run of the clicker is a sequence of `Event`s. Both scripts run on one thread, so nothing interleaves inside a call.
- The `alert` on a refused purchase: it is the `alerted` flag of `Miner.Buy`'s result and changes no state. The text updates of the counters are output only.
- Floating point.
  - Enemy coordinates accumulate 0.05 in IEEE doubles. The model counts exact hundredths, so three kinds of case can differ from the double computation:
    - A comparison that lands exactly on a threshold (0.7, 1 or 5 tiles).
    - An enemy exactly on the player's row or column in hundredths may be a rounding error away from it in doubles. There `Math.sign` is ±1 instead of 0, so the enemy can still creep.
    - A tie between `|dx|` and `|dy|`, which rounding can break either way and so move the enemy on the other axis.
  - `Math.floor(cost * 1.1)` is integer arithmetic here. The two agree while the price stays far below 2^49, where one unit in the last place of the product stays under 0.1.
  - The coin count is an unbounded integer, not a double that loses precision above 2^53.
- `Entities.StartLevel`: does not set the enemies' `hp: 1` and `dir: 1` fields, which `update` never reads. The enemy and boss type tags and the `E`/`B` map letters are left out for the same reason.
- Level names: kept in the data. They are only drawn.
- `Step.Update`: requires the current level index to name a level. The game would fail with a `TypeError` otherwise, and every reachable world satisfies it (`Game.Inv`).
