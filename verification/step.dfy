/**
 * One frame of the action game (`update`): player movement and attack,
 * enemy chase and combat, the boss's phase counter, level progression and
 * invulnerability decay.
 */
module Step {
  import opened Wrappers
  import opened JsMath
  import opened Levels
  import opened Entities

  /** Pixels the player moves per frame on each pressed axis. */
  const SPEED: int := 3
  const ATTACK_FRAMES: int := 10
  const INVULN_FRAMES: int := 30
  /** Enemy speed, 0.05 of a tile per frame. */
  const CREEP: int := 5
  /** Enemies chase within a Manhattan distance of 5 tiles. */
  const CHASE_RADIUS: int := 500
  /** An enemy touches the player within 0.7 of a tile on both axes. */
  const CONTACT: int := 70
  /** The strike reaches enemies within 1 tile on both axes. */
  const STRIKE_REACH: int := 100
  const BOSS_CYCLE: int := 90
  const BOSS_ATTACK_PERIOD: int := 30
  const BOSS_MOVE_PERIOD: int := 50
  /** The boss touches, and is struck, within 2 tiles on both axes. */
  const BOSS_REACH: int := 2

  /** The velocity on one axis: +1, -1, or 0 when both or neither key is held. */
  function Axis(negative: bool, positive: bool): (v: int)
    ensures -1 <= v <= 1
    ensures v == 1 <==> positive && !negative
    ensures v == -1 <==> negative && !positive
    ensures v != 0 <==> negative != positive
  {
    (if positive then 1 else 0) - (if negative then 1 else 0)
  }

  function Vx(input: Input): int { Axis(input.left, input.right) }
  function Vy(input: Input): int { Axis(input.up, input.down) }

  /**
   * Player movement: the whole displacement is committed when the tile under
   * the displaced centre is not a wall, and discarded otherwise; there is no
   * sliding along one axis.
   */
  function Move(level: Level, p: Player, input: Input): (r: Player)
    ensures r.hp == p.hp && r.invuln == p.invuln && r.atkTimer == p.atkTimer
    ensures Vx(input) == 0 && Vy(input) == 0 ==> r == p
    ensures r == p || (r.px == p.px + SPEED * Vx(input) && r.py == p.py + SPEED * Vy(input))
    ensures r != p ==> Synced(r) && !Blocked(level, r.x, r.y)
    ensures (Vx(input) != 0 || Vy(input) != 0) && r == p ==>
      Blocked(level, TileOf(p.px + SPEED * Vx(input)), TileOf(p.py + SPEED * Vy(input)))
    ensures Placed(level, p) ==> Placed(level, r)
  {
    var vx := Vx(input);
    var vy := Vy(input);
    if vx == 0 && vy == 0 then p
    else
      var nx := p.px + SPEED * vx;
      var ny := p.py + SPEED * vy;
      if !Blocked(level, TileOf(nx), TileOf(ny)) then
        p.(px := nx, py := ny, x := TileOf(nx), y := TileOf(ny))
      else p
  }

  /** The attack timer: action starts a 10-frame attack when none runs; the timer then counts down. */
  function TickAttack(p: Player, action: bool): (r: Player)
    ensures r == p.(atkTimer := r.atkTimer)
    ensures 0 <= p.atkTimer <= ATTACK_FRAMES ==> 0 <= r.atkTimer < ATTACK_FRAMES
    ensures action && p.atkTimer <= 0 ==> r.atkTimer == ATTACK_FRAMES - 1
    ensures p.atkTimer > 0 ==> r.atkTimer == p.atkTimer - 1
    ensures !action && p.atkTimer <= 0 ==> r.atkTimer == p.atkTimer
  {
    var t := if action && p.atkTimer <= 0 then ATTACK_FRAMES else p.atkTimer;
    p.(atkTimer := if t > 0 then t - 1 else t)
  }

  /** The player's own part of a frame: move, then run the attack timer. */
  function Act(level: Level, p: Player, input: Input): (r: Player)
    ensures r.hp == p.hp && r.invuln == p.invuln
    ensures Placed(level, p) ==> Placed(level, r)
    ensures Synced(p) ==> Synced(r)
    ensures 0 <= p.atkTimer <= ATTACK_FRAMES ==> 0 <= r.atkTimer < ATTACK_FRAMES
  {
    TickAttack(Move(level, p, input), input.action)
  }

  /**
   * How combat may change the player and the game state: nothing, or one hit
   * taken while not invulnerable, which makes the player invulnerable and
   * ends the game when it leaves no hit points.
   */
  predicate AtMostOneHit(w: World, r: World) {
    && (r.player == w.player
        || (w.player.invuln <= 0 && r.player == w.player.(hp := w.player.hp - 1, invuln := INVULN_FRAMES)))
    && r.state == (if r.player.hp < w.player.hp && r.player.hp <= 0 then GameOver else w.state)
  }

  /** A hit sets invulnerability, so two successive combat phases still take at most one hit. */
  lemma AtMostOneHitTrans(a: World, b: World, c: World)
    requires AtMostOneHit(a, b) && AtMostOneHit(b, c)
    ensures AtMostOneHit(a, c)
  {
  }

  /** Contact damage, shared by enemies and the boss: ignored while invulnerable. */
  function Hurt(w: World): (r: World)
    ensures AtMostOneHit(w, r)
    ensures w.player.invuln <= 0 <==> r.player.hp == w.player.hp - 1
    ensures r == w.(player := r.player, state := r.state)
  {
    if w.player.invuln > 0 then w
    else
      var hp := w.player.hp - 1;
      w.(player := w.player.(hp := hp, invuln := INVULN_FRAMES),
         state := if hp <= 0 then GameOver else w.state)
  }

  /** Offset from an enemy to the player, in hundredths of a tile. */
  function Dx(p: Player, e: Enemy): int { HUNDREDTHS * p.x - e.x }
  function Dy(p: Player, e: Enemy): int { HUNDREDTHS * p.y - e.y }

  /**
   * Enemy chase: within the chase radius an enemy creeps 0.05 of a tile toward
   * the player along the axis of larger offset (vertically on a tie).
   */
  function Chase(p: Player, e: Enemy): (r: Enemy)
    ensures r.alive == e.alive
    ensures r != e ==> Abs(Dx(p, e)) + Abs(Dy(p, e)) < CHASE_RADIUS
    ensures Abs(Dx(p, e)) > Abs(Dy(p, e)) ==> r.y == e.y
    ensures Abs(Dx(p, e)) <= Abs(Dy(p, e)) ==> r.x == e.x
    ensures r.x == e.x || r.x - e.x == CREEP * Sign(Dx(p, e))
    ensures r.y == e.y || r.y - e.y == CREEP * Sign(Dy(p, e))
    ensures Abs(Dx(p, e)) + Abs(Dy(p, e)) < CHASE_RADIUS && (Dx(p, e) != 0 || Dy(p, e) != 0) ==>
      Abs(r.x - e.x) + Abs(r.y - e.y) == CREEP
  {
    var dx := Dx(p, e);
    var dy := Dy(p, e);
    if Abs(dx) + Abs(dy) < CHASE_RADIUS then
      if Abs(dx) > Abs(dy) then e.(x := e.x + CREEP * Sign(dx))
      else e.(y := e.y + CREEP * Sign(dy))
    else e
  }

  /** The enemy is close enough to hurt the player. */
  predicate Touching(p: Player, e: Enemy) {
    Abs(e.x - HUNDREDTHS * p.x) < CONTACT && Abs(e.y - HUNDREDTHS * p.y) < CONTACT
  }

  /** The enemy is inside the strike box, which is centred one tile below the player's cell. */
  predicate InStrike(p: Player, e: Enemy) {
    Abs(e.x - HUNDREDTHS * p.x) < STRIKE_REACH && Abs(e.y - HUNDREDTHS * p.y - HUNDREDTHS) < STRIKE_REACH
  }

  /**
   * One living enemy's turn: chase, then contact damage, then a strike that
   * kills it outright. A dead enemy is skipped.
   */
  function StepEnemy(w: World, i: nat): (r: World)
    requires i < |w.enemies|
    ensures |r.enemies| == |w.enemies|
    ensures forall j :: 0 <= j < |w.enemies| && j != i ==> r.enemies[j] == w.enemies[j]
    ensures r.current == w.current && r.boss == w.boss
    ensures !w.enemies[i].alive ==> r == w
    ensures AtMostOneHit(w, r)
    ensures r.player != w.player ==> Touching(w.player, r.enemies[i])
    ensures w.enemies[i].alive && Touching(w.player, Chase(w.player, w.enemies[i])) && w.player.invuln <= 0 ==>
      r.player.hp == w.player.hp - 1
    ensures w.enemies[i].alive ==>
      && r.enemies[i].x == Chase(w.player, w.enemies[i]).x
      && r.enemies[i].y == Chase(w.player, w.enemies[i]).y
      && (r.enemies[i].alive <==> !(w.player.atkTimer > 0 && InStrike(w.player, r.enemies[i])))
    ensures r.enemies[i].alive ==> w.enemies[i].alive
  {
    var e := w.enemies[i];
    if !e.alive then w
    else
      var moved := Chase(w.player, e);
      var w1 := if Touching(w.player, moved) then Hurt(w) else w;
      var struck := w.player.atkTimer > 0 && InStrike(w.player, moved);
      w1.(enemies := w.enemies[i := moved.(alive := !struck)])
  }

  /** Some living enemy from index `i` on touches the player once it has chased. */
  predicate EnemyTouches(p: Player, es: seq<Enemy>, i: nat) {
    exists j :: i <= j < |es| && es[j].alive && Touching(p, Chase(p, es[j]))
  }

  /**
   * The enemy loop, from enemy `i` to the last, each enemy seeing the previous
   * ones' effect on the player. The player's cell and attack timer do not
   * change inside the loop, so every living enemy ends at its chase position
   * and dies exactly when struck, and the player takes a hit exactly when it
   * is not invulnerable and some living enemy touches it.
   */
  function StepEnemies(w: World, i: nat): (r: World)
    requires i <= |w.enemies|
    decreases |w.enemies| - i
    ensures |r.enemies| == |w.enemies|
    ensures r.current == w.current && r.boss == w.boss
    ensures AtMostOneHit(w, r)
    ensures r.player.x == w.player.x && r.player.y == w.player.y && r.player.atkTimer == w.player.atkTimer
    ensures forall j :: 0 <= j < i ==> r.enemies[j] == w.enemies[j]
    ensures forall j :: 0 <= j < |w.enemies| && !w.enemies[j].alive ==> r.enemies[j] == w.enemies[j]
    ensures forall j :: 0 <= j < |w.enemies| && r.enemies[j].alive ==> w.enemies[j].alive
    ensures forall j :: i <= j < |w.enemies| && w.enemies[j].alive ==>
      && r.enemies[j].x == Chase(w.player, w.enemies[j]).x
      && r.enemies[j].y == Chase(w.player, w.enemies[j]).y
      && (r.enemies[j].alive <==> !(w.player.atkTimer > 0 && InStrike(w.player, Chase(w.player, w.enemies[j]))))
    ensures r.player.hp == w.player.hp - 1 <==> w.player.invuln <= 0 && EnemyTouches(w.player, w.enemies, i)
  {
    if i == |w.enemies| then w
    else
      var w1 := StepEnemy(w, i);
      var r := StepEnemies(w1, i + 1);
      AtMostOneHitTrans(w, w1, r);
      r
  }

  /** The boss's counter advanced by one frame, wrapping at 90. */
  function NextPhase(atk: int): int {
    Rem(atk + 1, BOSS_CYCLE)
  }

  /** The living boss, on the phase it is about to enter, attacks a player within reach. */
  predicate BossAttacks(p: Player, boss: Option<Boss>) {
    && boss.Some? && boss.value.alive
    && Rem(NextPhase(boss.value.atk), BOSS_ATTACK_PERIOD) == 0
    && BossTouching(p, boss.value)
  }

  predicate BossTouching(p: Player, b: Boss) {
    Abs(p.x - b.x) < BOSS_REACH && Abs(p.y - b.y) < BOSS_REACH
  }

  /**
   * The boss's wider strike box: within one column of the player, and on the
   * player's row or one or two rows above it (the box is centred one tile up).
   */
  predicate BossInStrike(p: Player, b: Boss) {
    Abs(p.x - b.x) < BOSS_REACH && Abs(p.y - b.y - 1) < BOSS_REACH
  }

  /**
   * The living boss's turn: advance the phase counter; on every 30th phase hurt
   * a nearby player; on every 50th phase step one tile toward the player on
   * each axis; then take at most one strike from its 5-point pool.
   */
  function StepBoss(w: World): (r: World)
    ensures r.enemies == w.enemies && r.current == w.current
    ensures r.boss.Some? <==> w.boss.Some?
    ensures w.boss.None? || !w.boss.value.alive ==> r == w
    ensures AtMostOneHit(w, r)
    ensures w.boss.Some? && w.boss.value.alive ==>
      var b, b' := w.boss.value, r.boss.value;
      && (0 <= b.atk < BOSS_CYCLE ==>
            0 <= b'.atk < BOSS_CYCLE && b'.atk == (if b.atk == BOSS_CYCLE - 1 then 0 else b.atk + 1))
      && (r.player != w.player ==> Rem(b'.atk, BOSS_ATTACK_PERIOD) == 0 && BossTouching(w.player, b))
      && (Rem(b'.atk, BOSS_ATTACK_PERIOD) == 0 && BossTouching(w.player, b) && w.player.invuln <= 0 ==>
            r.player.hp == w.player.hp - 1)
      && ((b'.x != b.x || b'.y != b.y) ==> Rem(b'.atk, BOSS_MOVE_PERIOD) == 0)
      && (Rem(b'.atk, BOSS_MOVE_PERIOD) == 0 ==>
            b'.x == b.x + Sign(w.player.x - b.x) && b'.y == b.y + Sign(w.player.y - b.y))
      && Abs(b'.x - b.x) <= 1 && Abs(b'.y - b.y) <= 1
      && (b'.hp == b.hp || b'.hp == b.hp - 1)
      && (b'.hp == b.hp - 1 <==> w.player.atkTimer > 0 && BossInStrike(w.player, b'))
      && (b'.alive <==> !(b'.hp < b.hp && b'.hp <= 0))
  {
    match w.boss
    case None => w
    case Some(b) =>
      if !b.alive then w
      else
        var p := w.player;
        var atk := NextPhase(b.atk);
        var w1 := if Rem(atk, BOSS_ATTACK_PERIOD) == 0 && BossTouching(p, b) then Hurt(w) else w;
        var b1 := if Rem(atk, BOSS_MOVE_PERIOD) == 0
          then b.(atk := atk, x := b.x + Sign(p.x - b.x), y := b.y + Sign(p.y - b.y))
          else b.(atk := atk);
        var b2 := if p.atkTimer > 0 && BossInStrike(p, b1)
          then b1.(hp := b1.hp - 1, alive := b1.hp - 1 > 0)
          else b1;
        w1.(boss := Some(b2))
  }

  /** No enemy is alive and there is no living boss. */
  predicate Cleared(w: World) {
    && (forall j :: 0 <= j < |w.enemies| ==> !w.enemies[j].alive)
    && (w.boss.None? || !w.boss.value.alive)
  }

  /**
   * Level progression: a cleared level starts its successor, or wins the game
   * when it is the last one. It runs even when this frame already ended the
   * game, and starting a level does not change the game state.
   */
  function Progress(levels: seq<Level>, w: World): (r: World)
    requires ValidCatalogue(levels) && w.current < |levels|
    ensures r.current < |levels|
    ensures !Cleared(w) ==> r == w
    ensures Cleared(w) && levels[w.current].next.None? ==> r == w.(state := Win)
    ensures Cleared(w) && levels[w.current].next.Some? ==>
      r == StartLevel(levels, levels[w.current].next.value, w)
  {
    if !Cleared(w) then w
    else match levels[w.current].next
      case Some(n) => StartLevel(levels, n, w)
      case None => w.(state := Win)
  }

  /** Invulnerability wears off by one frame, never below zero. */
  function Decay(w: World): (r: World)
    ensures r == w.(player := r.player)
    ensures r.player == w.player.(invuln := r.player.invuln)
    ensures w.player.invuln > 0 ==> r.player.invuln == w.player.invuln - 1
    ensures w.player.invuln <= 0 ==> r.player.invuln == w.player.invuln
  {
    if w.player.invuln > 0 then w.(player := w.player.(invuln := w.player.invuln - 1)) else w
  }

  /** Everything a frame does before level progression. */
  function Combat(levels: seq<Level>, w: World, input: Input): (r: World)
    requires w.current < |levels|
    ensures r.current == w.current
    ensures |r.enemies| == |w.enemies|
    ensures forall j :: 0 <= j < |w.enemies| && !w.enemies[j].alive ==> r.enemies[j] == w.enemies[j]
    ensures forall j :: 0 <= j < |w.enemies| && r.enemies[j].alive ==> w.enemies[j].alive
    ensures r.boss.Some? <==> w.boss.Some?
    ensures w.boss.Some? && !w.boss.value.alive ==> r.boss == w.boss
    ensures AtMostOneHit(w.(player := Act(levels[w.current], w.player, input)), r)
    ensures var a := Act(levels[w.current], w.player, input);
      forall j :: 0 <= j < |w.enemies| && w.enemies[j].alive ==>
        && r.enemies[j].x == Chase(a, w.enemies[j]).x
        && r.enemies[j].y == Chase(a, w.enemies[j]).y
        && (r.enemies[j].alive <==> !(a.atkTimer > 0 && InStrike(a, Chase(a, w.enemies[j]))))
    ensures var a := Act(levels[w.current], w.player, input);
      r.player.hp == w.player.hp - 1 <==>
        w.player.invuln <= 0 && (EnemyTouches(a, w.enemies, 0) || BossAttacks(a, w.boss))
    ensures var a := Act(levels[w.current], w.player, input);
      w.boss.Some? && w.boss.value.alive ==>
        var b, b' := w.boss.value, r.boss.value;
        && b'.atk == NextPhase(b.atk)
        && (Rem(b'.atk, BOSS_MOVE_PERIOD) == 0 ==> b'.x == b.x + Sign(a.x - b.x) && b'.y == b.y + Sign(a.y - b.y))
        && (Rem(b'.atk, BOSS_MOVE_PERIOD) != 0 ==> b'.x == b.x && b'.y == b.y)
        && (b'.hp == b.hp - 1 <==> a.atkTimer > 0 && BossInStrike(a, b'))
        && (b'.hp == b.hp || b'.hp == b.hp - 1)
        && (b'.alive <==> b'.hp > 0 || b'.hp == b.hp)
  {
    var w0 := w.(player := Act(levels[w.current], w.player, input));
    StepBoss(StepEnemies(w0, 0))
  }

  /**
   * `update`: one frame. Nothing happens outside play; otherwise the player
   * acts, enemies and boss take their turns, a cleared level is left, and
   * invulnerability wears off.
   */
  function Update(levels: seq<Level>, w: World, input: Input): (r: World)
    requires ValidCatalogue(levels) && w.current < |levels|
    ensures r.current < |levels|
    ensures w.state != Play ==> r == w
  {
    if w.state != Play then w
    else Decay(Progress(levels, Combat(levels, w, input)))
  }
}
