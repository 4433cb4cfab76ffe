/**
 * The game-state machine around the frame step: the 100 ms poller that
 * leaves the menu and the end screens, the invariant every reachable world
 * keeps, and the properties of a whole frame.
 */
module Game {
  import opened Wrappers
  import opened Levels
  import opened Entities
  import opened Step

  /**
   * The poller: action on the menu starts the first level in play; action on
   * the game-over or victory screen returns to the menu. Nothing else changes.
   */
  function Poll(levels: seq<Level>, w: World, action: bool): (r: World)
    requires ValidCatalogue(levels)
    ensures w.state == Menu && action ==> r == StartLevel(levels, 0, w).(state := Play)
    ensures (w.state == GameOver || w.state == Win) && action ==> r == w.(state := Menu)
    ensures !action || w.state == Play ==> r == w
  {
    var w1 := if w.state == Menu && action then StartLevel(levels, 0, w.(state := Play)) else w;
    if (w1.state == GameOver || w1.state == Win) && action then w1.(state := Menu) else w1
  }

  /** The moves of the game-state machine: menu to play, play to game over or victory, either end screen back to the menu. */
  predicate Edge(s: GameState, t: GameState) {
    || s == t
    || (s == Menu && t == Play)
    || (s == Play && (t == GameOver || t == Win))
    || ((s == GameOver || s == Win) && t == Menu)
  }

  /**
   * What holds of every world the game reaches: a valid level index, hit
   * points within 0..3, countdowns within their ranges, the boss counter in
   * 0..89, and, in play, a living player whose cell is its centre's tile.
   */
  predicate Inv(levels: seq<Level>, w: World) {
    && ValidCatalogue(levels)
    && w.current < |levels|
    && 0 <= w.player.hp <= PLAYER_HP
    && 0 <= w.player.invuln < INVULN_FRAMES
    && 0 <= w.player.atkTimer < ATTACK_FRAMES
    && (w.boss.Some? ==> 0 <= w.boss.value.atk < BOSS_CYCLE && w.boss.value.hp <= BOSS_HP)
    && (w.state == Play ==> w.player.hp >= 1 && Synced(w.player))
  }

  /** The frame starts the next level: play, the level is cleared and has a successor. */
  predicate StartsNextLevel(levels: seq<Level>, w: World, input: Input)
    requires w.current < |levels|
  {
    w.state == Play && Cleared(Combat(levels, w, input)) && levels[w.current].next.Some?
  }

  lemma InitialInv(levels: seq<Level>)
    requires ValidCatalogue(levels)
    ensures Inv(levels, Initial)
  {
  }

  lemma PollPreservesInv(levels: seq<Level>, w: World, action: bool)
    requires Inv(levels, w)
    ensures Inv(levels, Poll(levels, w, action))
    ensures Edge(w.state, Poll(levels, w, action).state)
    ensures Poll(levels, w, action).state != w.state ==> w.state != Play
  {
  }

  /** The combat phase of a frame in play keeps the player's hit points, countdowns and cell within the invariant. */
  lemma CombatBounds(levels: seq<Level>, w: World, input: Input)
    requires Inv(levels, w) && w.state == Play
    ensures var c := Combat(levels, w, input);
      && 0 <= c.player.hp <= PLAYER_HP
      && c.player.hp >= w.player.hp - 1
      && (c.player.hp < w.player.hp ==> c.player.invuln == INVULN_FRAMES)
      && (c.player.hp == w.player.hp ==> c.player.invuln == w.player.invuln)
      && 0 <= c.player.atkTimer < ATTACK_FRAMES
      && Synced(c.player)
      && (c.state == Play || c.state == GameOver)
      && (c.state == GameOver <==> c.player.hp <= 0)
      && (c.boss.Some? ==> 0 <= c.boss.value.atk < BOSS_CYCLE && c.boss.value.hp <= BOSS_HP)
  {
    var a := Act(levels[w.current], w.player, input);
    var w0 := w.(player := a);
    var e := StepEnemies(w0, 0);
    var c := StepBoss(e);
    assert c == Combat(levels, w, input);
    assert AtMostOneHit(w0, e);
    assert AtMostOneHit(e, c);
  }

  lemma UpdatePreservesInv(levels: seq<Level>, w: World, input: Input)
    requires Inv(levels, w)
    ensures Inv(levels, Update(levels, w, input))
    ensures Edge(w.state, Update(levels, w, input).state)
    ensures Update(levels, w, input).state != w.state ==> w.state == Play
  {
    if w.state == Play {
      CombatBounds(levels, w, input);
    }
  }

  /**
   * Hit points drop by at most one per frame, and a frame that costs a hit
   * point ends with invulnerability at 29; a frame that ends with no hit
   * points left ends play.
   */
  lemma UpdateHitBound(levels: seq<Level>, w: World, input: Input)
    requires Inv(levels, w)
    ensures var r := Update(levels, w, input);
      && r.player.hp >= w.player.hp - 1
      && (r.player.hp < w.player.hp ==> r.player.invuln == INVULN_FRAMES - 1)
      && r.player.invuln >= 0
      && (r.player.hp <= 0 ==> r.state != Play)
  {
    if w.state == Play {
      CombatBounds(levels, w, input);
    }
  }

  /** While invulnerable, and unless a new level starts, a frame costs no hit point and the counter drops by one. */
  lemma UpdateWhileInvulnerable(levels: seq<Level>, w: World, input: Input)
    requires Inv(levels, w) && w.state == Play && w.player.invuln > 0
    requires !StartsNextLevel(levels, w, input)
    ensures Update(levels, w, input).player.hp == w.player.hp
    ensures Update(levels, w, input).player.invuln == w.player.invuln - 1
  {
    CombatBounds(levels, w, input);
  }

  /**
   * Progression: a frame in play that clears the level starts the successor
   * (keeping the state the frame reached) or wins; otherwise the level stays.
   */
  lemma UpdateProgression(levels: seq<Level>, w: World, input: Input)
    requires ValidCatalogue(levels) && w.current < |levels| && w.state == Play
    ensures var c, r := Combat(levels, w, input), Update(levels, w, input);
      && (!Cleared(c) ==> r.current == w.current && r.state == c.state && r.enemies == c.enemies)
      && (Cleared(c) && levels[w.current].next.None? ==> r.state == Win && r.current == w.current)
      && (Cleared(c) && levels[w.current].next.Some? ==>
            var n := levels[w.current].next.value;
            && r.current == n && r.state == c.state
            && r.player.hp == PLAYER_HP && r.player.invuln == 0 && r.player.atkTimer == 0
            && |r.enemies| == |levels[n].enemies|
            && (forall j :: 0 <= j < |r.enemies| ==> r.enemies[j].alive)
            && (r.boss.Some? <==> levels[n].boss.Some?))
  {
  }

  /**
   * The ordering of a frame: a hit that empties the player's hit points on the
   * frame that clears the level still lets progression run, so the frame ends
   * in victory on the last level, and otherwise in the game-over state with
   * the next level already started and hit points restored.
   */
  lemma DeathOnClearingFrame(levels: seq<Level>, w: World, input: Input)
    requires Inv(levels, w) && w.state == Play
    requires Combat(levels, w, input).player.hp <= 0 && Cleared(Combat(levels, w, input))
    ensures levels[w.current].next.None? ==> Update(levels, w, input).state == Win
    ensures levels[w.current].next.Some? ==>
      && Update(levels, w, input).state == GameOver
      && Update(levels, w, input).current == levels[w.current].next.value
      && Update(levels, w, input).player.hp == PLAYER_HP
  {
    CombatBounds(levels, w, input);
  }

  /** Unless a new level starts, dead enemies and a dead boss stay exactly as they were, and nothing is revived. */
  lemma DeadStayDead(levels: seq<Level>, w: World, input: Input)
    requires ValidCatalogue(levels) && w.current < |levels|
    requires !StartsNextLevel(levels, w, input)
    ensures var r := Update(levels, w, input);
      && |r.enemies| == |w.enemies|
      && (forall j :: 0 <= j < |w.enemies| && !w.enemies[j].alive ==> r.enemies[j] == w.enemies[j])
      && (forall j :: 0 <= j < |w.enemies| && r.enemies[j].alive ==> w.enemies[j].alive)
      && (w.boss.Some? && !w.boss.value.alive ==> r.boss == w.boss)
      && (r.boss.Some? <==> w.boss.Some?)
  {
  }

  /**
   * The player never enters a wall: unless a new level starts, a frame keeps
   * the player's centre on an in-grid, non-wall tile; a started level with a
   * spawn cell places it there.
   */
  lemma UpdateKeepsPlayerOffWalls(levels: seq<Level>, w: World, input: Input)
    requires Inv(levels, w) && Placed(levels[w.current], w.player)
    ensures !StartsNextLevel(levels, w, input) ==>
      Placed(levels[Update(levels, w, input).current], Update(levels, w, input).player)
    ensures StartsNextLevel(levels, w, input) && HasSpawn(levels[Update(levels, w, input).current]) ==>
      Placed(levels[Update(levels, w, input).current], Update(levels, w, input).player)
  {
    if w.state == Play {
      var a := Act(levels[w.current], w.player, input);
      var w0 := w.(player := a);
      var c := Combat(levels, w, input);
      assert AtMostOneHit(w0, c);
      assert c.player.x == a.x && c.player.y == a.y && c.player.px == a.px && c.player.py == a.py;
    }
  }

  /**
   * The dungeon's map has no spawn cell, so `startLevel` keeps the cell the
   * player cleared the plain on. From cell (1, 1), a wall in the dungeon, the
   * player starts inside the wall, and a player at that pixel position, in
   * whatever state, does not move on any input.
   */
  lemma StuckInDungeonWall(w: World, q: Player, input: Input)
    requires w.player.x == 1 && w.player.y == 1
    requires q.px == StartLevel(Catalogue, 1, w).player.px && q.py == StartLevel(Catalogue, 1, w).player.py
    ensures var p := StartLevel(Catalogue, 1, w).player;
      && p.x == 1 && p.y == 1
      && Blocked(Catalogue[1], p.x, p.y)
    ensures Move(Catalogue[1], q, input) == q
  {
    SecondLevelHasNoSpawn(Pos(1, 1));
  }
}
