/**
 * The level-2 boss: entry descent, clamped tracking of the player, a shot
 * pattern that escalates with damage, minion waves and a death animation
 * that must finish before victory.
 */
module Level2 {
  import opened Geometry
  import opened Timing
  import opened Bosses
  import opened Pruning

  const BossSize := 200
  const BulletSize := 28
  const ShotFloor := 600
  const ShotStep := 50
  const StartCooldown := 2200
  const PauseAfterQuestion := 3000
  const FirstMinionCooldown := 50000

  /** The attack pattern: 1 above half health, 2 at or below half, 3 at or below a third. */
  function AttackTier(health: int, maxHealth: nat): (t: int)
    ensures t == 1 <==> health > maxHealth / 2
    ensures t == 2 <==> maxHealth / 3 < health <= maxHealth / 2
    ensures t == 3 <==> health <= maxHealth / 3
  {
    var pattern := 1;
    var pattern := if health <= maxHealth / 2 then 2 else pattern;
    if health <= maxHealth / 3 then 3 else pattern
  }

  /** Losing health never lowers the tier. */
  lemma TierNeverDrops(before: int, after: int, maxHealth: nat)
    requires after <= before
    ensures AttackTier(after, maxHealth) >= AttackTier(before, maxHealth)
  {
  }

  /** `angle / 3` for the spiral pattern, rounded toward zero. */
  function SpiralDx(angle: int): (dx: int)
    ensures angle >= 0 ==> 0 <= 3 * dx <= angle < 3 * dx + 3
    ensures angle < 0 ==> 3 * dx - 3 < angle <= 3 * dx <= 0
  {
    if angle >= 0 then angle / 3 else -((-angle) / 3)
  }

  /** The bullets one `shoot()` appends, all starting centred under the boss. */
  function Volley(origin: Rect, tier: int): (v: seq<Shot>)
    ensures |v| == if tier == 1 then 1 else if tier == 2 then 3 else 4
    ensures forall k :: 0 <= k < |v| ==> v[k].rect == origin
    ensures tier == 1 ==> v[0].dx == 0 && v[0].dy == 9
    ensures tier == 2 ==> forall k :: 0 <= k < |v| ==> v[k].dx == 5 * k - 5 && v[k].dy == 10
    ensures tier != 1 && tier != 2 ==> forall k :: 0 <= k < |v| ==> v[k].dy == 12
    ensures tier != 1 && tier != 2 ==> v[0].dx == -5 && v[1].dx == -1 && v[2].dx == 1 && v[3].dx == 5
  {
    if tier == 1 then [Shot(origin, 0, 9)]
    else if tier == 2 then [Shot(origin, -5, 10), Shot(origin, 0, 10), Shot(origin, 5, 10)]
    else seq(4, k => Shot(origin, SpiralDx(-15 + 10 * k), 12))
  }

  /** A minion (a level-2 bug, whose own behaviour is not part of this model). */
  datatype Minion = Minion(spawnX: int, spawnY: int, rect: Rect)

  /** Minions are dropped once `rect.top > 700`. */
  predicate MinionStays(m: Minion)
  {
    !(m.rect.Top() > 700)
  }

  /** A wave as `spawn_minions` draws it: 2 to 4 minions above the screen, away from the edges. */
  predicate WaveOk(wave: seq<Minion>, screenWidth: int)
  {
    && 2 <= |wave| <= 4
    && forall k :: 0 <= k < |wave| ==>
         150 <= wave[k].spawnX <= screenWidth - 150 && -150 <= wave[k].spawnY <= -50
  }

  /** The minion cooldown after a wave: it follows the attack tier once below half health. */
  function NextMinionCooldown(cooldown: int, health: int, maxHealth: nat): (r: int)
    ensures AttackTier(health, maxHealth) == 1 ==> r == cooldown
    ensures AttackTier(health, maxHealth) == 2 ==> r == 8000
    ensures AttackTier(health, maxHealth) == 3 ==> r == 6000
  {
    var c := if health <= maxHealth / 2 then 8000 else cooldown;
    if health <= maxHealth / 3 then 6000 else c
  }

  class Level2Boss {
    const screenWidth: int
    const speedY: int := 3
    const targetY: int := 120
    const maxHealth: nat := 8
    const deathSpeed: int := 100
    /** Number of death-animation frames found on disk. */
    const deathFrames: nat
    /** Whether the looping passive sound could be loaded. */
    const hasSound: bool

    var rect: Rect
    var alive: bool
    var dying: bool
    var victory: bool
    var health: int
    var bullets: seq<Shot>
    var shootCooldown: int
    var lastShotTime: int
    var pausedUntil: int
    var minions: seq<Minion>
    var lastMinionSpawn: int
    var minionSpawnCooldown: int
    var soundPlaying: bool
    var deathIndex: int
    var lastDeathUpdate: int
    var deathFinished: bool
    var deathDoneTime: int

    ghost predicate Valid()
      reads this
    {
      && rect.w == BossSize && rect.h == BossSize
      && 0 <= health <= maxHealth
      && (alive <==> health > 0)
      && dying == !alive
      // victory only after the animation has finished, which only runs while dying
      && (victory ==> deathFinished)
      && (deathFinished ==> dying)
      && ShotFloor <= shootCooldown <= StartCooldown
      && (minionSpawnCooldown == FirstMinionCooldown || minionSpawnCooldown == 8000 || minionSpawnCooldown == 6000)
      && (soundPlaying ==> hasSound)
      && DeathIndexOk(deathIndex, deathFrames, deathFinished)
    }

    constructor (screenWidth: int, now: int, deathFrames: nat, hasSound: bool)
      ensures Valid()
      ensures this.screenWidth == screenWidth && this.deathFrames == deathFrames && this.hasSound == hasSound
      ensures rect == CenteredAt(screenWidth / 2, -150, BossSize, BossSize)
      ensures alive && !dying && !victory && health == maxHealth
      ensures bullets == [] && shootCooldown == StartCooldown && lastShotTime == now && pausedUntil == 0
      ensures minions == [] && lastMinionSpawn == 0 && minionSpawnCooldown == FirstMinionCooldown
      ensures !soundPlaying
      ensures deathIndex == 0 && lastDeathUpdate == 0 && !deathFinished && deathDoneTime == 0
    {
      this.screenWidth := screenWidth;
      this.deathFrames := deathFrames;
      this.hasSound := hasSound;
      rect := CenteredAt(screenWidth / 2, -150, BossSize, BossSize);
      alive, dying, victory := true, false, false;
      health := 8;
      bullets := [];
      shootCooldown := StartCooldown;
      lastShotTime := now;
      pausedUntil := 0;
      minions := [];
      lastMinionSpawn := 0;
      minionSpawnCooldown := FirstMinionCooldown;
      soundPlaying := false;
      deathIndex, lastDeathUpdate, deathFinished, deathDoneTime := 0, 0, false, 0;
    }

    // ---------------------------------------------------------------- sound

    method PlayBossSound()
      requires Valid()
      modifies this`soundPlaying
      ensures Valid()
      ensures soundPlaying == (old(soundPlaying) || hasSound)
    {
      if hasSound && !soundPlaying {
        soundPlaying := true;
      }
    }

    method StopBossSound()
      requires Valid()
      modifies this`soundPlaying
      ensures Valid()
      ensures !soundPlaying
    {
      if hasSound && soundPlaying {
        soundPlaying := false;
      }
    }

    // ------------------------------------------------------------- shooting

    /** The bullet pattern of the current tier, appended centred under the boss. */
    method Shoot()
      modifies this`bullets
      ensures bullets == old(bullets) + Volley(CenteredAt(rect.CenterX(), rect.Bottom(), BulletSize, BulletSize),
                                               AttackTier(health, maxHealth))
    {
      var pattern := 1;
      if health <= maxHealth / 2 {
        pattern := 2;
      }
      if health <= maxHealth / 3 {
        pattern := 3;
      }
      var origin := CenteredAt(rect.CenterX(), rect.Bottom(), BulletSize, BulletSize);
      ghost var volley := Volley(origin, pattern);
      if pattern == 1 {
        bullets := bullets + [Shot(origin, 0, 9)];
      } else if pattern == 2 {
        var angles := [-5, 0, 5];
        var i := 0;
        while i < |angles|
          invariant 0 <= i <= |angles|
          invariant bullets == old(bullets) + volley[..i]
        {
          bullets := bullets + [Shot(origin, angles[i], 10)];
          assert volley[..i + 1] == volley[..i] + [volley[i]];
          i := i + 1;
        }
        assert volley[..3] == volley;
      } else {
        var angle := -15;
        var k := 0;
        while angle < 20
          invariant 0 <= k <= 4 && angle == -15 + 10 * k
          invariant bullets == old(bullets) + volley[..k]
        {
          bullets := bullets + [Shot(origin, SpiralDx(angle), 12)];
          assert volley[..k + 1] == volley[..k] + [volley[k]];
          angle, k := angle + 10, k + 1;
        }
        assert volley[..4] == volley;
      }
    }

    /** Called after every question: shooting pauses for 3 seconds; the cooldown is kept. */
    method ResetShootingRate(now: int)
      modifies this`pausedUntil
      ensures pausedUntil == now + PauseAfterQuestion
    {
      pausedUntil := now + PauseAfterQuestion;
    }

    /** The shooting gate followed by the bullet step. */
    method ShootAndMoveBullets(now: int)
      requires Valid()
      modifies this`bullets, this`shootCooldown, this`lastShotTime
      ensures Valid()
      ensures now > pausedUntil && Elapsed(now, old(lastShotTime), old(shootCooldown)) ==>
                && lastShotTime == now
                && shootCooldown == Ramp(old(shootCooldown), ShotFloor, ShotStep)
                && bullets == Kept(old(bullets) + Volley(CenteredAt(rect.CenterX(), rect.Bottom(), BulletSize, BulletSize),
                                                         AttackTier(health, maxHealth)),
                                   Fly, InsideOf(screenWidth))
      ensures !(now > pausedUntil && Elapsed(now, old(lastShotTime), old(shootCooldown))) ==>
                && lastShotTime == old(lastShotTime) && shootCooldown == old(shootCooldown)
                && bullets == Kept(old(bullets), Fly, InsideOf(screenWidth))
      ensures Fired(now, old(lastShotTime), old(shootCooldown), old(bullets))
    {
      FireGate(now);
      bullets := MovePrune(bullets, Fly, InsideOf(screenWidth));
      assert old(bullets) + [] == old(bullets);
    }

    /** Fires a volley once the pause after a question is over and the cooldown has elapsed; the cooldown then shrinks. */
    method FireGate(now: int)
      requires Valid()
      modifies this`bullets, this`shootCooldown, this`lastShotTime
      ensures Valid()
      ensures now > pausedUntil && Elapsed(now, old(lastShotTime), old(shootCooldown)) ==>
                && lastShotTime == now
                && shootCooldown == Ramp(old(shootCooldown), ShotFloor, ShotStep)
                && bullets == old(bullets) + Volley(CenteredAt(rect.CenterX(), rect.Bottom(), BulletSize, BulletSize),
                                                    AttackTier(health, maxHealth))
      ensures !(now > pausedUntil && Elapsed(now, old(lastShotTime), old(shootCooldown))) ==>
                lastShotTime == old(lastShotTime) && shootCooldown == old(shootCooldown) && bullets == old(bullets)
    {
      if now > pausedUntil && now - lastShotTime > shootCooldown {
        Shoot();
        lastShotTime := now;
        shootCooldown := if ShotFloor > shootCooldown - ShotStep then ShotFloor else shootCooldown - ShotStep;
      }
    }

    // -------------------------------------------------------------- minions

    /** Appends the drawn wave, one minion at a time. */
    method SpawnMinions(wave: seq<Minion>)
      requires WaveOk(wave, screenWidth)
      modifies this`minions
      ensures minions == old(minions) + wave
      ensures |old(minions)| + 2 <= |minions| <= |old(minions)| + 4
    {
      var i := 0;
      while i < |wave|
        invariant 0 <= i <= |wave|
        invariant minions == old(minions) + wave[..i]
      {
        minions := minions + [wave[i]];
        assert wave[..i + 1] == wave[..i] + [wave[i]];
        i := i + 1;
      }
      assert wave[..|wave|] == wave;
    }

    /**
     * The minion part of a frame: a wave when its cooldown has elapsed, then
     * every minion moves (`advance` stands for the minion's own update) and
     * those below the screen are dropped.
     */
    method MinionStep(now: int, wave: seq<Minion>, advance: Minion -> Minion)
      requires Valid()
      requires Elapsed(now, lastMinionSpawn, minionSpawnCooldown) ==> WaveOk(wave, screenWidth)
      modifies this`minions, this`lastMinionSpawn, this`minionSpawnCooldown
      ensures Valid()
      ensures Elapsed(now, old(lastMinionSpawn), old(minionSpawnCooldown)) ==>
                && lastMinionSpawn == now
                && minionSpawnCooldown == NextMinionCooldown(old(minionSpawnCooldown), health, maxHealth)
                && minions == Kept(old(minions) + wave, advance, MinionStays)
      ensures !Elapsed(now, old(lastMinionSpawn), old(minionSpawnCooldown)) ==>
                && lastMinionSpawn == old(lastMinionSpawn)
                && minionSpawnCooldown == old(minionSpawnCooldown)
                && minions == Kept(old(minions), advance, MinionStays)
      ensures Spawned(now, old(lastMinionSpawn), old(minionSpawnCooldown), old(minions), wave, advance)
    {
      if now - lastMinionSpawn > minionSpawnCooldown {
        SpawnMinions(wave);
        lastMinionSpawn := now;
        if health <= maxHealth / 2 {
          minionSpawnCooldown := 8000;
        }
        if health <= maxHealth / 3 {
          minionSpawnCooldown := 6000;
        }
      }
      minions := MovePrune(minions, advance, MinionStays);
      assert old(minions) + [] == old(minions);
    }

    // ------------------------------------------------------------- movement

    /**
     * Tracking: `step` stands for `int(direction * 0.05)` toward the player,
     * `sway` for `int(sin(2 * wave_angle) * 5)`. The centre is kept at least
     * 100 pixels from either edge.
     */
    method Follow(step: int, sway: int)
      requires Valid()
      modifies this`rect
      ensures Valid()
      ensures rect.CenterX() == Clamp(old(rect.CenterX()) + step, 100, screenWidth - 100)
      ensures 100 <= rect.CenterX() && (screenWidth >= 200 ==> rect.CenterX() <= screenWidth - 100)
      ensures rect.y == targetY + sway
    {
      rect := rect.MoveBy(step, 0);
      var cx := Clamp(rect.CenterX(), 100, screenWidth - 100);
      rect := rect.(x := cx - rect.w / 2);
      rect := rect.(y := targetY + sway);
    }

    // ---------------------------------------------------------------- death

    /** The fields the death animation reads and writes, as one value. */
    function DeathState(): Death
      reads this
    {
      Death(deathIndex, lastDeathUpdate, deathFinished, deathDoneTime, victory)
    }

    /**
     * Advances the death animation; once it has finished, stamps the time and
     * stops the sound, and declares victory more than 3 seconds later.
     * `update` calls it only while the boss is dying.
     */
    method UpdateDeathAnimation(now: int)
      requires Valid() && dying
      modifies this`deathIndex, this`lastDeathUpdate, this`deathFinished, this`deathDoneTime,
               this`victory, this`soundPlaying
      ensures Valid()
      ensures DeathState() == DeathStep(old(DeathState()), deathFrames, deathSpeed, now)
      ensures old(deathFinished) && old(deathDoneTime) == 0 ==> !soundPlaying
      ensures !(old(deathFinished) && old(deathDoneTime) == 0) ==> soundPlaying == old(soundPlaying)
    {
      if deathFinished {
        if deathDoneTime == 0 {
          deathDoneTime := now;
          StopBossSound();
        } else if now - deathDoneTime > 3000 {
          victory := true;
        }
        return;
      }
      if now - lastDeathUpdate > deathSpeed {
        lastDeathUpdate := now;
        deathIndex := deathIndex + 1;
        if deathIndex >= deathFrames {
          deathFinished := true;
          deathIndex := deathFrames - 1;
        }
      }
    }

    /** A correct answer against the boss: one point of damage; the fatal one starts the death. */
    method Hit(now: int) returns (killed: bool)
      requires Valid()
      modifies this`health, this`alive, this`dying, this`lastDeathUpdate
      ensures Valid()
      ensures killed <==> old(health) <= 1
      ensures health == AfterHit(old(health))
      ensures killed ==> !alive && dying && lastDeathUpdate == now
      ensures !killed ==> alive && !dying && lastDeathUpdate == old(lastDeathUpdate)
    {
      health := health - 1;
      if health <= 0 {
        health := 0;
        alive := false;
        dying := true;
        lastDeathUpdate := now;
        return true;
      }
      return false;
    }

    // --------------------------------------------------------------- update

    /**
     * One frame. `step` and `sway` are the tracking step and the vertical sway
     * (see `Follow`), `wave` the minions a spawn would draw and `advance` the
     * minions' own update.
     */
    method Update(now: int, step: int, sway: int, wave: seq<Minion>, advance: Minion -> Minion)
      requires Valid()
      requires !victory && !dying && rect.y >= targetY && Elapsed(now, lastMinionSpawn, minionSpawnCooldown) ==>
                 WaveOk(wave, screenWidth)
      modifies this`rect, this`victory, this`bullets, this`shootCooldown, this`lastShotTime,
               this`minions, this`lastMinionSpawn, this`minionSpawnCooldown, this`soundPlaying,
               this`deathIndex, this`lastDeathUpdate, this`deathFinished, this`deathDoneTime
      ensures Valid()
      ensures old(victory) ==> unchanged(this)
      // dying: only the death animation moves
      ensures !old(victory) && old(dying) ==>
                && DeathState() == DeathStep(old(DeathState()), deathFrames, deathSpeed, now)
                && (old(deathFinished) && old(deathDoneTime) == 0 ==> !soundPlaying)
                && (!(old(deathFinished) && old(deathDoneTime) == 0) ==> soundPlaying == old(soundPlaying))
                && rect == old(rect) && bullets == old(bullets) && minions == old(minions)
                && shootCooldown == old(shootCooldown) && lastShotTime == old(lastShotTime)
                && lastMinionSpawn == old(lastMinionSpawn) && minionSpawnCooldown == old(minionSpawnCooldown)
      // entering: one step down and nothing else
      ensures old(alive) && old(rect.y) < targetY ==>
                && rect == old(rect).MoveBy(0, speedY)
                && bullets == old(bullets) && minions == old(minions)
                && shootCooldown == old(shootCooldown) && lastShotTime == old(lastShotTime)
                && lastMinionSpawn == old(lastMinionSpawn) && minionSpawnCooldown == old(minionSpawnCooldown)
                && soundPlaying == old(soundPlaying) && DeathState() == old(DeathState())
      // in position: the fight
      ensures old(alive) && old(rect.y) >= targetY ==>
                && soundPlaying == (old(soundPlaying) || hasSound)
                && rect.CenterX() == Clamp(old(rect.CenterX()) + step, 100, screenWidth - 100)
                && 100 <= rect.CenterX() && (screenWidth >= 200 ==> rect.CenterX() <= screenWidth - 100)
                && rect.y == targetY + sway
                && Fired(now, old(lastShotTime), old(shootCooldown), old(bullets))
                && Spawned(now, old(lastMinionSpawn), old(minionSpawnCooldown), old(minions), wave, advance)
                && DeathState() == old(DeathState())
    {
      if victory {
        return;
      }
      if dying {
        UpdateDeathAnimation(now);
        return;
      }
      // `hit()` sets dying together with alive := false, so the source's
      // `not alive` return cannot be taken here.
      assert alive;

      if rect.y < targetY {
        rect := rect.MoveBy(0, speedY);
        return;
      }
      Fight(now, step, sway, wave, advance);
    }

    /**
     * The fire of one fighting frame, given the shot clock and bullets before
     * it: when the pause is over and the cooldown has elapsed, a volley of the
     * current tier under the (moved) boss, a stamp and a shorter cooldown;
     * then every bullet flies and those off the field are dropped.
     */
    ghost predicate Fired(now: int, lastShotTime0: int, shootCooldown0: int, bullets0: seq<Shot>)
      reads this`lastShotTime, this`shootCooldown, this`bullets, this`rect, this`health, this`pausedUntil
    {
      var fired := now > pausedUntil && Elapsed(now, lastShotTime0, shootCooldown0);
      && lastShotTime == (if fired then now else lastShotTime0)
      && shootCooldown == (if fired then Ramp(shootCooldown0, ShotFloor, ShotStep) else shootCooldown0)
      && bullets == Kept(bullets0 + (if fired then Volley(CenteredAt(rect.CenterX(), rect.Bottom(), BulletSize, BulletSize),
                                                          AttackTier(health, maxHealth))
                                     else []),
                         Fly, InsideOf(screenWidth))
    }

    /**
     * The minions of one fighting frame, given the spawn clock and minions
     * before it: a wave when its cooldown has elapsed, with a stamp and the
     * tier's cooldown; then every minion moves and those below the screen are
     * dropped.
     */
    ghost predicate Spawned(now: int, lastMinionSpawn0: int, minionSpawnCooldown0: int, minions0: seq<Minion>,
                            wave: seq<Minion>, advance: Minion -> Minion)
      reads this`lastMinionSpawn, this`minionSpawnCooldown, this`minions, this`health
    {
      var spawned := Elapsed(now, lastMinionSpawn0, minionSpawnCooldown0);
      && lastMinionSpawn == (if spawned then now else lastMinionSpawn0)
      && minionSpawnCooldown == (if spawned then NextMinionCooldown(minionSpawnCooldown0, health, maxHealth)
                                 else minionSpawnCooldown0)
      && minions == Kept(minions0 + (if spawned then wave else []), advance, MinionStays)
    }

    /** The boss in position: its music, the player-following movement, its fire and its minions. */
    method Fight(now: int, step: int, sway: int, wave: seq<Minion>, advance: Minion -> Minion)
      requires Valid() && alive
      requires Elapsed(now, lastMinionSpawn, minionSpawnCooldown) ==> WaveOk(wave, screenWidth)
      modifies this`rect, this`bullets, this`shootCooldown, this`lastShotTime,
               this`minions, this`lastMinionSpawn, this`minionSpawnCooldown, this`soundPlaying
      ensures Valid()
      ensures soundPlaying == (old(soundPlaying) || hasSound)
      ensures rect.CenterX() == Clamp(old(rect.CenterX()) + step, 100, screenWidth - 100)
      ensures 100 <= rect.CenterX() && (screenWidth >= 200 ==> rect.CenterX() <= screenWidth - 100)
      ensures rect.y == targetY + sway
      ensures Fired(now, old(lastShotTime), old(shootCooldown), old(bullets))
      ensures Spawned(now, old(lastMinionSpawn), old(minionSpawnCooldown), old(minions), wave, advance)
    {
      if !soundPlaying {
        PlayBossSound();
      }
      Follow(step, sway);
      Attack(now, wave, advance);
    }

    /** The fire and the minions of a fighting frame. */
    method Attack(now: int, wave: seq<Minion>, advance: Minion -> Minion)
      requires Valid()
      requires Elapsed(now, lastMinionSpawn, minionSpawnCooldown) ==> WaveOk(wave, screenWidth)
      modifies this`bullets, this`shootCooldown, this`lastShotTime,
               this`minions, this`lastMinionSpawn, this`minionSpawnCooldown
      ensures Valid()
      ensures Fired(now, old(lastShotTime), old(shootCooldown), old(bullets))
      ensures Spawned(now, old(lastMinionSpawn), old(minionSpawnCooldown), old(minions), wave, advance)
    {
      ghost var lastShotTime0, shootCooldown0, bullets0 := lastShotTime, shootCooldown, bullets;
      ShootAndMoveBullets(now);
      MinionStep(now, wave, advance);
      assert Fired(now, lastShotTime0, shootCooldown0, bullets0);
    }
  }
}
