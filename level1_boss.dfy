/** The level-1 boss: entry descent, a follow/return sway, a ramping single or double shot. */
module Level1 {
  import opened Geometry
  import opened Timing
  import opened Bosses
  import opened Pruning

  const BossSize := 200
  const BulletSize := 30
  const ShotFloor := 800
  const ShotStep := 100
  const StartCooldown := 2500
  const ResetCooldown := 2000
  const PauseAfterQuestion := 3000

  /** `shoot_single`: one bullet centred under the boss, straight down. */
  function SingleShot(boss: Rect): Shot
  {
    Shot(CenteredAt(boss.CenterX(), boss.Bottom(), BulletSize, BulletSize), 0, 10)
  }

  /** `shoot_double`: two bullets 40 pixels either side, spreading by 4 per frame. */
  function DoubleShot(boss: Rect): seq<Shot>
  {
    [ Shot(CenteredAt(boss.CenterX() - 40, boss.Bottom(), BulletSize, BulletSize), -4, 10),
      Shot(CenteredAt(boss.CenterX() + 40, boss.Bottom(), BulletSize, BulletSize), 4, 10) ]
  }

  /** What one shot of the boss appends: single above half health, double at or below it. */
  function Volley(boss: Rect, health: int, maxHealth: int): (v: seq<Shot>)
    ensures |v| == 1 <==> 2 * health > maxHealth
    ensures |v| == 1 || |v| == 2
    ensures forall k :: 0 <= k < |v| ==> v[k].dy == 10 && v[k].rect.CenterY() == boss.Bottom()
    ensures |v| == 1 ==> v[0].dx == 0 && v[0].rect.CenterX() == boss.CenterX()
    ensures |v| == 2 ==> v[0].dx == -4 && v[1].dx == 4
                         && v[0].rect.CenterX() == boss.CenterX() - 40
                         && v[1].rect.CenterX() == boss.CenterX() + 40
  {
    if 2 * health > maxHealth then [SingleShot(boss)] else DoubleShot(boss)
  }

  class Level1Boss {
    const screenWidth: int
    const speedY: int := 3
    const targetY: int := 100
    const followDuration: int := 4000
    const maxHealth: int := 4
    const originalX: int
    const deathSpeed: int := 100
    /** Number of death-animation frames found on disk. */
    const deathFrames: nat
    /** Whether the looping passive sound could be loaded. */
    const hasSound: bool

    var rect: Rect
    var alive: bool
    var dying: bool
    var victory: bool
    var following: bool
    var returning: bool
    var lastFollowSwitch: int
    var health: int
    var bullets: seq<Shot>
    var shootCooldown: int
    var lastShotTime: int
    var pausedUntil: int
    var soundPlaying: bool
    var soundPaused: bool
    var deathIndex: int
    var lastDeathUpdate: int
    var deathFinished: bool
    var deathDoneTime: int

    ghost predicate Valid()
      reads this
    {
      && rect.w == BossSize && rect.h == BossSize
      && following != returning
      && 0 <= health <= maxHealth
      && (alive <==> health > 0)
      // the fatal hit sets all three flags at once
      && dying == !alive && victory == !alive
      && ShotFloor <= shootCooldown <= StartCooldown
      && (soundPaused ==> soundPlaying) && (soundPlaying ==> hasSound)
      && DeathIndexOk(deathIndex, deathFrames, deathFinished)
    }

    constructor (screenWidth: int, now: int, deathFrames: nat, hasSound: bool)
      ensures Valid()
      ensures this.screenWidth == screenWidth && this.deathFrames == deathFrames && this.hasSound == hasSound
      ensures rect == CenteredAt(screenWidth / 2, -150, BossSize, BossSize) && originalX == rect.CenterX()
      ensures alive && !dying && !victory && health == maxHealth
      ensures following && !returning && lastFollowSwitch == now
      ensures bullets == [] && shootCooldown == StartCooldown && lastShotTime == now && pausedUntil == 0
      ensures !soundPlaying && !soundPaused
      ensures deathIndex == 0 && lastDeathUpdate == 0 && !deathFinished && deathDoneTime == 0
    {
      this.screenWidth := screenWidth;
      this.deathFrames := deathFrames;
      this.hasSound := hasSound;
      rect := CenteredAt(screenWidth / 2, -150, BossSize, BossSize);
      originalX := screenWidth / 2;
      alive, dying, victory := true, false, false;
      following, returning := true, false;
      lastFollowSwitch := now;
      health := 4;
      bullets := [];
      shootCooldown := StartCooldown;
      lastShotTime := now;
      pausedUntil := 0;
      soundPlaying, soundPaused := false, false;
      deathIndex, lastDeathUpdate, deathFinished, deathDoneTime := 0, 0, false, 0;
    }

    // ---------------------------------------------------------------- sound

    method PlayBossSound()
      requires Valid()
      modifies this`soundPlaying, this`soundPaused
      ensures Valid()
      ensures if hasSound && !old(soundPlaying) then soundPlaying && !soundPaused
              else soundPlaying == old(soundPlaying) && soundPaused == old(soundPaused)
    {
      if hasSound && !soundPlaying {
        soundPlaying := true;
        soundPaused := false;
      }
    }

    method PauseBossSound()
      requires Valid()
      modifies this`soundPaused
      ensures Valid()
      ensures soundPaused == (old(soundPaused) || (hasSound && soundPlaying))
    {
      if hasSound && soundPlaying && !soundPaused {
        soundPaused := true;
      }
    }

    method ResumeBossSound()
      requires Valid()
      modifies this`soundPaused
      ensures Valid()
      ensures !soundPaused
    {
      if hasSound && soundPaused {
        soundPaused := false;
      }
    }

    method StopBossSound()
      requires Valid()
      modifies this`soundPlaying, this`soundPaused
      ensures Valid()
      ensures !soundPlaying && !soundPaused
    {
      if hasSound && soundPlaying {
        soundPlaying := false;
        soundPaused := false;
      }
    }

    // ------------------------------------------------------------- shooting

    /** Called after every question: a fresh, slower cooldown and a 3-second pause. */
    method ResetShootingRate(now: int)
      requires Valid()
      modifies this`shootCooldown, this`pausedUntil, this`soundPaused
      ensures Valid()
      ensures shootCooldown == ResetCooldown && pausedUntil == now + PauseAfterQuestion
      ensures soundPaused == (old(soundPaused) || soundPlaying)
    {
      shootCooldown := ResetCooldown;
      pausedUntil := now + PauseAfterQuestion;
      PauseBossSound();
    }

    method ShootSingle()
      modifies this`bullets
      ensures bullets == old(bullets) + [SingleShot(rect)]
    {
      bullets := bullets + [SingleShot(rect)];
    }

    method ShootDouble()
      modifies this`bullets
      ensures bullets == old(bullets) + DoubleShot(rect)
    {
      bullets := bullets + DoubleShot(rect);
    }

    /** The shooting gate of `update`: open when the pause is over and the cooldown has elapsed. */
    method TryShoot(now: int) returns (fired: bool)
      requires Valid()
      modifies this`bullets, this`lastShotTime, this`shootCooldown
      ensures Valid()
      ensures fired <==> now >= pausedUntil && Elapsed(now, old(lastShotTime), old(shootCooldown))
      ensures fired ==> bullets == old(bullets) + Volley(rect, health, maxHealth)
                        && lastShotTime == now
                        && shootCooldown == Ramp(old(shootCooldown), ShotFloor, ShotStep)
      ensures !fired ==> bullets == old(bullets) && lastShotTime == old(lastShotTime)
                         && shootCooldown == old(shootCooldown)
    {
      fired := now >= pausedUntil && now - lastShotTime > shootCooldown;
      if fired {
        if 2 * health > maxHealth {
          ShootSingle();
        } else {
          ShootDouble();
        }
        lastShotTime := now;
        shootCooldown := if ShotFloor > shootCooldown - ShotStep then ShotFloor else shootCooldown - ShotStep;
      }
    }

    /** Moves every bullet by its own velocity and drops those that left the screen. */
    method MoveBullets()
      modifies this`bullets
      ensures bullets == Kept(old(bullets), Fly, InsideOf(screenWidth))
    {
      bullets := MovePrune(bullets, Fly, InsideOf(screenWidth));
    }

    // ------------------------------------------------------------- movement

    /** Flips between following the player and returning home every `followDuration` ms. */
    method SwitchMovement(now: int)
      requires Valid()
      modifies this`following, this`returning, this`lastFollowSwitch
      ensures Valid()
      ensures following == (old(following) != Elapsed(now, old(lastFollowSwitch), followDuration))
      ensures lastFollowSwitch == if Elapsed(now, old(lastFollowSwitch), followDuration) then now else old(lastFollowSwitch)
    {
      if now - lastFollowSwitch > followDuration {
        following := !following;
        returning := !returning;
        lastFollowSwitch := now;
      }
    }

    /**
     * One horizontal step: `followStep` stands for `int(diff * 0.05)` towards the
     * player and `returnStep` for `int(diff * 0.03)` towards the start column;
     * then the boss is kept on screen.
     */
    method Track(followStep: int, returnStep: int)
      requires Valid()
      modifies this`rect
      ensures Valid()
      ensures rect.y == old(rect.y)
      ensures rect.x == Clamp(old(rect.x) + (if following then followStep else returnStep),
                              0, screenWidth - BossSize)
      ensures 0 <= rect.Left() && (screenWidth >= BossSize ==> rect.Right() <= screenWidth)
    {
      if following {
        rect := rect.MoveBy(followStep, 0);
      } else if returning {
        rect := rect.MoveBy(returnStep, 0);
      }
      rect := rect.(x := Clamp(rect.x, 0, screenWidth - BossSize));
    }

    // ---------------------------------------------------------------- death

    /** The fields the death animation reads and writes, as one value. */
    function DeathState(): Death
      reads this
    {
      Death(deathIndex, lastDeathUpdate, deathFinished, deathDoneTime, victory)
    }

    /**
     * Advances the death animation; once it has finished, stamps the time and
     * stops the sound, and declares victory more than 3 seconds later.
     * `update` calls it only while the boss is dying.
     */
    method UpdateDeathAnimation(now: int)
      requires Valid() && dying
      modifies this`deathIndex, this`lastDeathUpdate, this`deathFinished, this`deathDoneTime,
               this`victory, this`soundPlaying, this`soundPaused
      ensures Valid()
      ensures DeathState() == DeathStep(old(DeathState()), deathFrames, deathSpeed, now)
      ensures old(deathFinished) && old(deathDoneTime) == 0 ==> !soundPlaying && !soundPaused
      ensures !(old(deathFinished) && old(deathDoneTime) == 0) ==>
                soundPlaying == old(soundPlaying) && soundPaused == old(soundPaused)
    {
      if deathFinished {
        if deathDoneTime == 0 {
          deathDoneTime := now;
          StopBossSound();
        } else if now - deathDoneTime > 3000 {
          victory := true;
        }
        return;
      }
      if now - lastDeathUpdate > deathSpeed {
        lastDeathUpdate := now;
        deathIndex := deathIndex + 1;
        if deathIndex >= deathFrames {
          deathFinished := true;
          deathIndex := deathFrames - 1;
        }
      }
    }

    /** A correct answer against the boss: one point of damage; the fatal one ends the fight. */
    method Hit(now: int) returns (killed: bool)
      requires Valid()
      modifies this`health, this`alive, this`dying, this`victory, this`lastDeathUpdate
      ensures Valid()
      ensures killed <==> old(health) <= 1
      ensures health == AfterHit(old(health))
      ensures killed ==> !alive && dying && victory && lastDeathUpdate == now
      ensures !killed ==> alive && !dying && !victory && lastDeathUpdate == old(lastDeathUpdate)
    {
      health := health - 1;
      if health <= 0 {
        health := 0;
        alive := false;
        victory := true;
        dying := true;
        lastDeathUpdate := now;
        return true;
      }
      return false;
    }

    // --------------------------------------------------------------- update

    /**
     * The movement part of a fighting frame: start or resume the passive
     * sound, flip the movement mode when due, take one horizontal step.
     */
    method Manoeuvre(now: int, followStep: int, returnStep: int)
      requires Valid()
      modifies this`rect, this`following, this`returning, this`lastFollowSwitch,
               this`soundPlaying, this`soundPaused
      ensures Valid()
      ensures following == (old(following) != Elapsed(now, old(lastFollowSwitch), followDuration))
      ensures lastFollowSwitch == if Elapsed(now, old(lastFollowSwitch), followDuration) then now else old(lastFollowSwitch)
      ensures rect.y == old(rect.y)
      ensures rect.x == Clamp(old(rect.x) + (if following then followStep else returnStep),
                              0, screenWidth - BossSize)
      ensures soundPlaying == (old(soundPlaying) || hasSound)
      ensures soundPaused == (old(soundPaused) && now <= pausedUntil)
    {
      if !soundPlaying {
        PlayBossSound();
      }
      if now > pausedUntil && soundPaused {
        ResumeBossSound();
      }
      SwitchMovement(now);
      Track(followStep, returnStep);
    }

    /** The shooting gate followed by the bullet step. */
    method ShootAndMoveBullets(now: int)
      requires Valid()
      modifies this`bullets, this`shootCooldown, this`lastShotTime
      ensures Valid()
      ensures now >= pausedUntil && Elapsed(now, old(lastShotTime), old(shootCooldown)) ==>
                && lastShotTime == now
                && shootCooldown == Ramp(old(shootCooldown), ShotFloor, ShotStep)
                && bullets == Kept(old(bullets) + Volley(rect, health, maxHealth), Fly, InsideOf(screenWidth))
      ensures !(now >= pausedUntil && Elapsed(now, old(lastShotTime), old(shootCooldown))) ==>
                && lastShotTime == old(lastShotTime) && shootCooldown == old(shootCooldown)
                && bullets == Kept(old(bullets), Fly, InsideOf(screenWidth))
    {
      var _ := TryShoot(now);
      MoveBullets();
    }

    /**
     * One frame. `followStep` and `returnStep` are the damped horizontal steps
     * (see `Track`); `now` is the clock.
     */
    method Update(now: int, followStep: int, returnStep: int)
      requires Valid()
      modifies this`rect, this`following, this`returning, this`lastFollowSwitch, this`bullets,
               this`shootCooldown, this`lastShotTime, this`soundPlaying, this`soundPaused
      ensures Valid()
      ensures old(victory) ==> unchanged(this)
      ensures !old(victory) && old(rect.y) < targetY ==>
                rect == old(rect).MoveBy(0, speedY)
                && bullets == old(bullets) && following == old(following)
                && lastFollowSwitch == old(lastFollowSwitch)
                && shootCooldown == old(shootCooldown) && lastShotTime == old(lastShotTime)
                && soundPlaying == old(soundPlaying) && soundPaused == old(soundPaused)
      ensures !old(victory) && old(rect.y) >= targetY ==>
                && following == (old(following) != Elapsed(now, old(lastFollowSwitch), followDuration))
                && lastFollowSwitch == (if Elapsed(now, old(lastFollowSwitch), followDuration) then now
                                        else old(lastFollowSwitch))
                && soundPlaying == (old(soundPlaying) || hasSound)
                && soundPaused == (old(soundPaused) && now <= pausedUntil)
                && rect.y == old(rect.y)
                && rect.x == Clamp(old(rect.x) + (if following then followStep else returnStep),
                                   0, screenWidth - BossSize)
                && 0 <= rect.Left() && (screenWidth >= BossSize ==> rect.Right() <= screenWidth)
                && (now >= pausedUntil && Elapsed(now, old(lastShotTime), old(shootCooldown))
                    <==> lastShotTime == now && lastShotTime != old(lastShotTime))
                && shootCooldown == (if lastShotTime == old(lastShotTime) then old(shootCooldown)
                                     else Ramp(old(shootCooldown), ShotFloor, ShotStep))
                && bullets == Kept(old(bullets) + (if lastShotTime == old(lastShotTime) then []
                                                   else Volley(rect, health, maxHealth)),
                                   Fly, InsideOf(screenWidth))
    {
      if victory {
        return;
      }
      // The fatal hit sets victory together with dying and !alive, so the
      // source's death-animation branch and its `not alive` return are never
      // reached from here.
      assert !dying && alive;

      if rect.y < targetY {
        rect := rect.MoveBy(0, speedY);
        return;
      }
      Manoeuvre(now, followStep, returnStep);
      ShootAndMoveBullets(now);
      assert old(bullets) + [] == old(bullets);
    }
  }
}
