/**
 * The level-3 enemies: bugs that drift down at a fractional speed, weave
 * sideways, bounce off the side edges and fire single or triple shots.
 */
module BugsLevel3 {
  import opened Geometry
  import opened Timing
  import opened Pruning
  import opened BugBullets

  const BugSize := 90
  const BulletSize := 28
  const BulletFall := 6
  const TurnDelay := 500
  const TripleChance: real := 0.2

  /** The sideways speed after the weave timer: reversed when the delay has run out. */
  function Turned(speedX: int, now: int, timer: int, delay: int): (v: int)
    ensures v == speedX || v == -speedX
    ensures speedX != 0 ==> (v == -speedX <==> Elapsed(now, timer, delay))
  {
    if Elapsed(now, timer, delay) then -speedX else speedX
  }

  /** A bug beyond a side edge has its sideways speed reversed. */
  predicate OutSideways(r: Rect)
  {
    r.Left() < 0 || r.Right() > FieldWidth
  }

  /** The shot: one bullet centred under the bug, two more 20 pixels to either side when `roll < 0.2`. */
  function Volley(bug: Rect, roll: real): (v: seq<Rect>)
    ensures |v| == if roll < TripleChance then 3 else 1
    ensures forall k :: 0 <= k < |v| ==> v[k].w == BulletSize && v[k].h == BulletSize && v[k].CenterY() == bug.Bottom()
    ensures v[0].CenterX() == bug.CenterX()
    ensures |v| == 3 ==> v[1].CenterX() == bug.CenterX() - 20 && v[2].CenterX() == bug.CenterX() + 20
  {
    var centre := CenteredAt(bug.CenterX(), bug.Bottom(), BulletSize, BulletSize);
    if roll < TripleChance then
      [centre,
       CenteredAt(bug.CenterX() - 20, bug.Bottom(), BulletSize, BulletSize),
       CenteredAt(bug.CenterX() + 20, bug.Bottom(), BulletSize, BulletSize)]
    else [centre]
  }

  class BugLevel3 {
    /** The source's default: level-3 bugs shoot. */
    const canShoot: bool

    var rect: Rect
    /** Pixels per frame; the source draws fractional speeds, see the README. */
    var speedX: int
    var speedY: int
    var directionTimer: int
    var directionChangeDelay: int
    var bullets: seq<Rect>
    var shootCooldown: int
    var lastShotTime: int

    ghost predicate Valid()
      reads this
    {
      && rect.w == BugSize && rect.h == BugSize
      && speedY > 0 && speedX != 0
      && 500 <= directionChangeDelay <= 2000
      && 500 <= shootCooldown <= 2500
    }

    /**
     * `speedY`, `speedX` (sign and magnitude), `delay` and `cooldown` are the
     * constructor's random draws, `now` the creation time.
     */
    constructor (x: int, y: int, canShoot: bool, speedY: int, speedX: int, delay: int, cooldown: int, now: int)
      requires speedY > 0 && speedX != 0
      requires 1000 <= delay <= 2000 && 500 <= cooldown <= 1500
      ensures Valid()
      ensures rect == CenteredAt(x, y, BugSize, BugSize) && this.canShoot == canShoot
      ensures this.speedY == speedY && this.speedX == speedX
      ensures directionTimer == now && directionChangeDelay == delay
      ensures bullets == [] && shootCooldown == cooldown && lastShotTime == now
    {
      rect := CenteredAt(x, y, BugSize, BugSize);
      this.canShoot := canShoot;
      this.speedY := speedY;
      this.speedX := speedX;
      directionTimer := now;
      directionChangeDelay := delay;
      bullets := [];
      shootCooldown := cooldown;
      lastShotTime := now;
    }

    /**
     * One frame. `respawnX`, `respawnY` place a bug that has sunk below 620,
     * `nextCooldown` is the next shooting interval and `roll` decides a
     * triple shot.
     */
    method Update(now: int, respawnX: int, respawnY: int, nextCooldown: int, roll: real)
      requires Valid()
      requires 50 <= respawnX <= 750 && -200 <= respawnY <= -50
      requires 1000 <= nextCooldown <= 2500 && 0.0 <= roll < 1.0
      modifies this`rect, this`speedX, this`directionTimer, this`directionChangeDelay,
               this`bullets, this`shootCooldown, this`lastShotTime
      ensures Valid()
      ensures Elapsed(now, old(directionTimer), old(directionChangeDelay)) ==>
                directionTimer == now && directionChangeDelay == TurnDelay
      ensures !Elapsed(now, old(directionTimer), old(directionChangeDelay)) ==>
                directionTimer == old(directionTimer) && directionChangeDelay == old(directionChangeDelay)
      ensures var v := Turned(old(speedX), now, old(directionTimer), old(directionChangeDelay));
              var moved := old(rect).MoveBy(v, speedY);
              && rect == (if moved.Top() > 620 then Rect(respawnX, respawnY, BugSize, BugSize) else moved)
              && speedX == (if OutSideways(rect) then -v else v)
      ensures rect.Top() <= 620
      ensures canShoot && Elapsed(now, old(lastShotTime), old(shootCooldown)) ==>
                && lastShotTime == now && shootCooldown == nextCooldown
                && bullets == Kept(old(bullets) + Volley(rect, roll), Falls(BulletFall), Falling)
      ensures !(canShoot && Elapsed(now, old(lastShotTime), old(shootCooldown))) ==>
                && lastShotTime == old(lastShotTime) && shootCooldown == old(shootCooldown)
                && bullets == Kept(old(bullets), Falls(BulletFall), Falling)
    {
      Move(now, respawnX, respawnY);
      FireGate(now, nextCooldown, roll);
      bullets := MovePrune(bullets, Falls(BulletFall), Falling);
    }

    /** A shooting bug fires once its cooldown has elapsed, and draws its next cooldown. */
    method FireGate(now: int, nextCooldown: int, roll: real)
      requires Valid()
      requires 1000 <= nextCooldown <= 2500 && 0.0 <= roll < 1.0
      modifies this`bullets, this`shootCooldown, this`lastShotTime
      ensures Valid()
      ensures canShoot && Elapsed(now, old(lastShotTime), old(shootCooldown)) ==>
                lastShotTime == now && shootCooldown == nextCooldown && bullets == old(bullets) + Volley(rect, roll)
      ensures !(canShoot && Elapsed(now, old(lastShotTime), old(shootCooldown))) ==>
                lastShotTime == old(lastShotTime) && shootCooldown == old(shootCooldown) && bullets == old(bullets)
    {
      if canShoot {
        if now - lastShotTime > shootCooldown {
          Shoot(roll);
          lastShotTime := now;
          shootCooldown := nextCooldown;
        }
      }
    }

    /** The weave timer, the move, the respawn and the side bounce. */
    method Move(now: int, respawnX: int, respawnY: int)
      requires Valid()
      requires -200 <= respawnY <= -50
      modifies this`rect, this`speedX, this`directionTimer, this`directionChangeDelay
      ensures Valid()
      ensures Elapsed(now, old(directionTimer), old(directionChangeDelay)) ==>
                directionTimer == now && directionChangeDelay == TurnDelay
      ensures !Elapsed(now, old(directionTimer), old(directionChangeDelay)) ==>
                directionTimer == old(directionTimer) && directionChangeDelay == old(directionChangeDelay)
      ensures var v := Turned(old(speedX), now, old(directionTimer), old(directionChangeDelay));
              var moved := old(rect).MoveBy(v, speedY);
              && rect == (if moved.Top() > 620 then Rect(respawnX, respawnY, BugSize, BugSize) else moved)
              && speedX == (if OutSideways(rect) then -v else v)
      ensures rect.Top() <= 620
      ensures speedX == old(speedX) || speedX == -old(speedX)
    {
      if now - directionTimer > directionChangeDelay {
        speedX := -speedX;
        directionTimer := now;
        directionChangeDelay := TurnDelay;
      }
      rect := rect.(x := rect.x + speedX);
      rect := rect.(y := rect.y + speedY);
      if rect.Top() > 620 {
        rect := rect.(y := respawnY);
        rect := rect.(x := respawnX);
      }
      if rect.Left() < 0 || rect.Right() > FieldWidth {
        speedX := -speedX;
      }
    }

    method Shoot(roll: real)
      modifies this`bullets
      ensures bullets == old(bullets) + Volley(rect, roll)
    {
      var bullet := CenteredAt(rect.CenterX(), rect.Bottom(), BulletSize, BulletSize);
      bullets := bullets + [bullet];
      if roll < TripleChance {
        var left := CenteredAt(rect.CenterX() - 20, rect.Bottom(), BulletSize, BulletSize);
        var right := CenteredAt(rect.CenterX() + 20, rect.Bottom(), BulletSize, BulletSize);
        bullets := bullets + [left, right];
      }
    }
  }
}
