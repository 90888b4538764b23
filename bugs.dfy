/** The level-1 enemies: bugs that drift down the screen, wrap to the top and, some of them, shoot. */
module Bugs {
  import opened Geometry
  import opened Timing
  import opened Pruning
  import opened BugBullets

  const BugSize := 100
  const Drift := 2
  const BulletFall := 5
  const MinCooldown := 1000
  const MaxCooldown := 3000

  /**
   * The bug's movement in one frame: two pixels down; once its top is below
   * the field it restarts at `y == -50` with its LEFT edge at `respawnX`.
   */
  function Descend(r: Rect, respawnX: int): (s: Rect)
    ensures s.w == r.w && s.h == r.h
    ensures s.Top() <= FieldHeight
    ensures r.Top() + Drift > FieldHeight ==> s == Rect(respawnX, -50, r.w, r.h)
    ensures r.Top() + Drift <= FieldHeight ==> s == r.MoveBy(0, Drift)
  {
    var moved := r.MoveBy(0, Drift);
    if moved.Top() > FieldHeight then moved.(y := -50, x := respawnX) else moved
  }

  /** `n` frames of movement. */
  function DescendMany(r: Rect, respawnX: int, n: nat): Rect
  {
    if n == 0 then r else Descend(DescendMany(r, respawnX, n - 1), respawnX)
  }

  /** Until it passes the bottom, a bug falls exactly `Drift` pixels a frame and never wraps. */
  lemma {:induction false} DescendManyFalls(r: Rect, respawnX: int, n: nat)
    requires r.Top() + Drift * n <= FieldHeight
    ensures DescendMany(r, respawnX, n) == r.MoveBy(0, Drift * n)
  {
    if n > 0 {
      DescendManyFalls(r, respawnX, n - 1);
    }
  }

  /**
   * The respawn position fixes the left edge, not the centre as the initial
   * placement does: a bug can come back with its right edge 50 pixels past
   * the field.
   */
  lemma RespawnOverhang(r: Rect, respawnX: int)
    requires r.w == BugSize && r.Top() + Drift > FieldHeight
    requires 50 <= respawnX <= 750
    ensures 50 <= Descend(r, respawnX).Left() && Descend(r, respawnX).Right() <= FieldWidth + 50
    ensures respawnX == 750 ==> Descend(r, respawnX).Right() == FieldWidth + 50
  {
  }

  /** A bug bullet: 10 by 20, centred under the bug, its top on the bug's bottom edge. */
  function BugMuzzle(bug: Rect): (b: Rect)
    ensures b.w == 10 && b.h == 20
    ensures b.CenterX() == bug.CenterX() && b.Top() == bug.Bottom()
  {
    Rect(bug.CenterX() - 5, bug.Bottom(), 10, 20)
  }

  class Bug {
    const speed: int := Drift
    /** Drawn once by the caller (`random.random() < 0.4` in the game loop). */
    const canShoot: bool

    var rect: Rect
    var bullets: seq<Rect>
    var shootCooldown: int
    var lastShotTime: int

    ghost predicate Valid()
      reads this`rect, this`shootCooldown
    {
      rect.w == BugSize && rect.h == BugSize && MinCooldown <= shootCooldown <= MaxCooldown
    }

    /** `cooldown` is the first `randint(1000, 3000)`, `now` the creation time. */
    constructor (x: int, y: int, canShoot: bool, cooldown: int, now: int)
      requires MinCooldown <= cooldown <= MaxCooldown
      ensures Valid()
      ensures rect == CenteredAt(x, y, BugSize, BugSize) && this.canShoot == canShoot
      ensures bullets == [] && shootCooldown == cooldown && lastShotTime == now
    {
      rect := CenteredAt(x, y, BugSize, BugSize);
      this.canShoot := canShoot;
      bullets := [];
      shootCooldown := cooldown;
      lastShotTime := now;
    }

    /**
     * One frame: move (`respawnX` is `randint(50, 750)`), shoot when able and
     * due (`nextCooldown` is the next `randint(1000, 3000)`), step the bullets.
     */
    method Update(now: int, respawnX: int, nextCooldown: int)
      requires Valid()
      requires 50 <= respawnX <= 750 && MinCooldown <= nextCooldown <= MaxCooldown
      modifies this`rect, this`bullets, this`shootCooldown, this`lastShotTime
      ensures Valid()
      ensures rect == Descend(old(rect), respawnX)
      ensures canShoot && Elapsed(now, old(lastShotTime), old(shootCooldown)) ==>
                && lastShotTime == now && shootCooldown == nextCooldown
                && bullets == Kept(old(bullets) + [BugMuzzle(rect)], Falls(BulletFall), Falling)
      ensures !(canShoot && Elapsed(now, old(lastShotTime), old(shootCooldown))) ==>
                && lastShotTime == old(lastShotTime) && shootCooldown == old(shootCooldown)
                && bullets == Kept(old(bullets), Falls(BulletFall), Falling)
    {
      rect := rect.MoveBy(0, speed);
      if rect.Top() > FieldHeight {
        rect := rect.(y := -50);
        rect := rect.(x := respawnX);
      }
      if canShoot {
        if now - lastShotTime > shootCooldown {
          Shoot();
          lastShotTime := now;
          shootCooldown := nextCooldown;
        }
      }
      bullets := MovePrune(bullets, Falls(BulletFall), Falling);
    }

    method Shoot()
      modifies this`bullets
      ensures bullets == old(bullets) + [BugMuzzle(rect)]
    {
      var bullet := Rect(rect.CenterX() - 5, rect.Bottom(), 10, 20);
      bullets := bullets + [bullet];
    }
  }
}
