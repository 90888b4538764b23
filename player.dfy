/** The player's ship: keyboard movement, a single-shot trigger, a laser stream and a one-hit shield. */
module PlayerShip {
  import opened Geometry
  import opened Timing
  import opened Pruning

  const Speed := 5
  const ShipSize := 100
  const MaxHealth := 3
  const ShootCooldown := 300
  const ShieldChance: real := 0.2

  /** The keys `handle_input` looks at, as held down this frame. */
  datatype Keys = Keys(left: bool, right: bool, up: bool, down: bool, space: bool)

  /**
   * The four movement steps of `handle_input`, in order: each moves by
   * `Speed` only while that edge is still strictly inside the field.
   */
  function Steer(r: Rect, keys: Keys): (s: Rect)
    ensures s.w == r.w && s.h == r.h
    ensures -Speed <= s.x - r.x <= Speed && -Speed <= s.y - r.y <= Speed
    ensures !keys.left && !keys.right ==> s.x == r.x
    ensures !keys.up && !keys.down ==> s.y == r.y
    ensures keys.left && !keys.right ==> s.x == if r.Left() > 0 then r.x - Speed else r.x
    ensures keys.up && !keys.down ==> s.y == if r.Top() > 0 then r.y - Speed else r.y
  {
    var r1 := Nudge(r, keys.left && r.Left() > 0, -Speed, 0);
    var r2 := Nudge(r1, keys.right && r1.Right() < FieldWidth, Speed, 0);
    var r3 := Nudge(r2, keys.up && r2.Top() > 0, 0, -Speed);
    Nudge(r3, keys.down && r3.Bottom() < FieldHeight, 0, Speed)
  }

  /** One of those steps: move by (`dx`, `dy`) if `go`. */
  function Nudge(r: Rect, go: bool, dx: int, dy: int): Rect
  {
    if go then r.MoveBy(dx, dy) else r
  }

  /**
   * The ship on screen, on the 5-pixel grid it moves on. The player starts
   * centred at (400, 520), so its corner (350, 470) is on that grid.
   */
  predicate OnScreen(r: Rect)
  {
    && r.w == ShipSize && r.h == ShipSize
    && r.x % Speed == 0 && r.y % Speed == 0
    && 0 <= r.Left() && r.Right() <= FieldWidth
    && 0 <= r.Top() && r.Bottom() <= FieldHeight
  }

  /** Whatever keys are held, a ship on screen stays on screen. */
  lemma SteerKeepsOnScreen(r: Rect, keys: Keys)
    requires OnScreen(r)
    ensures OnScreen(Steer(r, keys))
  {
    var r1 := Nudge(r, keys.left && r.Left() > 0, -Speed, 0);
    GuardedStep(r, keys.left && r.Left() > 0, -Speed, 0);
    var r2 := Nudge(r1, keys.right && r1.Right() < FieldWidth, Speed, 0);
    GuardedStep(r1, keys.right && r1.Right() < FieldWidth, Speed, 0);
    var r3 := Nudge(r2, keys.up && r2.Top() > 0, 0, -Speed);
    GuardedStep(r2, keys.up && r2.Top() > 0, 0, -Speed);
    GuardedStep(r3, keys.down && r3.Bottom() < FieldHeight, 0, Speed);
  }

  /** A step taken only while the edge it moves towards is strictly inside the field keeps the ship on screen. */
  lemma GuardedStep(r: Rect, go: bool, dx: int, dy: int)
    requires OnScreen(r)
    requires (dx == 0 && (dy == Speed || dy == -Speed)) || (dy == 0 && (dx == Speed || dx == -Speed))
    requires go ==> (dx < 0 ==> r.Left() > 0) && (dx > 0 ==> r.Right() < FieldWidth)
    requires go ==> (dy < 0 ==> r.Top() > 0) && (dy > 0 ==> r.Bottom() < FieldHeight)
    ensures OnScreen(Nudge(r, go, dx, dy))
  {
    if go {
      assert (r.x + dx) % Speed == 0 && (r.y + dy) % Speed == 0;
    }
  }

  /**
   * From an arbitrary position: a step is only taken from strictly inside,
   * so no edge is ever passed by `Speed` pixels or more.
   */
  predicate WithinOvershoot(r: Rect)
  {
    && -Speed < r.Left() && r.Right() < FieldWidth + Speed
    && -Speed < r.Top() && r.Bottom() < FieldHeight + Speed
  }

  lemma SteerOvershoot(r: Rect, keys: Keys)
    requires WithinOvershoot(r)
    ensures WithinOvershoot(Steer(r, keys))
  {
    var r1 := Nudge(r, keys.left && r.Left() > 0, -Speed, 0);
    assert WithinOvershoot(r1);
    var r2 := Nudge(r1, keys.right && r1.Right() < FieldWidth, Speed, 0);
    assert WithinOvershoot(r2);
    var r3 := Nudge(r2, keys.up && r2.Top() > 0, 0, -Speed);
    assert WithinOvershoot(r3);
  }

  /** The same for any number of frames. */
  function SteerAll(r: Rect, frames: seq<Keys>): Rect
    decreases |frames|
  {
    if |frames| == 0 then r else SteerAll(Steer(r, frames[0]), frames[1..])
  }

  lemma {:induction false} SteerAllKeepsOnScreen(r: Rect, frames: seq<Keys>)
    requires OnScreen(r)
    ensures OnScreen(SteerAll(r, frames))
    decreases |frames|
  {
    if |frames| > 0 {
      SteerKeepsOnScreen(r, frames[0]);
      SteerAllKeepsOnScreen(Steer(r, frames[0]), frames[1..]);
    }
  }

  /** The trigger state: whether the next press fires, and when the last shot was. */
  datatype Trigger = Trigger(canShoot: bool, lastShotTime: int)

  /**
   * The shooting part of `handle_input`: fire on SPACE when armed, then
   * re-arm once more than `ShootCooldown` has passed since the last shot.
   */
  function Pull(t: Trigger, space: bool, now: int): (r: (bool, Trigger))
    ensures r.0 <==> space && t.canShoot
    ensures r.0 ==> r.1 == Trigger(false, now)
    ensures !r.0 ==> r.1.lastShotTime == t.lastShotTime
                     && (r.1.canShoot <==> t.canShoot || Elapsed(now, t.lastShotTime, ShootCooldown))
  {
    var fired := space && t.canShoot;
    var t1 := if fired then Trigger(false, now) else t;
    var t2 := if !t1.canShoot && now - t1.lastShotTime > ShootCooldown then t1.(canShoot := true) else t1;
    (fired, t2)
  }

  /** One frame of input as the trigger sees it. */
  datatype Frame = Frame(space: bool, now: int)

  /** The times at which a run of frames fires. */
  function Fires(t: Trigger, frames: seq<Frame>): seq<int>
    decreases |frames|
  {
    if |frames| == 0 then []
    else
      var (fired, t1) := Pull(t, frames[0].space, frames[0].now);
      (if fired then [frames[0].now] else []) + Fires(t1, frames[1..])
  }

  /** Frame times never go back and none is before `from`. */
  predicate Chronological(frames: seq<Frame>, from: int)
  {
    && (forall i :: 0 <= i < |frames| ==> from <= frames[i].now)
    && (forall i, j :: 0 <= i <= j < |frames| ==> frames[i].now <= frames[j].now)
  }

  /**
   * However SPACE is held, successive shots are more than `ShootCooldown`
   * apart, and a disarmed trigger waits that long after its last shot.
   */
  lemma {:induction false} FiresAreSpaced(t: Trigger, frames: seq<Frame>, from: int)
    requires Chronological(frames, from)
    ensures forall k :: 0 <= k < |Fires(t, frames)| ==> from <= Fires(t, frames)[k]
    ensures forall k :: 0 < k < |Fires(t, frames)| ==> Fires(t, frames)[k] - Fires(t, frames)[k - 1] > ShootCooldown
    ensures !t.canShoot && |Fires(t, frames)| > 0 ==> Fires(t, frames)[0] - t.lastShotTime > ShootCooldown
    decreases |frames|
  {
    if |frames| > 0 {
      var (fired, t1) := Pull(t, frames[0].space, frames[0].now);
      var rest := frames[1..];
      assert Chronological(rest, frames[0].now) by {
        forall i | 0 <= i < |rest| ensures frames[0].now <= rest[i].now {
          assert rest[i] == frames[i + 1];
        }
        forall i, j | 0 <= i <= j < |rest| ensures rest[i].now <= rest[j].now {
          assert rest[i] == frames[i + 1] && rest[j] == frames[j + 1];
        }
      }
      FiresAreSpaced(t1, rest, frames[0].now);
      var tail := Fires(t1, rest);
      assert Fires(t, frames) == (if fired then [frames[0].now] else []) + tail;
    }
  }

  /** A laser leaves the nose of the ship: 10 by 20, centred, 10 pixels above its top. */
  function Muzzle(ship: Rect): (b: Rect)
    ensures b.w == 10 && b.h == 20
    ensures b.CenterX() == ship.CenterX()
    ensures b.Top() == ship.Top() - 10 && b.Bottom() == ship.Top() + 10
  {
    Rect(ship.CenterX() - 5, ship.Top() - 10, 10, 20)
  }

  /** Lasers climb 7 pixels a frame. */
  function Rise(b: Rect): (c: Rect)
    ensures c.y == b.y - 7 && c.x == b.x && c.w == b.w && c.h == b.h
  {
    b.MoveBy(0, -7)
  }

  /** A laser is dropped once `rect.y < 0`. */
  predicate OnScreenLaser(b: Rect)
  {
    !(b.y < 0)
  }

  /** Health and shield, the state the answers to questions act on. */
  datatype Vitals = Vitals(health: int, shield: bool)

  /** `take_damage`: the shield absorbs the hit, otherwise one health point is lost; nothing clamps. */
  function Damage(v: Vitals): (w: Vitals)
    ensures !w.shield
    ensures w.health == if v.shield then v.health else v.health - 1
  {
    if v.shield then v.(shield := false) else v.(health := v.health - 1)
  }

  /** `get_shield_chance` with `roll` the value of `random.random()`. */
  function Reward(v: Vitals, roll: real): (w: Vitals)
    ensures w.health == v.health
    ensures w.shield <==> v.shield || roll < ShieldChance
  {
    if roll < ShieldChance then v.(shield := true) else v
  }

  /** The consequence of one answered question. */
  function Answered(v: Vitals, correct: bool, roll: real): Vitals
  {
    if correct then Reward(v, roll) else Damage(v)
  }

  /** An answer costs at most one point of health, and only a wrong one without a shield. */
  lemma AnswerCostsAtMostOne(v: Vitals, correct: bool, roll: real)
    ensures Answered(v, correct, roll).health == v.health - 1 <==> !correct && !v.shield
    ensures Answered(v, correct, roll).health == v.health <==> correct || v.shield
  {
  }

  /** `n` hits in a row. */
  function Damaged(v: Vitals, n: nat): Vitals
  {
    if n == 0 then v else Damage(Damaged(v, n - 1))
  }

  /** A shield absorbs exactly one of a run of hits; every other hit costs a point. */
  lemma {:induction false} DamagedClosedForm(v: Vitals, n: nat)
    ensures Damaged(v, n).health == if v.shield && n > 0 then v.health - (n - 1) else v.health - n
    ensures Damaged(v, n).shield <==> v.shield && n == 0
  {
    if n > 0 {
      DamagedClosedForm(v, n - 1);
    }
  }

  class Player {
    const speed: int := Speed
    const maxHealth: int := MaxHealth
    const shootCooldown: int := ShootCooldown

    var rect: Rect
    var health: int
    var hasShield: bool
    var bullets: seq<Rect>
    var canShoot: bool
    var lastShotTime: int

    ghost predicate Valid()
      reads this`rect
    {
      rect.w == ShipSize && rect.h == ShipSize
    }

    /** The ship centred at (x, y), full health, no shield, armed. */
    constructor (x: int, y: int)
      ensures Valid()
      ensures rect == CenteredAt(x, y, ShipSize, ShipSize)
      ensures health == MaxHealth && !hasShield
      ensures bullets == [] && canShoot && lastShotTime == 0
    {
      rect := CenteredAt(x, y, ShipSize, ShipSize);
      health := 3;
      hasShield := false;
      bullets := [];
      canShoot := true;
      lastShotTime := 0;
    }

    /** Movement, then the trigger; a laser starts from where the ship has just moved to. */
    method HandleInput(keys: Keys, now: int)
      requires Valid()
      modifies this`rect, this`bullets, this`canShoot, this`lastShotTime
      ensures Valid()
      ensures rect == Steer(old(rect), keys)
      ensures Trigger(canShoot, lastShotTime) == Pull(Trigger(old(canShoot), old(lastShotTime)), keys.space, now).1
      ensures bullets == old(bullets)
                         + (if Pull(Trigger(old(canShoot), old(lastShotTime)), keys.space, now).0
                            then [Muzzle(rect)] else [])
    {
      Move(keys);
      PullTrigger(keys.space, now);
    }

    method Move(keys: Keys)
      requires Valid()
      modifies this`rect
      ensures Valid()
      ensures rect == Steer(old(rect), keys)
    {
      if keys.left && rect.Left() > 0 {
        rect := rect.MoveBy(-speed, 0);
      }
      if keys.right && rect.Right() < FieldWidth {
        rect := rect.MoveBy(speed, 0);
      }
      if keys.up && rect.Top() > 0 {
        rect := rect.MoveBy(0, -speed);
      }
      if keys.down && rect.Bottom() < FieldHeight {
        rect := rect.MoveBy(0, speed);
      }
    }

    method PullTrigger(space: bool, now: int)
      modifies this`bullets, this`canShoot, this`lastShotTime
      ensures Trigger(canShoot, lastShotTime) == Pull(Trigger(old(canShoot), old(lastShotTime)), space, now).1
      ensures bullets == old(bullets)
                         + (if Pull(Trigger(old(canShoot), old(lastShotTime)), space, now).0 then [Muzzle(rect)] else [])
    {
      if space && canShoot {
        Shoot();
        canShoot := false;
        lastShotTime := now;
      }
      if !canShoot && now - lastShotTime > shootCooldown {
        canShoot := true;
      }
    }

    method Shoot()
      modifies this`bullets
      ensures bullets == old(bullets) + [Muzzle(rect)]
    {
      bullets := bullets + [Rect(rect.CenterX() - 5, rect.Top() - 10, 10, 20)];
    }

    method TakeDamage()
      modifies this`health, this`hasShield
      ensures Vitals(health, hasShield) == Damage(old(Vitals(health, hasShield)))
    {
      if hasShield {
        hasShield := false;
      } else {
        health := health - 1;
      }
    }

    /** `roll` is the value of `random.random()`. */
    method GetShieldChance(roll: real)
      requires 0.0 <= roll < 1.0
      modifies this`hasShield
      ensures Vitals(health, hasShield) == Reward(old(Vitals(health, hasShield)), roll)
    {
      if roll < ShieldChance {
        hasShield := true;
      }
    }

    /** Lasers climb; those that pass the top edge are dropped. */
    method Update()
      modifies this`bullets
      ensures bullets == Kept(old(bullets), Rise, OnScreenLaser)
    {
      bullets := MovePrune(bullets, Rise, OnScreenLaser);
    }
  }
}
