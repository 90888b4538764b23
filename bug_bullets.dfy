/**
 * The bullets both kinds of bug fire: they fall straight down at a fixed
 * speed (5 pixels a frame for level-1 bugs, 6 for level-3 bugs) and are
 * dropped once their top is below the field.
 */
module BugBullets {
  import opened Geometry

  /** One frame of falling: `bullet.y += speed`. */
  function Fall(b: Rect, speed: int): (c: Rect)
    ensures c.x == b.x && c.y == b.y + speed && c.w == b.w && c.h == b.h
  {
    b.MoveBy(0, speed)
  }

  /** The move step of a bullet pass at the given speed, as one value. */
  function Falls(speed: int): Rect -> Rect
  {
    b => Fall(b, speed)
  }

  /** A bullet is dropped once `y > 600`. */
  predicate Falling(b: Rect)
  {
    !(b.y > FieldHeight)
  }

  /** A bullet after `n` frames of falling. */
  function FallMany(b: Rect, speed: int, n: nat): Rect
  {
    if n == 0 then b else Fall(FallMany(b, speed, n - 1), speed)
  }

  /** After `n` frames a bullet is `n * speed` pixels lower, nothing else changed. */
  lemma {:induction false} FallManyClosedForm(b: Rect, speed: int, n: nat)
    ensures FallMany(b, speed, n) == Rect(b.x, b.y + speed * n, b.w, b.h)
  {
    if n > 0 {
      FallManyClosedForm(b, speed, n - 1);
      assert speed * (n - 1) + speed == speed * n;
    }
  }

  /**
   * Every bullet leaves the field: once it has fallen `n` frames with
   * `n * speed` more than its distance to the bottom, it is dropped.
   */
  lemma BulletLeavesField(b: Rect, speed: int, n: nat)
    requires speed * n > FieldHeight - b.y
    ensures !Falling(FallMany(b, speed, n))
  {
    FallManyClosedForm(b, speed, n);
  }
}
