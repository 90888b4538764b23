/** Integer rectangles as pygame's `Rect` holds them, and the play field they move in. */
module Geometry {

  /** The play field is 800 by 600 pixels (main.py:12). */
  const FieldWidth := 800
  const FieldHeight := 600

  /** A pygame `Rect`: top-left corner, width and height. */
  datatype Rect = Rect(x: int, y: int, w: int, h: int) {

    function Left(): int { x }
    function Right(): int { x + w }
    function Top(): int { y }
    function Bottom(): int { y + h }

    /** pygame rounds the centre down: `centerx == x + w // 2`. */
    function CenterX(): int { x + w / 2 }
    function CenterY(): int { y + h / 2 }

    /** `rect.x += dx; rect.y += dy` */
    function MoveBy(dx: int, dy: int): Rect
    {
      Rect(x + dx, y + dy, w, h)
    }
  }

  /** `image.get_rect(center=(cx, cy))` for an image of size w by h. */
  function CenteredAt(cx: int, cy: int, w: nat, h: nat): (r: Rect)
    ensures r.w == w && r.h == h
    ensures r.CenterX() == cx && r.CenterY() == cy
  {
    Rect(cx - w / 2, cy - h / 2, w, h)
  }

  /** `a.colliderect(b)`: the two rectangles overlap in an area of positive size. */
  predicate Collide(a: Rect, b: Rect)
  {
    a.Left() < b.Right() && b.Left() < a.Right() && a.Top() < b.Bottom() && b.Top() < a.Bottom()
  }

  /** `max(lo, min(v, hi))`, as the bosses keep themselves on screen. */
  function Clamp(v: int, lo: int, hi: int): (r: int)
    ensures lo <= r
    ensures lo <= hi ==> r <= hi
    ensures lo <= v <= hi ==> r == v
  {
    if v > hi then (if hi > lo then hi else lo) else if v < lo then lo else v
  }
}
