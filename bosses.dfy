/** What the two bosses share: their bullets, their health and their death animation. */
module Bosses {
  import opened Geometry
  import opened Timing

  /**
   * A boss bullet. The source keeps each bullet's velocity in a side
   * dictionary keyed by the bullet's identity, defaulting to (0, 10); here the
   * bullet carries its own velocity. Every shoot method of both bosses stores
   * an entry, so the default is never taken.
   */
  datatype Shot = Shot(rect: Rect, dx: int, dy: int)

  /** `bullet_rect.x += dx; bullet_rect.y += dy` */
  function Fly(s: Shot): (t: Shot)
    ensures t.rect.x == s.rect.x + s.dx && t.rect.y == s.rect.y + s.dy
    ensures t.rect.w == s.rect.w && t.rect.h == s.rect.h && t.dx == s.dx && t.dy == s.dy
  {
    s.(rect := s.rect.MoveBy(s.dx, s.dy))
  }

  /** A bullet is removed once `y > 600 or x < 0 or x > screen_width`. */
  predicate OnField(s: Shot, screenWidth: int)
  {
    !(s.rect.y > FieldHeight || s.rect.x < 0 || s.rect.x > screenWidth)
  }

  /** The keep-test of a screen of the given width, as one value. */
  function InsideOf(screenWidth: int): Shot -> bool
  {
    s => OnField(s, screenWidth)
  }

  /** Health after one `hit()`: one less, clamped at 0. */
  function AfterHit(health: int): (h: int)
    ensures h >= 0
    ensures health >= 1 ==> h == health - 1
  {
    if health - 1 <= 0 then 0 else health - 1
  }

  /** Health after `n` hits in a row. */
  function AfterHits(health: int, n: nat): int
  {
    if n == 0 then health else AfterHit(AfterHits(health, n - 1))
  }

  /** After n >= 1 hits the health is `max(0, health - n)`: never negative. */
  lemma {:induction false} AfterHitsClosedForm(health: int, n: nat)
    requires n >= 1
    ensures AfterHits(health, n) == if health - n <= 0 then 0 else health - n
  {
    if n > 1 {
      AfterHitsClosedForm(health, n - 1);
    }
  }

  /**
   * A boss at full health h >= 1 survives h - 1 hits and the h-th is fatal:
   * `hit()` reports the kill exactly when the health before it is at most 1.
   */
  lemma FatalHit(health: nat, n: nat)
    requires health >= 1 && n >= 1
    ensures AfterHits(health, n - 1) <= 1 <==> n >= health
  {
    if n > 1 {
      AfterHitsClosedForm(health, n - 1);
    }
  }

  /**
   * The death-animation index of a boss: 0 until the first advance, never past
   * the last frame, and pinned to `frames - 1` (which is -1 without frames)
   * once the animation has finished.
   */
  predicate DeathIndexOk(index: int, frames: nat, finished: bool)
  {
    if finished then index == frames - 1 else 0 <= index && (index < frames || index == 0)
  }

  /**
   * The state `update_death_animation` reads and writes: the frame index, the
   * time of the last advance, whether the animation has finished, when it
   * finished (0 until stamped) and the victory flag.
   */
  datatype Death = Death(index: int, lastUpdate: int, finished: bool, doneTime: int, won: bool)

  /** How long the finished animation stays on screen before victory. */
  const VictoryDelay := 3000

  /**
   * One call of `update_death_animation` at time `now`: a finished animation
   * stamps its end time on the first call and declares victory once that
   * stamp is more than 3 seconds old; an unfinished one advances one frame
   * when more than `speed` ms have passed since the last advance, and
   * finishes on the last frame.
   */
  function DeathStep(d: Death, frames: nat, speed: int, now: int): (e: Death)
    ensures d.finished ==> e.finished && e.index == d.index && e.lastUpdate == d.lastUpdate
    ensures d.finished && d.doneTime == 0 ==> e.doneTime == now && e.won == d.won
    ensures d.finished && d.doneTime != 0 ==>
              e.doneTime == d.doneTime && (e.won <==> d.won || now - d.doneTime > VictoryDelay)
    ensures !d.finished ==> e.doneTime == d.doneTime && e.won == d.won
    ensures !d.finished && Elapsed(now, d.lastUpdate, speed) ==>
              && e.lastUpdate == now
              && (e.finished <==> d.index + 1 >= frames)
              && e.index == if e.finished then frames - 1 else d.index + 1
    ensures !d.finished && !Elapsed(now, d.lastUpdate, speed) ==> e == d
  {
    if d.finished then
      if d.doneTime == 0 then d.(doneTime := now)
      else if now - d.doneTime > VictoryDelay then d.(won := true)
      else d
    else if now - d.lastUpdate > speed then
      if d.index + 1 >= frames then d.(lastUpdate := now, index := frames - 1, finished := true)
      else d.(lastUpdate := now, index := d.index + 1)
    else d
  }

  /** A step never leaves the frame range. */
  lemma DeathStepKeepsIndex(d: Death, frames: nat, speed: int, now: int)
    requires DeathIndexOk(d.index, frames, d.finished)
    ensures var e := DeathStep(d, frames, speed, now); DeathIndexOk(e.index, frames, e.finished)
  {
  }

  /**
   * Victory comes only from a finished animation whose end was stamped by an
   * earlier call, more than 3 seconds before.
   */
  lemma VictoryOnlyAfterDelay(d: Death, frames: nat, speed: int, now: int)
    requires !d.won && DeathStep(d, frames, speed, now).won
    ensures d.finished && d.doneTime != 0 && now - d.doneTime > VictoryDelay
  {
  }

  /** The animation driven by one call per time stamp. */
  function DeathRun(d: Death, frames: nat, speed: int, times: seq<int>): Death
    decreases |times|
  {
    if |times| == 0 then d else DeathRun(DeathStep(d, frames, speed, times[0]), frames, speed, times[1..])
  }

  /** Each time stamp more than `speed` ms after the previous one, the first after `start`. */
  predicate Spaced(start: int, times: seq<int>, speed: int)
  {
    && (|times| > 0 ==> times[0] - start > speed)
    && forall k :: 1 <= k < |times| ==> times[k] - times[k - 1] > speed
  }

  /**
   * Liveness: an unfinished animation whose calls come more than `speed` ms
   * apart has finished after one call per remaining frame (one call when
   * there are no frames at all).
   */
  lemma {:induction false} AnimationFinishes(d: Death, frames: nat, speed: int, times: seq<int>)
    requires !d.finished && DeathIndexOk(d.index, frames, false)
    requires |times| == if frames == 0 then 1 else frames - d.index
    requires Spaced(d.lastUpdate, times, speed)
    ensures DeathRun(d, frames, speed, times).finished
    decreases |times|
  {
    var e := DeathStep(d, frames, speed, times[0]);
    if d.index + 1 >= frames {
      assert times[1..] == [];
    } else {
      assert Spaced(e.lastUpdate, times[1..], speed) by {
        forall k | 1 <= k < |times[1..]|
          ensures times[1..][k] - times[1..][k - 1] > speed
        {
          assert times[1..][k] == times[k + 1] && times[1..][k - 1] == times[k];
        }
      }
      AnimationFinishes(e, frames, speed, times[1..]);
    }
  }

  /** With at least one frame the index always names a frame. */
  lemma DeathIndexNamesAFrame(index: int, frames: nat, finished: bool)
    requires DeathIndexOk(index, frames, finished) && frames > 0
    ensures 0 <= index < frames
  {
  }
}
