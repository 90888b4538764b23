/** The timing primitives every shooter in the game shares. */
module Timing {

  /** The cooldown gate: `now - last > interval`. The source always compares strictly. */
  predicate Elapsed(now: int, last: int, interval: int)
  {
    now - last > interval
  }

  /** The difficulty ramp applied after every boss shot: `max(floor, cooldown - step)`. */
  function Ramp(cooldown: int, floor: int, step: nat): (r: int)
    ensures r >= floor
    ensures cooldown >= floor ==> r <= cooldown
    ensures r == floor || r == cooldown - step
  {
    if cooldown - step > floor then cooldown - step else floor
  }

  /** The cooldown after `shots` successive ramps. */
  function Ramped(cooldown: int, floor: int, step: nat, shots: nat): int
  {
    if shots == 0 then cooldown else Ramp(Ramped(cooldown, floor, step, shots - 1), floor, step)
  }

  /** Closed form of the ramp: the cooldown falls by `step` per shot until it reaches `floor`. */
  lemma {:induction false} RampedClosedForm(cooldown: int, floor: int, step: nat, shots: nat)
    requires cooldown >= floor
    ensures Ramped(cooldown, floor, step, shots)
            == if cooldown - shots * step > floor then cooldown - shots * step else floor
  {
    if shots > 0 {
      RampedClosedForm(cooldown, floor, step, shots - 1);
      assert shots * step == (shots - 1) * step + step;
    }
  }
}
