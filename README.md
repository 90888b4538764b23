# CodeSpire frame logic in Dafny

This project models the per-frame game logic of CodeSpire, a pygame space shooter in which
every collision makes the player answer a programming question. It covers the following:

- **The two bosses.** Each has an entry descent, a fight (tracking, a cooldown-gated shooter
  whose interval shrinks with every shot, and minion waves on level 2), a frame-counted death
  animation and victory.
- **The entities.**
  - The player's ship has keyboard movement, a single-shot trigger, rising lasers and a one-hit
    shield.
  - The level-1 and level-3 bugs drift down, wrap back to the top and shoot.
- **The question pool.** Questions are drawn without repetition until every question has been
  asked, and then the pool starts over.
- **The answer prompt.** It folds key events into the typed text. The answer is accepted when
  `strip().lower()` of the typed text equals the lower-cased expected answer.
- **The level-1 main loop.** It covers the scrolling background, the explosion animations and
  the encounter block. A bug that touches the player or a laser asks one question and is
  removed. An enemy bullet that reaches the player is removed before its question.

The model keeps the source's own form:

- **Objects become classes.** Each object whose fields the game updates in place (a boss, the
  player, a bug, an explosion, the question pool, the game) is a Dafny `class` whose methods
  change its fields. A ghost `Valid()` predicate states what each method preserves.
- **Pure steps become functions.** Each pure step is a function: a movement step, the trigger,
  damage, the shot patterns, a question draw, the typed text, the verdict. Each method is proved
  to leave its object in the state that these functions describe.
- **Bullet, minion, laser and explosion lists become `seq` fields.** The source moves and prunes
  them with `for x in list[:]: ...; list.remove(x)`. The model does the same with a loop over a
  snapshot (`Pruning.MovePrune`), proved equal to the specification `Pruning.Kept`. That is the
  moved elements, in order, minus those that left the field.
- **Inputs outside the model become parameters.**
  - The clock (`pygame.time.get_ticks()`) is an integer `now`, read once per call.
  - Random draws are parameters whose `requires` give the range the source draws from.
  - The answer to a question in the main loop is given by a verdict oracle `verdict: nat -> bool`.
  - The shield draw after it is `rolls: nat -> real`.
  - Both are indexed by the number of questions asked so far.
- **Rects are integer records.** A pygame `Rect` is `Geometry.Rect(x, y, w, h)`, and its centre
  is rounded down as pygame does. `colliderect` is strict overlap on both axes.

## Model

| member | source | states |
|---|---|---|
| Geometry.CenteredAt | levels/level_1_boss.py:10 | a rect placed by its centre has the requested size and that centre |
| Geometry.Clamp | levels/level_1_boss.py:176 | `max(lo, min(v, hi))` lies in `[lo, hi]` when that range is non-empty and leaves values already inside unchanged |
| Geometry.Collide | main.py:130 | `colliderect`: strict overlap on both axes (definition) |
| Timing.Ramp | levels/level_1_boss.py:187 | the cooldown after a shot is never below the floor, never above the old cooldown, and is either the floor or one step less |
| Timing.RampedClosedForm | levels/level_2_boss.py:187 | after n shots the cooldown is `max(floor, start - n * step)` |
| Timing.Elapsed | levels/level_1_boss.py:181 | a timer has run out once strictly more than its interval has passed since the stamp (definition) |
| Pruning.Kept | levels/level_1_boss.py:190-196 | the survivors of a move-and-prune pass are never more than the elements and all pass the keep test |
| Pruning.KeptSnoc | entities/player.py:72-75 | processing one more element appends its moved value exactly when that value is kept |
| Pruning.KeptAppend | entities/player.py:72-75 | pruning a concatenation prunes each part independently, so survivors keep their order |
| Pruning.KeptMembers | entities/bug.py:40-43 | a value survives exactly when it is the moved image of some element and passes the keep test |
| Pruning.KeptAll | entities/bugs_level_3.py:68-71 | nothing is removed exactly when every moved element passes the keep test |
| Pruning.MovePrune | levels/level_2_boss.py:190-196 | the loop over a snapshot that moves each element and removes it from the live list by value (`list.remove`) when it fails the test yields exactly `Kept` |
| Pruning.MovePruneStep | levels/level_2_boss.py:190-196 | one turn of that loop advances the invariant: processed prefix pruned, the rest untouched; the value-based `remove` hits the current element because no earlier survivor can equal a rejected value |
| Pruning.Remove | main.py:139 | `list.remove` by value: one element fewer when present, nothing new added (the absent case, where Python raises `ValueError`, is never reached: every call removes an element just found in the list) |
| Pruning.RemoveAt | main.py:155 | removing a value whose first occurrence is at a known position deletes exactly that position |
| Bosses.AfterHit | levels/level_1_boss.py:292-294 | a hit takes one point off a live boss and clamps health at 0 |
| Bosses.AfterHitsClosedForm | levels/level_1_boss.py:290-300 | after n hits health is `max(0, health - n)`, so never negative |
| Bosses.FatalHit | levels/level_2_boss.py:291-299 | a boss at full health h survives h - 1 hits and the h-th reports the kill |
| Bosses.DeathIndexNamesAFrame | levels/level_2_boss.py:238-244 | with at least one death frame the animation index always names a frame |
| Bosses.Fly | levels/level_1_boss.py:191-193 | a boss bullet moves by its own velocity and keeps its size and velocity |
| Bosses.OnField | levels/level_1_boss.py:194 | a bullet stays while its top is not below 600 and its left edge is within `[0, screen_width]` (definition) |
| Bosses.InsideOf | levels/level_2_boss.py:194 | the same test as a function value, for the bullet pass (definition) |
| Bosses.DeathStep | levels/level_1_boss.py:223-240 | a finished animation stamps its end on the first call and declares victory once the stamp is more than 3000 ms old, leaving the frame alone; an unfinished one advances one frame only after more than `speed` ms, stamps that advance, and finishes exactly on the last frame |
| Bosses.DeathStepKeepsIndex | levels/level_2_boss.py:238-244 | a step keeps the index within the frames and pinned to the last one once finished |
| Bosses.VictoryOnlyAfterDelay | levels/level_2_boss.py:229-236 | victory comes only from a finished animation whose end was stamped by an earlier call more than 3000 ms before |
| Bosses.AnimationFinishes | levels/level_1_boss.py:223-240 | called with more than `speed` ms between calls, an unfinished animation has finished after one call per remaining frame |
| Level1.Volley | levels/level_1_boss.py:181-185 | above half health one bullet straight down from the boss's centre, otherwise two bullets 40 pixels either side spreading by 4 |
| Level1.SingleShot | levels/level_1_boss.py:201-207 | one bullet centred under the boss falling straight at 10 (definition) |
| Level1.DoubleShot | levels/level_1_boss.py:209-219 | two bullets 40 pixels either side of the centre, moving out by 4 and down at 10 (definition) |
| Level1.Level1Boss.constructor | levels/level_1_boss.py:6-72 | the boss starts above the screen with health 4, following, cooldown 2500, no bullets, no sound, animation at frame 0 |
| Level1.Level1Boss.PlayBossSound | levels/level_1_boss.py:77-82 | a loaded sound that is not playing starts playing unpaused; otherwise nothing changes |
| Level1.Level1Boss.PauseBossSound | levels/level_1_boss.py:84-88 | the sound becomes paused only if it is playing; paused still implies playing |
| Level1.Level1Boss.ResumeBossSound | levels/level_1_boss.py:90-94 | afterwards the sound is not paused |
| Level1.Level1Boss.StopBossSound | levels/level_1_boss.py:96-101 | afterwards the sound is neither playing nor paused |
| Level1.Level1Boss.ResetShootingRate | levels/level_1_boss.py:123-127 | after a question the cooldown is 2000, shooting pauses for 3000 ms and a playing sound is paused |
| Level1.Level1Boss.ShootSingle | levels/level_1_boss.py:201-207 | appends exactly the single shot |
| Level1.Level1Boss.ShootDouble | levels/level_1_boss.py:209-219 | appends exactly the two spread shots |
| Level1.Level1Boss.TryShoot | levels/level_1_boss.py:179-187 | fires iff the pause is over (`now >= paused_until`) and the cooldown has elapsed; then it appends the health-dependent volley, stamps the time and ramps the cooldown down to at least 800; otherwise nothing changes |
| Level1.Level1Boss.MoveBullets | levels/level_1_boss.py:189-196 | every bullet moves by its own velocity and those below 600 or off either side are removed, in order |
| Level1.Level1Boss.SwitchMovement | levels/level_1_boss.py:160-165 | following and returning flip together exactly when more than 4000 ms have passed, so exactly one holds |
| Level1.Level1Boss.Track | levels/level_1_boss.py:167-176 | one horizontal step by the active mode's step, then `0 <= x <= screen_width - 200`; height unchanged |
| Level1.Level1Boss.UpdateDeathAnimation | levels/level_1_boss.py:223-240 | the animation state (index, time of the last advance, finished, end stamp, victory) becomes `Bosses.DeathStep` of the old state; the call that stamps the end also stops the sound, leaving it neither playing nor paused; on every other call both sound flags are unchanged |
| Level1.Level1Boss.Hit | levels/level_1_boss.py:290-300 | health drops by one, clamped at 0; the kill is reported iff health was at most 1 and sets not-alive, dying and victory together |
| Level1.Level1Boss.Manoeuvre | levels/level_1_boss.py:146-176 | the sound plays and is resumed once the pause is over; the mode flips and the switch time is stamped exactly when more than 4000 ms have passed; then one step by the active mode, clamped to the screen |
| Level1.Level1Boss.ShootAndMoveBullets | levels/level_1_boss.py:178-196 | the shooting gate then the bullet pass: the new bullet list is the pruned old list plus the volley when the gate opened |
| Level1.Level1Boss.Update | levels/level_1_boss.py:129-196 | after victory nothing changes; during the descent only `y` grows by 3; in position the sound plays exactly when it was playing or could be loaded and stays paused only while the pause lasts, the mode flips and is stamped when due, `x` becomes the old `x` plus the active step clamped to `[0, screen_width - 200]`, a shot is stamped iff the gate is open, the cooldown ramps exactly then, and the bullets are the pruned old list plus the health-dependent volley |
| Level2.AttackTier | levels/level_2_boss.py:111-115 | tier 1 above half health, 2 at or below half and above a third, 3 at or below a third |
| Level2.TierNeverDrops | levels/level_2_boss.py:111-115 | losing health never lowers the tier |
| Level2.SpiralDx | levels/level_2_boss.py:134 | `angle / 3` truncated toward zero: three times the result is within 3 of the angle, on the angle's side of zero |
| Level2.Volley | levels/level_2_boss.py:117-134 | 1, 3 or 4 bullets for tiers 1, 2 and 3, all from under the boss; tier 1 falls at 9, tier 2 spreads at -5, 0, 5 falling at 10, tier 3 spreads at -5, -1, 1, 5 falling at 12 |
| Level2.NextMinionCooldown | levels/level_2_boss.py:199-205 | after a wave the minion cooldown stays at tier 1, becomes 8000 at tier 2 and 6000 at tier 3 |
| Level2.MinionStays | levels/level_2_boss.py:210 | a minion stays while its top is not below 700 (definition) |
| Level2.WaveOk | levels/level_2_boss.py:216-223 | a wave has 2 to 4 minions, each drawn at `x` in `[150, screen_width - 150]` and `y` in `[-150, -50]` (definition) |
| Level2.Level2Boss.constructor | levels/level_2_boss.py:9-78 | the boss starts above the screen with health 8, cooldown 2200, minion cooldown 50000, no bullets or minions |
| Level2.Level2Boss.PlayBossSound | levels/level_2_boss.py:96-99 | afterwards the sound plays exactly when it was playing or could be loaded |
| Level2.Level2Boss.StopBossSound | levels/level_2_boss.py:101-104 | afterwards the sound is not playing |
| Level2.Level2Boss.Shoot | levels/level_2_boss.py:109-137 | appends exactly the volley of the current attack tier, centred under the boss |
| Level2.Level2Boss.ResetShootingRate | levels/level_2_boss.py:139-141 | only the pause changes: shooting resumes 3000 ms from now |
| Level2.Level2Boss.FireGate | levels/level_2_boss.py:183-187 | fires iff `now > paused_until` (strict) and the cooldown has elapsed; then appends the tier's volley, stamps the time and ramps the cooldown down to at least 600 |
| Level2.Level2Boss.ShootAndMoveBullets | levels/level_2_boss.py:183-196 | the gate then the bullet pass: the pruned old bullets plus the volley when the gate opened |
| Level2.Level2Boss.SpawnMinions | levels/level_2_boss.py:216-223 | a wave appends its 2 to 4 minions in order |
| Level2.Level2Boss.MinionStep | levels/level_2_boss.py:198-211 | a wave spawns exactly when its cooldown has elapsed, the cooldown follows the tier, and every minion moves; those whose top is below 700 are dropped |
| Level2.Level2Boss.Follow | levels/level_2_boss.py:173-180 | the centre moves by the tracking step and is kept at least 100 pixels from either edge; the height is the resting height plus the sway |
| Level2.Level2Boss.UpdateDeathAnimation | levels/level_2_boss.py:229-244 | the animation state becomes `Bosses.DeathStep` of the old state; the call that stamps the end also stops the sound; on every other call the sound flag is unchanged |
| Level2.Level2Boss.Hit | levels/level_2_boss.py:291-299 | health drops by one, clamped at 0; the kill is reported iff health was at most 1 and starts the death without declaring victory |
| Level2.Level2Boss.Update | levels/level_2_boss.py:146-211 | after victory nothing changes; while dying the animation follows `DeathStep`, the stamping call stops the sound, and position, bullets, minions and stamps are unchanged; during the descent only `y` grows by 3; in position the sound plays exactly when it was playing or could be loaded, the centre moves by the step clamped to `[100, screen_width - 100]`, the height is the resting height plus the sway, the bullets, shot stamp and cooldown are those of `Fired` and the minions, wave stamp and wave cooldown those of `Spawned`; the animation state is unchanged outside the dying branch |
| Level2.Level2Boss.Fight | levels/level_2_boss.py:161-211 | the in-position part of a frame: sound started, centre clamped, height swayed, then the whole shot state as `Fired` and the whole minion state as `Spawned` describe |
| Level2.Level2Boss.Attack | levels/level_2_boss.py:183-211 | the shot state follows `Fired` and the minion state follows `Spawned`, one after the other |
| PlayerShip.Steer | entities/player.py:33-40 | the four guarded steps keep the size, move at most 5 on each axis and not at all on an axis with no key held |
| PlayerShip.Nudge | entities/player.py:33-40 | one guarded step: moved by the key's offset when its guard holds, otherwise unchanged (definition) |
| PlayerShip.SteerKeepsOnScreen | entities/player.py:33-40 | a ship inside the 800 by 600 field on its 5-pixel grid stays inside whatever keys are held |
| PlayerShip.GuardedStep | entities/player.py:33-34 | one step taken only from strictly inside the field keeps the ship inside |
| PlayerShip.SteerOvershoot | entities/player.py:33-40 | from any position, no edge is ever passed by 5 pixels or more |
| PlayerShip.SteerAllKeepsOnScreen | entities/player.py:29-40 | the same for any number of frames |
| PlayerShip.Pull | entities/player.py:43-50 | fires iff SPACE is held and the trigger is armed; a shot disarms it and stamps the time; otherwise it re-arms once more than 300 ms have passed |
| PlayerShip.FiresAreSpaced | entities/player.py:43-50 | however SPACE is held over a run of frames, successive shots are more than 300 ms apart |
| PlayerShip.Muzzle | entities/player.py:54 | a laser is 10 by 20, centred on the ship, with its top 10 pixels above the ship's |
| PlayerShip.Rise | entities/player.py:73 | a laser climbs 7 pixels |
| PlayerShip.OnScreenLaser | entities/player.py:74 | a laser stays while its top is not above the screen (definition) |
| PlayerShip.Damage | entities/player.py:57-63 | a shield absorbs the hit and is used up; without one health drops by exactly one, unclamped |
| PlayerShip.Reward | entities/player.py:65-68 | a draw below 0.2 grants the shield; the shield is never taken away and health is unchanged |
| PlayerShip.AnswerCostsAtMostOne | entities/player.py:57-68 | an answer costs one point exactly when it is wrong and there is no shield, and nothing otherwise |
| PlayerShip.DamagedClosedForm | entities/player.py:57-63 | over n hits a shield absorbs exactly the first and every other hit costs a point |
| PlayerShip.Player.constructor | entities/player.py:6-23 | the ship is centred at the given point with 3 health, no shield, no lasers, armed |
| PlayerShip.Player.HandleInput | entities/player.py:29-50 | the ship moves by `Steer`, the trigger by `Pull`, and a shot appends one laser from where the ship has just moved to |
| PlayerShip.Player.Move | entities/player.py:33-40 | the ship moves as `Steer` describes |
| PlayerShip.Player.PullTrigger | entities/player.py:43-50 | the trigger state follows `Pull` and at most one laser is appended |
| PlayerShip.Player.Shoot | entities/player.py:52-55 | appends exactly the muzzle laser |
| PlayerShip.Player.TakeDamage | entities/player.py:57-63 | health and shield change as `Damage` describes |
| PlayerShip.Player.GetShieldChance | entities/player.py:65-68 | health and shield change as `Reward` describes |
| PlayerShip.Player.Update | entities/player.py:70-75 | every laser climbs and those above the top edge are removed, in order |
| Bugs.Descend | entities/bug.py:25-28 | a bug falls 2 pixels; once its top is below 600 it restarts at `y == -50` at the drawn `x`; its top never ends below 600 |
| Bugs.DescendManyFalls | entities/bug.py:25-28 | until it reaches the bottom a bug falls exactly 2 pixels a frame and never wraps |
| Bugs.RespawnOverhang | entities/bug.py:27-28 | the respawn draw places the left edge, so a respawned bug can overhang the right edge by up to 50 pixels |
| Bugs.BugMuzzle | entities/bug.py:47 | a bug bullet is 10 by 20, centred under the bug, its top on the bug's bottom |
| BugBullets.Fall | entities/bug.py:41 | a bug bullet moves straight down by the bug kind's speed (5 pixels for level-1 bugs, 6 at entities/bugs_level_3.py:69) and keeps its size |
| BugBullets.Falling | entities/bug.py:42 | a bug bullet stays while its top is not below 600, the same test at entities/bugs_level_3.py:70 (definition) |
| BugBullets.FallManyClosedForm | entities/bug.py:40-43 | after n frames a bug bullet has fallen exactly `n * speed` pixels and kept its size |
| BugBullets.BulletLeavesField | entities/bugs_level_3.py:68-71 | a bullet that has fallen past the bottom edge is no longer kept |
| Bugs.Bug.constructor | entities/bug.py:6-21 | the bug is centred at the given point with its drawn cooldown in `[1000, 3000]` and no bullets |
| Bugs.Bug.Update | entities/bug.py:23-43 | the bug descends or wraps; it shoots iff it can shoot and the cooldown has elapsed, then stamps the time and takes the next cooldown; bullets are the pruned old ones plus the new shot |
| Bugs.Bug.Shoot | entities/bug.py:45-48 | appends exactly one bullet under the bug |
| BugsLevel3.Turned | entities/bugs_level_3.py:44-47 | the sideways speed is reversed exactly when the weave delay has run out |
| BugsLevel3.Volley | entities/bugs_level_3.py:75-82 | one bullet under the bug's centre, and two more 20 pixels either side when the draw is below 0.2 |
| BugsLevel3.OutSideways | entities/bugs_level_3.py:57 | a bug is past a side when its left edge is below 0 or its right edge beyond 800 (definition) |
| BugsLevel3.BugLevel3.constructor | entities/bugs_level_3.py:6-32 | the bug is centred at the given point with its drawn speeds, weave delay and cooldown |
| BugsLevel3.BugLevel3.Update | entities/bugs_level_3.py:41-71 | weave, move, respawn, side bounce, then fire when able and due, then the bullet pass; its top never ends below 620 |
| BugsLevel3.BugLevel3.FireGate | entities/bugs_level_3.py:61-66 | fires iff it can shoot and the cooldown has elapsed, then stamps the time and takes the next cooldown in `[1000, 2500]` |
| BugsLevel3.BugLevel3.Move | entities/bugs_level_3.py:43-58 | the speed reverses when the delay runs out (the delay becomes 500), the bug moves, a bug whose top is below 620 respawns at the drawn point, a bug past a side edge reverses without being moved back, and the size of the sideways speed never changes |
| BugsLevel3.BugLevel3.Shoot | entities/bugs_level_3.py:73-82 | appends exactly the volley |
| Questions.Available | challenges/challenge_handler.py:12 | exactly the questions not yet used, never more than the pool |
| Questions.Draw | challenges/challenge_handler.py:12-23 | the question comes from the pool; if one is unused it was unused and is appended to the record; if all were used the record becomes just the question |
| Questions.DrawKeepsRecord | challenges/challenge_handler.py:12-21 | the record stays a duplicate-free list of pool questions |
| Questions.SomeUnused | challenges/challenge_handler.py:12-17 | while the record is shorter than the number of distinct questions, some question is unused |
| Questions.NoRepeatWithinRound | challenges/challenge_handler.py:5-23 | draws that fit in what is left of a round are pairwise distinct and distinct from the ones already asked; the record is the old record plus those draws |
| Questions.QuestionPool.constructor | challenges/challenge_handler.py:5 | the record starts empty over a non-empty question list |
| Questions.QuestionPool.GetQuestion | challenges/challenge_handler.py:7-23 | the question and the new record are those of `Draw`, and the record stays duplicate-free |
| Prompt.LowerChar | challenges/challenge_draw.py:32 | lower-casing keeps whitespace whitespace and maps `A`-`Z` to `a`-`z` |
| Prompt.IsSpace | challenges/challenge_draw.py:32 | the characters `str.strip()` removes: the ASCII whitespace and separators and the Unicode spaces and line breaks (definition) |
| Prompt.Lower | challenges/challenge_draw.py:32 | `lower()` works character by character and keeps the length |
| Prompt.LowerIdempotent | challenges/challenge_draw.py:32 | lower-casing twice is lower-casing once |
| Prompt.TrimStart | challenges/challenge_draw.py:32 | drops exactly the leading whitespace |
| Prompt.TrimEnd | challenges/challenge_draw.py:32 | drops exactly the trailing whitespace |
| Prompt.TrimStartPadded | challenges/challenge_draw.py:32 | extra leading whitespace does not change the left trim |
| Prompt.TrimEndPadded | challenges/challenge_draw.py:32 | extra trailing whitespace does not change the right trim |
| Prompt.TrimStartTrailing | challenges/challenge_draw.py:32 | trailing whitespace passes through the left trim |
| Prompt.StripLeading | challenges/challenge_draw.py:32 | `strip()` ignores added leading whitespace |
| Prompt.StripTrailing | challenges/challenge_draw.py:32 | `strip()` ignores added trailing whitespace |
| Prompt.StripPadded | challenges/challenge_draw.py:32 | `strip()` ignores whitespace added on both sides |
| Prompt.StripEnds | challenges/challenge_draw.py:32 | a stripped text neither starts nor ends with whitespace |
| Prompt.Strip | challenges/challenge_draw.py:32 | `strip()`: the right trim of the left trim (definition; its properties are the `Strip*` lemmas above) |
| Prompt.Verdict | challenges/challenge_draw.py:32 | the answer is accepted iff the stripped, lower-cased typed text equals the lower-cased expected answer (definition) |
| Prompt.TrimStartLower | challenges/challenge_draw.py:32 | lower-casing before or after the left trim gives the same text |
| Prompt.TrimEndLower | challenges/challenge_draw.py:32 | lower-casing before or after the right trim gives the same text |
| Prompt.VerdictIgnoresPaddingAndCase | challenges/challenge_draw.py:32 | surrounding whitespace and the case of the typed text, and the case of the expected answer, do not change the verdict |
| Prompt.PaddedAnswerIsUnreachable | challenges/challenge_draw.py:32 | an expected answer that starts or ends with whitespace is never matched |
| Prompt.DropLast | challenges/challenge_draw.py:34 | `user_text[:-1]` drops the last character and leaves empty text empty |
| Prompt.Apply | challenges/challenge_draw.py:33-36 | BACKSPACE drops a character, another key appends its (possibly empty) text, other events change nothing |
| Prompt.Outcome | challenges/challenge_draw.py:27-32 | QUIT answers wrong, RETURN answers with the verdict on the typed text (definition) |
| Prompt.Respond | challenges/challenge_draw.py:26-36 | the events in order: the first QUIT or RETURN decides, every other event edits the text, and no decision without one (definition; see the lemmas below) |
| Prompt.FirstTerminalDecides | challenges/challenge_draw.py:26-32 | the first QUIT or RETURN decides with the text typed before it; later events are ignored |
| Prompt.NoTerminalKeepsWaiting | challenges/challenge_draw.py:14-38 | without QUIT or RETURN no answer is given |
| Prompt.Keystrokes | challenges/challenge_draw.py:35-36 | one ordinary key press per character |
| Prompt.TypedKeystrokes | challenges/challenge_draw.py:35-36 | typing a string appends it |
| Prompt.TypingTheAnswerWins | challenges/challenge_draw.py:30-32 | typing the expected answer and RETURN is accepted |
| Prompt.QuitIsWrong | challenges/challenge_draw.py:27-28 | a window close after ordinary keys answers wrong whatever was typed |
| Prompt.ConcatSnoc | challenges/challenge_draw.py:14-26 | the events of one more poll come after those of the earlier polls |
| Prompt.RespondAfter | challenges/challenge_draw.py:26-36 | after ordinary keys the prompt continues from the text they typed |
| Prompt.TypedSnoc | challenges/challenge_draw.py:33-36 | one more ordinary event applies to the text typed so far |
| Prompt.ConcatSplit | challenges/challenge_draw.py:14-26 | all events are those before a poll, that poll's, and those after |
| Prompt.DecidedHere | challenges/challenge_draw.py:26-32 | a decision inside one poll is the decision over all polls |
| Prompt.ReadAnswer | challenges/challenge_draw.py:10-38 | the editing loop over successive polls returns exactly what `Respond` gives for all their events |
| Prompt.HandleEvent | challenges/challenge_draw.py:26-36 | one event: it decides iff it is QUIT or RETURN, and then with the overall answer; otherwise the text is the text typed so far |
| Prompt.AskQuestion | challenges/challenge_draw.py:3-38 | the question function is called once, and the result is the prompt's answer to the drawn question |
| MainLoop.Scroll | main.py:101-106 | a background copy moves 2 down and jumps to `-HEIGHT` once at or past `HEIGHT`, staying in `[-HEIGHT, HEIGHT)` |
| MainLoop.BackdropScrolls | main.py:77-106 | the two copies stay exactly one screen apart on even offsets |
| MainLoop.BackdropCovers | main.py:101-108 | between them the two copies cover every row of the screen |
| MainLoop.Explosion.constructor | main.py:39-52 | an explosion starts at frame 0, centred where the bug was |
| MainLoop.Explosion.Update | main.py:54-62 | the frame advances only after more than 50 ms, and the explosion is finished exactly once the index reaches 11 |
| MainLoop.HitsAreRemoved | main.py:148-150 | the lasers removed after an encounter are exactly those overlapping the bug |
| MainLoop.AnyHit | main.py:132 | some laser overlaps the bug (definition) |
| MainLoop.Misses | main.py:149 | the keep test of the laser and bullet passes: no overlap with the target (definition) |
| MainLoop.HitCount | main.py:153-155 | the number of bullets overlapping the target, never more than the bullets |
| MainLoop.Questions | main.py:129-162 | the questions one bug can cause in a frame: at most one for the encounter plus one per enemy bullet hitting the player, at least one when the bug touches the player |
| MainLoop.Resolve | main.py:135-162 | the player's state after n answers in order, the k-th using the k-th verdict and draw (definition) |
| MainLoop.ResolveConcat | main.py:135-162 | resolving m answers and then n more is resolving m + n answers |
| MainLoop.ResolveCostsAtMost | main.py:153-162 | each question costs at most one point of health |
| MainLoop.CorrectAnswersAreFree | main.py:156-159 | correctly answered questions never cost health |
| MainLoop.DistinctAfterRemove | main.py:139 | removing a bug keeps the list free of duplicates |
| MainLoop.Game.constructor | main.py:77-94 | the player starts near the bottom centre, five bugs at their staggered positions, no explosions, background at 0 and `-HEIGHT` |
| MainLoop.Game.ScrollBackground | main.py:101-106 | both copies scroll as `Scroll` describes |
| MainLoop.Game.Ask | main.py:156-162 | exactly one question: a correct answer only rolls for a shield, a wrong one only damages |
| MainLoop.Game.Encounter | main.py:129-150 | a bug overlapping the player or a laser asks exactly one question and the player's state is that answer's outcome; it leaves a fresh explosion centred on the bug, is removed by value whatever the verdict, and the lasers overlapping it are removed in order; otherwise nothing changes |
| MainLoop.Game.Destroy | main.py:134-150 | one question, one explosion, the bug removed and the overlapping lasers removed |
| MainLoop.Game.Explode | main.py:138-145 | appends an explosion centred on the bug and removes the bug |
| MainLoop.Game.PruneLasers | main.py:148-150 | exactly the lasers overlapping the bug are removed, in order |
| MainLoop.Game.EnemyFire | main.py:153-162 | every enemy bullet overlapping the player is removed and asks one question, so the number of questions is the number of hits and the player's state is their combined outcome |
| MainLoop.Game.CheckBullets | main.py:153-162 | the enemy-bullet loop over a snapshot keeps its invariant to the end |
| MainLoop.Game.CheckBullet | main.py:153-162 | one turn of that loop: a hit is removed before its question, a miss is kept |
| MainLoop.Game.Struck | main.py:154-162 | the bullet is removed from its bug's list and then exactly one question is asked |
| MainLoop.Game.Confront | main.py:129-162 | the encounter and then the enemy-bullet pass: the bug's bullets are those missing the player, the questions are `Questions` of the bug and the old lists, and the player's state is their outcomes in order |
| MainLoop.Game.ProcessBug | main.py:125-162 | the whole bug iteration: the bug moves and fires as `Bug.Update` describes, then the encounter and the enemy-bullet pass; the questions asked are one for the encounter plus one per bullet hitting the player, the player's state is their outcomes in order, the bug's bullets are the fallen ones that miss the player, and the bug is either kept or removed after a question |
| MainLoop.Game.UpdateBugs | main.py:125-162 | every bug of the snapshot is processed once; only listed bugs remain, and each removal comes with a question |
| MainLoop.Game.BugTurn | main.py:125-162 | one turn of the bug loop processes its bug as `ProcessBug` describes and keeps the accounting: only listed bugs remain and each removal comes with a question |
| MainLoop.Game.PlayerTurn | main.py:120-122 | the ship moves by `Steer`, the trigger follows `Pull`, and the lasers are the risen old ones plus the muzzle laser when it fired, less those above the top edge |
| MainLoop.Game.Frame | main.py:97-169 | one frame: background scrolled, ship steered, trigger pulled, bugs only removed and never more than the questions asked |
| MainLoop.Game.UpdateExplosions | main.py:165-169 | every explosion advances and exactly the finished ones are removed, in order |
| MainLoop.Sweep | main.py:165-169 | the explosion loop over a snapshot yields exactly the unfinished explosions, still free of duplicates |
| MainLoop.Unfinished | main.py:168-169 | the explosions that are not finished, in order (definition) |
| MainLoop.SweepStep | main.py:165-169 | one turn: the explosion advances one frame when due and is removed when finished |
| MainLoop.UnfinishedIsSubsequence | main.py:165-169 | the remaining explosions were in the list and are not finished |

## Left out

- Drawing: every `draw` method, `draw_ui`, fonts, fade-in alpha, health-bar widths, stars and particles. These are rendering only, and the widths are float ratios.
- Asset and sound loading, `pygame.mixer` and the shot sound effects. Each death animation is a frame count, which may be 0; the index is then -1 once finished. Each boss keeps only its looping-sound flags, and `hasSound` says whether the sound could be loaded.
- The frame loop's event pump, `clock.tick` and the star updates. `MainLoop.Game.Frame` is one pass of the loop after the event pump.
- The prompt's blocking loop and screen output. The events of successive polls are a `seq<seq<Event>>`. When the polls run out before RETURN or QUIT, the result is `None`, where the real prompt would keep waiting.
- Prompt.LowerChar: lower-cases ASCII and Latin-1 capitals only, where Python's `str.lower` covers all of Unicode.
- `main.py` calls `ask_question(screen)` with one argument, while `challenges/challenge_draw.py` declares `ask_question(screen, question_func)`. Answers in the main loop are therefore a verdict oracle. `Prompt.AskQuestion` models the two-argument prompt with the level-1 pool.
- The level-2 question handler, the question data tables and the menu are not part of this model.
- `Bug_Level_2` is not part of this model. Minion movement is the parameter `advance`; only the pruning at `rect.top > 700` is modelled.
- Level1.Level1Boss.Track: the damped steps `int(diff * 0.05)` and `int(diff * 0.03)` are the parameters `followStep` and `returnStep`; only the clamp is proved.
- Level2.Level2Boss.Follow: the tracking step `int(direction * 0.05)` is the parameter `step`, and the sine sway is the parameter `sway`.
- Level2.Volley: the tier-3 horizontal speed `angle / 3` is a float in the source (about -1.67 and 1.67 for the middle bullets). It is modelled as integer division truncated toward zero (`Level2.SpiralDx`); how pygame stores a fractional offset in an integer rect is not modelled.
- BugsLevel3.BugLevel3.Move: the source draws fractional speeds (`uniform(1.5, 2.5)` down and `±uniform(0.7, 1.2)` sideways) and pygame truncates the position. The model uses integer pixel speeds, so positions do not accumulate sub-pixel truncation.
- Boss bullets carry their velocity in the `Bosses.Shot` record, instead of in the `id`-keyed `bullet_speeds` dictionary. Every shot method stores a velocity, so the dictionary's default of (0, 10) is never used.
- The clock is read once per call (`now`), where the source calls `get_ticks()` several times within one `update`.
- PlayerShip.SteerKeepsOnScreen: assumes the ship lies on its 5-pixel grid, which holds from its start at (350, 470). `PlayerShip.SteerOvershoot` gives the bound from an arbitrary position.
- MainLoop.Game.UpdateBugs: states only that bugs are removed and never added, with a question for each removal. The per-bug movement and bullet lists are stated by `Bugs.Bug.Update`, `Encounter` and `EnemyFire` and are not composed over the loop.
- MainLoop.Game.Frame: states the background, the ship and the trigger exactly; for the bugs it states the same as `UpdateBugs`, and it does not restate the new laser or explosion lists.
- MainLoop.Game.UpdateExplosions: states the surviving list. The one-frame advance of each explosion is stated by `MainLoop.SweepStep` and not carried through the loop.
