/**
 * The level-1 frame loop: the scrolling background, the explosions left by
 * destroyed bugs, and the encounters between bugs, their bullets and the
 * player, each of which asks the player one question.
 */
module MainLoop {
  import opened Geometry
  import opened Timing
  import opened Pruning
  import opened PlayerShip
  import opened Bugs
  import opened BugBullets

  // ----------------------------------------------------------- background

  const ScrollSpeed := 2

  /** One background copy: two pixels down, back to `-HEIGHT` once at or past `HEIGHT`. */
  function Scroll(y: int): (z: int)
    ensures y < FieldHeight - ScrollSpeed ==> z == y + ScrollSpeed
    ensures y + ScrollSpeed >= FieldHeight ==> z == -FieldHeight
    ensures -FieldHeight <= y ==> -FieldHeight <= z < FieldHeight
  {
    var z := y + ScrollSpeed;
    if z >= FieldHeight then -FieldHeight else z
  }

  /** The two copies start at 0 and `-HEIGHT`, stay on an even offset and exactly one screen apart. */
  predicate Backdrop(y1: int, y2: int)
  {
    && -FieldHeight <= y1 < FieldHeight && -FieldHeight <= y2 < FieldHeight
    && y1 % 2 == 0 && y2 % 2 == 0
    && (y1 - y2 == FieldHeight || y2 - y1 == FieldHeight)
  }

  lemma BackdropScrolls(y1: int, y2: int)
    requires Backdrop(y1, y2)
    ensures Backdrop(Scroll(y1), Scroll(y2))
  {
  }

  /** Between them the two copies cover every row of the screen. */
  lemma BackdropCovers(y1: int, y2: int, row: int)
    requires Backdrop(y1, y2) && 0 <= row < FieldHeight
    ensures (y1 <= row < y1 + FieldHeight) || (y2 <= row < y2 + FieldHeight)
  {
  }

  // ----------------------------------------------------------- explosions

  const ExplosionFrames := 11
  const ExplosionSpeed := 50
  const ExplosionSize := 100

  class Explosion {
    const animationSpeed: int := ExplosionSpeed
    /** Set once, centred where the bug was. */
    const rect: Rect
    var index: int
    var lastUpdate: int
    var finished: bool

    ghost predicate Valid()
      reads this`index, this`finished
    {
      0 <= index && (finished <==> index >= ExplosionFrames)
    }

    /** An explosion centred at (x, y), starting at its first frame at time `now`. */
    constructor (x: int, y: int, now: int)
      ensures Valid()
      ensures rect == CenteredAt(x, y, ExplosionSize, ExplosionSize)
      ensures index == 0 && lastUpdate == now && !finished
    {
      rect := CenteredAt(x, y, ExplosionSize, ExplosionSize);
      index := 0;
      lastUpdate := now;
      finished := false;
    }

    /** Next frame after more than 50 ms; past the last frame the explosion is finished. */
    method Update(now: int)
      requires Valid()
      modifies this`index, this`lastUpdate, this`finished
      ensures Valid()
      ensures Elapsed(now, old(lastUpdate), animationSpeed) ==>
                index == old(index) + 1 && lastUpdate == now && (finished <==> index >= ExplosionFrames)
      ensures !Elapsed(now, old(lastUpdate), animationSpeed) ==>
                index == old(index) && lastUpdate == old(lastUpdate) && finished == old(finished)
    {
      if now - lastUpdate > animationSpeed {
        lastUpdate := now;
        index := index + 1;
        if index >= ExplosionFrames {
          finished := true;
        }
      }
    }
  }

  // ----------------------------------------------------------- encounters

  /** Whether any player laser overlaps the bug: `any(bug.rect.colliderect(b) for b in bullets)`. */
  predicate AnyHit(bug: Rect, bullets: seq<Rect>)
  {
    exists k :: 0 <= k < |bullets| && Collide(bug, bullets[k])
  }

  /** The bullets that a rectangle does not overlap survive an encounter with it. */
  function Misses(target: Rect): Rect -> bool
  {
    b => !Collide(target, b)
  }

  /** How many of `bullets` overlap `target`. */
  function HitCount(bullets: seq<Rect>, target: Rect): (n: nat)
    ensures n <= |bullets|
    decreases |bullets|
  {
    if bullets == [] then 0
    else HitCount(bullets[..|bullets| - 1], target) + (if Collide(target, bullets[|bullets| - 1]) then 1 else 0)
  }

  lemma HitCountSnoc(s: seq<Rect>, i: nat, target: Rect)
    requires i < |s|
    ensures HitCount(s[..i + 1], target) == HitCount(s[..i], target) + (if Collide(target, s[i]) then 1 else 0)
  {
    assert s[..i + 1][..i] == s[..i];
  }

  /** Each bullet is removed or kept: the removed ones are exactly the hits. */
  lemma {:induction false} HitsAreRemoved(bullets: seq<Rect>, target: Rect)
    ensures |Kept(bullets, Stay, Misses(target))| + HitCount(bullets, target) == |bullets|
    decreases |bullets|
  {
    if bullets != [] {
      HitsAreRemoved(bullets[..|bullets| - 1], target);
    }
  }

  /**
   * The questions one bug asks in a frame: one if it overlaps the ship or
   * one of the lasers, and one for each of its bullets overlapping the ship.
   */
  function Questions(bug: Rect, ship: Rect, lasers: seq<Rect>, bullets: seq<Rect>): (n: nat)
    ensures n <= 1 + |bullets|
    ensures n >= HitCount(bullets, ship)
    ensures Collide(bug, ship) ==> n >= 1
  {
    (if Collide(bug, ship) || AnyHit(bug, lasers) then 1 else 0) + HitCount(bullets, ship)
  }

  /** The player's state after questions `k`, ..., `k + n - 1` have been answered. */
  function Resolve(v: Vitals, k: nat, n: nat, verdict: nat -> bool, rolls: nat -> real): Vitals
    decreases n
  {
    if n == 0 then v else Answered(Resolve(v, k, n - 1, verdict, rolls), verdict(k + n - 1), rolls(k + n - 1))
  }

  /** Answering `m` questions and then the `n` after them is answering all `m + n`. */
  lemma {:induction false} ResolveConcat(v: Vitals, k: nat, m: nat, n: nat, verdict: nat -> bool, rolls: nat -> real)
    ensures Resolve(Resolve(v, k, m, verdict, rolls), k + m, n, verdict, rolls) == Resolve(v, k, m + n, verdict, rolls)
    decreases n
  {
    if n > 0 {
      ResolveConcat(v, k, m, n - 1, verdict, rolls);
    }
  }

  /** Every question costs at most one point of health. */
  lemma {:induction false} ResolveCostsAtMost(v: Vitals, k: nat, n: nat, verdict: nat -> bool, rolls: nat -> real)
    ensures v.health - n <= Resolve(v, k, n, verdict, rolls).health <= v.health
    decreases n
  {
    if n > 0 {
      ResolveCostsAtMost(v, k, n - 1, verdict, rolls);
      AnswerCostsAtMostOne(Resolve(v, k, n - 1, verdict, rolls), verdict(k + n - 1), rolls(k + n - 1));
    }
  }

  /** Questions answered correctly never cost health. */
  lemma {:induction false} CorrectAnswersAreFree(v: Vitals, k: nat, n: nat, verdict: nat -> bool, rolls: nat -> real)
    requires forall j :: k <= j < k + n ==> verdict(j)
    ensures Resolve(v, k, n, verdict, rolls).health == v.health
    decreases n
  {
    if n > 0 {
      CorrectAnswersAreFree(v, k, n - 1, verdict, rolls);
    }
  }

  /** Distinct entries: the game never holds the same object twice in a list. */
  predicate Distinct<T(==)>(s: seq<T>)
  {
    forall i, j :: 0 <= i < j < |s| ==> s[i] != s[j]
  }

  const NumBugs := 5

  class Game {
    const player: Player
    var bugs: seq<Bug>
    var explosions: seq<Explosion>
    var bgY1: int
    var bgY2: int
    /** How many questions have been asked: the index of the next answer the verdict oracle gives. */
    var asked: nat

    ghost predicate Valid()
      reads this, player, bugs, explosions
    {
      && player.Valid() && OnScreen(player.rect)
      && Distinct(bugs) && (forall b :: b in bugs ==> b.Valid())
      && Distinct(explosions) && (forall e :: e in explosions ==> e.Valid())
      && Backdrop(bgY1, bgY2)
    }

    /**
     * The game's start: the player near the bottom centre, the background
     * copies at 0 and `-HEIGHT`, and `NumBugs` bugs. Bug `i` is centred at
     * (`xs[i]`, `ys[i] - 120 * i`); `xs`, `ys`, `shooters` and `cooldowns`
     * are the random draws of the set-up loop.
     */
    constructor (xs: seq<int>, ys: seq<int>, shooters: seq<bool>, cooldowns: seq<int>, now: int)
      requires |xs| == |ys| == |shooters| == |cooldowns| == NumBugs
      requires forall i :: 0 <= i < NumBugs ==> 50 <= xs[i] <= FieldWidth - 50 && -300 <= ys[i] <= -50
      requires forall i :: 0 <= i < NumBugs ==> MinCooldown <= cooldowns[i] <= MaxCooldown
      ensures Valid() && fresh(player) && fresh(bugs)
      ensures player.rect == CenteredAt(FieldWidth / 2, FieldHeight - 80, ShipSize, ShipSize)
      ensures |bugs| == NumBugs
      ensures forall i :: 0 <= i < NumBugs ==>
                bugs[i].rect == CenteredAt(xs[i], ys[i] - 120 * i, BugSize, BugSize)
                && bugs[i].canShoot == shooters[i] && bugs[i].bullets == []
      ensures explosions == [] && bgY1 == 0 && bgY2 == -FieldHeight && asked == 0
    {
      var ship := new Player(FieldWidth / 2, FieldHeight - 80);
      var list: seq<Bug> := [];
      var i := 0;
      while i < NumBugs
        invariant 0 <= i <= NumBugs && |list| == i
        invariant fresh(list) && Distinct(list)
        invariant ship.Valid() && ship.rect == CenteredAt(FieldWidth / 2, FieldHeight - 80, ShipSize, ShipSize)
        invariant forall k :: 0 <= k < i ==>
                    list[k].Valid() && list[k].rect == CenteredAt(xs[k], ys[k] - 120 * k, BugSize, BugSize)
                    && list[k].canShoot == shooters[k] && list[k].bullets == []
      {
        var bug := new Bug(xs[i], ys[i] - 120 * i, shooters[i], cooldowns[i], now);
        list := list + [bug];
        i := i + 1;
      }
      player := ship;
      bugs := list;
      explosions := [];
      bgY1, bgY2 := 0, -FieldHeight;
      asked := 0;
    }

    /** `verdict(k)` answers the `k`-th question; `rolls(k)` is the shield draw after it. */
    ghost predicate Oracle(rolls: nat -> real)
    {
      forall k :: 0.0 <= rolls(k) < 1.0
    }

    /** The background step of a frame. */
    method ScrollBackground()
      requires Valid()
      modifies this`bgY1, this`bgY2
      ensures Valid()
      ensures bgY1 == Scroll(old(bgY1)) && bgY2 == Scroll(old(bgY2))
    {
      bgY1 := bgY1 + ScrollSpeed;
      bgY2 := bgY2 + ScrollSpeed;
      if bgY1 >= FieldHeight {
        bgY1 := -FieldHeight;
      }
      if bgY2 >= FieldHeight {
        bgY2 := -FieldHeight;
      }
      BackdropScrolls(old(bgY1), old(bgY2));
    }

    /** One question, answered by the oracle, and its consequence for the player. */
    method Ask(verdict: nat -> bool, rolls: nat -> real)
      requires player.Valid() && Oracle(rolls)
      modifies this`asked, player`health, player`hasShield
      ensures player.Valid()
      ensures asked == old(asked) + 1
      ensures Vitals(player.health, player.hasShield)
              == Answered(old(Vitals(player.health, player.hasShield)), verdict(old(asked)), rolls(old(asked)))
    {
      var correct := verdict(asked);
      if correct {
        player.GetShieldChance(rolls(asked));
      } else {
        player.TakeDamage();
      }
      asked := asked + 1;
    }

    /**
     * A bug that overlaps the player or one of the player's lasers: one
     * question, an explosion where the bug was, the bug removed whatever the
     * answer, and every laser overlapping the bug removed.
     */
    method Encounter(bug: Bug, now: int, verdict: nat -> bool, rolls: nat -> real)
      requires Valid() && Oracle(rolls) && bug in bugs
      modifies this`asked, this`bugs, this`explosions, player`health, player`hasShield, player`bullets
      ensures Valid()
      ensures forall e :: e in explosions ==> e in old(explosions) || fresh(e)
      ensures Encountered(bug, old(player.bullets), old(bugs), old(explosions))
      ensures var hit := Collide(bug.rect, player.rect) || AnyHit(bug.rect, old(player.bullets));
              var questions := if hit then 1 else 0;
              && (hit ==> fresh(explosions[|old(explosions)|]))
              && asked == old(asked) + questions
              && Vitals(player.health, player.hasShield)
                 == Resolve(old(Vitals(player.health, player.hasShield)), old(asked), questions, verdict, rolls)
    {
      var playerHit := Collide(bug.rect, player.rect);
      var bulletHit := AnyHit(bug.rect, player.bullets);
      if playerHit || bulletHit {
        Destroy(bug, now, verdict, rolls);
      }
    }

    /**
     * The consequences of an encounter: an explosion where the bug was, the
     * bug removed, one question, and the lasers overlapping the bug removed.
     */
    method Destroy(bug: Bug, now: int, verdict: nat -> bool, rolls: nat -> real)
      requires Valid() && Oracle(rolls) && bug in bugs
      modifies this`asked, this`bugs, this`explosions, player`health, player`hasShield, player`bullets
      ensures Valid()
      ensures asked == old(asked) + 1
      ensures bugs == Remove(old(bugs), bug)
      ensures |explosions| == |old(explosions)| + 1 && explosions[..|old(explosions)|] == old(explosions)
      ensures fresh(explosions[|old(explosions)|])
      ensures explosions[|old(explosions)|].rect == CenteredAt(bug.rect.CenterX(), bug.rect.CenterY(), ExplosionSize, ExplosionSize)
      ensures Vitals(player.health, player.hasShield)
              == Answered(old(Vitals(player.health, player.hasShield)), verdict(old(asked)), rolls(old(asked)))
      ensures player.bullets == Kept(old(player.bullets), Stay, Misses(bug.rect))
    {
      Explode(bug, now);
      Ask(verdict, rolls);
      PruneLasers(bug.rect);
    }

    /** `explosions.append(Explosion(bug.rect.centerx, bug.rect.centery))` and `bugs.remove(bug)`. */
    method Explode(bug: Bug, now: int)
      requires Valid() && bug in bugs
      modifies this`bugs, this`explosions
      ensures Valid()
      ensures bugs == Remove(old(bugs), bug)
      ensures |explosions| == |old(explosions)| + 1 && explosions[..|old(explosions)|] == old(explosions)
      ensures fresh(explosions[|old(explosions)|])
      ensures explosions[|old(explosions)|].rect == CenteredAt(bug.rect.CenterX(), bug.rect.CenterY(), ExplosionSize, ExplosionSize)
    {
      var explosion := new Explosion(bug.rect.CenterX(), bug.rect.CenterY(), now);
      DistinctAfterRemove(bugs, bug);
      explosions := explosions + [explosion];
      bugs := Remove(bugs, bug);
    }

    /** The lasers overlapping `target` are removed from the player's list. */
    method PruneLasers(target: Rect)
      requires Valid()
      modifies player`bullets
      ensures Valid()
      ensures player.bullets == Kept(old(player.bullets), Stay, Misses(target))
    {
      player.bullets := MovePrune(player.bullets, Stay, Misses(target));
    }

    /**
     * Each enemy bullet overlapping the player is removed from the bug's list
     * before its question is asked, so it asks one question only.
     */
    method EnemyFire(bug: Bug, verdict: nat -> bool, rolls: nat -> real)
      requires Valid() && Oracle(rolls) && bug.Valid()
      modifies this`asked, bug`bullets, player`health, player`hasShield
      ensures Valid() && bug.Valid()
      ensures bug.bullets == Kept(old(bug.bullets), Stay, Misses(player.rect))
      ensures asked == old(asked) + HitCount(old(bug.bullets), player.rect)
      ensures Vitals(player.health, player.hasShield)
              == Resolve(old(Vitals(player.health, player.hasShield)), old(asked),
                         HitCount(old(bug.bullets), player.rect), verdict, rolls)
    {
      var snapshot := bug.bullets;
      var target := player.rect;
      ghost var v0 := Vitals(player.health, player.hasShield);
      assert snapshot[..0] == [] && snapshot[0..] == snapshot;
      CheckBullets(bug, snapshot, target, v0, asked, verdict, rolls);
      assert snapshot[..|snapshot|] == snapshot && snapshot[|snapshot|..] == [];
    }

    /** The loop of `EnemyFire` over a snapshot of the bug's bullets. */
    method CheckBullets(bug: Bug, snapshot: seq<Rect>, target: Rect, ghost v0: Vitals, ghost k0: nat,
                        verdict: nat -> bool, rolls: nat -> real)
      requires Valid() && Oracle(rolls) && bug.Valid()
      requires Checked(bug, snapshot, 0, target, v0, k0, verdict, rolls)
      modifies this`asked, bug`bullets, player`health, player`hasShield
      ensures Valid() && bug.Valid()
      ensures Checked(bug, snapshot, |snapshot|, target, v0, k0, verdict, rolls)
    {
      var i := 0;
      while i < |snapshot|
        invariant 0 <= i <= |snapshot|
        invariant Valid() && bug.Valid()
        invariant Checked(bug, snapshot, i, target, v0, k0, verdict, rolls)
      {
        CheckBullet(bug, snapshot, i, target, v0, k0, verdict, rolls);
        i := i + 1;
      }
    }

    /** The state of the enemy-bullet loop once the first `i` bullets of `snapshot` are checked. */
    ghost predicate Checked(bug: Bug, snapshot: seq<Rect>, i: nat, target: Rect, v0: Vitals, k0: nat,
                            verdict: nat -> bool, rolls: nat -> real)
      requires i <= |snapshot|
      reads this, player, bug
    {
      && player.rect == target
      && bug.bullets == Kept(snapshot[..i], Stay, Misses(target)) + snapshot[i..]
      && asked == k0 + HitCount(snapshot[..i], target)
      && Vitals(player.health, player.hasShield) == Resolve(v0, k0, HitCount(snapshot[..i], target), verdict, rolls)
    }

    /** One turn of the enemy-bullet loop. */
    method CheckBullet(bug: Bug, snapshot: seq<Rect>, i: nat, target: Rect, ghost v0: Vitals, ghost k0: nat,
                       verdict: nat -> bool, rolls: nat -> real)
      requires Valid() && Oracle(rolls) && bug.Valid()
      requires i < |snapshot| && Checked(bug, snapshot, i, target, v0, k0, verdict, rolls)
      modifies this`asked, bug`bullets, player`health, player`hasShield
      ensures Valid() && bug.Valid()
      ensures Checked(bug, snapshot, i + 1, target, v0, k0, verdict, rolls)
    {
      var bullet := snapshot[i];
      ghost var done := Kept(snapshot[..i], Stay, Misses(target));
      ghost var n := HitCount(snapshot[..i], target);
      KeptSnoc(snapshot, i, Stay, Misses(target));
      HitCountSnoc(snapshot, i, target);
      assert snapshot[i..] == [bullet] + snapshot[i + 1..];
      assert Stay(bullet) == bullet && Misses(target)(bullet) == !Collide(target, bullet);
      if Collide(player.rect, bullet) {
        assert bullet !in done;
        Struck(bug, bullet, done, snapshot[i + 1..], v0, n, verdict, rolls);
      } else {
        assert bug.bullets == (done + [bullet]) + snapshot[i + 1..];
      }
    }

    /**
     * An enemy bullet that reached the player: removed from its bug's list,
     * then a question. `done` are the bullets already checked and kept,
     * `rest` those still to check; `n` questions of this loop came before.
     */
    method Struck(bug: Bug, bullet: Rect, ghost done: seq<Rect>, ghost rest: seq<Rect>,
                  ghost v0: Vitals, ghost n: nat, verdict: nat -> bool, rolls: nat -> real)
      requires Valid() && Oracle(rolls) && bug.Valid()
      requires bug.bullets == done + [bullet] + rest && bullet !in done
      requires asked >= n && Vitals(player.health, player.hasShield) == Resolve(v0, asked - n, n, verdict, rolls)
      modifies this`asked, bug`bullets, player`health, player`hasShield
      ensures Valid() && bug.Valid()
      ensures bug.bullets == done + rest
      ensures asked == old(asked) + 1
      ensures Vitals(player.health, player.hasShield) == Resolve(v0, old(asked) - n, n + 1, verdict, rolls)
    {
      RemoveAt(done, bullet, rest);
      bug.bullets := Remove(bug.bullets, bullet);
      Ask(verdict, rolls);
    }

    /**
     * What the bug loop does for one bug, relating the state before its turn
     * to the state after it. The bug moves (wrapping to `respawnX`) and may
     * fire a bullet, restarting its shot clock with `cooldown`; its bullets
     * fall. Then it meets the player (see `Confronted`).
     */
    twostate predicate BugProcessed(bug: Bug, now: int, respawnX: int, cooldown: int,
                                    verdict: nat -> bool, rolls: nat -> real)
      reads this, player, bug
    {
      var fired := bug.canShoot && Elapsed(now, old(bug.lastShotTime), old(bug.shootCooldown));
      var fallen := Kept(old(bug.bullets) + (if fired then [BugMuzzle(bug.rect)] else []), Falls(BulletFall), Falling);
      && bug.rect == Descend(old(bug.rect), respawnX)
      && bug.lastShotTime == (if fired then now else old(bug.lastShotTime))
      && bug.shootCooldown == (if fired then cooldown else old(bug.shootCooldown))
      && Met(bug, fallen, old(player.bullets), old(bugs), old(explosions), old(asked),
             old(Vitals(player.health, player.hasShield)), verdict, rolls)
    }

    /**
     * The encounter and the enemy fire of one bug, given the bug's bullets,
     * the player's lasers, the lists, the question count and the player's
     * vitals before them (see `Encountered`). Then each of the bug's bullets
     * overlapping the player is removed and asks one question. The
     * questions are answered in order by the oracle.
     */
    ghost predicate Met(bug: Bug, bullets0: seq<Rect>, lasers0: seq<Rect>, bugs0: seq<Bug>,
                        explosions0: seq<Explosion>, asked0: nat, v0: Vitals,
                        verdict: nat -> bool, rolls: nat -> real)
      reads this, player, bug
    {
      var questions := Questions(bug.rect, player.rect, lasers0, bullets0);
      && Encountered(bug, lasers0, bugs0, explosions0)
      && bug.bullets == Kept(bullets0, Stay, Misses(player.rect))
      && asked == asked0 + questions
      && Vitals(player.health, player.hasShield) == Resolve(v0, asked0, questions, verdict, rolls)
    }

    /**
     * The lists after an encounter check, given the lasers and lists before
     * it: if the bug overlaps the player or one of the lasers, it explodes
     * where it stands, leaves the list, and the lasers overlapping it are
     * removed; otherwise nothing changes.
     */
    ghost predicate Encountered(bug: Bug, lasers0: seq<Rect>, bugs0: seq<Bug>, explosions0: seq<Explosion>)
      reads this`bugs, this`explosions, player`bullets, player`rect, bug`rect
    {
      var hit := Collide(bug.rect, player.rect) || AnyHit(bug.rect, lasers0);
      && bugs == (if hit then Remove(bugs0, bug) else bugs0)
      && player.bullets == (if hit then Kept(lasers0, Stay, Misses(bug.rect)) else lasers0)
      && |explosions| == |explosions0| + (if hit then 1 else 0)
      && explosions[..|explosions0|] == explosions0
      && (hit ==> explosions[|explosions0|].rect
                  == CenteredAt(bug.rect.CenterX(), bug.rect.CenterY(), ExplosionSize, ExplosionSize))
    }

    /**
     * The body of the bug loop for one bug: its own update (with its random
     * draws), then the encounter check, then its bullets against the player.
     */
    method ProcessBug(bug: Bug, now: int, respawnX: int, cooldown: int, verdict: nat -> bool, rolls: nat -> real)
      requires Valid() && Oracle(rolls) && bug in bugs
      requires 50 <= respawnX <= 750 && MinCooldown <= cooldown <= MaxCooldown
      modifies bug, this`asked, this`bugs, this`explosions, player`health, player`hasShield, player`bullets
      ensures Valid()
      ensures BugProcessed(bug, now, respawnX, cooldown, verdict, rolls)
      ensures bugs == old(bugs) || (bugs == Remove(old(bugs), bug) && asked > old(asked))
      ensures forall e :: e in explosions ==> e in old(explosions) || fresh(e)
      ensures asked >= old(asked)
    {
      bug.Update(now, respawnX, cooldown);
      assert bug.bullets == Kept(old(bug.bullets) + (if bug.canShoot && Elapsed(now, old(bug.lastShotTime), old(bug.shootCooldown))
                                                     then [BugMuzzle(bug.rect)] else []), Falls(BulletFall), Falling) by {
        assert old(bug.bullets) + [] == old(bug.bullets);
      }
      Confront(bug, now, verdict, rolls);
    }

    /** The encounter check, then the bug's bullets against the player. */
    method Confront(bug: Bug, now: int, verdict: nat -> bool, rolls: nat -> real)
      requires Valid() && Oracle(rolls) && bug in bugs
      modifies bug`bullets, this`asked, this`bugs, this`explosions, player`health, player`hasShield, player`bullets
      ensures Valid()
      ensures Encountered(bug, old(player.bullets), old(bugs), old(explosions))
      ensures bug.bullets == Kept(old(bug.bullets), Stay, Misses(player.rect))
      ensures asked == old(asked) + Questions(bug.rect, player.rect, old(player.bullets), old(bug.bullets))
      ensures Vitals(player.health, player.hasShield)
              == Resolve(old(Vitals(player.health, player.hasShield)), old(asked),
                         Questions(bug.rect, player.rect, old(player.bullets), old(bug.bullets)), verdict, rolls)
      ensures bugs == old(bugs) || (bugs == Remove(old(bugs), bug) && asked > old(asked))
      ensures forall e :: e in explosions ==> e in old(explosions) || fresh(e)
      ensures asked >= old(asked)
    {
      ghost var hit := Collide(bug.rect, player.rect) || AnyHit(bug.rect, player.bullets);
      ghost var first: nat := if hit then 1 else 0;
      ghost var more := HitCount(bug.bullets, player.rect);
      ghost var lasers0, bugs0, explosions0 := player.bullets, bugs, explosions;
      ghost var v0, k0 := Vitals(player.health, player.hasShield), asked;
      Encounter(bug, now, verdict, rolls);
      assert Encountered(bug, lasers0, bugs0, explosions0);
      ghost var explosions1 := explosions;
      ghost var v1, k1 := Vitals(player.health, player.hasShield), asked;
      assert v1 == Resolve(v0, k0, first, verdict, rolls) && k1 == k0 + first;
      EnemyFire(bug, verdict, rolls);
      assert Encountered(bug, lasers0, bugs0, explosions0) && explosions == explosions1;
      assert Questions(bug.rect, player.rect, lasers0, old(bug.bullets)) == first + more;
      assert Vitals(player.health, player.hasShield) == Resolve(v1, k1, more, verdict, rolls);
      ResolveConcat(v0, k0, first, more, verdict, rolls);
      assert Vitals(player.health, player.hasShield) == Resolve(v0, k0, first + more, verdict, rolls);
    }

    /**
     * The bug loop over a snapshot of the list: every bug present at the
     * start of the frame is processed once, in order, and a bug disappears
     * from the list only through an encounter, which asks a question.
     */
    method UpdateBugs(now: int, respawnXs: seq<int>, cooldowns: seq<int>, verdict: nat -> bool, rolls: nat -> real)
      requires Valid() && Oracle(rolls)
      requires |respawnXs| == |cooldowns| == |bugs|
      requires forall i :: 0 <= i < |bugs| ==> 50 <= respawnXs[i] <= 750 && MinCooldown <= cooldowns[i] <= MaxCooldown
      modifies this`asked, this`bugs, this`explosions, bugs, player`health, player`hasShield, player`bullets
      ensures Valid()
      ensures forall b :: b in bugs ==> b in old(bugs)
      ensures |old(bugs)| - |bugs| <= asked - old(asked)
      ensures forall e :: e in explosions ==> e in old(explosions) || fresh(e)
    {
      var snapshot := bugs;
      ghost var kept: seq<Bug> := [];
      var i := 0;
      while i < |snapshot|
        invariant 0 <= i <= |snapshot|
        invariant Valid()
        invariant bugs == kept + snapshot[i..]
        invariant forall b :: b in kept ==> b in snapshot[..i]
        invariant |kept| + (asked - old(asked)) >= i
        invariant asked >= old(asked)
        invariant forall e :: e in explosions ==> e in old(explosions) || fresh(e)
      {
        kept := BugTurn(snapshot, i, kept, old(asked), now, respawnXs[i], cooldowns[i], verdict, rolls);
        i := i + 1;
      }
      assert snapshot[..i] == snapshot;
    }

    /** One turn of the bug loop; `kept` are the bugs of the snapshot processed so far and still listed. */
    method BugTurn(snapshot: seq<Bug>, i: nat, ghost kept: seq<Bug>, ghost asked0: nat,
                   now: int, respawnX: int, cooldown: int, verdict: nat -> bool, rolls: nat -> real)
      returns (ghost kept': seq<Bug>)
      requires Valid() && Oracle(rolls) && i < |snapshot|
      requires bugs == kept + snapshot[i..]
      requires forall b :: b in kept ==> b in snapshot[..i]
      requires |kept| + (asked - asked0) >= i && asked >= asked0
      requires 50 <= respawnX <= 750 && MinCooldown <= cooldown <= MaxCooldown
      modifies snapshot[i], this`asked, this`bugs, this`explosions, player`health, player`hasShield, player`bullets
      ensures Valid()
      ensures bugs == kept' + snapshot[i + 1..]
      ensures forall b :: b in kept' ==> b in snapshot[..i + 1]
      ensures |kept'| + (asked - asked0) >= i + 1 && asked >= asked0
      ensures forall e :: e in explosions ==> e in old(explosions) || fresh(e)
      ensures BugProcessed(snapshot[i], now, respawnX, cooldown, verdict, rolls)
    {
      var bug := snapshot[i];
      assert snapshot[i..] == [bug] + snapshot[i + 1..];
      assert snapshot[..i + 1] == snapshot[..i] + [bug];
      ghost var before := bugs;
      assert before == kept + [bug] + snapshot[i + 1..];
      forall j | 0 <= j < |kept| ensures kept[j] != bug {
        assert before[j] == kept[j] && before[|kept|] == bug;
      }
      ProcessBug(bug, now, respawnX, cooldown, verdict, rolls);
      if bugs == before {
        kept' := kept + [bug];
      } else {
        RemoveAt(kept, bug, snapshot[i + 1..]);
        kept' := kept;
      }
    }

    /**
     * One pass of the frame loop, after the event pump: background, player
     * input and lasers, the bug loop, the explosions. `keys` is the keyboard
     * state and `respawnXs`, `cooldowns` the bugs' random draws, in list order.
     */
    method Frame(keys: Keys, now: int, respawnXs: seq<int>, cooldowns: seq<int>,
                 verdict: nat -> bool, rolls: nat -> real)
      requires Valid() && Oracle(rolls)
      requires |respawnXs| == |cooldowns| == |bugs|
      requires forall i :: 0 <= i < |bugs| ==> 50 <= respawnXs[i] <= 750 && MinCooldown <= cooldowns[i] <= MaxCooldown
      modifies this, player, bugs, explosions
      ensures Valid()
      ensures bgY1 == Scroll(old(bgY1)) && bgY2 == Scroll(old(bgY2))
      ensures player.rect == Steer(old(player.rect), keys)
      ensures Trigger(player.canShoot, player.lastShotTime)
              == Pull(Trigger(old(player.canShoot), old(player.lastShotTime)), keys.space, now).1
      ensures forall b :: b in bugs ==> b in old(bugs)
      ensures |old(bugs)| - |bugs| <= asked - old(asked)
    {
      ScrollBackground();
      PlayerTurn(keys, now);
      UpdateBugs(now, respawnXs, cooldowns, verdict, rolls);
      assert forall i :: 0 <= i < |explosions| ==> explosions[i] in old(explosions) || fresh(explosions[i]);
      UpdateExplosions(now);
    }

    /** The player's part of a frame: keyboard input, then the lasers move up and leave the screen. */
    method PlayerTurn(keys: Keys, now: int)
      requires Valid()
      modifies player`rect, player`bullets, player`canShoot, player`lastShotTime
      ensures Valid()
      ensures player.rect == Steer(old(player.rect), keys)
      ensures Trigger(player.canShoot, player.lastShotTime)
              == Pull(Trigger(old(player.canShoot), old(player.lastShotTime)), keys.space, now).1
      ensures player.bullets
              == Kept(old(player.bullets)
                      + (if Pull(Trigger(old(player.canShoot), old(player.lastShotTime)), keys.space, now).0
                         then [Muzzle(player.rect)] else []),
                      Rise, OnScreenLaser)
    {
      SteerKeepsOnScreen(player.rect, keys);
      player.HandleInput(keys, now);
      player.Update();
    }

    /** Every frame the explosions advance; finished ones are removed. */
    method UpdateExplosions(now: int)
      requires Valid()
      modifies this`explosions, explosions
      ensures Valid()
      ensures explosions == Unfinished(old(explosions))
    {
      explosions := Sweep(explosions, now);
    }
  }

  /**
   * The explosion loop over a snapshot of the list: each explosion is
   * updated, and removed from the live list once it has finished.
   */
  method Sweep(snapshot: seq<Explosion>, now: int) returns (live: seq<Explosion>)
    requires Distinct(snapshot) && forall e :: e in snapshot ==> e.Valid()
    modifies snapshot
    ensures live == Unfinished(snapshot) && Distinct(live)
    ensures forall e :: e in live ==> e.Valid()
  {
    live := snapshot;
    var i := 0;
    while i < |snapshot|
      invariant 0 <= i <= |snapshot|
      invariant live == Unfinished(snapshot[..i]) + snapshot[i..]
      invariant forall e :: e in snapshot ==> e.Valid()
    {
      live := SweepStep(snapshot, i, live, now);
      i := i + 1;
    }
    assert snapshot[..|snapshot|] == snapshot;
    UnfinishedIsSubsequence(snapshot);
  }

  /** One turn of that loop: update explosion `i`, and remove it when it has finished. */
  method SweepStep(snapshot: seq<Explosion>, i: nat, live: seq<Explosion>, now: int) returns (live': seq<Explosion>)
    requires i < |snapshot| && Distinct(snapshot) && (forall e :: e in snapshot ==> e.Valid())
    requires live == Unfinished(snapshot[..i]) + snapshot[i..]
    modifies snapshot[i]
    ensures live' == Unfinished(snapshot[..i + 1]) + snapshot[i + 1..]
    ensures forall e :: e in snapshot ==> e.Valid()
    ensures snapshot[i].index == old(snapshot[i].index)
              + (if Elapsed(now, old(snapshot[i].lastUpdate), ExplosionSpeed) then 1 else 0)
  {
    var explosion := snapshot[i];
    ghost var done := Unfinished(snapshot[..i]);
    assert explosion !in snapshot[..i];
    explosion.Update(now);
    assert Unfinished(snapshot[..i]) == done;
    assert Unfinished(snapshot[..i + 1]) == done + (if explosion.finished then [] else [explosion]) by {
      assert snapshot[..i + 1][..i] == snapshot[..i];
    }
    assert live == done + [explosion] + snapshot[i + 1..] by {
      assert snapshot[i..] == [explosion] + snapshot[i + 1..];
    }
    live' := live;
    if explosion.finished {
      assert explosion !in done by {
        UnfinishedIsSubsequence(snapshot[..i]);
      }
      RemoveAt(done, explosion, snapshot[i + 1..]);
      live' := Remove(live', explosion);
      assert Unfinished(snapshot[..i + 1]) == done;
    } else {
      assert live' == (done + [explosion]) + snapshot[i + 1..];
    }
  }

  /** The explosions of `s` that are not finished, in order. */
  ghost function Unfinished(s: seq<Explosion>): seq<Explosion>
    reads s
    decreases |s|
  {
    if s == [] then []
    else Unfinished(s[..|s| - 1]) + (if s[|s| - 1].finished then [] else [s[|s| - 1]])
  }

  lemma {:induction false} UnfinishedIsSubsequence(s: seq<Explosion>)
    requires Distinct(s)
    ensures forall e :: e in Unfinished(s) ==> e in s && !e.finished
    ensures Distinct(Unfinished(s))
    decreases |s|
  {
    if s != [] {
      var p := s[..|s| - 1];
      assert Distinct(p);
      UnfinishedIsSubsequence(p);
      assert s[|s| - 1] !in p;
    }
  }

  lemma {:induction false} DistinctAfterRemove<T>(s: seq<T>, x: T)
    requires Distinct(s)
    ensures Distinct(Remove(s, x))
    decreases |s|
  {
    if s != [] && s[0] != x {
      var t := s[1..];
      assert Distinct(t);
      DistinctAfterRemove(t, x);
      assert s[0] !in t;
      assert s[0] !in Remove(t, x);
    }
  }
}
