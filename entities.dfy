/** The actors of one simulation tick: enemies walking the path, projectiles
    homing on their target, spikes lying where a trap tower threw them, and
    the towers themselves (src/entity.js). Fields the game never writes
    after construction are `const`. */
module Entities {
  import opened Geometry

  datatype Option<T> = None | Some(value: T)

  datatype EnemyKind = Elf | Santa

  /** The tower types the code distinguishes: `trap`, and everything else
      (`cane` and `snowman` share the shooting behaviour and base stats). */
  datatype TowerKind = Cane | Trap | Snowman

  /** The JavaScript number held by `maxActiveSpikes`: never initialised, so
      it starts `undefined`, and `undefined + 1` is NaN. */
  datatype JsNumber = Undefined | NaN | Num(value: real)

  /** JavaScript's `n += 1` on such a number. */
  function JsIncrement(n: JsNumber): (r: JsNumber)
    ensures r.Num? <==> n.Num?
    ensures n.Num? ==> r.value == n.value + 1.0
    ensures !n.Num? ==> r == NaN
  {
    match n
    case Num(v) => Num(v + 1.0)
    case _ => NaN
  }

  function BaseSpeed(kind: EnemyKind): real
  {
    if kind == Santa then 30.0 else 60.0
  }

  function BaseHealth(kind: EnemyKind): real
  {
    if kind == Santa then 5000.0 else 100.0
  }

  function BodyRadius(kind: EnemyKind): real
  {
    if kind == Santa then 30.0 else 15.0
  }

  /** Candy paid out when an enemy of this kind is slain. */
  function Bounty(kind: EnemyKind): int
  {
    if kind == Santa then 1000 else 10
  }

  /** Damage a spike deals: a large chunk to the boss, a certain kill to
      anything else. */
  function SpikeDamage(kind: EnemyKind): real
  {
    if kind == Santa then 500.0 else 99999.0
  }

  /** Where an enemy stands on its walk: position, the index of the
      waypoint it heads for, and its two end-of-walk flags. */
  datatype Walk = Walk(pos: Point, index: nat, marked: bool, atEnd: bool)

  class Enemy {
    const waypoints: seq<Point>
    const kind: EnemyKind
    const speed: real
    const maxHealth: real
    const radius: real
    const value: int
    const slowFactor: real
    var x: real
    var y: real
    var waypointIndex: nat
    var health: real
    var markedForDeletion: bool
    var reachedEnd: bool

    /** A fresh enemy stands on the first waypoint and walks toward the
        second; speed and health scale with the multiplier, radius and
        bounty do not. */
    constructor (waypoints: seq<Point>, kind: EnemyKind, speedMultiplier: real)
      requires |waypoints| > 0
      ensures this.waypoints == waypoints && this.kind == kind
      ensures speed == BaseSpeed(kind) * speedMultiplier
      ensures maxHealth == BaseHealth(kind) * speedMultiplier && health == maxHealth
      ensures radius == BodyRadius(kind) && value == Bounty(kind) && slowFactor == 1.0
      ensures x == waypoints[0].x && y == waypoints[0].y && waypointIndex == 1
      ensures !markedForDeletion && !reachedEnd
      ensures speedMultiplier > 0.0 ==> health > 0.0 && speed > 0.0
    {
      this.waypoints := waypoints;
      this.kind := kind;
      speed := BaseSpeed(kind) * speedMultiplier;
      maxHealth := BaseHealth(kind) * speedMultiplier;
      health := BaseHealth(kind) * speedMultiplier;
      radius := BodyRadius(kind);
      value := Bounty(kind);
      slowFactor := 1.0;
      x := waypoints[0].x;
      y := waypoints[0].y;
      waypointIndex := 1;
      markedForDeletion := false;
      reachedEnd := false;
    }

    function Position(): Point
      reads this`x, this`y
    {
      Point(x, y)
    }

    /** The part of the enemy its `update(dt)` changes. */
    function WalkOf(): Walk
      reads this`x, this`y, this`waypointIndex, this`markedForDeletion, this`reachedEnd
    {
      Walk(Position(), waypointIndex, markedForDeletion, reachedEnd)
    }

    /** The effect of one `update(dt)` on an enemy in state w: a dead
        enemy only marks itself; a live one either snaps onto its current
        waypoint (when it is within this tick's travel) and aims at the
        next, finishing after the last, or moves toward it by the mover. */
    function Walked(w: Walk, alive: bool, dt: real, advance: Mover): (r: Walk)
      requires alive ==> w.index < |waypoints|
      ensures !alive ==> r == w.(marked := true)
      ensures r.index == w.index || r.index == w.index + 1
      ensures r.index == w.index + 1 ==> r.pos == waypoints[w.index]
      ensures r.atEnd <==> w.atEnd || (r.index > w.index && r.index == |waypoints|)
      ensures r.marked <==> w.marked || !alive || (r.index > w.index && r.index == |waypoints|)
      ensures alive && !w.atEnd ==> r.index <= |waypoints| && (r.atEnd <==> r.index == |waypoints|)
      ensures alive ==>
                (r.index == w.index + 1 <==> Within(SqDist(waypoints[w.index], w.pos), speed * slowFactor * dt))
      ensures alive && r.index == w.index ==>
                r == w.(pos := advance(w.pos, waypoints[w.index], speed * slowFactor * dt))
    {
      if !alive then w.(marked := true)
      else
        var target := waypoints[w.index];
        var moveDist := speed * slowFactor * dt;
        if Within(SqDist(target, w.pos), moveDist) then
          var next := w.index + 1;
          Walk(target, next, w.marked || next >= |waypoints|, w.atEnd || next >= |waypoints|)
        else
          w.(pos := advance(w.pos, target, moveDist))
    }

    method Update(dt: real, advance: Mover)
      requires health > 0.0 ==> waypointIndex < |waypoints|
      modifies this`x, this`y, this`waypointIndex, this`markedForDeletion, this`reachedEnd
      ensures WalkOf() == Walked(old(WalkOf()), old(health) > 0.0, dt, advance)
    {
      if health <= 0.0 {
        markedForDeletion := true;
        return;
      }
      var target := waypoints[waypointIndex];
      var moveDist := speed * slowFactor * dt;
      if Within(SqDist(target, Position()), moveDist) {
        x, y := target.x, target.y;
        waypointIndex := waypointIndex + 1;
        if waypointIndex >= |waypoints| {
          markedForDeletion := true;
          reachedEnd := true;
        }
      } else {
        var p := advance(Position(), target, moveDist);
        x, y := p.x, p.y;
      }
    }

    method TakeDamage(amount: real)
      modifies this`health
      ensures health == old(health) - amount
      ensures amount >= 0.0 ==> health <= old(health)
    {
      health := health - amount;
    }
  }

  class Projectile {
    const target: Enemy?
    const damage: real
    const speed: real
    const radius: real
    var x: real
    var y: real
    var markedForDeletion: bool

    constructor (x: real, y: real, target: Enemy?, damage: real, speed: real)
      ensures this.x == x && this.y == y && this.target == target
      ensures this.damage == damage && this.speed == speed && radius == 4.0
      ensures !markedForDeletion
    {
      this.x := x;
      this.y := y;
      this.target := target;
      this.damage := damage;
      this.speed := speed;
      radius := 4.0;
      markedForDeletion := false;
    }

    /** The enemy this projectile may damage, as a frame. */
    function Aim(): set<Enemy>
    {
      if target == null then {} else {target}
    }

    function Position(): Point
      reads this`x, this`y
    {
      Point(x, y)
    }

    /** Missing target, or one that has marked itself for deletion. */
    predicate Discarded()
      reads Aim()`markedForDeletion
    {
      target == null || target.markedForDeletion
    }

    /** This tick's travel, `speed * dt`. */
    function Reach(dt: real): real
    {
      speed * dt
    }

    /** The target is within this tick's travel, so the projectile hits. */
    predicate Strikes(dt: real)
      reads this`x, this`y, Aim()`markedForDeletion, Aim()`x, Aim()`y
    {
      !Discarded() && Within(SqDist(target.Position(), Position()), Reach(dt))
    }

    /** What one `update(dt)` does to the projectile itself: a discarded
        or striking projectile marks itself where it stands; otherwise it
        moves toward the target and stays unmarked as before. */
    twostate predicate Flew(dt: real, advance: Mover)
      reads this
    {
      if old(Discarded()) || old(Strikes(dt)) then
        markedForDeletion && Position() == old(Position())
      else
        markedForDeletion == old(markedForDeletion) &&
        Position() == advance(old(Position()), old(target.Position()), Reach(dt))
    }

    method Update(dt: real, advance: Mover)
      modifies this`x, this`y, this`markedForDeletion, Aim()`health
      ensures Flew(dt, advance)
      ensures target != null ==>
        target.health == old(target.health) - (if old(Strikes(dt)) then damage else 0.0)
    {
      if target == null || target.markedForDeletion {
        markedForDeletion := true;
        return;
      }
      var moveDist := Reach(dt);
      if Within(SqDist(target.Position(), Position()), moveDist) {
        target.TakeDamage(damage);
        markedForDeletion := true;
      } else {
        var p := advance(Position(), target.Position(), moveDist);
        x, y := p.x, p.y;
      }
    }
  }

  /** Spike collision: the distance from the enemy to the point is less
      than the spike's radius plus the enemy's. */
  predicate Touches(c: Point, r: real, e: Enemy)
    reads e`x, e`y
  {
    Below(SqDist(e.Position(), c), r + e.radius)
  }

  /** The list position of the first enemy touching a spike of radius r at
      c, scanning in list order; health is not consulted. */
  function FirstContact(c: Point, r: real, es: seq<Enemy>): (k: Option<nat>)
    reads es`x, es`y
    ensures k.Some? ==> k.value < |es|
    decreases |es|
  {
    if |es| == 0 then None
    else if Touches(c, r, es[0]) then Some(0)
    else match FirstContact(c, r, es[1..])
      case None => None
      case Some(k) => Some(k + 1)
  }

  /** FirstContact finds the first touching enemy of the list, and finds
      none exactly when no enemy touches. */
  lemma {:induction false} FirstContactSpec(c: Point, r: real, es: seq<Enemy>)
    ensures var k := FirstContact(c, r, es);
            (k.Some? ==>
               Touches(c, r, es[k.value]) && forall j :: 0 <= j < k.value ==> !Touches(c, r, es[j])) &&
            (k.None? ==> forall j :: 0 <= j < |es| ==> !Touches(c, r, es[j]))
    decreases |es|
  {
    if |es| > 0 && !Touches(c, r, es[0]) {
      FirstContactSpec(c, r, es[1..]);
      assert forall j :: 1 <= j < |es| ==> es[j] == es[1..][j - 1];
    }
  }

  class Spike {
    const x: real
    const y: real
    const radius: real
    var duration: real
    var markedForDeletion: bool

    constructor (x: real, y: real)
      ensures this.x == x && this.y == y && radius == 15.0 && duration == 10.0
      ensures !markedForDeletion
    {
      this.x := x;
      this.y := y;
      radius := 15.0;
      duration := 10.0;
      markedForDeletion := false;
    }

    /** The enemy this spike damages on an `update(dt)`: none once the
        spike expires, otherwise the first one touching it. */
    function Victim(dt: real, enemies: seq<Enemy>): (v: Enemy?)
      reads this`duration, enemies`x, enemies`y
      ensures v != null ==> duration - dt > 0.0 && v in enemies
    {
      if duration - dt <= 0.0 then null
      else match FirstContact(Point(x, y), radius, enemies)
        case None => null
        case Some(k) => enemies[k]
    }

    /** A spike that has not run out strikes the first enemy of the list it
        touches; it strikes none only when it has run out or touches no
        enemy. */
    lemma VictimSpec(dt: real, enemies: seq<Enemy>)
      ensures var v := Victim(dt, enemies);
              (v != null ==>
                 exists k :: 0 <= k < |enemies| && v == enemies[k] &&
                   Touches(Point(x, y), radius, enemies[k]) &&
                   forall j :: 0 <= j < k ==> !Touches(Point(x, y), radius, enemies[j])) &&
              (v == null ==>
                 duration - dt <= 0.0 ||
                 forall j :: 0 <= j < |enemies| ==> !Touches(Point(x, y), radius, enemies[j]))
    {
      FirstContactSpec(Point(x, y), radius, enemies);
    }

    method Update(dt: real, enemies: seq<Enemy>)
      modifies this`duration, this`markedForDeletion, enemies`health
      ensures duration == old(duration) - dt
      ensures markedForDeletion ==
        (old(markedForDeletion) || duration <= 0.0 || old(Victim(dt, enemies)) != null)
      ensures forall e :: e in enemies ==>
                e.health == old(e.health) -
                  (if e == old(Victim(dt, enemies)) then SpikeDamage(e.kind) else 0.0)
    {
      FirstContactSpec(Point(x, y), radius, enemies);
      duration := duration - dt;
      if duration <= 0.0 {
        markedForDeletion := true;
        return;
      }
      var i := 0;
      while i < |enemies|
        invariant 0 <= i <= |enemies|
        invariant forall j :: 0 <= j < i ==> !Touches(Point(x, y), radius, enemies[j])
        invariant duration == old(duration) - dt && markedForDeletion == old(markedForDeletion)
        invariant forall e :: e in enemies ==> e.health == old(e.health)
      {
        var e := enemies[i];
        if Touches(Point(x, y), radius, e) {
          assert FirstContact(Point(x, y), radius, enemies) == Some(i);
          e.TakeDamage(SpikeDamage(e.kind));
          markedForDeletion := true;
          return;
        }
        i := i + 1;
      }
      assert FirstContact(Point(x, y), radius, enemies).None?;
    }
  }

  /** What the tower lists carry: projectiles and spikes side by side. */
  datatype Shot = ProjectileShot(projectile: Projectile) | SpikeShot(spike: Spike)

  function Body(s: Shot): object
  {
    match s
    case ProjectileShot(p) => p
    case SpikeShot(k) => k
  }

  /** The spike an emitted shot is, as a set of at most one. */
  function SpikeIn(o: Option<Shot>): set<Spike>
  {
    if o.Some? && o.value.SpikeShot? then {o.value.spike} else {}
  }

  /** The projectile an emitted shot is, as a set of at most one. */
  function ProjectileIn(o: Option<Shot>): set<Projectile>
  {
    if o.Some? && o.value.ProjectileShot? then {o.value.projectile} else {}
  }

  function BaseCost(kind: TowerKind): int
  {
    if kind == Trap then 150 else 50
  }

  class Tower {
    const x: real
    const y: real
    const kind: TowerKind
    const baseCost: int
    const radius: real
    const level: int
    var totalInvested: int
    var range: real
    var damage: real
    var fireRate: real
    var cooldown: real
    var upgradePath: Option<nat>
    var upgrades: seq<nat>
    var maxActiveSpikes: JsNumber

    /** What every tower keeps: a positive fire rate (its cooldown is its
        inverse), non-negative range and damage, and three path levels. */
    ghost predicate Valid()
      reads this`fireRate, this`range, this`damage, this`upgrades
    {
      fireRate > 0.0 && range >= 0.0 && damage >= 0.0 && |upgrades| == 3
    }

    constructor (x: real, y: real, kind: TowerKind)
      ensures this.x == x && this.y == y && this.kind == kind
      ensures baseCost == BaseCost(kind) && totalInvested == baseCost
      ensures kind == Trap ==> range == 100.0 && damage == 0.0 && fireRate == 0.2
      ensures kind != Trap ==> range == 150.0 && damage == 20.0 && fireRate == 1.0
      ensures cooldown == 0.0 && radius == 25.0 && level == 1
      ensures upgradePath == None && upgrades == [0, 0, 0] && maxActiveSpikes == Undefined
      ensures Valid()
    {
      this.x := x;
      this.y := y;
      this.kind := kind;
      baseCost := BaseCost(kind);
      totalInvested := BaseCost(kind);
      range := if kind == Trap then 100.0 else 150.0;
      damage := if kind == Trap then 0.0 else 20.0;
      fireRate := if kind == Trap then 0.2 else 1.0;
      cooldown := 0.0;
      radius := 25.0;
      level := 1;
      upgradePath := None;
      upgrades := [0, 0, 0];
      maxActiveSpikes := Undefined;
    }

    /** The enemy is no farther than the tower's range. */
    predicate InRange(e: Enemy)
      reads this`range, e`x, e`y
    {
      Within(SqDist(e.Position(), Point(x, y)), range)
    }

    /** The list position of the first enemy in range, in list order. */
    function FirstInRange(es: seq<Enemy>): (k: Option<nat>)
      reads this`range, es`x, es`y
      ensures k.Some? ==> k.value < |es|
      decreases |es|
    {
      if |es| == 0 then None
      else if InRange(es[0]) then Some(0)
      else match FirstInRange(es[1..])
        case None => None
        case Some(k) => Some(k + 1)
    }

    /** FirstInRange finds the first enemy in range, and none exactly when
        no enemy is in range. */
    lemma {:induction false} FirstInRangeSpec(es: seq<Enemy>)
      ensures var k := FirstInRange(es);
              (k.Some? ==> InRange(es[k.value]) && forall j :: 0 <= j < k.value ==> !InRange(es[j])) &&
              (k.None? ==> forall j :: 0 <= j < |es| ==> !InRange(es[j]))
      decreases |es|
    {
      if |es| > 0 && !InRange(es[0]) {
        FirstInRangeSpec(es[1..]);
        assert forall j :: 1 <= j < |es| ==> es[j] == es[1..][j - 1];
      }
    }

    /** The enemy `findTarget` returns, or null. */
    function Target(es: seq<Enemy>): (t: Enemy?)
      reads this`range, es`x, es`y
      ensures t != null ==> t in es
    {
      match FirstInRange(es)
      case None => null
      case Some(k) => es[k]
    }

    method FindTarget(enemies: seq<Enemy>) returns (t: Enemy?)
      ensures t == Target(enemies)
      ensures t == null <==> forall j :: 0 <= j < |enemies| ==> !InRange(enemies[j])
      ensures t != null ==>
                exists k :: 0 <= k < |enemies| && t == enemies[k] &&
                  InRange(enemies[k]) && forall j :: 0 <= j < k ==> !InRange(enemies[j])
    {
      FirstInRangeSpec(enemies);
      var i := 0;
      while i < |enemies|
        invariant 0 <= i <= |enemies|
        invariant forall j :: 0 <= j < i ==> !InRange(enemies[j])
      {
        if InRange(enemies[i]) {
          assert FirstInRange(enemies) == Some(i);
          return enemies[i];
        }
        i := i + 1;
      }
      assert FirstInRange(enemies).None?;
      return null;
    }

    /** The shot is what this tower emits at the target: a spike on the
        target's position from a trap tower, otherwise a projectile homing
        on the target with the tower's damage and speed 300. */
    predicate Issued(s: Shot, t: Enemy)
      reads this`damage, t`x, t`y
    {
      match s
      case SpikeShot(k) =>
        kind == Trap && k.x == t.x && k.y == t.y && k.radius == 15.0
      case ProjectileShot(p) =>
        kind != Trap && p.target == t && p.damage == damage && p.speed == 300.0 && p.radius == 4.0
    }

    /** A shot as this tower emits it, before anything moves it: a spike
        with its full 10 seconds, a projectile 10 above the tower; neither
        marked for deletion. */
    predicate Pristine(o: Option<Shot>)
      reads SpikeIn(o)`duration, SpikeIn(o)`markedForDeletion
      reads ProjectileIn(o)`x, ProjectileIn(o)`y, ProjectileIn(o)`markedForDeletion
    {
      o.Some? ==>
        match o.value
        case SpikeShot(k) => k.duration == 10.0 && !k.markedForDeletion
        case ProjectileShot(p) => p.x == x && p.y == y - 10.0 && !p.markedForDeletion
    }

    /** The effect of one `update(dt)` on a tower whose cooldown went from
        `before` to `after` and whose first enemy in range is `target`: the
        cooldown always runs down by dt; once it is spent and there is a
        target, exactly one shot goes out at it and the cooldown restarts at
        1/fireRate; otherwise nothing is emitted and the cooldown is left
        run down. */
    predicate Fired(before: real, after: real, dt: real, target: Enemy?, fired: Option<Shot>)
      reads this`fireRate, this`damage
      reads if target == null then {} else {target}
    {
      if before - dt <= 0.0 && target != null then
        fireRate != 0.0 && after == 1.0 / fireRate &&
        fired.Some? && Issued(fired.value, target)
      else
        after == before - dt && fired.None?
    }

    method Shoot(target: Enemy) returns (p: Projectile)
      ensures fresh(p)
      ensures p.x == x && p.y == y - 10.0 && p.target == target
      ensures p.damage == damage && p.speed == 300.0 && p.radius == 4.0 && !p.markedForDeletion
    {
      p := new Projectile(x, y - 10.0, target, damage, 300.0);
    }

    method Update(dt: real, enemies: seq<Enemy>) returns (fired: Option<Shot>)
      requires fireRate > 0.0
      modifies this`cooldown
      ensures Fired(old(cooldown), cooldown, dt, Target(enemies), fired)
      ensures fired.Some? ==> fresh(Body(fired.value))
      ensures Pristine(fired)
    {
      cooldown := cooldown - dt;
      fired := None;
      if cooldown <= 0.0 {
        var target := FindTarget(enemies);
        if target != null {
          if kind == Trap {
            var k := new Spike(target.x, target.y);
            fired := Some(SpikeShot(k));
          } else {
            var p := Shoot(target);
            fired := Some(ProjectileShot(p));
          }
          cooldown := 1.0 / fireRate;
        }
      }
    }

    /** `getSellValue`: half the candy invested, rounded down. */
    function SellValue(): (r: int)
      reads this`totalInvested
      ensures 2 * r <= totalInvested < 2 * r + 2
    {
      totalInvested / 2
    }
  }
}
