/** The game session (class `Game` in src/game.js): the economy (candy,
    lives, wave), the wave scheduler fields, the lists of enemies, towers
    and shots, and the tick `update` that runs spawning, movement, firing,
    shot resolution and cleanup in that order. */
module Session {
  import opened Geometry
  import opened Entities
  import opened Waves

  /** The path in canvas-independent coordinates (`pathPoints`). */
  const PATH: seq<Point> := [
    Point(0.0, 0.5), Point(0.2, 0.5), Point(0.2, 0.2), Point(0.5, 0.2),
    Point(0.5, 0.8), Point(0.8, 0.8), Point(0.8, 0.4), Point(1.0, 0.4)
  ]

  /** Half the width of the path kept clear of towers. */
  const PATH_CLEARANCE: real := 25.0

  /** The candy a placement charges. */
  function PlacementCost(kind: TowerKind): (c: int)
    ensures c == BaseCost(kind) && c > 0
  {
    if kind == Trap then 150 else 50
  }

  /** The reward for clearing wave w. */
  function WaveReward(w: int): int
  {
    100 + w * 20
  }

  /** The enemy speed and health multiplier of wave w. */
  function WaveMultiplier(w: int): real
  {
    1.0 + (w as real) * 0.1
  }

  function Min(a: int, b: int): int
  {
    if a <= b then a else b
  }

  /** A placement at p would overlap an existing tower: it is closer to
      one than that tower's radius plus 25. */
  predicate Overlaps(p: Point, towers: seq<Tower>)
  {
    exists i :: 0 <= i < |towers| && TooClose(p, towers[i])
  }

  /** `Math.hypot(dx, dy) < t.radius + 25`. */
  predicate TooClose(p: Point, t: Tower)
  {
    Below(SqDist(Point(t.x, t.y), p), t.radius + 25.0)
  }

  /** A click at p falls inside the tower: `dx * dx + dy * dy` is below
      the squared radius. */
  predicate Inside(t: Tower, p: Point)
  {
    SqDist(Point(t.x, t.y), p) < t.radius * t.radius
  }

  /** The list position of the first tower a click at p falls inside, in
      list order (`towers.find`). */
  function ClickedTower(towers: seq<Tower>, p: Point): (k: Option<nat>)
    ensures k.Some? ==>
              k.value < |towers| && Inside(towers[k.value], p) &&
              forall j :: 0 <= j < k.value ==> !Inside(towers[j], p)
    ensures k.None? ==> forall j :: 0 <= j < |towers| ==> !Inside(towers[j], p)
    decreases |towers|
  {
    if |towers| == 0 then None
    else if Inside(towers[0], p) then Some(0)
    else match ClickedTower(towers[1..], p)
      case None => None
      case Some(k) => Some(k + 1)
  }

  /** `towers.filter(t => t !== tower)`. */
  function Without(ts: seq<Tower>, t: Tower): (r: seq<Tower>)
    ensures forall u :: u in r ==> u in ts && u != t
    ensures forall u :: u in ts && u != t ==> u in r
    ensures |r| <= |ts|
  {
    if |ts| == 0 then []
    else (if ts[0] == t then [] else [ts[0]]) + Without(ts[1..], t)
  }

  predicate Distinct<T(==)>(s: seq<T>)
  {
    forall i, j :: 0 <= i < j < |s| ==> s[i] != s[j]
  }

  /** Selling removes exactly the one entry of the sold tower and keeps the
      others in their order; a tower not in the list leaves it as it is. */
  lemma {:induction false} WithoutRemovesOne(ts: seq<Tower>, i: nat)
    requires i < |ts| && Distinct(ts)
    ensures Without(ts, ts[i]) == ts[..i] + ts[i + 1..]
    decreases |ts|
  {
    if i == 0 {
      WithoutAbsent(ts[1..], ts[0]);
      assert ts[..0] + ts[1..] == ts[1..];
    } else {
      WithoutRemovesOne(ts[1..], i - 1);
      assert ts[1..][..i - 1] == ts[1..i];
      assert ts[1..][i..] == ts[i + 1..];
      assert [ts[0]] + (ts[1..i] + ts[i + 1..]) == ts[..i] + ts[i + 1..];
    }
  }

  lemma DistinctSnoc<T>(s: seq<T>, x: T)
    requires Distinct(s) && x !in s
    ensures Distinct(s + [x])
  {
    forall i, j | 0 <= i < j < |s| + 1
      ensures (s + [x])[i] != (s + [x])[j]
    {
      assert (s + [x])[i] == s[i];
    }
  }

  /** Selling keeps the tower list free of repeats. */
  lemma {:induction false} WithoutDistinct(ts: seq<Tower>, t: Tower)
    requires Distinct(ts)
    ensures Distinct(Without(ts, t))
    decreases |ts|
  {
    if |ts| > 0 {
      var rest := Without(ts[1..], t);
      WithoutDistinct(ts[1..], t);
      if ts[0] != t {
        assert ts[0] !in rest by {
          assert ts[0] !in ts[1..];
        }
        forall i, j | 0 <= i < j < |rest| + 1
          ensures ([ts[0]] + rest)[i] != ([ts[0]] + rest)[j]
        {
          assert ([ts[0]] + rest)[j] == rest[j - 1];
          if i > 0 {
            assert ([ts[0]] + rest)[i] == rest[i - 1];
          }
        }
      }
    }
  }

  lemma {:induction false} WithoutAbsent(ts: seq<Tower>, t: Tower)
    requires t !in ts
    ensures Without(ts, t) == ts
    decreases |ts|
  {
    if |ts| > 0 {
      WithoutAbsent(ts[1..], t);
      assert [ts[0]] + ts[1..] == ts;
    }
  }

  /** The shot has marked itself for deletion. */
  predicate Marked(s: Shot)
    reads Body(s)
  {
    match s
    case ProjectileShot(p) => p.markedForDeletion
    case SpikeShot(k) => k.markedForDeletion
  }

  function Bodies(ss: seq<Shot>): set<object>
  {
    set s | s in ss :: Body(s)
  }

  /** `projectiles.filter(p => !p.markedForDeletion)`. */
  function Live(ss: seq<Shot>): (r: seq<Shot>)
    reads Bodies(ss)
    ensures forall s :: s in r ==> s in ss && !Marked(s)
    ensures forall s :: s in ss && !Marked(s) ==> s in r
  {
    if |ss| == 0 then []
    else Live(ss[..|ss| - 1]) + (if Marked(ss[|ss| - 1]) then [] else [ss[|ss| - 1]])
  }

  /** Dropping the marked shots keeps the list free of shared objects. */
  lemma {:induction false} LiveDistinct(ss: seq<Shot>)
    requires DistinctBodies(ss)
    ensures DistinctBodies(Live(ss))
    decreases |ss|
  {
    if |ss| > 0 {
      var init := ss[..|ss| - 1];
      var last := ss[|ss| - 1];
      assert DistinctBodies(init);
      LiveDistinct(init);
      if !Marked(last) {
        var r := Live(init);
        forall k | 0 <= k < |r|
          ensures Body(r[k]) != Body(last)
        {
          assert r[k] in r;
          var m :| 0 <= m < |init| && init[m] == r[k];
          assert ss[m] == init[m];
        }
        forall i, j | 0 <= i < j < |r| + 1
          ensures Body((r + [last])[i]) != Body((r + [last])[j])
        {
          assert (r + [last])[i] == r[i];
        }
      }
    }
  }

  /** What cleanup makes of a list of enemies: the ones kept, in order, the
      number that escaped, the candy earned and whether Santa fell. */
  datatype Tally = Tally(survivors: seq<Enemy>, escaped: nat, bounty: int, santaSlain: bool)

  /** `enemies.filter(...)` of the cleanup pass, enemy by enemy in list
      order. An enemy that reached the end costs a life and pays nothing,
      whatever its health; any other enemy at zero health or below pays its
      value and, if it is Santa, wins the game; the rest survive. */
  function Reckon(es: seq<Enemy>): (r: Tally)
    reads es
    decreases |es|
  {
    if |es| == 0 then Tally([], 0, 0, false)
    else
      assert forall u :: u in es[..|es| - 1] ==> u in es;
      Judge(Reckon(es[..|es| - 1]), es[|es| - 1])
  }

  /** The survivors are exactly the enemies that neither escaped nor fell;
      with no enemy at the end none escapes; Santa is slain only if a Santa
      on the field fell. */
  lemma {:induction false} ReckonSound(es: seq<Enemy>)
    ensures var r := Reckon(es);
            |r.survivors| + r.escaped <= |es| &&
            (forall e :: e in r.survivors ==> e in es && !e.reachedEnd && e.health > 0.0) &&
            (forall e :: e in es && !e.reachedEnd && e.health > 0.0 ==> e in r.survivors) &&
            ((forall e :: e in es ==> !e.reachedEnd) ==> r.escaped == 0) &&
            (r.santaSlain ==> exists e :: e in es && e.kind == Santa && !e.reachedEnd && e.health <= 0.0)
    decreases |es|
  {
    if |es| > 0 {
      var init := es[..|es| - 1];
      ReckonSound(init);
      assert es == init + [es[|es| - 1]];
    }
  }

  /** The filter's verdict on one more enemy, added to a running tally. */
  function Judge(t: Tally, e: Enemy): Tally
    reads e
  {
    if e.reachedEnd then t.(escaped := t.escaped + 1)
    else if e.health <= 0.0 then
      t.(bounty := t.bounty + e.value, santaSlain := t.santaSlain || e.kind == Santa)
    else t.(survivors := t.survivors + [e])
  }

  function Combine(x: Tally, y: Tally): Tally
  {
    Tally(x.survivors + y.survivors, x.escaped + y.escaped, x.bounty + y.bounty,
      x.santaSlain || y.santaSlain)
  }

  lemma JudgeCombine(x: Tally, y: Tally, e: Enemy)
    ensures Judge(Combine(x, y), e) == Combine(x, Judge(y, e))
  {
    assert (x.survivors + y.survivors) + [e] == x.survivors + (y.survivors + [e]);
  }

  /** Cleanup treats each enemy on its own: reckoning a list split in two is
      reckoning each part and adding the results up, survivors in order. */
  lemma {:induction false} ReckonAppend(a: seq<Enemy>, b: seq<Enemy>)
    ensures Reckon(a + b) == Combine(Reckon(a), Reckon(b))
    decreases |b|
  {
    if |b| == 0 {
      assert a + b == a;
      assert Reckon(a).survivors + [] == Reckon(a).survivors;
    } else {
      var b' := b[..|b| - 1];
      ReckonAppend(a, b');
      assert (a + b)[..|a + b| - 1] == a + b';
      JudgeCombine(Reckon(a), Reckon(b'), b[|b| - 1]);
    }
  }

  /** Survivors keep their list order, so a list without repeats gives
      survivors without repeats. */
  lemma {:induction false} ReckonDistinct(es: seq<Enemy>)
    requires Distinct(es)
    ensures Distinct(Reckon(es).survivors)
    decreases |es|
  {
    if |es| > 0 {
      var init := es[..|es| - 1];
      var last := es[|es| - 1];
      ReckonDistinct(init);
      ReckonSound(init);
      if !last.reachedEnd && last.health > 0.0 {
        assert last !in init;
        DistinctSnoc(Reckon(init).survivors, last);
      }
    }
  }

  /** Enemies that have either arrived or are still heading for a
      waypoint leave survivors, all distinct, that are still heading for
      one. */
  lemma SurvivorsWalking(es: seq<Enemy>)
    requires Distinct(es)
    requires forall e :: e in es ==>
               e.waypointIndex <= |e.waypoints| && (e.reachedEnd <==> e.waypointIndex == |e.waypoints|)
    ensures var r := Reckon(es);
            Distinct(r.survivors) &&
            forall e :: e in r.survivors ==> e.waypointIndex < |e.waypoints| && !e.reachedEnd
  {
    ReckonSound(es);
    ReckonDistinct(es);
  }

  /** One enemy on its own: the three outcomes of the cleanup filter. */
  lemma ReckonOne(e: Enemy)
    ensures e.reachedEnd ==> Reckon([e]) == Tally([], 1, 0, false)
    ensures !e.reachedEnd && e.health <= 0.0 ==>
              Reckon([e]) == Tally([], 0, e.value, e.kind == Santa)
    ensures !e.reachedEnd && e.health > 0.0 ==> Reckon([e]) == Tally([e], 0, 0, false)
  {
    assert [e][..0] == [];
  }

  /** The enemies the projectiles in a shot list are aimed at. */
  function Aims(ss: seq<Shot>): set<Enemy>
  {
    set s | s in ss && s.ProjectileShot? && s.projectile.target != null :: s.projectile.target
  }

  /** The enemy a shot is aimed at, as a set of at most one. */
  function AimOf(s: Shot): set<Enemy>
  {
    if s.ProjectileShot? then s.projectile.Aim() else {}
  }

  /** What decides a shot's update on this tick, read before any shot
      moves: for a projectile, its mark, whether it retires (its target is
      gone or within reach), whether it strikes, its position and its
      target's; for a spike, its time left, its mark and its victim. */
  datatype Snapshot =
    | ProjectileWas(marked: bool, retires: bool, strikes: bool, pos: Point, aim: Point)
    | SpikeWas(duration: real, marked: bool, victim: Enemy?)

  function Before(s: Shot, dt: real, enemies: seq<Enemy>): (b: Snapshot)
    reads ProjectileIn(Some(s))`x, ProjectileIn(Some(s))`y, ProjectileIn(Some(s))`markedForDeletion
    reads SpikeIn(Some(s))`duration, SpikeIn(Some(s))`markedForDeletion
    reads AimOf(s)`markedForDeletion, AimOf(s)`x, AimOf(s)`y, enemies`x, enemies`y
    ensures s.ProjectileShot? <==> b.ProjectileWas?
    ensures b.SpikeWas? && b.victim != null ==> b.victim in enemies
  {
    match s
    case ProjectileShot(p) =>
      ProjectileWas(p.markedForDeletion, p.Discarded() || p.Strikes(dt), p.Strikes(dt), p.Position(),
        if p.target == null then p.Position() else p.target.Position())
    case SpikeShot(k) =>
      SpikeWas(k.duration, k.markedForDeletion, k.Victim(dt, enemies))
  }

  /** The snapshot of every shot of a list, in order. */
  function Snapshots(ss: seq<Shot>, dt: real, enemies: seq<Enemy>): (r: seq<Snapshot>)
    reads Projectiles(ss)`x, Projectiles(ss)`y, Projectiles(ss)`markedForDeletion
    reads Spikes(ss)`duration, Spikes(ss)`markedForDeletion
    reads Aims(ss)`markedForDeletion, Aims(ss)`x, Aims(ss)`y, enemies`x, enemies`y
    ensures |r| == |ss|
    ensures forall j :: 0 <= j < |ss| ==> r[j] == Before(ss[j], dt, enemies)
  {
    if |ss| == 0 then []
    else
      var last := ss[|ss| - 1];
      assert AimOf(last) <= Aims(ss) && Aims(ss[..|ss| - 1]) <= Aims(ss);
      assert ProjectileIn(Some(last)) <= Projectiles(ss) && SpikeIn(Some(last)) <= Spikes(ss);
      assert Projectiles(ss[..|ss| - 1]) <= Projectiles(ss) && Spikes(ss[..|ss| - 1]) <= Spikes(ss);
      Snapshots(ss[..|ss| - 1], dt, enemies) + [Before(last, dt, enemies)]
  }

  /** The changing part of a shot: a projectile's position and mark, a
      spike's time left and mark. */
  datatype ShotState =
    | ProjectileAt(pos: Point, marked: bool)
    | SpikeLeft(duration: real, marked: bool)

  function StateOf(s: Shot): ShotState
    reads ProjectileIn(Some(s))`x, ProjectileIn(Some(s))`y, ProjectileIn(Some(s))`markedForDeletion
    reads SpikeIn(Some(s))`duration, SpikeIn(Some(s))`markedForDeletion
  {
    match s
    case ProjectileShot(p) => ProjectileAt(p.Position(), p.markedForDeletion)
    case SpikeShot(k) => SpikeLeft(k.duration, k.markedForDeletion)
  }

  /** A shot's state after its own update, given its snapshot: a retiring
      projectile is marked where it stood, any other one moves on toward
      its target by this tick's travel keeping its mark; a spike has dt less
      time and is marked once it has run out or struck. A snapshot of the
      other kind of shot gives a state no shot of this kind has. */
  function After(s: Shot, b: Snapshot, dt: real, advance: Mover): ShotState
  {
    match s
    case ProjectileShot(p) =>
      if !b.ProjectileWas? then SpikeLeft(0.0, false)
      else if b.retires then ProjectileAt(b.pos, true)
      else ProjectileAt(advance(b.pos, b.aim, p.Reach(dt)), b.marked)
    case SpikeShot(_) =>
      if !b.SpikeWas? then ProjectileAt(Point(0.0, 0.0), false)
      else SpikeLeft(b.duration - dt, b.marked || b.duration - dt <= 0.0 || b.victim != null)
  }

  /** The shot is in the state its update from snapshot b leads to. */
  predicate Settled(s: Shot, b: Snapshot, dt: real, advance: Mover)
    reads ProjectileIn(Some(s))`x, ProjectileIn(Some(s))`y, ProjectileIn(Some(s))`markedForDeletion
    reads SpikeIn(Some(s))`duration, SpikeIn(Some(s))`markedForDeletion
  {
    StateOf(s) == After(s, b, dt, advance)
  }

  /** The damage one shot deals enemy e on this tick, given its snapshot:
      a striking projectile its damage to its target, a spike its spike
      damage to its victim. */
  function Hit(s: Shot, b: Snapshot, e: Enemy): (d: real)
    ensures d != 0.0 ==> (s.ProjectileShot? && s.projectile.target == e) || (b.SpikeWas? && b.victim == e)
  {
    match s
    case ProjectileShot(p) =>
      if b.ProjectileWas? && b.strikes && p.target == e then p.damage else 0.0
    case SpikeShot(_) =>
      if b.SpikeWas? && b.victim == e then SpikeDamage(e.kind) else 0.0
  }

  /** The damage a list of shots deals enemy e, shot by shot. */
  function Toll(ss: seq<Shot>, bs: seq<Snapshot>, e: Enemy): real
    requires |bs| == |ss|
  {
    if |ss| == 0 then 0.0
    else Toll(ss[..|ss| - 1], bs[..|bs| - 1], e) + Hit(ss[|ss| - 1], bs[|bs| - 1], e)
  }

  /** The toll of one more shot is the toll so far plus that shot's hit. */
  lemma TollStep(ss: seq<Shot>, bs: seq<Snapshot>, i: nat, e: Enemy)
    requires i < |ss| == |bs|
    ensures Toll(ss[..i + 1], bs[..i + 1], e) == Toll(ss[..i], bs[..i], e) + Hit(ss[i], bs[i], e)
  {
    assert ss[..i + 1][..i] == ss[..i] && bs[..i + 1][..i] == bs[..i];
  }

  /** No shot heals: with no projectile of negative damage, the toll on any
      enemy is never negative. */
  lemma {:induction false} TollNonNegative(ss: seq<Shot>, bs: seq<Snapshot>, e: Enemy)
    requires |bs| == |ss|
    requires forall s :: s in ss && s.ProjectileShot? ==> s.projectile.damage >= 0.0
    ensures Toll(ss, bs, e) >= 0.0
    decreases |ss|
  {
    if |ss| > 0 {
      assert forall s :: s in ss[..|ss| - 1] ==> s in ss;
      TollNonNegative(ss[..|ss| - 1], bs[..|bs| - 1], e);
      assert ss[|ss| - 1] in ss;
    }
  }

  /** An enemy no shot aims at and no spike strikes takes no damage. */
  lemma {:induction false} TollUntouched(ss: seq<Shot>, bs: seq<Snapshot>, e: Enemy)
    requires |bs| == |ss|
    requires e !in Aims(ss)
    requires forall j :: 0 <= j < |bs| && bs[j].SpikeWas? ==> bs[j].victim != e
    ensures Toll(ss, bs, e) == 0.0
    decreases |ss|
  {
    if |ss| > 0 {
      var n := |ss| - 1;
      assert Aims(ss[..n]) <= Aims(ss);
      TollUntouched(ss[..n], bs[..n], e);
      assert ss[n] in ss;
    }
  }

  /** `p instanceof Spike ? p.update(dt, enemies) : p.update(dt)` for the
      shot at position i of a list without shared objects: that shot
      settles from its snapshot, the enemies lose its hit, and every other
      shot of the list is left as it was. */
  method Resolve(ss: seq<Shot>, i: nat, dt: real, advance: Mover, enemies: seq<Enemy>, ghost b: Snapshot)
    requires DistinctBodies(ss) && i < |ss| && b == Before(ss[i], dt, enemies)
    modifies ProjectileIn(Some(ss[i]))`x, ProjectileIn(Some(ss[i]))`y
    modifies ProjectileIn(Some(ss[i]))`markedForDeletion
    modifies SpikeIn(Some(ss[i]))`duration, SpikeIn(Some(ss[i]))`markedForDeletion
    modifies AimOf(ss[i])`health, enemies`health
    ensures Settled(ss[i], b, dt, advance)
    ensures forall e :: e in enemies || e in AimOf(ss[i]) ==> e.health == old(e.health) - Hit(ss[i], b, e)
    ensures forall j :: 0 <= j < |ss| && j != i ==> StateOf(ss[j]) == old(StateOf(ss[j]))
  {
    match ss[i]
    case ProjectileShot(p) =>
      p.Update(dt, advance);
    case SpikeShot(k) =>
      k.Update(dt, enemies);
    forall j | 0 <= j < |ss| && j != i
      ensures StateOf(ss[j]) == old(StateOf(ss[j]))
    {
      SeparateParts(ss, i, j);
    }
  }

  /** Two entries of a list without shared objects share no projectile
      and no spike. */
  lemma SeparateParts(ss: seq<Shot>, i: nat, j: nat)
    requires DistinctBodies(ss) && i < |ss| && j < |ss| && i != j
    ensures ProjectileIn(Some(ss[i])) !! ProjectileIn(Some(ss[j]))
    ensures SpikeIn(Some(ss[i])) !! SpikeIn(Some(ss[j]))
  {
    if i < j {
      assert Body(ss[i]) != Body(ss[j]);
    } else {
      assert Body(ss[j]) != Body(ss[i]);
    }
  }

  /** The projectiles of a shot list. */
  function Projectiles(ss: seq<Shot>): set<Projectile>
  {
    set s | s in ss && s.ProjectileShot? :: s.projectile
  }

  /** The spikes of a shot list. */
  function Spikes(ss: seq<Shot>): set<Spike>
  {
    set s | s in ss && s.SpikeShot? :: s.spike
  }

  /** `projectiles.forEach(...)`: every shot takes its update in list
      order. Shots change only themselves and enemy health, which no
      snapshot reads, so each shot behaves as its snapshot from the start
      of the phase says, and every enemy loses the toll of the whole list. */
  method ResolveAll(ss: seq<Shot>, dt: real, advance: Mover, enemies: seq<Enemy>)
    requires DistinctBodies(ss)
    modifies Projectiles(ss)`x, Projectiles(ss)`y, Projectiles(ss)`markedForDeletion
    modifies Spikes(ss)`duration, Spikes(ss)`markedForDeletion
    modifies Aims(ss)`health, enemies`health
    ensures forall j :: 0 <= j < |ss| ==> Settled(ss[j], old(Before(ss[j], dt, enemies)), dt, advance)
    ensures forall e :: e in enemies || e in Aims(ss) ==>
              e.health == old(e.health) - Toll(ss, old(Snapshots(ss, dt, enemies)), e)
  {
    ghost var bs := Snapshots(ss, dt, enemies);
    var i := 0;
    while i < |ss|
      invariant 0 <= i <= |ss|
      invariant forall j {:trigger bs[j]} :: 0 <= j < i ==> StateOf(ss[j]) == After(ss[j], bs[j], dt, advance)
      invariant forall j {:trigger bs[j]} :: i <= j < |ss| ==> StateOf(ss[j]) == old(StateOf(ss[j]))
      invariant forall e {:trigger Toll(ss[..i], bs[..i], e)} :: e in enemies || e in Aims(ss) ==>
                  e.health == old(e.health) - Toll(ss[..i], bs[..i], e)
    {
      var s := ss[i];
      assert s in ss;
      assert ProjectileIn(Some(s)) <= Projectiles(ss) && SpikeIn(Some(s)) <= Spikes(ss);
      assert AimOf(s) <= Aims(ss);
      assert Before(s, dt, enemies) == bs[i];
      label Pre:
      Resolve(ss, i, dt, advance, enemies, bs[i]);
      forall e | e in enemies || e in Aims(ss)
        ensures e.health == old(e.health) - Toll(ss[..i + 1], bs[..i + 1], e)
      {
        TollStep(ss, bs, i, e);
        if e in enemies || e in AimOf(s) {
          assert e.health == old@Pre(e.health) - Hit(s, bs[i], e);
        } else {
          assert e.health == old@Pre(e.health);
          assert bs[i].SpikeWas? && bs[i].victim != null ==> bs[i].victim in enemies;
          assert Hit(s, bs[i], e) == 0.0;
        }
      }
      i := i + 1;
    }
    assert ss[..|ss|] == ss && bs[..|bs|] == bs;
  }

  /** The shots a round of tower updates emitted, in tower order. */
  function Emitted(fired: seq<Option<Shot>>): seq<Shot>
  {
    if |fired| == 0 then []
    else
      var last := fired[|fired| - 1];
      Emitted(fired[..|fired| - 1]) + (if last.Some? then [last.value] else [])
  }

  /** No two shots share an object. */
  predicate DistinctBodies(ss: seq<Shot>)
  {
    forall i, j :: 0 <= i < j < |ss| ==> Body(ss[i]) != Body(ss[j])
  }

  /** The emitted shots are exactly the shots some tower fired. */
  lemma {:induction false} EmittedMembers(fired: seq<Option<Shot>>)
    ensures forall s :: s in Emitted(fired) ==>
              exists i :: 0 <= i < |fired| && fired[i].Some? && fired[i].value == s
    ensures forall i :: 0 <= i < |fired| && fired[i].Some? ==> fired[i].value in Emitted(fired)
    decreases |fired|
  {
    if |fired| > 0 {
      var init := fired[..|fired| - 1];
      EmittedMembers(init);
      assert forall i :: 0 <= i < |init| ==> init[i] == fired[i];
    }
  }

  /** What holds of every projectile some tower fired holds of every
      emitted projectile: its damage is non-negative and it is aimed at one
      of the enemies. */
  lemma EmittedProjectiles(fired: seq<Option<Shot>>, enemies: seq<Enemy>)
    requires forall i :: 0 <= i < |fired| && fired[i].Some? && fired[i].value.ProjectileShot? ==>
               fired[i].value.projectile.damage >= 0.0 && fired[i].value.projectile.target in enemies
    ensures forall s :: s in Emitted(fired) && s.ProjectileShot? ==>
              s.projectile.damage >= 0.0 && s.projectile.target in enemies
  {
    EmittedMembers(fired);
  }

  /** Shots fired as distinct objects stay distinct once emitted. */
  lemma {:induction false} EmittedDistinct(fired: seq<Option<Shot>>)
    requires forall i, k :: 0 <= i < k < |fired| && fired[i].Some? && fired[k].Some? ==>
               Body(fired[i].value) != Body(fired[k].value)
    ensures DistinctBodies(Emitted(fired))
    decreases |fired|
  {
    if |fired| > 0 {
      var init := fired[..|fired| - 1];
      var last := fired[|fired| - 1];
      EmittedDistinct(init);
      EmittedMembers(init);
      if last.Some? {
        var e := Emitted(init);
        forall j | 0 <= j < |e|
          ensures Body(e[j]) != Body(last.value)
        {
          assert e[j] in e;
          var i :| 0 <= i < |init| && init[i].Some? && init[i].value == e[j];
          assert fired[i] == init[i];
        }
        forall i, j | 0 <= i < j < |e| + 1
          ensures Body((e + [last.value])[i]) != Body((e + [last.value])[j])
        {
          assert (e + [last.value])[i] == e[i];
        }
      }
    }
  }

  /** Appending objects none of which is already in the list keeps the
      list free of shared objects. */
  lemma AppendDistinct(a: seq<Shot>, b: seq<Shot>)
    requires DistinctBodies(a) && DistinctBodies(b)
    requires forall i, j :: 0 <= i < |a| && 0 <= j < |b| ==> Body(a[i]) != Body(b[j])
    ensures DistinctBodies(a + b)
  {
    forall i, j | 0 <= i < j < |a + b|
      ensures Body((a + b)[i]) != Body((a + b)[j])
    {
      if j < |a| {
        assert (a + b)[i] == a[i] && (a + b)[j] == a[j];
      } else if i < |a| {
        assert (a + b)[i] == a[i] && (a + b)[j] == b[j - |a|];
      } else {
        assert (a + b)[i] == b[i - |a|] && (a + b)[j] == b[j - |a|];
      }
    }
  }

  /** Every tower of the list takes its `update(dt, enemies, projectiles)`
      in list order; `fired` is what each one emitted, each a fresh object. */
  method FireAll(towers: seq<Tower>, enemies: seq<Enemy>, dt: real) returns (fired: seq<Option<Shot>>)
    requires Distinct(towers) && forall t :: t in towers ==> t.Valid()
    modifies towers`cooldown
    ensures |fired| == |towers|
    ensures forall i :: 0 <= i < |towers| ==>
              towers[i].Fired(old(towers[i].cooldown), towers[i].cooldown, dt,
                old(towers[i].Target(enemies)), fired[i])
    ensures forall i :: 0 <= i < |towers| && fired[i].Some? ==> fresh(Body(fired[i].value))
    ensures forall i, k :: 0 <= i < k < |towers| && fired[i].Some? && fired[k].Some? ==>
              Body(fired[i].value) != Body(fired[k].value)
  {
    fired := [];
    ghost var owner: map<object, nat> := map[];
    var i := 0;
    while i < |towers|
      invariant 0 <= i <= |towers| && |fired| == i
      invariant forall t :: t in towers ==> t.Valid()
      invariant forall j {:trigger fired[j]} :: 0 <= j < i ==>
                  towers[j].Fired(old(towers[j].cooldown), towers[j].cooldown, dt,
                    old(towers[j].Target(enemies)), fired[j])
      invariant forall j {:trigger fired[j]} :: 0 <= j < i && fired[j].Some? ==> fresh(Body(fired[j].value))
      invariant forall j :: i <= j < |towers| ==> towers[j].cooldown == old(towers[j].cooldown)
      invariant forall j {:trigger fired[j]} :: 0 <= j < i && fired[j].Some? ==>
                  Body(fired[j].value) in owner && owner[Body(fired[j].value)] == j
    {
      assert towers[i] in towers;
      var f := towers[i].Update(dt, enemies);
      if f.Some? {
        owner := owner[Body(f.value) := i];
      }
      fired := fired + [f];
      i := i + 1;
    }
  }

  class Game {
    var wave: int
    var candy: int
    var lives: int
    var gameOver: bool
    var gameWon: bool
    var enemies: seq<Enemy>
    var towers: seq<Tower>
    var projectiles: seq<Shot>
    var gameSpeed: real
    var waveActive: bool
    var waveCompleteFlag: bool
    var currentWaveConfig: Option<seq<Directive>>
    /** `burstIndex`, `enemiesInBurstSpawned`, `burstTimer`, `delayTimer`
        and `processingDelay`, held as one value. */
    var sched: Scheduler
    var mouseX: real
    var mouseY: real
    var placingTower: Option<TowerKind>
    var selectedTower: Tower?
    var width: real
    var height: real
    const pathPoints: seq<Point> := PATH
    /** The enemies the current wave has spawned so far, in order. */
    ghost var spawnLog: seq<EnemyKind>

    /** `getAbsoluteWaypoints`. */
    function AbsPath(): seq<Point>
      reads this`width, this`height
    {
      AbsoluteWaypoints(pathPoints, width, height)
    }

    function Mouse(): Point
      reads this`mouseX, this`mouseY
    {
      Point(mouseX, mouseY)
    }

    ghost function Targets(): set<Enemy>
      reads this`projectiles
    {
      Aims(projectiles)
    }

    /** Every enemy on the field is still walking toward a waypoint. */
    ghost predicate EnemiesWalking()
      reads this`enemies, enemies
    {
      Distinct(enemies) &&
      forall e :: e in enemies ==> e.waypointIndex < |e.waypoints| && !e.reachedEnd
    }

    ghost predicate TowersValid()
      reads this`towers, towers`fireRate, towers`range, towers`damage, towers`upgrades
    {
      Distinct(towers) && forall t :: t in towers ==> t.Valid()
    }

    /** The shot objects are distinct and projectiles deal no negative
        damage. */
    ghost predicate ShotsValid()
      reads this`projectiles
    {
      DistinctBodies(projectiles) &&
      forall s :: s in projectiles && s.ProjectileShot? ==> s.projectile.damage >= 0.0
    }

    /** While a wave runs its directives are loaded, its completion has not
        been paid out, and the scheduler has spawned exactly `spawnLog`. */
    ghost predicate WaveTracked()
      reads this`waveActive, this`currentWaveConfig, this`waveCompleteFlag, this`sched,
        this`spawnLog
    {
      waveActive ==>
        currentWaveConfig.Some? && !waveCompleteFlag &&
        Accounted(currentWaveConfig.value, sched, spawnLog)
    }

    ghost predicate Valid()
      reads this, enemies, towers
    {
      wave >= 1 && EnemiesWalking() && TowersValid() && ShotsValid() && WaveTracked()
    }

    /** A new game: wave 1, 300 candy, 50 lives, nothing on the field. */
    constructor (width: real, height: real)
      ensures this.width == width && this.height == height
      ensures wave == 1 && candy == 300 && lives == 50 && !gameOver && !gameWon
      ensures enemies == [] && towers == [] && projectiles == [] && gameSpeed == 1.0
      ensures !waveActive && !waveCompleteFlag && currentWaveConfig == None
      ensures sched == Restart && placingTower == None && selectedTower == null
      ensures Valid()
    {
      wave := 1;
      candy := 300;
      lives := 50;
      gameOver := false;
      gameWon := false;
      enemies := [];
      towers := [];
      projectiles := [];
      gameSpeed := 1.0;
      waveActive := false;
      waveCompleteFlag := false;
      currentWaveConfig := None;
      sched := Restart;
      mouseX := 0.0;
      mouseY := 0.0;
      placingTower := None;
      selectedTower := null;
      this.width := width;
      this.height := height;
      spawnLog := [];
    }

    /** `startWave`: during a wave it only toggles the game speed between
        1 and 3; between waves it loads the next wave and restarts the
        scheduler, unless every wave has been played. */
    method StartWave()
      requires wave >= 1 && WaveTracked()
      modifies this`waveActive, this`waveCompleteFlag, this`currentWaveConfig, this`sched,
        this`gameSpeed, this`spawnLog
      ensures WaveTracked()
      ensures old(waveActive) ==>
                gameSpeed == (if old(gameSpeed) == 1.0 then 3.0 else 1.0) &&
                unchanged(this`waveActive, this`waveCompleteFlag, this`currentWaveConfig,
                  this`sched, this`spawnLog)
      ensures !old(waveActive) && wave > |WAVES| ==> unchanged(this)
      ensures !old(waveActive) && wave <= |WAVES| ==>
                waveActive && !waveCompleteFlag && currentWaveConfig == Some(WAVES[wave - 1]) &&
                sched == Restart && gameSpeed == 1.0 && spawnLog == []
    {
      if waveActive {
        gameSpeed := if gameSpeed == 1.0 then 3.0 else 1.0;
      } else if wave <= |WAVES| {
        waveActive := true;
        waveCompleteFlag := false;
        currentWaveConfig := Some(WAVES[Min(wave - 1, |WAVES| - 1)]);
        sched := Restart;
        gameSpeed := 1.0;
        spawnLog := [];
        RestartAccounted(currentWaveConfig.value);
      }
    }

    /** `waveComplete`: pays 100 + 20 per wave number once, moves to the
        next wave and ends the active wave; the flag makes a second call
        change nothing. */
    method WaveComplete()
      modifies this`waveCompleteFlag, this`waveActive, this`candy, this`wave, this`gameSpeed
      ensures waveCompleteFlag
      ensures old(waveCompleteFlag) ==> unchanged(this)
      ensures !old(waveCompleteFlag) ==>
                !waveActive && candy == old(candy) + WaveReward(old(wave)) &&
                wave == old(wave) + 1 && gameSpeed == 1.0
    {
      if waveCompleteFlag {
        return;
      }
      waveCompleteFlag := true;
      waveActive := false;
      candy := candy + WaveReward(wave);
      wave := wave + 1;
      gameSpeed := 1.0;
    }

    /** One scheduler step of the running wave: the new scheduler state,
        and the enemy it spawns appended fresh at the start of the path with
        this wave's multiplier. */
    method AdvanceSchedule(dt: real)
      requires waveActive && WaveTracked() && EnemiesWalking()
      requires sched.burstIndex < |currentWaveConfig.value|
      modifies this`sched, this`enemies, this`spawnLog
      ensures WaveTracked() && EnemiesWalking()
      ensures var t := Step(currentWaveConfig.value, old(sched), dt);
              sched == t.next &&
              if t.spawn.Some? then
                |enemies| == |old(enemies)| + 1 && enemies[..|old(enemies)|] == old(enemies) &&
                var e := enemies[|old(enemies)|];
                fresh(e) && e.kind == t.spawn.value && e.waypoints == AbsPath() &&
                e.speed == BaseSpeed(e.kind) * WaveMultiplier(wave) &&
                e.health == BaseHealth(e.kind) * WaveMultiplier(wave) &&
                spawnLog == old(spawnLog) + [e.kind]
              else
                enemies == old(enemies) && spawnLog == old(spawnLog)
    {
      var bursts := currentWaveConfig.value;
      var t := Step(bursts, sched, dt);
      StepAccounted(bursts, sched, dt, spawnLog);
      sched := t.next;
      if t.spawn.Some? {
        var e := new Enemy(AbsPath(), t.spawn.value, WaveMultiplier(wave));
        enemies := enemies + [e];
        spawnLog := spawnLog + [t.spawn.value];
      }
    }

    /** The spawning half of `update`: a scheduler step while directives
        remain; once they are all done (by then the wave has spawned exactly
        what its directives list) and the field is clear, the wave
        completes. */
    method SpawnPhase(dt: real)
      requires WaveTracked() && EnemiesWalking()
      modifies this`sched, this`enemies, this`spawnLog, this`waveCompleteFlag,
        this`waveActive, this`candy, this`wave, this`gameSpeed
      ensures WaveTracked() && EnemiesWalking()
      ensures forall i :: 0 <= i < |enemies| ==> enemies[i] in old(enemies) || fresh(enemies[i])
      ensures forall e :: e in old(enemies) ==> e in enemies
      ensures !old(waveActive) ==> unchanged(this)
      ensures old(waveActive) && old(sched.burstIndex) < |currentWaveConfig.value| ==>
                sched == Step(currentWaveConfig.value, old(sched), dt).next &&
                |old(enemies)| <= |enemies| <= |old(enemies)| + 1 &&
                enemies[..|old(enemies)|] == old(enemies) &&
                unchanged(this`waveActive, this`waveCompleteFlag, this`candy, this`wave, this`gameSpeed)
      ensures old(waveActive) && old(sched.burstIndex) < |currentWaveConfig.value| ==>
                var t := Step(currentWaveConfig.value, old(sched), dt);
                if t.spawn.Some? then
                  |enemies| == |old(enemies)| + 1 &&
                  var e := enemies[|old(enemies)|];
                  fresh(e) && e.kind == t.spawn.value && e.waypoints == AbsPath() &&
                  e.speed == BaseSpeed(e.kind) * WaveMultiplier(wave) &&
                  e.health == BaseHealth(e.kind) * WaveMultiplier(wave) &&
                  spawnLog == old(spawnLog) + [e.kind]
                else
                  enemies == old(enemies) && spawnLog == old(spawnLog)
      ensures old(waveActive) && old(sched.burstIndex) >= |currentWaveConfig.value| ==>
                unchanged(this`sched, this`enemies, this`spawnLog) &&
                spawnLog == Expanded(currentWaveConfig.value) &&
                if |enemies| == 0 then
                  waveCompleteFlag && !waveActive && candy == old(candy) + WaveReward(old(wave)) &&
                  wave == old(wave) + 1 && gameSpeed == 1.0
                else
                  unchanged(this)
    {
      if waveActive {
        var bursts := currentWaveConfig.value;
        if sched.burstIndex < |bursts| {
          AdvanceSchedule(dt);
        } else {
          assert bursts[..|bursts|] == bursts;
          if |enemies| == 0 {
            WaveComplete();
          }
        }
      }
    }

    /** `isCollidingWithPath`: a circle at (x, y) hits some consecutive pair
        of waypoints of the path as placed on the canvas. */
    method IsCollidingWithPath(x: real, y: real, radius: real) returns (hit: bool)
      ensures hit == PathHit(Point(x, y), radius, AbsPath())
    {
      var absPath := AbsPath();
      var i := 0;
      while i < |absPath| - 1
        invariant 0 <= i <= |absPath|
        invariant i <= |absPath| - 1 || |absPath| == 0
        invariant forall j :: 0 <= j < i ==> !CircleLineIntersect(Point(x, y), radius, absPath[j], absPath[j + 1])
      {
        if CircleLineIntersect(Point(x, y), radius, absPath[i], absPath[i + 1]) {
          return true;
        }
        i := i + 1;
      }
      return false;
    }

    /** The effect of a placement attempt at the mouse: refused, with
        nothing changed, for want of candy, too near the path or too near a
        tower; otherwise a fresh tower of the chosen kind stands at the
        mouse, at the end of the list, and exactly its cost is charged. */
    twostate predicate PlacementDone()
      reads this, towers
    {
      old(placingTower).Some? &&
      var kind := old(placingTower).value;
      var cost := PlacementCost(kind);
      if old(candy) < cost || PathHit(Mouse(), PATH_CLEARANCE, AbsPath()) || Overlaps(Mouse(), old(towers)) then
        candy == old(candy) && towers == old(towers) && placingTower == old(placingTower)
      else
        candy == old(candy) - cost && placingTower == None &&
        |towers| == |old(towers)| + 1 && towers[..|old(towers)|] == old(towers) &&
        var t := towers[|old(towers)|];
        t.x == mouseX && t.y == mouseY && t.kind == kind && t.totalInvested == cost && t.Valid() &&
        fresh(t) && t.baseCost == cost && t.cooldown == 0.0 &&
        t.upgrades == [0, 0, 0] && t.upgradePath == None && t.maxActiveSpikes == Undefined &&
        (kind == Trap ==> t.range == 100.0 && t.damage == 0.0 && t.fireRate == 0.2) &&
        (kind != Trap ==> t.range == 150.0 && t.damage == 20.0 && t.fireRate == 1.0)
    }

    /** `tryPlaceTower`. */
    method TryPlaceTower()
      requires placingTower.Some? && TowersValid()
      modifies this`towers, this`candy, this`placingTower
      ensures PlacementDone() && TowersValid()
      ensures |towers| > |old(towers)| ==> fresh(towers[|old(towers)|])
    {
      var kind := placingTower.value;
      var cost := PlacementCost(kind);
      if candy < cost {
        return;
      }
      var onPath := IsCollidingWithPath(mouseX, mouseY, PATH_CLEARANCE);
      if onPath {
        return;
      }
      var i := 0;
      while i < |towers|
        invariant 0 <= i <= |towers|
        invariant forall j :: 0 <= j < i ==> !TooClose(Mouse(), towers[j])
      {
        if TooClose(Mouse(), towers[i]) {
          return;
        }
        i := i + 1;
      }
      var t := new Tower(mouseX, mouseY, kind);
      DistinctSnoc(towers, t);
      towers := towers + [t];
      candy := candy - cost;
      placingTower := None;
    }

    /** `sellTower`: pays out the tower's sell value and drops it from the
        list, others kept in order; no tower, no change. */
    method SellTower(tower: Tower?)
      requires TowersValid()
      modifies this`candy, this`towers, this`selectedTower
      ensures TowersValid()
      ensures tower == null ==> unchanged(this)
      ensures tower != null ==>
                candy == old(candy) + tower.SellValue() && selectedTower == null &&
                towers == Without(old(towers), tower)
      ensures tower != null && tower in old(towers) ==>
                |towers| == |old(towers)| - 1 &&
                exists i :: 0 <= i < |old(towers)| && old(towers)[i] == tower &&
                  towers == old(towers)[..i] + old(towers)[i + 1..]
    {
      if tower == null {
        return;
      }
      candy := candy + tower.SellValue();
      if tower in towers {
        var i :| 0 <= i < |towers| && towers[i] == tower;
        WithoutRemovesOne(towers, i);
      }
      WithoutDistinct(towers, tower);
      towers := Without(towers, tower);
      selectedTower := null;
    }

    /** The canvas click handler: nothing once the game is over or won;
        while placing, a placement attempt; otherwise the first tower under
        the mouse, or none, becomes the selection. */
    method Click()
      requires TowersValid()
      modifies this`towers, this`candy, this`placingTower, this`selectedTower
      ensures TowersValid()
      ensures old(gameOver) || old(gameWon) ==> unchanged(this)
      ensures !old(gameOver) && !old(gameWon) && old(placingTower).Some? ==>
                PlacementDone() && selectedTower == old(selectedTower)
      ensures !old(gameOver) && !old(gameWon) && old(placingTower).None? ==>
                unchanged(this`towers, this`candy, this`placingTower) &&
                selectedTower == match ClickedTower(towers, Mouse())
                                 case None => null
                                 case Some(k) => towers[k]
    {
      if gameOver || gameWon {
        return;
      }
      if placingTower.Some? {
        TryPlaceTower();
      } else {
        var k := ClickedTower(towers, Mouse());
        selectedTower := if k.Some? then towers[k.value] else null;
      }
    }

    /** Every enemy takes its `update(dt)` in list order; as none of them
        reads another, each ends where its own walk from the start of the
        phase leads, and every one is still on its way or has just arrived. */
    method MoveEnemies(dt: real, advance: Mover)
      requires EnemiesWalking()
      modifies enemies`x, enemies`y, enemies`waypointIndex, enemies`markedForDeletion, enemies`reachedEnd
      ensures forall e :: e in enemies ==>
                e.WalkOf() == e.Walked(old(e.WalkOf()), e.health > 0.0, dt, advance)
      ensures forall e :: e in enemies ==>
                e.waypointIndex <= |e.waypoints| && (e.reachedEnd <==> e.waypointIndex == |e.waypoints|)
    {
      var i := 0;
      while i < |enemies|
        invariant 0 <= i <= |enemies| && Distinct(enemies)
        invariant forall j :: 0 <= j < i ==>
                    enemies[j].WalkOf() ==
                      enemies[j].Walked(old(enemies[j].WalkOf()), enemies[j].health > 0.0, dt, advance)
        invariant forall j :: i <= j < |enemies| ==> enemies[j].WalkOf() == old(enemies[j].WalkOf())
      {
        enemies[i].Update(dt, advance);
        i := i + 1;
      }
    }

    /** The firing half of `update`: every tower takes its update in list
        order and what they emit goes on the end of the shot list, in tower
        order. */
    method FireTowers(dt: real) returns (fired: seq<Option<Shot>>)
      requires TowersValid() && ShotsValid()
      modifies towers`cooldown, this`projectiles
      ensures TowersValid() && ShotsValid()
      ensures |fired| == |towers|
      ensures forall i :: 0 <= i < |towers| ==>
                towers[i].Fired(old(towers[i].cooldown), towers[i].cooldown, dt,
                  old(towers[i].Target(enemies)), fired[i])
      ensures projectiles == old(projectiles) + Emitted(fired)
      ensures forall s :: s in Emitted(fired) ==> fresh(Body(s))
      ensures forall s :: s in Emitted(fired) && s.ProjectileShot? ==> s.projectile.target in enemies
    {
      fired := FireAll(towers, enemies, dt);
      EmittedMembers(fired);
      EmittedDistinct(fired);
      var shots := Emitted(fired);
      forall i | 0 <= i < |fired| && fired[i].Some? && fired[i].value.ProjectileShot?
        ensures fired[i].value.projectile.damage >= 0.0 && fired[i].value.projectile.target in enemies
      {
        assert towers[i] in towers;
      }
      EmittedProjectiles(fired, enemies);
      forall s | s in shots
        ensures fresh(Body(s))
      {
        var i :| 0 <= i < |fired| && fired[i].Some? && fired[i].value == s;
      }
      forall k, j | 0 <= k < |projectiles| && 0 <= j < |shots|
        ensures Body(projectiles[k]) != Body(shots[j])
      {
        assert shots[j] in shots;
      }
      AppendDistinct(projectiles, shots);
      projectiles := projectiles + shots;
    }

    /** The enemy filter of the cleanup pass, enemy by enemy in list order:
        an enemy at the end costs a life, and the game is over once lives
        reach zero; a fallen one pays its value, and a fallen Santa wins;
        the rest stay, in order, and are all still on their way. */
    method SweepEnemies()
      requires Distinct(enemies)
      requires forall e :: e in enemies ==>
                 e.waypointIndex <= |e.waypoints| && (e.reachedEnd <==> e.waypointIndex == |e.waypoints|)
      modifies this`enemies, this`lives, this`candy, this`gameOver, this`gameWon
      ensures EnemiesWalking()
      ensures var r := old(Reckon(enemies));
              enemies == r.survivors && lives == old(lives) - r.escaped &&
              candy == old(candy) + r.bounty && gameWon == (old(gameWon) || r.santaSlain) &&
              gameOver == (old(gameOver) || (r.escaped > 0 && lives <= 0))
    {
      var es := enemies;
      var kept: seq<Enemy> := [];
      var left, earned, over, won := lives, candy, gameOver, gameWon;
      var i := 0;
      while i < |es|
        invariant 0 <= i <= |es|
        invariant var r := Reckon(es[..i]);
                  kept == r.survivors && left == lives - r.escaped && earned == candy + r.bounty &&
                  won == (gameWon || r.santaSlain) && over == (gameOver || (r.escaped > 0 && left <= 0))
      {
        var e := es[i];
        assert es[..i + 1][..i] == es[..i];
        if e.reachedEnd {
          left := left - 1;
          if left <= 0 {
            over := true;
          }
        } else if e.health <= 0.0 {
          earned := earned + e.value;
          if e.kind == Santa {
            won := true;
          }
        } else {
          kept := kept + [e];
        }
        i := i + 1;
      }
      assert es[..|es|] == es;
      SurvivorsWalking(es);
      enemies, lives, candy, gameOver, gameWon := kept, left, earned, over, won;
    }

    /** The shot filter of the cleanup pass: marked shots are dropped. */
    method DropSpent()
      requires ShotsValid()
      modifies this`projectiles
      ensures ShotsValid()
      ensures projectiles == old(Live(projectiles))
    {
      LiveDistinct(projectiles);
      projectiles := Live(projectiles);
    }

    /** The towers fire in list order, then every shot, those already out
        and those just fired, takes its update. */
    method Strike(dt: real, advance: Mover)
      requires TowersValid() && ShotsValid()
      modifies towers`cooldown, this`projectiles
      modifies Projectiles(projectiles)`x, Projectiles(projectiles)`y,
        Projectiles(projectiles)`markedForDeletion
      modifies Spikes(projectiles)`duration, Spikes(projectiles)`markedForDeletion
      modifies Targets()`health, enemies`health
      ensures TowersValid() && ShotsValid()
      ensures forall e :: e in enemies || e in old(Targets()) ==> e.health <= old(e.health)
    {
      var fired := FireTowers(dt);
      forall p | p in Projectiles(projectiles)
        ensures p in old(Projectiles(projectiles)) || fresh(p)
      {
        var s :| s in projectiles && s.ProjectileShot? && s.projectile == p;
        if s !in old(projectiles) {
          assert s in Emitted(fired);
        }
      }
      forall k | k in Spikes(projectiles)
        ensures k in old(Spikes(projectiles)) || fresh(k)
      {
        var s :| s in projectiles && s.SpikeShot? && s.spike == k;
        if s !in old(projectiles) {
          assert s in Emitted(fired);
        }
      }
      forall e | e in Aims(projectiles)
        ensures e in old(Targets()) || e in enemies
      {
        var s :| s in projectiles && s.ProjectileShot? && s.projectile.target == e;
        if s !in old(projectiles) {
          assert s in Emitted(fired);
        }
      }
      ghost var bs := Snapshots(projectiles, dt, enemies);
      ResolveAll(projectiles, dt, advance, enemies);
      forall e | e in enemies || e in old(Targets())
        ensures e.health <= old(e.health)
      {
        if e !in enemies {
          var s :| s in old(projectiles) && s.ProjectileShot? && s.projectile.target == e;
          assert s in projectiles;
        }
        TollNonNegative(projectiles, bs, e);
      }
    }

    /** The spawn step, then every enemy's move. */
    method Advance(dt: real, advance: Mover)
      requires WaveTracked() && EnemiesWalking()
      modifies this`sched, this`enemies, this`spawnLog, this`waveCompleteFlag,
        this`waveActive, this`candy, this`wave, this`gameSpeed
      modifies enemies`x, enemies`y, enemies`waypointIndex, enemies`markedForDeletion, enemies`reachedEnd
      ensures WaveTracked() && Distinct(enemies)
      ensures forall e :: e in enemies ==>
                e.waypointIndex <= |e.waypoints| && (e.reachedEnd <==> e.waypointIndex == |e.waypoints|)
      ensures forall i :: 0 <= i < |enemies| ==> enemies[i] in old(enemies) || fresh(enemies[i])
      ensures forall e :: e in old(enemies) ==> e in enemies
      ensures wave == old(wave) || wave == old(wave) + 1
    {
      SpawnPhase(dt);
      MoveEnemies(dt, advance);
    }

    /** The cleanup pass: the enemy filter, then the shot filter. */
    method Cleanup()
      requires ShotsValid() && Distinct(enemies)
      requires forall e :: e in enemies ==>
                 e.waypointIndex <= |e.waypoints| && (e.reachedEnd <==> e.waypointIndex == |e.waypoints|)
      modifies this`enemies, this`lives, this`candy, this`gameOver, this`gameWon, this`projectiles
      ensures EnemiesWalking() && ShotsValid()
      ensures lives <= old(lives)
      ensures old(gameOver) ==> gameOver
      ensures old(gameWon) ==> gameWon
    {
      SweepEnemies();
      DropSpent();
    }

    /** `update(dt)`: the spawn step, every enemy's move, every tower's
        fire, every shot's update, then the cleanup of the enemy and shot
        lists, in that order. The game stays consistent, the towers are the
        same towers, lives only go down, a lost or won game stays so, and
        the wave number moves on by at most one. */
    method Update(dt: real, advance: Mover)
      requires Valid()
      modifies this, enemies, towers, Bodies(projectiles), Targets()
      ensures Valid()
      ensures towers == old(towers)
      ensures lives <= old(lives)
      ensures old(gameOver) ==> gameOver
      ensures old(gameWon) ==> gameWon
      ensures wave == old(wave) || wave == old(wave) + 1
      ensures forall e :: e in old(enemies) ==> e.health <= old(e.health)
    {
      Advance(dt, advance);
      Strike(dt, advance);
      Cleanup();
    }

    /** One frame of `loop`, without the drawing: the real time elapsed
        since the last frame, scaled by the game speed, drives one update
        unless the game is lost or won; a finished game stands still. */
    method Loop(elapsed: real, advance: Mover)
      requires Valid()
      modifies this, enemies, towers, Bodies(projectiles), Targets()
      ensures Valid()
      ensures towers == old(towers) && lives <= old(lives)
      ensures forall e :: e in old(enemies) ==> e.health <= old(e.health)
      ensures old(gameOver) ==> gameOver
      ensures old(gameWon) ==> gameWon
      ensures old(gameOver) || old(gameWon) ==>
                unchanged(old(enemies), old(towers), Bodies(old(projectiles))) &&
                enemies == old(enemies) && projectiles == old(projectiles) &&
                wave == old(wave) && candy == old(candy) && lives == old(lives) &&
                unchanged(this)
    {
      if !gameOver && !gameWon {
        Update(elapsed * gameSpeed, advance);
      }
    }
  }
}
