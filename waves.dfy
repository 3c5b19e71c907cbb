/** The scripted waves and the scheduler that turns a wave's directives into
    spawns, one simulation tick at a time (the `WAVES` table and the
    spawning half of `update` in src/game.js). The scheduler is a pure step
    function over the five scheduler fields; the game applies it in place. */
module Waves {
  import opened Entities

  /** One entry of a wave: spawn `count` enemies `interval` seconds apart,
      or wait `delay` seconds. */
  datatype Directive = Burst(count: nat, interval: real, kind: EnemyKind) | Delay(delay: real)

  /** The directive's `count`; a delay has none, and a number compared with
      JavaScript's `undefined` is never smaller. */
  function CountOf(d: Directive): nat
  {
    if d.Burst? then d.count else 0
  }

  /** `burst.delay` is truthy: a delay directive whose delay is not zero.
      A zero delay is handled as a burst with nothing to spawn. */
  predicate IsDelay(d: Directive)
  {
    d.Delay? && d.delay != 0.0
  }

  /** The enemies one directive spawns, in order. */
  function Copies(d: Directive): (r: seq<EnemyKind>)
    ensures |r| == CountOf(d)
    ensures forall i :: 0 <= i < |r| ==> r[i] == d.kind
  {
    if d.Burst? then seq(d.count, _ => d.kind) else []
  }

  /** The enemies a list of directives spawns, in order. */
  function Expanded(ds: seq<Directive>): seq<EnemyKind>
  {
    if |ds| == 0 then [] else Expanded(ds[..|ds| - 1]) + Copies(ds[|ds| - 1])
  }

  /** The sum of the directives' counts. */
  function SumCounts(ds: seq<Directive>): nat
  {
    if |ds| == 0 then 0 else SumCounts(ds[..|ds| - 1]) + CountOf(ds[|ds| - 1])
  }

  lemma {:induction false} ExpandedLength(ds: seq<Directive>)
    ensures |Expanded(ds)| == SumCounts(ds)
    decreases |ds|
  {
    if |ds| > 0 {
      ExpandedLength(ds[..|ds| - 1]);
    }
  }

  const WAVE_1: seq<Directive> := [Burst(10, 1.0, Elf), Delay(3.0), Burst(5, 0.8, Elf)]
  const WAVE_2: seq<Directive> := [Burst(15, 1.0, Elf), Delay(4.0), Burst(15, 0.8, Elf)]
  const WAVE_3: seq<Directive> :=
    [Burst(5, 0.5, Elf), Burst(5, 0.5, Elf), Delay(2.0), Burst(20, 0.8, Elf), Delay(2.0),
     Burst(10, 0.5, Elf)]
  const WAVE_4: seq<Directive> := [Burst(60, 0.6, Elf)]
  const WAVE_5: seq<Directive> :=
    [Burst(30, 0.5, Elf), Delay(5.0), Burst(30, 0.5, Elf), Delay(2.0), Burst(10, 0.3, Elf)]
  const WAVE_6: seq<Directive> := [Burst(80, 0.4, Elf)]
  const WAVE_7: seq<Directive> :=
    [Burst(20, 0.3, Elf), Delay(2.0), Burst(40, 0.6, Elf), Delay(2.0), Burst(20, 0.3, Elf)]
  const WAVE_8: seq<Directive> := [Burst(100, 0.4, Elf)]
  const WAVE_9: seq<Directive> := [Burst(50, 0.3, Elf), Delay(5.0), Burst(50, 0.3, Elf)]
  /** The boss wave: Santa comes after twenty elves and a pause. */
  const WAVE_10: seq<Directive> :=
    [Burst(20, 0.4, Elf), Delay(3.0), Burst(1, 1.0, Santa), Delay(5.0), Burst(30, 0.5, Elf)]

  /** The ten waves, in order. */
  const WAVES: seq<seq<Directive>> :=
    [WAVE_1, WAVE_2, WAVE_3, WAVE_4, WAVE_5, WAVE_6, WAVE_7, WAVE_8, WAVE_9, WAVE_10]

  /** The scheduler fields of the game: the current directive, how many of
      its enemies are out, and the two timers. */
  datatype Scheduler = Scheduler(
    burstIndex: nat,
    spawned: nat,
    burstTimer: real,
    delayTimer: real,
    processingDelay: bool)

  /** The scheduler as `startWave` leaves it. */
  const Restart := Scheduler(0, 0, 0.0, 0.0, false)

  /** One scheduler step: the next state and the enemy spawned, if any. */
  datatype Tick = Tick(next: Scheduler, spawn: Option<EnemyKind>)

  /** One tick of the spawning half of `update` while the current directive
      exists. Entering a delay loads its timer and counts it down on the
      same tick. A burst runs its own timer down; when that is spent it
      spawns the next enemy and restarts the timer at the interval, or,
      with every enemy out, moves on to the next directive. The burst
      timer is left as it is across a delay. */
  function Step(bursts: seq<Directive>, s: Scheduler, dt: real): (t: Tick)
    requires s.burstIndex < |bursts|
    ensures t.next.burstIndex == s.burstIndex || t.next.burstIndex == s.burstIndex + 1
    ensures t.spawn.Some? ==>
              t.next.burstIndex == s.burstIndex && t.next.spawned == s.spawned + 1 &&
              s.spawned < CountOf(bursts[s.burstIndex]) &&
              t.spawn.value == bursts[s.burstIndex].kind
    ensures t.next.burstIndex == s.burstIndex + 1 ==> t.spawn.None? && t.next.spawned == 0
  {
    var b := bursts[s.burstIndex];
    var s1 := if IsDelay(b) && !s.processingDelay
      then s.(processingDelay := true, delayTimer := b.delay)
      else s;
    if s1.processingDelay then
      var timer := s1.delayTimer - dt;
      if timer <= 0.0 then
        Tick(s1.(delayTimer := timer, processingDelay := false,
                 burstIndex := s1.burstIndex + 1, spawned := 0), None)
      else
        Tick(s1.(delayTimer := timer), None)
    else
      var timer := s1.burstTimer - dt;
      if timer <= 0.0 then
        if s1.spawned < CountOf(b) then
          Tick(s1.(spawned := s1.spawned + 1, burstTimer := b.interval), Some(b.kind))
        else
          Tick(s1.(burstTimer := timer, burstIndex := s1.burstIndex + 1, spawned := 0), None)
      else
        Tick(s1.(burstTimer := timer), None)
  }

  /** Timing of a delay: the tick that enters it loads the delay and counts
      it down at once; each tick inside a running delay counts its timer
      down by dt and moves on to the next directive exactly when the timer
      is spent; the burst timer is not touched while it runs. */
  lemma DelayTiming(bursts: seq<Directive>, s: Scheduler, dt: real)
    requires s.burstIndex < |bursts|
    ensures var b := bursts[s.burstIndex];
            var t := Step(bursts, s, dt);
            IsDelay(b) && !s.processingDelay ==>
              t.next.delayTimer == b.delay - dt &&
              (t.next.burstIndex == s.burstIndex + 1 <==> b.delay - dt <= 0.0)
    ensures var t := Step(bursts, s, dt);
            s.processingDelay ==>
              t.next.delayTimer == s.delayTimer - dt &&
              (t.next.burstIndex == s.burstIndex + 1 <==> s.delayTimer - dt <= 0.0) &&
              (t.next.burstIndex == s.burstIndex ==> t.next.processingDelay)
    ensures s.processingDelay || IsDelay(bursts[s.burstIndex]) ==>
              Step(bursts, s, dt).next.burstTimer == s.burstTimer &&
              Step(bursts, s, dt).spawn.None?
  {
  }

  /** Timing of a burst: a tick spawns exactly when the burst timer is
      spent and enemies of the burst are still to come; the tick that
      spawns its last enemy restarts the timer at the interval instead of
      moving on, so the next directive is reached only on a later tick
      whose countdown spends that interval; any other tick only runs the
      timer down. */
  lemma LastSpawnWaits(bursts: seq<Directive>, s: Scheduler, dt: real)
    requires s.burstIndex < |bursts| && !s.processingDelay
    requires !IsDelay(bursts[s.burstIndex])
    ensures var t := Step(bursts, s, dt);
            t.spawn.Some? ==>
              t.next.burstTimer == bursts[s.burstIndex].interval &&
              t.next.burstIndex == s.burstIndex
    ensures Step(bursts, s, dt).spawn.Some? <==>
              s.burstTimer - dt <= 0.0 && s.spawned < CountOf(bursts[s.burstIndex])
    ensures var t := Step(bursts, s, dt);
            t.spawn.None? && t.next.burstIndex == s.burstIndex ==>
              t.next.burstTimer == s.burstTimer - dt && t.next.spawned == s.spawned
    ensures var t := Step(bursts, s, dt);
            t.next.burstIndex == s.burstIndex + 1 <==>
              s.burstTimer - dt <= 0.0 && s.spawned >= CountOf(bursts[s.burstIndex])
  {
  }

  /** The enemies spawned so far from a given scheduler state: all of the
      directives before the current one, then the first `spawned` of it. */
  function SoFar(bursts: seq<Directive>, s: Scheduler): seq<EnemyKind>
    requires s.burstIndex <= |bursts|
    requires s.burstIndex < |bursts| ==> s.spawned <= CountOf(bursts[s.burstIndex])
  {
    Expanded(bursts[..s.burstIndex]) +
      (if s.burstIndex < |bursts| then Copies(bursts[s.burstIndex])[..s.spawned] else [])
  }

  /** The scheduler's bookkeeping is consistent and `log` holds exactly the
      enemies spawned so far, in order. */
  ghost predicate Accounted(bursts: seq<Directive>, s: Scheduler, log: seq<EnemyKind>)
  {
    s.burstIndex <= |bursts| &&
    (s.burstIndex < |bursts| ==> s.spawned <= CountOf(bursts[s.burstIndex])) &&
    (s.processingDelay ==> s.burstIndex < |bursts| && IsDelay(bursts[s.burstIndex])) &&
    log == SoFar(bursts, s)
  }

  lemma RestartAccounted(bursts: seq<Directive>)
    ensures Accounted(bursts, Restart, [])
  {
    assert bursts[..0] == [];
  }

  lemma ExpandedSnoc(ds: seq<Directive>, i: nat)
    requires i < |ds|
    ensures Expanded(ds[..i + 1]) == Expanded(ds[..i]) + Copies(ds[i])
  {
    assert ds[..i + 1][..i] == ds[..i];
  }

  /** Every step keeps the bookkeeping, appending to the log exactly the
      enemy it spawns. */
  lemma StepAccounted(bursts: seq<Directive>, s: Scheduler, dt: real, log: seq<EnemyKind>)
    requires s.burstIndex < |bursts| && Accounted(bursts, s, log)
    ensures var t := Step(bursts, s, dt);
            Accounted(bursts, t.next, log + (if t.spawn.Some? then [t.spawn.value] else []))
  {
    var t := Step(bursts, s, dt);
    var i := s.burstIndex;
    var b := bursts[i];
    var c := Copies(b);
    if t.spawn.Some? {
      assert c[..s.spawned + 1] == c[..s.spawned] + [c[s.spawned]];
    } else if t.next.burstIndex == i + 1 {
      assert s.spawned == CountOf(b);
      assert c[..s.spawned] == c;
      ExpandedSnoc(bursts, i);
      if i + 1 < |bursts| {
        assert Copies(bursts[i + 1])[..0] == [];
      }
    }
  }

  /** The schedule followed for a sequence of tick lengths, stopping once
      every directive is done (the game then waits for the field to clear). */
  datatype Outcome = Outcome(last: Scheduler, spawns: seq<EnemyKind>)

  function Run(bursts: seq<Directive>, s: Scheduler, dts: seq<real>): Outcome
    decreases |dts|
  {
    if |dts| == 0 || s.burstIndex >= |bursts| then Outcome(s, [])
    else
      var t := Step(bursts, s, dts[0]);
      var rest := Run(bursts, t.next, dts[1..]);
      Outcome(rest.last, (if t.spawn.Some? then [t.spawn.value] else []) + rest.spawns)
  }

  lemma {:induction false} RunAccounted(bursts: seq<Directive>, s: Scheduler, dts: seq<real>, log: seq<EnemyKind>)
    requires Accounted(bursts, s, log)
    ensures Accounted(bursts, Run(bursts, s, dts).last, log + Run(bursts, s, dts).spawns)
    decreases |dts|
  {
    if |dts| > 0 && s.burstIndex < |bursts| {
      var t := Step(bursts, s, dts[0]);
      var one := if t.spawn.Some? then [t.spawn.value] else [];
      StepAccounted(bursts, s, dts[0], log);
      RunAccounted(bursts, t.next, dts[1..], log + one);
      assert log + one + Run(bursts, t.next, dts[1..]).spawns == log + Run(bursts, s, dts).spawns;
    }
  }

  /** Over a whole wave, started afresh and followed until its last
      directive is done, the enemies spawned are exactly those its
      directives list, in order; so their number is the sum of the counts. */
  lemma WaveSpawnsAll(bursts: seq<Directive>, dts: seq<real>)
    requires Run(bursts, Restart, dts).last.burstIndex >= |bursts|
    ensures Run(bursts, Restart, dts).spawns == Expanded(bursts)
    ensures |Run(bursts, Restart, dts).spawns| == SumCounts(bursts)
  {
    RestartAccounted(bursts);
    RunAccounted(bursts, Restart, dts, []);
    var o := Run(bursts, Restart, dts);
    assert o.last.burstIndex == |bursts|;
    assert bursts[..|bursts|] == bursts;
    assert [] + o.spawns == o.spawns;
    ExpandedLength(bursts);
  }

  /** The first wave is ten elves, a pause, then five more: fifteen in all. */
  lemma FirstWaveTotal()
    ensures SumCounts(WAVES[0]) == 15
  {
    var w := WAVE_1;
    assert w[..1][..0] == [];
    assert SumCounts(w[..1]) == 10;
    assert w[..2][..1] == w[..1];
    assert SumCounts(w[..2]) == 10;
    assert w[..3][..2] == w[..2];
    assert w[..3] == w;
  }

  /** Santa arrives once, in the last wave, and nowhere else. */
  lemma SantaOnlyInLastWave()
    ensures forall w :: 0 <= w < 9 ==>
              forall i :: 0 <= i < |WAVES[w]| ==> (WAVES[w][i].Burst? ==> WAVES[w][i].kind == Elf)
    ensures WAVES[9][2] == Burst(1, 1.0, Santa)
    ensures forall i :: 0 <= i < |WAVES[9]| && i != 2 ==> (WAVES[9][i].Burst? ==> WAVES[9][i].kind == Elf)
  {
  }
}
