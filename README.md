# christmastd: the simulation and economy core, in Dafny

This project models the engine of the Christmas tower-defence game:
- Elves and Santa walk a fixed path.
- The player spends candy to place towers. A shop item names the kind (src/ui.js:24-29).
- The engine tells only traps from every other kind (src/entity.js:182-195, src/game.js:257). Traps lay single-use spikes; every other tower fires homing projectiles.
- The model's kinds are `Cane`, `Trap` and `Snowman`. A `Snowman` plays exactly as a cane; only the upgrade menu's cost table treats it differently (src/ui.js:117-136).
- A wave ends once its script is spent and the field is clear. The player earns candy for each wave and each kill.
- Lives are lost to enemies that reach the end. The game is won when Santa falls.

The model is organised after the source files:

- `geometry.dfy` (module `Geometry`) holds the plane and the path.
  - It covers points, squared distances, and the segment/circle test used when placing a tower (`circleLineIntersect`).
  - It scales the normalised path to the canvas (`getAbsoluteWaypoints`).
  - Distances are compared without a square root: `Within(q, b)` means `sqrt(q) <= b` and `Below(q, b)` means `sqrt(q) < b`.
- `entities.dfy` (module `Entities`) holds the actors of `src/entity.js` as classes with the fields the code updates in place.
  - The actors are `Enemy`, `Projectile`, `Spike` and `Tower`.
  - The shared projectile list holds both projectiles and spikes. A `Shot` value wraps either one; a `SpikeShot` is the `instanceof Spike` test.
- `waves.dfy` (module `Waves`) holds the `WAVES` table and the wave scheduler.
  - The scheduler is written as one pure step function over the five scheduler fields.
  - It also holds the spawn accounting.
- `game.dfy` (module `Session`) holds the `Game` object. It covers:
  - its commands: `startWave`, `tryPlaceTower`, `sellTower`, the canvas click and `isCollidingWithPath`;
  - one `update(dt)` tick, as its five phases in source order: spawn, enemy moves, tower fire, shot updates, then cleanup of the enemy and shot lists;
  - the `loop` guard that stops a finished game.
- `ui.dfy` (module `Ui`) holds the upgrade menu.
  - It has the cost table, and the lock and cap rules that decide which purchase buttons get a handler.
  - It has `tryUpgrade`.

Every state-changing operation is a method. Except for `Game.Update`, `Game.Strike`, `Game.Advance`, `Game.Cleanup` and `Game.Loop`, its `ensures` ties the new state to a pure function of the old state. Those five group the phases of a tick; they state the invariants and monotone facts the tick keeps, and each phase they call states its own full effect. The properties the game relies on are proved as lemmas about those functions, or as invariants the methods keep. Key results:

- **`Game.Valid`**, kept by every tick. It requires:
  - every enemy on the field is still walking toward a waypoint;
  - towers and shot objects are distinct;
  - towers have positive fire rates;
  - projectiles deal no negative damage;
  - during a wave, the scheduler has spawned exactly what its directives list so far.
- **The whole wave**: it spawns exactly its directives' enemies, in order (`WaveSpawnsAll`).
- **Targeting**: it picks the first enemy in range in list order (`FindTarget`).
- **Spikes**: a spike hits only the first enemy it touches.
- **Health changes** during a tick: each enemy loses exactly the sum of the hits aimed at it (`ResolveAll`, `Toll`).
- **Cleanup**: it costs one life per arrival and pays each kill's bounty once (`Reckon`).
- **The menu**: through it, no path level passes 10, and only the committed path ever rises. Candy plus investment is conserved (`ClicksCommitted`).

Enemy and projectile movement needs a square root to normalise the direction. That step is the parameter `advance: Mover`, which callers supply. The model states where things move (onto a waypoint, or by `advance`), not the trajectory.

## Model

| member | source | states |
|---|---|---|
| Geometry.Clamp01 | src/game.js:294 | the parameter is clamped into [0, 1] and left alone inside it |
| Geometry.ClosestParam | src/game.js:287-294 | the closest-point parameter lies in [0, 1]; a degenerate segment (zero length) measures from its first end |
| Geometry.CircleLineIntersect | src/game.js:286-299 | `circleLineIntersect`: the clamped projection of the centre onto the segment lies closer than r + 40 |
| Geometry.ClosestIsNearest | src/game.js:287-296 | on a segment of positive length, the clamped projection is the point of the segment nearest the centre |
| Geometry.CircleLineIntersectWitness | src/game.js:286-299 | on a segment of positive length, a hit happens exactly when some point of the segment lies closer than r + 40 to the centre; any hit has such a point; on a degenerate segment, a hit is exactly the first end being that close |
| Geometry.AbsoluteWaypoints | src/game.js:301-306 | the same number of waypoints, in order, each scaled by canvas width and height |
| Entities.JsIncrement | src/ui.js:202 | `+= 1` on a JavaScript number: a number grows by one; `undefined` or NaN gives NaN, and only a number gives a number |
| Entities.Enemy.constructor | src/entity.js:14-31 | starts on the first waypoint heading for the second, with the kind's speed and health scaled by the wave multiplier and its radius and bounty fixed by the kind alone; a positive multiplier gives positive health and speed |
| Entities.Enemy.Walked | src/entity.js:33-58 | a dead enemy is only marked; a live one moves on to the next waypoint exactly when its current one lies within `speed * slowFactor * dt`, and then stands exactly on it; otherwise it only takes the mover's step toward it, flags unchanged; `reachedEnd` is set exactly when the index reaches the end of the path, and marking happens exactly then (or when dead) |
| Entities.Enemy.Update | src/entity.js:33-58 | the enemy's position, index and flags become `Walked` of the old ones |
| Entities.Enemy.TakeDamage | src/entity.js:60-62 | health drops by exactly the amount, so a non-negative amount never heals |
| Entities.Projectile.constructor | src/entity.js:89-97 | position, target, damage and speed as given, radius 4, not marked |
| Entities.Projectile.Flew | src/entity.js:99-117 | a projectile whose target is gone or within reach marks itself where it stands; any other one takes the mover's step toward its target, mark unchanged |
| Entities.Projectile.Update | src/entity.js:99-117 | a projectile with no target, or a marked one, marks itself and deals nothing; one within reach deals its damage once and marks itself; otherwise it moves toward the target and the target is untouched |
| Entities.FirstContact | src/entity.js:143-159 | the index found is a position of the list |
| Entities.FirstContactSpec | src/entity.js:143-159 | the first enemy in list order strictly within the spike's radius plus its own; none exactly when no enemy is that close |
| Entities.Spike.constructor | src/entity.js:128-133 | radius 15, duration 10 s, not marked |
| Entities.Spike.Victim | src/entity.js:135-160 | a victim exists only while the spike has time left, and is one of the enemies |
| Entities.Spike.VictimSpec | src/entity.js:135-160 | the victim is the first enemy in list order that the spike touches; there is none when the spike has expired or touches nobody |
| Entities.Spike.Update | src/entity.js:135-161 | the duration drops by dt; the spike is marked when it expires or strikes; only the victim loses health, by 500 for Santa and 99999 otherwise |
| Entities.Tower.constructor | src/entity.js:180-196 | trap: cost 150, range 100, damage 0, rate 0.2; others: cost 50, range 150, damage 20, rate 1; invested = cost, levels [0, 0, 0], no path |
| Entities.Tower.FirstInRange | src/entity.js:226-236 | the index found is a position of the list |
| Entities.Tower.FirstInRangeSpec | src/entity.js:226-236 | the first enemy in list order within range; none exactly when no enemy is in range |
| Entities.Tower.Target | src/entity.js:226-236 | a target, when there is one, is one of the enemies |
| Entities.Tower.FindTarget | src/entity.js:226-236 | returns null exactly when no enemy is in range, else the first enemy in range in list order, never one after an earlier enemy in range |
| Entities.Tower.Fired | src/entity.js:198-224 | the cooldown runs down by dt; once spent with a target, exactly one shot of the tower's kind goes out at it and the cooldown restarts at 1/fireRate; otherwise nothing goes out |
| Entities.Tower.Shoot | src/entity.js:238-240 | a fresh projectile 10 above the tower, aimed at the target with the tower's damage and speed 300 |
| Entities.Tower.Update | src/entity.js:198-224 | the cooldown runs down by dt; when spent with a target, exactly one fresh shot goes out (a spike on the target for a trap, else a projectile) and the cooldown restarts at 1/fireRate; otherwise nothing goes out |
| Entities.Tower.SellValue | src/entity.js:242-244 | `floor(totalInvested / 2)`: twice the value is at most the investment and within 2 of it |
| Waves.Copies | src/game.js:341-346 | a burst spawns `count` enemies of its kind; a delay spawns none |
| Waves.ExpandedLength | src/game.js:341-350 | the enemies a list of directives spawns number the sum of their counts |
| Waves.Step | src/game.js:323-352 | the directive index advances by at most one; a tick spawns at most one enemy, of the current burst's kind, while it is short of its count; moving on resets the spawned count |
| Waves.DelayTiming | src/game.js:326-337 | entering a truthy delay loads it and counts it down on the same tick, moving on exactly when it is spent; each tick inside a running delay counts the timer down by dt and moves on exactly when it is spent, and otherwise stays in the delay; during a delay the burst timer stands and nothing spawns |
| Waves.LastSpawnWaits | src/game.js:339-351 | in a burst, a tick spawns exactly when the timer is spent and enemies are still to come; a spawn restarts the timer at the interval; the burst is left exactly when its timer is spent and all of its enemies are out; any other tick only runs the timer down |
| Waves.RestartAccounted | src/game.js:237-241 | the restarted scheduler has spawned nothing and is consistent |
| Waves.StepAccounted | src/game.js:322-356 | every step keeps the bookkeeping and adds to the spawn log exactly the enemy it spawned |
| Waves.RunAccounted | src/game.js:322-356 | any run of ticks keeps the bookkeeping, appending exactly what it spawns |
| Waves.WaveSpawnsAll | src/game.js:322-356 | a wave followed to its end spawns exactly its directives' enemies, in order, as many as the counts add up to |
| Waves.FirstWaveTotal | src/game.js:8-15 | the first wave spawns 15 enemies |
| Waves.SantaOnlyInLastWave | src/game.js:5-88 | waves 1 to 9 hold only elves; the last wave's third directive is a burst of exactly one Santa, and every other burst of it is elves |
| Session.PlacementCost | src/game.js:257 | the placement price is the tower kind's base cost, and positive |
| Session.ClickedTower | src/game.js:203-207 | the first tower in list order whose footprint holds the point; none exactly when no tower's does |
| Session.Without | src/game.js:250 | the filtered list holds exactly the other towers |
| Session.WithoutRemovesOne | src/game.js:250 | in a list without repeats, filtering out a member removes exactly its position |
| Session.WithoutDistinct | src/game.js:250 | filtering keeps a list free of repeats |
| Session.WithoutAbsent | src/game.js:250 | filtering out a tower not on the list changes nothing |
| Session.Live | src/game.js:393 | the kept shots are exactly the unmarked ones |
| Session.LiveDistinct | src/game.js:393 | filtering keeps shot objects distinct |
| Session.Reckon | src/game.js:374-391 | the cleanup filter over a list, enemy by enemy in order, as `Judge` decides each one |
| Session.Judge | src/game.js:375-390 | one enemy: an arrival costs a life, whatever its health; otherwise no health pays its value, and Santa wins; otherwise it stays |
| Session.ReckonSound | src/game.js:374-391 | survivors are exactly the enemies neither at the end nor dead; lives lost and survivors together never exceed the list; no arrivals means no lives lost; Santa counts as slain only if a dead Santa was on the list |
| Session.ReckonAppend | src/game.js:374-391 | the filter treats each enemy on its own: reckoning a concatenation adds up the two reckonings, survivors in order |
| Session.ReckonDistinct | src/game.js:374-391 | survivors of a list without repeats have none |
| Session.SurvivorsWalking | src/game.js:374-391 | after the enemy moves, the survivors are distinct and all still heading for a waypoint |
| Session.ReckonOne | src/game.js:375-390 | an arrival costs one life and pays nothing; a dead enemy pays its value, and a dead Santa wins; any other enemy stays |
| Session.Before | src/game.js:365-371 | the snapshot of a shot is of the shot's own kind; a spike's victim is one of the enemies |
| Session.Hit | src/game.js:365-371 | a shot damages only the enemy it is aimed at, or a spike its victim |
| Session.TollNonNegative | src/game.js:365-371 | with no negative damage, the shots of a tick never heal anyone |
| Session.TollUntouched | src/game.js:365-371 | an enemy no projectile aims at and no spike hits loses nothing |
| Session.Resolve | src/game.js:366-370 | one shot takes its update (spike with the enemy list, projectile alone): its state becomes `After` of its snapshot, the state its update leads to, its damage goes to its victim, and no other shot changes |
| Session.ResolveAll | src/game.js:365-371 | every shot ends in the state its own update gives, and each enemy loses exactly the sum of the hits aimed at it |
| Session.FireAll | src/game.js:362 | each tower, in list order, fires as `Tower.update` says on the enemies of the tick, into fresh and distinct shots |
| Session.Game.constructor | src/game.js:91-151 | wave 1, 300 candy, 50 lives, empty lists, speed 1, no wave running; the game is consistent |
| Session.Game.StartWave | src/game.js:225-245 | during a wave it only toggles the speed between 1 and 3; after the last wave it does nothing; otherwise it loads the wave's script, resets the scheduler and sets speed 1 |
| Session.Game.WaveComplete | src/game.js:396-404 | pays 100 + 20 * wave and moves to the next wave once; a second call does nothing |
| Session.Game.AdvanceSchedule | src/game.js:323-352 | applies one scheduler step; a spawn appends one fresh enemy of the directive's kind on the current path, with the wave's speed and health multiplier |
| Session.Game.SpawnPhase | src/game.js:322-356 | runs the scheduler while directives remain: a spawn appends exactly one fresh enemy of the spawned kind on the path, with speed and health scaled by the wave multiplier, and logs it, while a tick without a spawn leaves the field and the log alone; once the directives are spent and the field is empty, completes the wave (flag set, reward paid, next wave); no wave running leaves everything alone |
| Session.Game.IsCollidingWithPath | src/game.js:274-284 | true exactly when some consecutive pair of path waypoints makes a hit |
| Session.Game.PlacementDone | src/game.js:256-272 | a placement is refused, with nothing changed, for want of candy, on the path or too close to a tower; otherwise a fresh tower of the chosen kind stands at the mouse at the end of the list, as the constructor builds it (the kind's range, damage and fire rate, zero cooldown, levels [0, 0, 0], no path, invested = cost), and its cost is charged |
| Session.Game.TryPlaceTower | src/game.js:256-272 | without the price, on the path or too close to a tower, nothing changes; otherwise a fresh tower is appended at the mouse, the price is paid and placement mode ends |
| Session.Game.SellTower | src/game.js:247-254 | null does nothing; otherwise half the investment, rounded down, is refunded, the tower is removed from its place in the list and the selection is cleared |
| Session.Game.Click | src/game.js:197-217 | a finished game ignores clicks; in placement mode a click tries a placement; otherwise it selects the first tower under the mouse, or clears the selection |
| Session.Game.MoveEnemies | src/game.js:359 | every enemy takes its `update(dt)`; afterwards each is on its way or exactly at the end |
| Session.Game.FireTowers | src/game.js:362 | every tower fires as `Tower.update` says; the fresh shots are appended in tower order, aimed at enemies of the field |
| Session.Game.SweepEnemies | src/game.js:374-391 | the enemy list becomes the survivors; lives drop by the arrivals; candy grows by the bounties; a slain Santa wins; lives at or below zero after an arrival lose the game |
| Session.Game.DropSpent | src/game.js:393 | the shot list keeps exactly its unmarked shots, in order |
| Session.Game.Strike | src/game.js:361-371 | tower fire followed by every shot's update keeps towers and shots consistent; no enemy on the field or aimed at gains health |
| Session.Game.Advance | src/game.js:321-359 | spawning and enemy moves keep the wave bookkeeping; every enemy is on its way or at the end; the wave number moves by at most one |
| Session.Game.Cleanup | src/game.js:373-393 | after both filters every enemy is walking and shots are distinct; lives only drop; loss and win stay |
| Session.Game.Update | src/game.js:320-394 | one tick keeps the game consistent and the same towers; no enemy that was on the field gains health; lives only drop; loss and win are permanent; the wave number moves by at most one |
| Session.Game.Loop | src/game.js:312-314 | a lost or won game stands still: no field of the game and no enemy, tower or shot changes; otherwise the frame keeps what an update keeps: the game consistent, the same towers, no enemy healed, lives only dropping, loss and win lasting |
| Ui.UpgradeUnit | src/ui.js:117-136 | 100 for a trap's spike path and every snowman path, 50 for all others |
| Ui.UpgradeCost | src/ui.js:117-136 | the price of the next level is at least one unit, and positive |
| Ui.CostStep | src/ui.js:117-136 | prices on a path grow by one unit per level |
| Ui.Upgraded | src/ui.js:182-215 | nothing changes on a maxed path or without the candy; otherwise the cost moves from candy into investment; the path rises one level and the others stay; the first purchase commits the path; exactly the path's stat improves; tower invariants are kept |
| Ui.Clicked | src/ui.js:156-176 | a locked or maxed path has no handler and changes nothing; from a state the menu keeps, a click keeps it (no level above 10, no level off the chosen path), keeps candy plus investment, and keeps a chosen path |
| Ui.ClicksCommitted | src/ui.js:156-176 | over any sequence of menu clicks: no level passes 10, only the committed path rises, the path never changes, what is spent is invested |
| Ui.BuiltCommitted | src/entity.js:192-193 | a newly built tower satisfies the menu invariant |
| Ui.UIManager.constructor | src/ui.js:3-4 | the manager holds its game |
| Ui.UIManager.TryUpgrade | src/ui.js:182-215 | game candy and tower fields become `Upgraded` of the old ones; tower invariants are kept |
| Ui.UIManager.Choose | src/ui.js:156-176 | a button click has the effect `Clicked` describes |

## Left out

- Drawing is not modelled: `draw`, the canvas, `resize`, images and `loadAssets`, the HUD and menu DOM writes (`updateStats`, `showUpgradeMenu`, `hideUpgradeMenu`), and the screens shown by `triggerGameOver` and `triggerWin`. Only the `gameOver` and `gameWon` flags are kept.
- Input plumbing is not modelled:
  - `setupInput`'s mousemove handler, so `mouseX`/`mouseY` are plain fields;
  - the context-menu handler that clears `placingTower`;
  - `bindEvents`' shop and start-wave buttons, which only call `startWave` or set `placingTower`;
  - `start`, `requestAnimationFrame` and `performance.now`.
- Enemy.Walked and Projectile.Update: the move that normalises `(dx, dy)` by a square root is the parameter `advance`. Trajectories are not modelled, only where things land.
- Game.Loop: the real delta computed from timestamps is an input. It is the elapsed time given to the frame.
- Game.Loop: the contract does not say that a running game is advanced by exactly one `update(elapsed * gameSpeed)`. A contract cannot name a method's effect, and `Update` states only invariants and monotone facts. So `Loop` promises what `Update` promises, not the time it passes.
- Reals are exact. IEEE rounding of `1 / fireRate`, `* 1.2` and `* 1.15` is not modelled. Candy and lives only ever change by integers in this code, so they are `int`s.
- Game.Update: states the consistency of the game and monotone facts only, not the full new state. Each phase (`SpawnPhase`, `MoveEnemies`, `FireTowers`, `ResolveAll`, `SweepEnemies`, `DropSpent`) states its own full effect.
- Game.Strike, Game.Advance and Game.Cleanup: these only group the phases for `Update`. Their contracts carry what `Update` needs, not each phase's full effect.
- Tower.Update: the emitted projectile's position is stated by `Pristine`, and the spike's position by `Issued`. Nothing is said about the later flight.
- The unused fields `frozen`, `color`, `slow` and `image` and the `Entity` base class are not modelled. `level` is kept as a constant 1, which nothing reads.
- Geometry.CircleLineIntersectWitness: on a degenerate segment (zero squared length) the lemma states the test against the first end. It does not prove that both ends then coincide; that needs `a * a == 0 ==> a == 0`, which the solver used here cannot close.

## Fidelity notes

In the places below, the code does something other than what its own names and comments suggest. The model follows the code.

- **Spike placement.** The comment on the trap branch speaks of placing the spike near the enemy, but the code lays it exactly at the target's current position (src/entity.js:213). There is no offset and no choice of spot. No spike capacity is checked: `maxActiveSpikes` is never initialised and never read. The spike-path upgrade therefore turns it from `undefined` into NaN (`JsIncrement`).
- **Spikes and dead enemies.** The collision loop looks at every enemy and does not skip dead ones. It strikes the first enemy it touches in list order, dead or not, and is used up on it.
- **Cleanup order.** Cleanup tests arrival before death. An enemy that arrives with no health costs a life and pays no bounty.
- **Upgrade lock.** The single-path lock lives only in the menu's button wiring. `tryUpgrade` itself checks only the level cap and the price (`Upgraded` versus `Clicked`).
- **Projectiles whose target was removed.** A projectile discards itself only when its target is missing or marked. An enemy killed during the shot phase is removed by cleanup on the same tick, and its `update` (which would mark it) never runs. So projectiles aimed at it keep homing on the detached object, and they are dropped when they reach it (`Projectile.Update`, `Before`).
- **Zero delays.** A directive whose `delay` is 0 is not truthy. It takes the burst branch with no count and moves on when the burst timer is spent (`IsDelay`, `Step`).
