/** The upgrade menu of the user interface: the cost of the next level on
    each path, the lock and cap rules that decide which purchase buttons
    are live, and `tryUpgrade`, which spends candy on one path of one
    tower. The menu's drawing is not modelled. */
module Ui {
  import opened Entities
  import opened Session

  /** The price of a path's first level; each later level costs one more
      unit (`cost: unit * (level + 1)`). A trap's spike path costs 100 and
      its other two 50, every snowman path 100, every cane path 50. */
  function UpgradeUnit(kind: TowerKind, pathId: nat): (u: int)
    ensures u == 50 || u == 100
    ensures u == 100 <==> kind == Snowman || (kind == Trap && pathId == 1)
  {
    match kind
    case Trap => if pathId == 1 then 100 else 50
    case Snowman => 100
    case Cane => 50
  }

  /** The price the menu shows for the level after `level`. */
  function UpgradeCost(kind: TowerKind, pathId: nat, level: nat): (c: int)
    ensures c >= UpgradeUnit(kind, pathId) > 0
  {
    UpgradeUnit(kind, pathId) * (level + 1)
  }

  /** Successive levels on a path grow in price by one unit each. */
  lemma CostStep(kind: TowerKind, pathId: nat, level: nat)
    ensures UpgradeCost(kind, pathId, level + 1) == UpgradeCost(kind, pathId, level) + UpgradeUnit(kind, pathId)
  {
    var u := UpgradeUnit(kind, pathId);
    assert u * (level + 2) == u * (level + 1) + u;
  }

  /** What an upgrade reads and writes: the player's candy, and the
      tower's investment, chosen path, three path levels and stats. */
  datatype Kit = Kit(candy: int, invested: int, path: Option<nat>, levels: seq<nat>,
                     fireRate: real, damage: real, range: real, spikes: JsNumber)

  /** The invariant of every tower (`Tower.Valid`), on a kit. */
  predicate Sane(k: Kit)
  {
    k.fireRate > 0.0 && k.range >= 0.0 && k.damage >= 0.0 && |k.levels| == 3
  }

  /** `tryUpgrade(tower, pathId, cost)`. A path at level 10 or more, or a
      price the player cannot pay, changes nothing. Otherwise the price
      moves from the candy into the tower's investment, the path goes up
      one level and the others stay, the first purchase commits the tower
      to its path, and exactly one stat improves: path 0 the fire rate by
      20%, path 2 the range by 15%, path 1 the damage by 20% or, on a trap,
      `maxActiveSpikes` by one. */
  function Upgraded(kind: TowerKind, k: Kit, pathId: nat, cost: int): (r: Kit)
    requires |k.levels| == 3 && pathId < 3
    ensures |r.levels| == 3
    ensures r.candy + r.invested == k.candy + k.invested
    ensures Sane(k) ==> Sane(r)
    ensures k.path.Some? ==> r.path == k.path
    ensures k.levels[pathId] >= 10 || k.candy < cost ==> r == k
    ensures k.levels[pathId] < 10 && k.candy >= cost ==>
              r.candy == k.candy - cost && r.candy >= 0 && r.invested == k.invested + cost &&
              r.levels[pathId] == k.levels[pathId] + 1 &&
              (forall i :: 0 <= i < 3 && i != pathId ==> r.levels[i] == k.levels[i]) &&
              r.path == (if k.path.None? then Some(pathId) else k.path)
    ensures k.levels[pathId] < 10 && k.candy >= cost ==>
              (pathId == 0 ==>
                 r.fireRate == k.fireRate * 1.2 &&
                 r.damage == k.damage && r.range == k.range && r.spikes == k.spikes) &&
              (pathId == 1 && kind == Trap ==>
                 r.spikes == JsIncrement(k.spikes) &&
                 r.fireRate == k.fireRate && r.damage == k.damage && r.range == k.range) &&
              (pathId == 1 && kind != Trap ==>
                 r.damage == k.damage * 1.2 &&
                 r.fireRate == k.fireRate && r.range == k.range && r.spikes == k.spikes) &&
              (pathId == 2 ==>
                 r.range == k.range * 1.15 &&
                 r.fireRate == k.fireRate && r.damage == k.damage && r.spikes == k.spikes)
  {
    if k.levels[pathId] >= 10 || k.candy < cost then k
    else
      Kit(k.candy - cost, k.invested + cost,
          if k.path.None? then Some(pathId) else k.path,
          k.levels[pathId := k.levels[pathId] + 1],
          if pathId == 0 then k.fireRate * 1.2 else k.fireRate,
          if kind != Trap && pathId == 1 then k.damage * 1.2 else k.damage,
          if pathId == 2 then k.range * 1.15 else k.range,
          if kind == Trap && pathId == 1 then JsIncrement(k.spikes) else k.spikes)
  }

  /** Once a tower has a path, the menu locks the other two. */
  predicate Locked(k: Kit, pathId: nat)
  {
    k.path.Some? && k.path.value != pathId
  }

  /** A path at level 10 or more is shown as maxed and has no button. */
  predicate Maxed(k: Kit, pathId: nat)
    requires pathId < |k.levels|
  {
    k.levels[pathId] >= 10
  }

  /** A click on the menu's button for a path: a locked or maxed path has
      no handler, any other buys the next level at the price shown. From
      the state the menu keeps, a click keeps it, never changes the candy
      plus the investment, and keeps a chosen path; so a level never passes
      10 and no path but the chosen one ever rises. */
  function Clicked(kind: TowerKind, k: Kit, pathId: nat): (r: Kit)
    requires |k.levels| == 3 && pathId < 3
    ensures |r.levels| == 3
    ensures Locked(k, pathId) || Maxed(k, pathId) ==> r == k
    ensures Committed(k) ==>
              Committed(r) && r.candy + r.invested == k.candy + k.invested &&
              (k.path.Some? ==> r.path == k.path)
  {
    if Locked(k, pathId) || Maxed(k, pathId) then k
    else
      var r := Upgraded(kind, k, pathId, UpgradeCost(kind, pathId, k.levels[pathId]));
      assert Committed(k) && r != k ==> r.levels[pathId] == k.levels[pathId] + 1 <= 10 && r.path == Some(pathId);
      r
  }

  /** The state the menu keeps: no level above 10, no level at all before a
      path is chosen, and none off the chosen path after. */
  predicate Committed(k: Kit)
  {
    |k.levels| == 3 && (forall i :: 0 <= i < 3 ==> k.levels[i] <= 10) &&
    (k.path.None? ==> forall i :: 0 <= i < 3 ==> k.levels[i] == 0) &&
    (k.path.Some? ==> k.path.value < 3 && forall i :: 0 <= i < 3 && i != k.path.value ==> k.levels[i] == 0)
  }

  /** Clicks on the menu, in order. */
  function Clicks(kind: TowerKind, k: Kit, ps: seq<nat>): (r: Kit)
    requires |k.levels| == 3 && forall i :: 0 <= i < |ps| ==> ps[i] < 3
    ensures |r.levels| == 3
    decreases |ps|
  {
    if |ps| == 0 then k else Clicks(kind, Clicked(kind, k, ps[0]), ps[1..])
  }

  /** However the menu is used, starting from a state it keeps: no level
      passes 10, only the committed path ever rises, a chosen path is
      never changed, and what the player spends is what the tower gains
      in investment. */
  lemma {:induction false} ClicksCommitted(kind: TowerKind, k: Kit, ps: seq<nat>)
    requires Committed(k) && forall i :: 0 <= i < |ps| ==> ps[i] < 3
    ensures var r := Clicks(kind, k, ps);
            Committed(r) && r.candy + r.invested == k.candy + k.invested &&
            (k.path.Some? ==> r.path == k.path)
    decreases |ps|
  {
    if |ps| > 0 {
      ClicksCommitted(kind, Clicked(kind, k, ps[0]), ps[1..]);
    }
  }

  /** A tower as built has levels [0, 0, 0] and no path, which the menu's
      state admits: so every tower lives by the rules above. */
  lemma BuiltCommitted(k: Kit)
    requires k.levels == [0, 0, 0] && k.path.None?
    ensures Committed(k)
  {
    assert forall i :: 0 <= i < 3 ==> k.levels[i] == 0;
  }

  class UIManager {
    const game: Game

    constructor (game: Game)
      ensures this.game == game
    {
      this.game := game;
    }

    /** The part of the game and of the tower that an upgrade involves. */
    function KitOf(t: Tower): Kit
      reads game`candy, t`totalInvested, t`upgradePath, t`upgrades
      reads t`fireRate, t`damage, t`range, t`maxActiveSpikes
    {
      Kit(game.candy, t.totalInvested, t.upgradePath, t.upgrades,
          t.fireRate, t.damage, t.range, t.maxActiveSpikes)
    }

    /** `tryUpgrade(tower, pathId, cost)`, without the redraw of the HUD
        and the menu. */
    method TryUpgrade(tower: Tower, pathId: nat, cost: int)
      requires tower.Valid() && pathId < 3
      modifies game`candy, tower`totalInvested, tower`upgradePath, tower`upgrades
      modifies tower`fireRate, tower`damage, tower`range, tower`maxActiveSpikes
      ensures tower.Valid()
      ensures KitOf(tower) == Upgraded(tower.kind, old(KitOf(tower)), pathId, cost)
    {
      if tower.upgrades[pathId] >= 10 {
        return;
      }
      if game.candy >= cost {
        var rate, damage, range, spikes := tower.fireRate, tower.damage, tower.range, tower.maxActiveSpikes;
        if pathId == 0 {
          rate := rate * 1.2;
        }
        if tower.kind == Trap {
          if pathId == 1 {
            spikes := JsIncrement(spikes);
          }
        } else {
          if pathId == 1 {
            damage := damage * 1.2;
          }
        }
        if pathId == 2 {
          range := range * 1.15;
        }
        game.candy := game.candy - cost;
        tower.totalInvested := tower.totalInvested + cost;
        if tower.upgradePath == None {
          tower.upgradePath := Some(pathId);
        }
        tower.upgrades := tower.upgrades[pathId := tower.upgrades[pathId] + 1];
        tower.fireRate, tower.damage, tower.range, tower.maxActiveSpikes := rate, damage, range, spikes;
      }
    }

    /** A click on a path's button in `renderUpgrades`: only a path that
        is neither locked nor maxed has a handler, and it passes the price
        the menu shows for the next level. */
    method Choose(tower: Tower, pathId: nat)
      requires tower.Valid() && pathId < 3
      modifies game`candy, tower`totalInvested, tower`upgradePath, tower`upgrades
      modifies tower`fireRate, tower`damage, tower`range, tower`maxActiveSpikes
      ensures tower.Valid()
      ensures KitOf(tower) == Clicked(tower.kind, old(KitOf(tower)), pathId)
    {
      var locked := tower.upgradePath.Some? && tower.upgradePath.value != pathId;
      var isMaxed := tower.upgrades[pathId] >= 10;
      if !locked && !isMaxed {
        TryUpgrade(tower, pathId, UpgradeCost(tower.kind, pathId, tower.upgrades[pathId]));
      }
    }
  }
}
