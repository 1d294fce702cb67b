/**
 * The tower entity (Tower.java): its state, the per-tick firing state
 * machine, roster replacement and the projectiles it owns. The concrete
 * shot of a tower variant appends projectiles the caller supplies; the
 * concrete projectile step and the turret's aim are recorded in a ghost
 * event log instead of being computed.
 */
module TowerEntity {
  import opened Wrappers
  import opened Geometry
  import opened Enemies
  import Acquisition
  import Cooldown

  /** The immutable tower type: range, placement cost and firing speed. */
  datatype TowerType = TowerType(range: int, cost: int, firingSpeed: real)

  /** The tile a tower is placed on: position and footprint. */
  datatype Tile = Tile(x: real, y: real, width: int, height: int)

  /** An in-flight shot; its own behaviour belongs to the projectile variant. */
  class Projectile {
  }

  /** What a tick did: re-aimed the turret at, fired at, or advanced a projectile. */
  datatype Event = Aimed(at: Enemy) | Shot(at: Enemy) | Advanced(p: Projectile)

  /** One Advanced event per projectile, in list order. */
  function Advances(ps: seq<Projectile>): (es: seq<Event>)
    ensures |es| == |ps|
    ensures forall i :: 0 <= i < |ps| ==> es[i] == Advanced(ps[i])
    decreases |ps|
  {
    if ps == [] then [] else Advances(ps[..|ps| - 1]) + [Advanced(ps[|ps| - 1])]
  }

  class Tower {
    var x: real
    var y: real
    var width: int
    var height: int
    var range: int
    var cost: int
    var firingSpeed: real
    var timeSinceLastShot: real
    var target: Enemy?
    var targeted: bool
    var enemies: seq<Enemy>
    var projectiles: seq<Projectile>
    const kind: TowerType
    ghost var log: seq<Event>

    /** The flag never claims a target the reference does not hold. */
    ghost predicate Valid()
      reads this
    {
      targeted ==> target != null
    }

    /** The tick keeps the held target: it is flagged and its hidden health has not dropped below zero. */
    ghost predicate Locked()
      reads this, target
      requires Valid()
    {
      targeted && target.hiddenHealth >= 0.0
    }

    constructor (kind: TowerType, startTile: Tile, enemies: seq<Enemy>)
      ensures Valid()
      ensures this.kind == kind && range == kind.range && cost == kind.cost
      ensures firingSpeed == kind.firingSpeed
      ensures x == startTile.x && y == startTile.y
      ensures width == startTile.width && height == startTile.height
      ensures this.enemies == enemies
      ensures target == null && !targeted && timeSinceLastShot == 0.0
      ensures projectiles == [] && log == []
    {
      this.kind := kind;
      range, cost, firingSpeed := kind.range, kind.cost, kind.firingSpeed;
      x, y := startTile.x, startTile.y;
      width, height := startTile.width, startTile.height;
      this.enemies := enemies;
      target := null;
      targeted := false;
      timeSinceLastShot := 0.0;
      projectiles := [];
      log := [];
    }

    /**
     * Scans the current roster for the nearest qualifying enemy, first one
     * wins on ties; sets the flag when it finds one and otherwise leaves it.
     */
    method AcquireTarget() returns (closest: Enemy?)
      modifies this`targeted
      ensures closest == Acquisition.Nearest(x, y, range, enemies)
      ensures closest != null ==> closest in enemies && Acquisition.Qualifies(x, y, range, closest)
      ensures targeted == (old(targeted) || closest != null)
    {
      closest := null;
      var closestDistance := Sentinel;
      ghost var best: Option<nat> := None;
      for i := 0 to |enemies|
        invariant Acquisition.Scan(x, y, range, enemies[..i]) == Acquisition.Best(best, closestDistance)
        invariant best.Some? ==> best.value < i
        invariant closest == if best.Some? then enemies[best.value] else null
      {
        var e := enemies[i];
        assert enemies[..i + 1][..i] == enemies[..i];
        if Acquisition.Improves(x, y, range, e, closestDistance) {
          closestDistance := Distance(x, y, e.x, e.y);
          closest := e;
          best := Some(i);
        }
      }
      assert enemies[..|enemies|] == enemies;
      if closest != null {
        targeted := true;
      }
      Acquisition.NearestChoice(x, y, range, enemies);
    }

    /** The variant's shot at t, producing the projectiles in volley. */
    method Shoot(t: Enemy, volley: seq<Projectile>)
      modifies this`projectiles, this`log
      ensures projectiles == old(projectiles) + volley
      ensures log == old(log) + [Shot(t)]
    {
      projectiles := projectiles + volley;
      log := log + [Shot(t)];
    }

    /** Replaces the roster the next acquisition scans. */
    method UpdateEnemyList(newList: seq<Enemy>)
      modifies this`enemies
      ensures enemies == newList
    {
      enemies := newList;
    }

    /**
     * One tick of delta clock time. Unlocked: re-acquire from the current
     * roster, never firing. Locked: keep the target, re-aim, and fire once
     * (spawning volley) when the timer exceeds the firing speed, restarting
     * the timer. Then the flag is cleared if there is no target or it is not
     * alive, delta is added to the timer, and every projectile, including the
     * ones just fired, is advanced once in list order.
     */
    method Update(delta: real, volley: seq<Projectile>)
      requires Valid()
      modifies this
      ensures Valid()
      ensures x == old(x) && y == old(y) && width == old(width) && height == old(height)
      ensures range == old(range) && cost == old(cost) && firingSpeed == old(firingSpeed)
      ensures enemies == old(enemies)
      ensures !old(Locked()) ==> target == old(Acquisition.Nearest(x, y, range, enemies))
      ensures old(Locked()) ==> target == old(target)
      ensures targeted <==> target != null && target.alive
      ensures var c := Cooldown.Step(old(timeSinceLastShot), firingSpeed, Cooldown.Tick(old(Locked()), delta));
        && timeSinceLastShot == c.timer
        && projectiles == old(projectiles) + (if c.fired then volley else [])
        && log == old(log)
                  + (if old(Locked()) then [Aimed(old(target))] else [])
                  + (if c.fired then [Shot(old(target))] else [])
                  + Advances(projectiles)
    {
      ghost var locked, heldBefore, timerBefore := Locked(), target, timeSinceLastShot;
      ghost var c := Cooldown.Step(timerBefore, firingSpeed, Cooldown.Tick(locked, delta));
      if !targeted || target.hiddenHealth < 0.0 {
        assert !locked && !c.fired;
        target := AcquireTarget();
      } else {
        assert locked && heldBefore == target;
        log := log + [Aimed(target)];
        if timeSinceLastShot > firingSpeed {
          assert c.fired;
          Shoot(target, volley);
          timeSinceLastShot := 0.0;
        } else {
          assert !c.fired;
        }
      }

      if target == null || !target.alive {
        targeted := false;
      }

      timeSinceLastShot := timeSinceLastShot + delta;
      assert timeSinceLastShot == c.timer;
      assert projectiles == old(projectiles) + (if c.fired then volley else []);
      ghost var fireLog := (if locked then [Aimed(heldBefore)] else []) + (if c.fired then [Shot(heldBefore)] else []);
      assert log == old(log) + fireLog;

      AdvanceProjectiles();
    }

    /** Advances every owned projectile once, in list order. */
    method AdvanceProjectiles()
      modifies this`log
      ensures log == old(log) + Advances(projectiles)
    {
      for i := 0 to |projectiles|
        invariant log == old(log) + Advances(projectiles[..i])
      {
        assert projectiles[..i + 1][..i] == projectiles[..i];
        log := log + [Advanced(projectiles[i])];
      }
      assert projectiles[..|projectiles|] == projectiles;
    }
  }
}
