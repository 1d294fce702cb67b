# Tower targeting and firing

A model of the combat core of the abstract `Tower` of a tower-defense game
(`src/at/fh/swenga/game/data/Tower.java`): how a tower picks the nearest
enemy in range, and what one simulation tick does with the held target,
the firing cooldown and the projectiles the tower owns.

- `Geometry` (geometry.dfy): the per-axis square range test and the
  Manhattan distance, on real coordinates, and the sentinel distance 10000.
- `Enemies` (enemies.dfy): the enemy as an object whose position, hidden
  health and liveness the tower reads and other code may change between
  ticks. `Enemy.java` is not part of this model; only these four accessors are.
- `Acquisition` (acquisition.dfy): the acquisition scan as a left fold
  (`Scan`), the intended choice stated independently (`IsNearest`: a
  qualifying enemy at least as near as every qualifying enemy and strictly
  nearer than every qualifying enemy before it), and the lemmas that the two
  agree, both ways.
- `Cooldown` (cooldown.dfy): the timer of the firing state machine over a
  run of ticks, with the lemmas that shots are more than one firing period
  apart and that the first shot comes on the first locked tick after the
  elapsed time exceeds the firing speed.
- `TowerEntity` (tower.dfy): the `Tower` class with the source's fields, the
  constructor's initial state, `AcquireTarget` (the imperative scan, proved
  equal to `Scan`), `UpdateEnemyList`, and `Update`, whose contract states the
  whole new state of a tick. `Valid()` is the invariant
  `targeted ==> target != null`; it holds after construction and after every
  `Update`, and it is what makes the dereference of the held target in the
  re-acquisition test safe (Dafny checks that dereference).

External collaborators become parameters or log entries:
- the clock delta of a tick is the `delta` parameter of `Update`;
- the variant-specific `shoot` is `Shoot`, which appends the projectiles
  given as `volley` and records a `Shot` event;
- the unseen `Projectile.update` is recorded as an `Advanced` event per
  projectile;
- the turret re-aim (`calculateAngle`) is recorded as an `Aimed` event.

The events go to the ghost `log`, in the order the source performs them.

The "targeted" flag is not a full validity check of the held target:
- The flag and the reference stay set while the target is alive and its
  hidden health is not negative, even when the target has left the range or
  its hidden health is exactly zero. Range and positive hidden health are
  checked only when acquiring.
- When the target dies, only the flag is cleared; the stale reference stays
  until the next acquisition overwrites it.

## Model

| member | source | states |
|---|---|---|
| `Geometry.InRange` | src/at/fh/swenga/game/data/Tower.java:56-63 | in range exactly when the enemy lies strictly inside the open square of half-width range around the tower on both axes |
| `Geometry.Distance` | src/at/fh/swenga/game/data/Tower.java:65-69 | the ranking distance is at least each axis difference (so never negative) and is zero exactly when the positions coincide |
| `Geometry.BoundaryExcluded` | src/at/fh/swenga/game/data/Tower.java:60 | an enemy exactly range away on either axis is not in range |
| `Geometry.InRangeDistanceBound` | src/at/fh/swenga/game/data/Tower.java:41-69 | an in-range enemy is closer than twice the range, so with range at most 5000 the sentinel never excludes it |
| `Geometry.Abs` | src/at/fh/swenga/game/data/Tower.java:57-58 | the absolute value of an axis difference is never negative and is the difference or its negation |
| `Acquisition.Improves` | src/at/fh/swenga/game/data/Tower.java:45 | while the best distance so far is at most the sentinel, the loop adopts an enemy exactly when it qualifies and is strictly nearer than the best so far |
| `Acquisition.Scan` | src/at/fh/swenga/game/data/Tower.java:40-49 | the index the scan keeps is an index of the roster |
| `Acquisition.Nearest` | src/at/fh/swenga/game/data/Tower.java:39-53 | the value acquireTarget returns: null exactly when the scan kept no index, otherwise the roster member at the kept index |
| `Acquisition.ScanSound` | src/at/fh/swenga/game/data/Tower.java:41-48 | after the scan, either nothing is kept, the best distance is still the sentinel and no enemy qualifies; or the kept index is the nearest qualifying enemy, strictly nearer than every earlier qualifying one, and the best distance is its distance |
| `Acquisition.ScanFindsExactlyTheNearest` | src/at/fh/swenga/game/data/Tower.java:41-48 | the scan keeps index k if and only if k is the nearest, first-wins qualifying enemy; it keeps nothing if and only if no enemy qualifies |
| `Acquisition.NearestChoice` | src/at/fh/swenga/game/data/Tower.java:39-53 | the acquired enemy is null exactly when none qualifies; otherwise it is a roster member that is in range, has positive hidden health, is below the sentinel and is no farther than any qualifying enemy |
| `Acquisition.FirstOfEqualDistancesWins` | src/at/fh/swenga/game/data/Tower.java:45-47 | with qualifying enemies at distances 5, 3, 3, 8 the scan chooses index 1, not the equally near index 2 |
| `Acquisition.NeverChoosesSpent` | src/at/fh/swenga/game/data/Tower.java:45 | an enemy whose hidden health is not positive is never chosen |
| `Cooldown.Step` | src/at/fh/swenga/game/data/Tower.java:84-97 | one tick of the cooldown: it fires exactly when the tick is locked and the timer exceeds the firing speed; the timer then ends at the delta past zero after a shot, and at the delta past the old timer otherwise |
| `Cooldown.Accumulates` | src/at/fh/swenga/game/data/Tower.java:88-97 | over ticks that do not fire the timer grows by exactly their elapsed clock time |
| `Cooldown.ShotResets` | src/at/fh/swenga/game/data/Tower.java:90-97 | a tick that fires leaves only its own delta on the timer |
| `Cooldown.NeverFiresUnlocked` | src/at/fh/swenga/game/data/Tower.java:84-89 | a tick that starts without a kept target never fires |
| `Cooldown.ShotsSpacedByCooldown` | src/at/fh/swenga/game/data/Tower.java:88-97 | the clock time from one shot up to the next is more than the firing speed |
| `Cooldown.FirstShot` | src/at/fh/swenga/game/data/Tower.java:88-97 | from the initial timer of zero and before any shot, a locked tick fires exactly when the elapsed clock time before it exceeds the firing speed |
| `TowerEntity.Advances` | src/at/fh/swenga/game/data/Tower.java:99-100 | one projectile step per owned projectile, in list order |
| `TowerEntity.Tower.constructor` | src/at/fh/swenga/game/data/Tower.java:22-37 | range, cost and firing speed come from the type, position and footprint from the tile; no target, flag false, timer zero, no projectiles; the invariant holds |
| `TowerEntity.Tower.AcquireTarget` | src/at/fh/swenga/game/data/Tower.java:39-54 | the loop returns the scan's choice over the current roster, a qualifying roster member or null; the flag becomes true exactly when it returns an enemy and is otherwise unchanged; nothing else changes |
| `TowerEntity.Tower.Shoot` | src/at/fh/swenga/game/data/Tower.java:77 | a shot appends the variant's projectiles to the owned list and records one shot at the target |
| `TowerEntity.Tower.UpdateEnemyList` | src/at/fh/swenga/game/data/Tower.java:79-81 | the roster is replaced by the new list, which is the one the next acquisition scans; nothing else changes |
| `TowerEntity.Tower.AdvanceProjectiles` | src/at/fh/swenga/game/data/Tower.java:99-100 | every owned projectile is stepped once, in list order |
| `TowerEntity.Tower.Update` | src/at/fh/swenga/game/data/Tower.java:83-103 | preserves `targeted ==> target != null`. An unlocked tick re-acquires from the current roster and never fires. A locked tick keeps its target, re-aims, and fires at it once exactly when the timer exceeds the firing speed; then the timer is delta, otherwise old timer plus delta. At the end the flag is true exactly when a target is held and alive. Fired projectiles are appended, and all projectiles are stepped once in order after the firing step. Position, range, cost, firing speed and roster are unchanged |

## Left out

- `draw` and the texture calls: rendering I/O.
- `calculateAngle` and the `angle` field: floating-point trigonometry (`atan2`, degrees, the -90 offset). The model records only that the turret is re-aimed at the held target, on the locked branch.
- `Clock.Delta()`: a global clock, modelled as the `delta` parameter of `Update`.
- The concrete `shoot` of each tower variant: abstract here, modelled as appending a caller-given list of projectiles.
- `Projectile.update`: unseen, modelled as a recorded step event.
- `CopyOnWriteArrayList` snapshot iteration: the roster is a sequence value read once per scan.
- IEEE float rounding of coordinates, distances and the timer: all are reals.
- The getters and setters for position, footprint, target and cost, the `textures` field, and the `TowerType`/`Tile` plumbing beyond the initial field values.
- A null roster, or null elements in the roster: the types exclude them. The source would throw a NullPointerException in `acquireTarget` (the loop at line 44, or the position read at line 57).
- Changes that other code makes to the public `target` and `projectiles` fields, and to enemies during a tick.
