/**
 * The firing cooldown of Tower.update: on a tick that starts locked on a
 * target the tower fires when the time since its last shot exceeds the
 * firing speed, and then restarts the timer from zero; on every tick,
 * whatever the branch, the tick's delta is added to the timer.
 */
module Cooldown {

  /**
   * One tick as the cooldown sees it: whether the tower entered it locked on
   * a target (targeted, and the target's hidden health not negative), and
   * the clock delta of the tick.
   */
  datatype Tick = Tick(locked: bool, delta: real)

  /** Whether the tick fired, and the timer at its end. */
  datatype Outcome = Outcome(fired: bool, timer: real)

  /** Fires only on a locked tick once the firing period has passed; a shot restarts the timer from zero. */
  function Step(timer: real, firingSpeed: real, t: Tick): (o: Outcome)
    ensures o.fired ==> t.locked && timer > firingSpeed
    ensures t.locked && timer > firingSpeed ==> o.fired
    ensures o.timer - t.delta == (if o.fired then 0.0 else timer)
  {
    var fired := t.locked && timer > firingSpeed;
    Outcome(fired, (if fired then 0.0 else timer) + t.delta)
  }

  /** The timer after the ticks, in order, starting from timer. */
  function TimerAfter(timer: real, firingSpeed: real, ticks: seq<Tick>): real
    decreases |ticks|
  {
    if ticks == [] then timer
    else Step(TimerAfter(timer, firingSpeed, ticks[..|ticks| - 1]), firingSpeed, ticks[|ticks| - 1]).timer
  }

  /** Whether tick j of the run fires. */
  predicate FiredAt(timer: real, firingSpeed: real, ticks: seq<Tick>, j: nat)
    requires j < |ticks|
  {
    Step(TimerAfter(timer, firingSpeed, ticks[..j]), firingSpeed, ticks[j]).fired
  }

  /** The clock time the ticks cover. */
  function Elapsed(ticks: seq<Tick>): real
    decreases |ticks|
  {
    if ticks == [] then 0.0 else Elapsed(ticks[..|ticks| - 1]) + ticks[|ticks| - 1].delta
  }

  lemma {:induction false} ElapsedFirst(ticks: seq<Tick>)
    requires |ticks| > 0
    ensures Elapsed(ticks) == ticks[0].delta + Elapsed(ticks[1..])
    decreases |ticks|
  {
    var n := |ticks|;
    if n == 1 {
      assert ticks[..0] == [] && ticks[1..] == [];
    } else {
      ElapsedFirst(ticks[..n - 1]);
      assert ticks[..n - 1][1..] == ticks[1..][..n - 2];
    }
  }

  /** Ticks that do not fire never reset the timer: it grows by exactly their elapsed time. */
  lemma {:induction false} Accumulates(timer: real, firingSpeed: real, ticks: seq<Tick>, i: nat, j: nat)
    requires i <= j <= |ticks|
    requires forall k :: i <= k < j ==> !FiredAt(timer, firingSpeed, ticks, k)
    ensures TimerAfter(timer, firingSpeed, ticks[..j])
         == TimerAfter(timer, firingSpeed, ticks[..i]) + Elapsed(ticks[i..j])
    decreases j - i
  {
    if i == j {
      assert ticks[i..j] == [];
    } else {
      Accumulates(timer, firingSpeed, ticks, i, j - 1);
      assert !FiredAt(timer, firingSpeed, ticks, j - 1);
      assert ticks[..j][..j - 1] == ticks[..j - 1];
      assert ticks[i..j][..j - 1 - i] == ticks[i..j - 1];
    }
  }

  /** A tick that fires leaves only its own delta on the timer. */
  lemma ShotResets(timer: real, firingSpeed: real, ticks: seq<Tick>, i: nat)
    requires i < |ticks| && FiredAt(timer, firingSpeed, ticks, i)
    ensures TimerAfter(timer, firingSpeed, ticks[..i + 1]) == ticks[i].delta
  {
    assert ticks[..i + 1][..i] == ticks[..i];
  }

  /** A tick fires only when the tower entered it locked on a target. */
  lemma NeverFiresUnlocked(timer: real, firingSpeed: real, ticks: seq<Tick>, j: nat)
    requires j < |ticks| && !ticks[j].locked
    ensures !FiredAt(timer, firingSpeed, ticks, j)
  {
  }

  /**
   * Between two consecutive shots more than one firing period of clock time
   * passes: the ticks from the first shot up to the second cover more than
   * firingSpeed.
   */
  lemma ShotsSpacedByCooldown(timer: real, firingSpeed: real, ticks: seq<Tick>, i: nat, j: nat)
    requires i < j < |ticks|
    requires FiredAt(timer, firingSpeed, ticks, i) && FiredAt(timer, firingSpeed, ticks, j)
    requires forall k :: i < k < j ==> !FiredAt(timer, firingSpeed, ticks, k)
    ensures Elapsed(ticks[i..j]) > firingSpeed
  {
    ShotResets(timer, firingSpeed, ticks, i);
    Accumulates(timer, firingSpeed, ticks, i + 1, j);
    ElapsedFirst(ticks[i..j]);
    assert ticks[i..j][1..] == ticks[i + 1..j];
  }

  /**
   * From a fresh timer of zero and before any shot, a locked tick fires
   * exactly when the clock time before it exceeds firingSpeed.
   */
  lemma FirstShot(firingSpeed: real, ticks: seq<Tick>, j: nat)
    requires j < |ticks| && ticks[j].locked
    requires forall k :: 0 <= k < j ==> !FiredAt(0.0, firingSpeed, ticks, k)
    ensures FiredAt(0.0, firingSpeed, ticks, j) <==> Elapsed(ticks[..j]) > firingSpeed
  {
    Accumulates(0.0, firingSpeed, ticks, 0, j);
    assert ticks[..0] == [];
    assert ticks[0..j] == ticks[..j];
  }
}
