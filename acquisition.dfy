/**
 * Target acquisition (Tower.acquireTarget): one scan over the roster in
 * its order that keeps the in-range enemy with positive hidden health and
 * the smallest Manhattan distance, starting from the sentinel distance.
 * Scan is that loop as a left fold; IsNearest states the intended choice
 * independently of the loop.
 */
module Acquisition {
  import opened Wrappers
  import opened Geometry
  import opened Enemies

  function DistanceTo(tx: real, ty: real, e: Enemy): real
    reads e
  {
    Distance(tx, ty, e.x, e.y)
  }

  /** An enemy the scan can choose: in range, alive by hidden health, and below the sentinel. */
  predicate Qualifies(tx: real, ty: real, range: int, e: Enemy)
    reads e
  {
    InRange(tx, ty, range, e.x, e.y) && e.hiddenHealth > 0.0 && DistanceTo(tx, ty, e) < Sentinel
  }

  /** The loop's test for adopting e when the best distance so far is best. */
  predicate Improves(tx: real, ty: real, range: int, e: Enemy, best: real): (b: bool)
    reads e
    ensures best <= Sentinel ==> (b <==> Qualifies(tx, ty, range, e) && DistanceTo(tx, ty, e) < best)
  {
    InRange(tx, ty, range, e.x, e.y) && DistanceTo(tx, ty, e) < best && e.hiddenHealth > 0.0
  }

  /** The loop's state: the index of the closest enemy so far, and its distance. */
  datatype Best = Best(index: Option<nat>, distance: real)

  /** The state of the scan after it has visited every enemy of roster, in order. */
  function Scan(tx: real, ty: real, range: int, roster: seq<Enemy>): (b: Best)
    reads roster
    ensures b.index.Some? ==> b.index.value < |roster|
    decreases |roster|
  {
    if roster == [] then Best(None, Sentinel)
    else
      var b := Scan(tx, ty, range, roster[..|roster| - 1]);
      var e := roster[|roster| - 1];
      if Improves(tx, ty, range, e, b.distance) then Best(Some(|roster| - 1), DistanceTo(tx, ty, e))
      else b
  }

  /** The enemy acquireTarget returns, null when the scan kept none. */
  function Nearest(tx: real, ty: real, range: int, roster: seq<Enemy>): (e: Enemy?)
    reads roster
    ensures e == null <==> Scan(tx, ty, range, roster).index.None?
    ensures e != null ==> e in roster && e == roster[Scan(tx, ty, range, roster).index.value]
  {
    match Scan(tx, ty, range, roster).index
    case None => null
    case Some(k) => roster[k]
  }

  /**
   * Index k is the intended choice: a qualifying enemy no farther than any
   * qualifying enemy, and strictly nearer than every qualifying enemy before it.
   */
  ghost predicate IsNearest(tx: real, ty: real, range: int, roster: seq<Enemy>, k: nat)
    reads roster
  {
    && k < |roster|
    && Qualifies(tx, ty, range, roster[k])
    && (forall j :: 0 <= j < |roster| && Qualifies(tx, ty, range, roster[j]) ==>
          DistanceTo(tx, ty, roster[k]) <= DistanceTo(tx, ty, roster[j]))
    && (forall j :: 0 <= j < k && Qualifies(tx, ty, range, roster[j]) ==>
          DistanceTo(tx, ty, roster[k]) < DistanceTo(tx, ty, roster[j]))
  }

  ghost predicate NoneQualifies(tx: real, ty: real, range: int, roster: seq<Enemy>)
    reads roster
  {
    forall j :: 0 <= j < |roster| ==> !Qualifies(tx, ty, range, roster[j])
  }

  /** What the scan keeps is the nearest qualifying enemy, with its distance; it keeps none only when none qualifies. */
  lemma {:induction false} ScanSound(tx: real, ty: real, range: int, roster: seq<Enemy>)
    ensures var b := Scan(tx, ty, range, roster);
      && (b.index.None? ==> b.distance == Sentinel && NoneQualifies(tx, ty, range, roster))
      && (b.index.Some? ==> IsNearest(tx, ty, range, roster, b.index.value)
                            && b.distance == DistanceTo(tx, ty, roster[b.index.value]))
    decreases |roster|
  {
    if roster != [] {
      var n := |roster|;
      var pre := roster[..n - 1];
      ScanSound(tx, ty, range, pre);
      assert forall j :: 0 <= j < n - 1 ==> pre[j] == roster[j];
    }
  }

  /** The scan picks index k exactly when k is the nearest, first-wins choice; it picks nothing exactly when no enemy qualifies. */
  lemma ScanFindsExactlyTheNearest(tx: real, ty: real, range: int, roster: seq<Enemy>, k: nat)
    ensures Scan(tx, ty, range, roster).index == Some(k) <==> IsNearest(tx, ty, range, roster, k)
    ensures Scan(tx, ty, range, roster).index == None <==> NoneQualifies(tx, ty, range, roster)
  {
    ScanSound(tx, ty, range, roster);
    var b := Scan(tx, ty, range, roster);
    if IsNearest(tx, ty, range, roster, k) {
      assert Qualifies(tx, ty, range, roster[k]);
      if b.index.Some? {
        var m := b.index.value;
        assert IsNearest(tx, ty, range, roster, m);
      }
    }
    if b.index.Some? {
      assert Qualifies(tx, ty, range, roster[b.index.value]);
    }
  }

  /**
   * acquireTarget's result: null exactly when no enemy qualifies; otherwise a
   * member of the roster that qualifies and is no farther than any qualifying enemy.
   */
  lemma NearestChoice(tx: real, ty: real, range: int, roster: seq<Enemy>)
    ensures Nearest(tx, ty, range, roster) == null <==> NoneQualifies(tx, ty, range, roster)
    ensures var e := Nearest(tx, ty, range, roster);
      e != null ==>
        && e in roster
        && Qualifies(tx, ty, range, e)
        && DistanceTo(tx, ty, e) < Sentinel
        && (forall j :: 0 <= j < |roster| && Qualifies(tx, ty, range, roster[j]) ==>
              DistanceTo(tx, ty, e) <= DistanceTo(tx, ty, roster[j]))
  {
    ScanSound(tx, ty, range, roster);
  }

  /** Enemies at distances 5, 3, 3, 8, all qualifying: the first enemy at distance 3 is chosen. */
  lemma FirstOfEqualDistancesWins(tx: real, ty: real, range: int, roster: seq<Enemy>)
    requires |roster| == 4
    requires forall j :: 0 <= j < 4 ==> Qualifies(tx, ty, range, roster[j])
    requires DistanceTo(tx, ty, roster[0]) == 5.0 && DistanceTo(tx, ty, roster[1]) == 3.0
    requires DistanceTo(tx, ty, roster[2]) == 3.0 && DistanceTo(tx, ty, roster[3]) == 8.0
    ensures Scan(tx, ty, range, roster).index == Some(1)
    ensures Nearest(tx, ty, range, roster) == roster[1]
  {
    ScanFindsExactlyTheNearest(tx, ty, range, roster, 1);
  }

  /** An enemy whose hidden health is not positive is never chosen, however near. */
  lemma NeverChoosesSpent(tx: real, ty: real, range: int, roster: seq<Enemy>, j: nat)
    requires j < |roster| && roster[j].hiddenHealth <= 0.0
    ensures Scan(tx, ty, range, roster).index != Some(j)
  {
    ScanSound(tx, ty, range, roster);
  }
}
