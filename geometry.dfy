/**
 * The two metrics a tower uses on enemy positions: the per-axis "square"
 * range test and the Manhattan distance used to rank candidates
 * (Tower.isInRange and Tower.findDistance). Coordinates are reals.
 */
module Geometry {

  /** Starting "closest distance" of every acquisition scan. */
  const Sentinel: real := 10000.0

  function Abs(v: real): (r: real)
    ensures r >= 0.0
    ensures r == v || r == -v
  {
    if v < 0.0 then -v else v
  }

  /**
   * The enemy at (ex, ey) is in range of a tower at (tx, ty) exactly when it
   * lies strictly inside the open square of half-width range around the tower.
   */
  function InRange(tx: real, ty: real, range: int, ex: real, ey: real): (b: bool)
    ensures b <==> (tx - range as real < ex < tx + range as real
                 && ty - range as real < ey < ty + range as real)
  {
    Abs(ex - tx) < range as real && Abs(ey - ty) < range as real
  }

  /** Manhattan distance, the ranking key of target acquisition. */
  function Distance(tx: real, ty: real, ex: real, ey: real): (d: real)
    ensures d >= Abs(ex - tx) && d >= Abs(ey - ty)
    ensures d == 0.0 <==> ex == tx && ey == ty
  {
    Abs(ex - tx) + Abs(ey - ty)
  }

  /** An enemy exactly range away on either axis is not in range. */
  lemma BoundaryExcluded(tx: real, ty: real, range: int, ex: real, ey: real)
    requires Abs(ex - tx) == range as real || Abs(ey - ty) == range as real
    ensures !InRange(tx, ty, range, ex, ey)
  {
  }

  /**
   * The square window lies inside the Manhattan ball of radius 2 * range, so
   * for range <= 5000 the sentinel never excludes an in-range enemy.
   */
  lemma InRangeDistanceBound(tx: real, ty: real, range: int, ex: real, ey: real)
    requires InRange(tx, ty, range, ex, ey)
    ensures Distance(tx, ty, ex, ey) < 2.0 * range as real
    ensures range <= 5000 ==> Distance(tx, ty, ex, ey) < Sentinel
  {
  }
}
