/** The rounding primitive Rnd of fintech.go. Its remainder argument is a
    float64 in the source; here it is an exact real, since Rnd only compares
    it with the thresholds Round and Roundn. */
module Fintech {
  import opened GoInt
  import opened Finance

  /** Rounds the truncated result r by its remainder trunc: up by one from a
      remainder of one half, down by one below minus one half, so that an
      exact half goes toward plus infinity. The int64 increment wraps as in Go. */
  function Rnd(r: int64, trunc: real): (x: int64)
    ensures trunc >= 0.5 ==> x == Wrap(r + 1)
    ensures 0.0 < trunc < 0.5 ==> x == r
    ensures -0.5 <= trunc <= 0.0 ==> x == r
    ensures trunc < -0.5 ==> x == Wrap(r - 1)
    ensures MinInt64 < r < MaxInt64 ==> r - 1 <= x <= r + 1
  {
    if trunc > 0.0 then
      if trunc >= Round then Wrap(r + 1) else r
    else
      if trunc < Roundn then Wrap(r - 1) else r
  }

  /** For a fixed truncated result away from the int64 bounds, a larger
      remainder never rounds to a smaller result. */
  lemma RndMonotone(r: int64, t1: real, t2: real)
    requires MinInt64 < r < MaxInt64 && t1 <= t2
    ensures Rnd(r, t1) <= Rnd(r, t2)
  {
  }

  /** The largest integer not above y. */
  function Floor(y: real): int { y.Floor }

  /** Truncating y toward zero and then rounding by the remainder is rounding
      y half-up: the result is floor(y + 1/2), wrapped as Go's int64 would
      be (only a y just below 2^63 rounds out of range). */
  lemma RndFloor(y: real)
    requires IsInt64(Trunc(y))
    ensures Rnd(Trunc(y), y - Trunc(y) as real) == Wrap(Floor(y + 0.5))
  {
    var t := Trunc(y);
    var f := y - t as real;
    if y >= 0.0 {
      assert 0.0 <= f < 1.0;
      if f >= 0.5 {
        FloorAt(y + 0.5, t + 1);
      } else {
        FloorAt(y + 0.5, t);
      }
    } else {
      assert -1.0 < f <= 0.0;
      if f < -0.5 {
        FloorAt(y + 0.5, t - 1);
      } else {
        FloorAt(y + 0.5, t);
      }
    }
  }

  lemma FloorAt(y: real, k: int)
    requires k as real <= y < k as real + 1.0
    ensures Floor(y) == k
  {
  }
}
