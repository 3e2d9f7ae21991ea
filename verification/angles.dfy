/** Angles in degrees and the circular tolerance test `angle_within`. */
module Angles {

  function Abs(x: real): (r: real)
    ensures r >= 0.0 && (r == x || r == -x)
  {
    if x < 0.0 then -x else x
  }

  function Min(a: real, b: real): (r: real)
    ensures r <= a && r <= b && (r == a || r == b)
  {
    if a <= b then a else b
  }

  /** `angle_within(theta, target, tolerance)`: the shorter way round the
      circle from `theta` to `target` is at most `tolerance` degrees, with the
      distance computed as `min(d, 360 - d)` for `d = |theta - target|`. */
  function AngleWithin(theta: real, target: real, tolerance: real): bool
  {
    var delta := Abs(theta - target);
    Min(delta, 360.0 - delta) <= tolerance
  }

  /** Reference meaning of "within `tolerance` on the circle": some turn of
      `theta` lies within `tolerance` of `target` on the real line. */
  ghost predicate OnCircleWithin(theta: real, target: real, tolerance: real)
  {
    exists k: int :: Abs(theta - target - Turns(k)) <= tolerance
  }

  /** `k` whole turns, in degrees. */
  function Turns(k: int): real
  {
    360.0 * k as real
  }

  /** The test does not depend on which angle is the target. */
  lemma AngleWithinSymmetric(theta: real, target: real, tolerance: real)
    ensures AngleWithin(theta, target, tolerance) == AngleWithin(target, theta, tolerance)
  {
  }

  /** Every angle is within a non-negative tolerance of itself. */
  lemma AngleWithinReflexive(theta: real, tolerance: real)
    requires tolerance >= 0.0
    ensures AngleWithin(theta, theta, tolerance)
  {
  }

  /** No turn of `theta` is closer to `target` than `min(d, 360 - d)`, once
      the two are at most one turn apart. */
  lemma NoCloserTurn(delta: real, k: int)
    requires -360.0 <= delta <= 360.0
    ensures Abs(delta - Turns(k)) >= Min(Abs(delta), 360.0 - Abs(delta))
  {
    if k >= 1 {
      assert Turns(k) >= 360.0;
    } else if k <= -1 {
      assert Turns(k) <= -360.0;
    }
  }

  /** For angles at most one turn apart, `angle_within` is exactly the
      circular tolerance test, in both directions. */
  lemma AngleWithinIsCircular(theta: real, target: real, tolerance: real)
    requires -360.0 <= theta - target <= 360.0
    ensures AngleWithin(theta, target, tolerance) <==> OnCircleWithin(theta, target, tolerance)
  {
    var delta := theta - target;
    if AngleWithin(theta, target, tolerance) {
      var k: int := if Abs(delta) <= 360.0 - Abs(delta) then 0 else if delta > 0.0 then 1 else -1;
      assert Abs(delta - Turns(k)) <= tolerance;
    } else if OnCircleWithin(theta, target, tolerance) {
      var k: int :| Abs(delta - Turns(k)) <= tolerance;
      NoCloserTurn(delta, k);
      assert false;
    }
  }

  /** Beyond one turn apart `360 - d` is negative and the test accepts angles
      that are far apart on the circle: 540 degrees is half a turn from 0,
      yet counts as within 20 degrees of it. */
  lemma AngleWithinBeyondOneTurn()
    ensures AngleWithin(540.0, 0.0, 20.0)
    ensures !OnCircleWithin(540.0, 0.0, 20.0)
  {
  }

  /** More than a whole turn apart, `360 - delta` is negative, so any
      non-negative tolerance accepts the pair. */
  lemma AngleWithinFarApart(theta: real, target: real, tolerance: real)
    requires Abs(theta - target) > 360.0 && tolerance >= 0.0
    ensures AngleWithin(theta, target, tolerance)
  {
  }

  /** The tilt gate of `Tablet.run`: the base lies within `tolerance` of
      level, the right way up (0 degrees) or upside down (180 degrees). */
  function IsLevel(tilt: real, tolerance: real): bool
  {
    AngleWithin(tilt, 180.0, tolerance) || AngleWithin(tilt, 0.0, tolerance)
  }

  /** For a tilt as `arctan2` reports it, in [-180, 180], the gate passes iff
      the tilt is within `tolerance` of 0 or of 180 on the circle. */
  lemma IsLevelIsCircular(tilt: real, tolerance: real)
    requires -180.0 <= tilt <= 180.0
    ensures IsLevel(tilt, tolerance) <==>
              OnCircleWithin(tilt, 0.0, tolerance) || OnCircleWithin(tilt, 180.0, tolerance)
  {
    AngleWithinIsCircular(tilt, 0.0, tolerance);
    AngleWithinIsCircular(tilt, 180.0, tolerance);
  }

  /** A level base passes the gate for any non-negative tolerance. */
  lemma FlatBaseIsLevel(tolerance: real)
    requires tolerance >= 0.0
    ensures IsLevel(0.0, tolerance) && IsLevel(180.0, tolerance) && IsLevel(-180.0, tolerance)
  {
  }
}
