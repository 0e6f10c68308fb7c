/** The proximity test of the nearby-meetings query: planar Euclidean
    distance between the user's position and the meeting's position, compared
    with a fixed threshold, both bounds included. Coordinates are reals;
    floating-point rounding is not modelled. */
module Proximity {

  /** The largest distance at which a meeting still counts as nearby. */
  const MaxDistance: real := 100.0

  /** The distance test without the square root: since the distance is
      never negative, comparing its square with the squared threshold is
      the same test (see SquaredTestMatchesDistance). */
  predicate WithinReach(x: real, y: real, latitude: real, longitude: real) {
    var dx := latitude - x;
    var dy := longitude - y;
    dx * dx + dy * dy <= MaxDistance * MaxDistance
  }

  /** If `d` is the distance of the two points (the non-negative root of the
      sum of squares), the squared test holds exactly when `d` is at most the
      threshold. */
  lemma SquaredTestMatchesDistance(x: real, y: real, latitude: real, longitude: real, d: real)
    requires d >= 0.0
    requires d * d == (latitude - x) * (latitude - x) + (longitude - y) * (longitude - y)
    ensures WithinReach(x, y, latitude, longitude) <==> d <= MaxDistance
  {
    if d <= MaxDistance {
      assert d * d <= d * MaxDistance;
      assert d * MaxDistance <= MaxDistance * MaxDistance;
    } else {
      assert d * d > d * MaxDistance;
      assert d * MaxDistance > MaxDistance * MaxDistance;
    }
  }

  /** A point exactly at the threshold distance is nearby; one just beyond
      it is not. */
  lemma ThresholdIsInclusive(x: real, y: real)
    ensures WithinReach(x, y, x + MaxDistance, y)
    ensures !WithinReach(x, y, x + MaxDistance + 0.0001, y)
  {
  }
}
