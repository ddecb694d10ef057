/**
  The relevance scorer: a display-only map from an L2 distance to a score
  that falls linearly from `maxScore` at distance 0 to `minScore` at
  `maxDistance` and beyond.
 */
module Scoring {
  import opened Base

  /** Python raises ZeroDivisionError when `max_distance` is 0. */
  datatype ScoreError = ZeroDivision

  const DefaultMaxDistance: real := 2.0
  const DefaultMinScore: real := 0.0
  const DefaultMaxScore: real := 100.0

  /** `max(0.0, min(distance, maxDistance))`. */
  function Clamp(distance: real, maxDistance: real): real
  {
    var upper := if distance <= maxDistance then distance else maxDistance;
    if upper > 0.0 then upper else 0.0
  }

  /** The score before the final rounding to two decimals. */
  function DistanceToScore(distance: real, maxDistance: real, minScore: real, maxScore: real): (r: Result<real, ScoreError>)
    ensures r.Failure? <==> maxDistance == 0.0
  {
    if maxDistance == 0.0 then Failure(ZeroDivision)
    else
      var d := Clamp(distance, maxDistance);
      var ratio := 1.0 - d / maxDistance;
      Success(minScore + ratio * (maxScore - minScore))
  }

  /** Distances at or below zero score the maximum; so does every distance when `maxDistance` is negative. */
  lemma ScoreAtOrBelowZero(distance: real, maxDistance: real, minScore: real, maxScore: real)
    requires maxDistance != 0.0
    requires distance <= 0.0 || maxDistance < 0.0
    ensures Yields(DistanceToScore(distance, maxDistance, minScore, maxScore), maxScore)
  {
    assert Clamp(distance, maxDistance) == 0.0;
    DivisionFacts(maxDistance);
  }

  /** Distances at or beyond a positive `maxDistance` score the minimum. */
  lemma ScoreAtOrBeyondMax(distance: real, maxDistance: real, minScore: real, maxScore: real)
    requires maxDistance > 0.0 && distance >= maxDistance
    ensures Yields(DistanceToScore(distance, maxDistance, minScore, maxScore), minScore)
  {
    assert Clamp(distance, maxDistance) == maxDistance;
    DivisionFacts(maxDistance);
  }

  /** Inside `[0, maxDistance]` the score interpolates linearly between the bounds. */
  lemma ScoreInterpolates(distance: real, maxDistance: real, minScore: real, maxScore: real)
    requires 0.0 <= distance <= maxDistance && maxDistance > 0.0
    ensures Yields(DistanceToScore(distance, maxDistance, minScore, maxScore), minScore + (1.0 - distance / maxDistance) * (maxScore - minScore))
  {
    assert Clamp(distance, maxDistance) == distance;
  }

  /** The scorer succeeds with exactly `x`. */
  predicate Yields(r: Result<real, ScoreError>, x: real)
  {
    r.Success? && r.value == x
  }

  lemma DivisionFacts(m: real)
    requires m != 0.0
    ensures 0.0 / m == 0.0 && m / m == 1.0
  {
  }

  /** The default parameters of `distance_to_score`. */
  function DefaultScore(distance: real): Result<real, ScoreError>
  {
    DistanceToScore(distance, DefaultMaxDistance, DefaultMinScore, DefaultMaxScore)
  }

  /** With an ordered score range the score never leaves it. */
  lemma ScoreInRange(distance: real, maxDistance: real, minScore: real, maxScore: real)
    requires maxDistance != 0.0 && minScore <= maxScore
    ensures DistanceToScore(distance, maxDistance, minScore, maxScore).Success?
    ensures minScore <= DistanceToScore(distance, maxDistance, minScore, maxScore).value <= maxScore
  {
    var d := Clamp(distance, maxDistance);
    var ratio := 1.0 - d / maxDistance;
    if maxDistance > 0.0 {
      assert 0.0 <= d <= maxDistance;
      DivBetweenZeroAndOne(d, maxDistance);
    } else {
      assert d == 0.0;
    }
    assert 0.0 <= ratio <= 1.0;
    ScaleWithinRange(ratio, minScore, maxScore);
  }

  lemma DivBetweenZeroAndOne(d: real, m: real)
    requires 0.0 < m && 0.0 <= d <= m
    ensures 0.0 <= d / m <= 1.0
  {
  }

  lemma ScaleWithinRange(ratio: real, lo: real, hi: real)
    requires 0.0 <= ratio <= 1.0 && lo <= hi
    ensures lo <= lo + ratio * (hi - lo) <= hi
  {
    assert ratio * (hi - lo) <= 1.0 * (hi - lo);
  }

  lemma DivMonotone(a: real, b: real, m: real)
    requires a <= b && m > 0.0
    ensures a / m <= b / m
  {
    var x, y := a / m, b / m;
    assert x * m == a && y * m == b;
  }

  lemma MulMonotone(a: real, b: real, c: real)
    requires a <= b && c >= 0.0
    ensures a * c <= b * c
  {
    assert (b - a) * c >= 0.0;
  }

  /** A larger distance never yields a larger score. */
  lemma ScoreNonIncreasing(d1: real, d2: real, maxDistance: real, minScore: real, maxScore: real)
    requires d1 <= d2 && maxDistance > 0.0 && minScore <= maxScore
    ensures DistanceToScore(d2, maxDistance, minScore, maxScore).value
         <= DistanceToScore(d1, maxDistance, minScore, maxScore).value
  {
    var c1, c2 := Clamp(d1, maxDistance), Clamp(d2, maxDistance);
    assert c1 <= c2;
    DivMonotone(c1, c2, maxDistance);
    var r1, r2 := 1.0 - c1 / maxDistance, 1.0 - c2 / maxDistance;
    MulMonotone(r2, r1, maxScore - minScore);
  }

  /** Half the maximum distance lands on the middle of the score range. */
  lemma ScoreMidpoint(maxDistance: real, minScore: real, maxScore: real)
    requires maxDistance > 0.0
    ensures Yields(DistanceToScore(maxDistance / 2.0, maxDistance, minScore, maxScore), (minScore + maxScore) / 2.0)
  {
    assert (maxDistance / 2.0) / maxDistance == 0.5;
  }

  /** The default range maps distance 1 to 50. */
  lemma DefaultMidpointIsFifty()
    ensures Yields(DefaultScore(1.0), 50.0)
  {
    ScoreMidpoint(DefaultMaxDistance, DefaultMinScore, DefaultMaxScore);
  }

  /** Distance 2.5 of at most 10, on the range 0..1, scores 0.75. */
  lemma CustomRangeExample()
    ensures Yields(DistanceToScore(2.5, 10.0, 0.0, 1.0), 0.75)
  {
    assert 2.5 / 10.0 == 0.25;
  }

  /** Custom bounds 10..20 are hit exactly at the two ends of the distance range. */
  lemma CustomBoundsExample()
    ensures Yields(DistanceToScore(2.0, 2.0, 10.0, 20.0), 10.0)
    ensures Yields(DistanceToScore(0.0, 2.0, 10.0, 20.0), 20.0)
  {
  }
}
