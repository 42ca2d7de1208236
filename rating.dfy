/**
 * The score calculator: `computeRating` and the two-decimal rounding it and
 * `createShip` use.
 */
module Rating {
  import opened Validation

  /**
   * `(double) Math.round(x * 100) / 100`. Java's `Math.round(y)` is the
   * floor of `y + 0.5`, so halves round up.
   */
  function Round2(x: real): (r: real)
    ensures x - 0.005 < r <= x + 0.005
    ensures (r * 100.0).Floor as real == r * 100.0
  {
    var n := (x * 100.0 + 0.5).Floor;
    assert n as real / 100.0 * 100.0 == n as real;
    n as real / 100.0
  }

  /**
   * The two properties of `Round2` pin its result down: the only multiple of
   * 0.01 in (x - 0.005, x + 0.005] is `Round2(x)`.
   */
  lemma Round2Unique(x: real, r: real)
    requires x - 0.005 < r <= x + 0.005
    requires (r * 100.0).Floor as real == r * 100.0
    ensures r == Round2(x)
  {
    var n := (r * 100.0).Floor;
    var m := (x * 100.0 + 0.5).Floor;
    assert m as real == Round2(x) * 100.0;
    assert x * 100.0 - 0.5 < n as real <= x * 100.0 + 0.5;
    assert n == m;
  }

  /** Rounding never reverses the order of two values. */
  lemma Round2Monotone(x: real, y: real)
    requires x <= y
    ensures Round2(x) <= Round2(y)
  {
    assert (x * 100.0 + 0.5).Floor <= (y * 100.0 + 0.5).Floor;
  }

  /** A speed in [0.01, 0.99] stays in that range once rounded to two decimals. */
  lemma Round2KeepsSpeed(speed: real)
    requires SpeedOk(speed)
    ensures SpeedOk(Round2(speed))
  {
    var n := (speed * 100.0 + 0.5).Floor;
    assert 1.5 <= speed * 100.0 + 0.5 < 100.0;
    assert 1 <= n <= 99;
  }

  /** The year the rating treats as the present. */
  const CurrentYear := 3019

  /** A used ship's rating is halved. */
  function UsedRatio(isUsed: bool): real {
    if isUsed then 0.5 else 1.0
  }

  /** The rating before rounding. */
  function RawRating(speed: real, isUsed: bool, year: int): real
    requires year <= CurrentYear
  {
    80.0 * speed * UsedRatio(isUsed) / (CurrentYear - year + 1) as real
  }

  /**
   * `computeRating`: 80 times the speed, times the used ratio, divided by the
   * ship's age in years counted inclusively, rounded to two decimals.
   */
  function ComputeRating(speed: real, isUsed: bool, year: int): (r: real)
    requires year <= CurrentYear
    ensures RawRating(speed, isUsed, year) - 0.005 < r <= RawRating(speed, isUsed, year) + 0.005
    ensures (r * 100.0).Floor as real == r * 100.0
  {
    Round2(RawRating(speed, isUsed, year))
  }

  /** Speed 0.5, not used, built in 2800: 40 / 220 = 0.1818..., rated 0.18. */
  lemma RatingExample()
    ensures ComputeRating(0.5, false, 2800) == 0.18
  {
    assert RawRating(0.5, false, 2800) * 100.0 + 0.5 == 411.0 / 22.0;
    assert (411.0 / 22.0).Floor == 18;
  }

  /**
   * A rating is never negative and never above 79.2 (the fastest new,
   * unused ship), for any speed and year a ship can have.
   */
  lemma RatingBounds(speed: real, isUsed: bool, year: int)
    requires SpeedOk(speed) && YearOk(year)
    ensures 0.0 <= ComputeRating(speed, isUsed, year) <= 79.2
  {
    var c := 80.0 * speed * UsedRatio(isUsed);
    assert 0.0 < c <= 79.2;
    DivMonotone(c, 79.2, (CurrentYear - year + 1) as real, 1.0);
    DivMonotone(0.0, c, (CurrentYear - year + 1) as real, (CurrentYear - year + 1) as real);
    Round2Monotone(RawRating(speed, isUsed, year), 79.2);
    Round2Monotone(0.0, RawRating(speed, isUsed, year));
    Round2Unique(79.2, 79.2);
    Round2Unique(0.0, 0.0);
  }

  /** The rating does not drop when the speed rises or the ship is newer. */
  lemma RatingMonotone(speed: real, speed': real, isUsed: bool, year: int, year': int)
    requires 0.0 <= speed <= speed' && year <= year' <= CurrentYear
    ensures ComputeRating(speed, isUsed, year) <= ComputeRating(speed', isUsed, year')
  {
    var r := UsedRatio(isUsed);
    assert 80.0 * speed * r <= 80.0 * speed' * r;
    DivMonotone(80.0 * speed * r, 80.0 * speed' * r,
                (CurrentYear - year + 1) as real, (CurrentYear - year' + 1) as real);
    Round2Monotone(RawRating(speed, isUsed, year), RawRating(speed', isUsed, year'));
  }

  /** A used ship is never rated above the same ship unused. */
  lemma RatingUsedNotAbove(speed: real, year: int)
    requires 0.0 <= speed && year <= CurrentYear
    ensures ComputeRating(speed, true, year) <= ComputeRating(speed, false, year)
  {
    var d := (CurrentYear - year + 1) as real;
    DivMonotone(80.0 * speed * 0.5, 80.0 * speed * 1.0, d, d);
    Round2Monotone(RawRating(speed, true, year), RawRating(speed, false, year));
  }

  /** A larger numerator over a smaller positive denominator gives a larger quotient. */
  lemma DivMonotone(c: real, c': real, d: real, d': real)
    requires 0.0 <= c <= c' && 0.0 < d' <= d
    ensures c / d <= c' / d'
  {
    var q, q' := c / d, c' / d';
    assert q * d == c && q' * d' == c';
    assert q >= 0.0;
    assert q * d >= q * d';
    assert (q' - q) * d' >= 0.0 by {
      assert q' * d' >= q * d';
    }
  }

  /**
   * Rounding the speed before rating it could change the rating: speed 0.125
   * for a ship built in 3019 is rated 10.0, while its rounded speed 0.13
   * would be rated 10.4. `createShip` rates the unrounded speed.
   */
  lemma RatingBeforeRoundingDiffers()
    ensures Round2(0.125) == 0.13
    ensures ComputeRating(0.125, false, 3019) == 10.0
    ensures ComputeRating(Round2(0.125), false, 3019) == 10.4
  {
    Round2Unique(0.125, 0.13);
    Round2Unique(10.0, 10.0);
    Round2Unique(10.4, 10.4);
  }
}
