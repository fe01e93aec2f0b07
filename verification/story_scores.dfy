/** `RaceStoryGenerator` scores: the piecewise consistency score of the lap
    times and the weighted risk index of the telemetry. Square roots are not
    taken: the standard deviation is an input tied to the variance by
    `std * std == variance`. */
module StoryScores {
  import opened Wrappers
  import opened Numeric
  import opened Config
  import opened Telemetry

  // ---------------------------------------------------------------------------
  // calculate_consistency_score

  /** The piecewise map from the coefficient of variation (in percent) to
      a 0–10 score. */
  function ScoreOfCv(cv: real): (score: real)
    ensures 0.0 <= score <= 10.0
    ensures cv <= 0.5 ==> score == 10.0
    ensures cv >= 15.0 ==> score == 0.0
  {
    if cv < 0.5 then 10.0
    else if cv < 2.0 then 10.0 - (cv - 0.5) * (2.5 / 1.5)
    else if cv < 10.0 then 7.5 - (cv - 2.0) * (5.0 / 8.0)
    else Max(0.0, 2.5 - (cv - 10.0) * (2.5 / 5.0))
  }

  /** The score never rises with the variation and never drops faster than
      5/3 point per percent, so the pieces meet at 0.5, 2 and 10 without a
      jump. */
  lemma ScoreLipschitz(a: real, b: real)
    requires a <= b
    ensures 0.0 <= ScoreOfCv(a) - ScoreOfCv(b) <= (b - a) * (5.0 / 3.0)
  {
  }

  /** The anchor points of the score scale. */
  lemma ScoreAnchors()
    ensures ScoreOfCv(0.5) == 10.0 && ScoreOfCv(2.0) == 7.5
    ensures ScoreOfCv(5.0) == 5.625 && ScoreOfCv(10.0) == 2.5 && ScoreOfCv(15.0) == 0.0
  {
  }

  datatype ConsistencyRating = Excellent | VeryGood | Good | Fair | NeedsImprovement | ConsistencyNotRated

  function ConsistencyRatingOf(score: real): ConsistencyRating
  {
    if score >= 8.5 then Excellent
    else if score >= 7.0 then VeryGood
    else if score >= 5.5 then Good
    else if score >= 4.0 then Fair
    else NeedsImprovement
  }

  function ConsistencyRank(r: ConsistencyRating): nat
  {
    match r
    case Excellent => 5
    case VeryGood => 4
    case Good => 3
    case Fair => 2
    case NeedsImprovement => 1
    case ConsistencyNotRated => 0
  }

  /** A higher score never gets a worse rating. */
  lemma ConsistencyRatingMonotone(a: real, b: real)
    requires a <= b
    ensures ConsistencyRank(ConsistencyRatingOf(a)) <= ConsistencyRank(ConsistencyRatingOf(b))
  {
  }

  datatype Consistency = Consistency(score: real, rating: ConsistencyRating, stdDev: real, range: real)

  /** The standard deviation `std` belongs to `times` (population, `np.std`). */
  predicate PopStd(times: seq<real>, std: real)
  {
    std >= 0.0 && std * std == PopVariance(times)
  }

  /** `calculate_consistency_score`. Fewer than three laps are not rated.
      A zero mean makes the coefficient infinite or NaN, and both fall
      through to a score of 0. */
  function ConsistencyScore(times: seq<real>, std: real): (c: Consistency)
    requires |times| >= 3 ==> PopStd(times, std)
    ensures |times| < 3 <==> c.rating == ConsistencyNotRated
    ensures |times| < 3 ==> c == Consistency(0.0, ConsistencyNotRated, 0.0, 0.0)
    ensures 0.0 <= c.score <= 10.0
    ensures |times| >= 3 ==> c.rating == ConsistencyRatingOf(c.score) && c.stdDev == std
    ensures |times| >= 3 ==> c.range == MaxOf(times) - MinOf(times) && c.range >= 0.0
    ensures |times| >= 3 && Mean(times) != 0.0 ==> c.score == ScoreOfCv(std / Mean(times) * 100.0)
    ensures |times| >= 3 && Mean(times) == 0.0 ==> c.score == 0.0
  {
    if |times| < 3 then Consistency(0.0, ConsistencyNotRated, 0.0, 0.0)
    else
      var m := Mean(times);
      var score := if m == 0.0 then 0.0 else ScoreOfCv(std / m * 100.0);
      Consistency(score, ConsistencyRatingOf(score), std, MaxOf(times) - MinOf(times))
  }

  /** Identical lap times score 10 and rate excellent. */
  lemma ConsistencyOfIdenticalLaps(times: seq<real>, c: real)
    requires |times| >= 3 && c > 0.0
    requires forall i :: 0 <= i < |times| ==> times[i] == c
    ensures PopStd(times, 0.0)
    ensures ConsistencyScore(times, 0.0).score == 10.0
    ensures ConsistencyScore(times, 0.0).rating == Excellent
    ensures ConsistencyScore(times, 0.0).range == 0.0
  {
    MeanConstant(times, c);
    SumSqDevConstant(times, c);
  }

  /** The standard deviation is determined by the variance, so the score
      is a function of the lap times alone. */
  lemma PopStdUnique(times: seq<real>, std1: real, std2: real)
    requires PopStd(times, std1) && PopStd(times, std2)
    ensures std1 == std2
    ensures |times| >= 3 ==> ConsistencyScore(times, std1) == ConsistencyScore(times, std2)
  {
    if std1 < std2 {
      ProductMonotone(std1, std2);
    } else if std2 < std1 {
      ProductMonotone(std2, std1);
    }
  }

  lemma PositiveProduct(x: real, y: real)
    requires x > 0.0 && y > 0.0
    ensures x * y > 0.0
  {
  }

  lemma ProductMonotone(a: real, b: real)
    requires 0.0 <= a < b
    ensures a * a < b * b
  {
    assert b * b - a * a == (b - a) * (b + a);
    PositiveProduct(b - a, b + a);
  }

  /** Between two sessions of at least three laps with the same positive
      mean lap time, the one whose lap times vary less scores at least as
      high. */
  lemma LowerSpreadScoresHigher(t1: seq<real>, t2: seq<real>, std1: real, std2: real)
    requires |t1| >= 3 && |t2| >= 3 && PopStd(t1, std1) && PopStd(t2, std2)
    requires Mean(t1) == Mean(t2) > 0.0 && PopVariance(t1) <= PopVariance(t2)
    ensures ConsistencyScore(t2, std2).score <= ConsistencyScore(t1, std1).score
  {
    if std2 < std1 {
      ProductMonotone(std2, std1);
    }
    SmallerCvScoresHigher(Mean(t1), std1, std2);
  }

  lemma SmallerCvScoresHigher(m: real, std1: real, std2: real)
    requires m > 0.0 && 0.0 <= std1 <= std2
    ensures ScoreOfCv(std2 / m * 100.0) <= ScoreOfCv(std1 / m * 100.0)
  {
    DivideMonotone(std1, std2, m);
    ScoreLipschitz(std1 / m * 100.0, std2 / m * 100.0);
  }

  lemma DivideMonotone(a: real, b: real, m: real)
    requires m > 0.0 && a <= b
    ensures a / m * 100.0 <= b / m * 100.0
  {
    assert (b - a) / m >= 0.0;
    assert b / m - a / m == (b - a) / m;
  }

  // ---------------------------------------------------------------------------
  // calculate_risk_index

  datatype RiskRating = VeryAggressive | Aggressive | Balanced | Conservative | VeryConservative | RiskNotRated

  function RiskRatingOf(score: real): RiskRating
  {
    if score >= 8.0 then VeryAggressive
    else if score >= 6.5 then Aggressive
    else if score >= 5.0 then Balanced
    else if score >= 3.5 then Conservative
    else VeryConservative
  }

  /** Components present in the telemetry; a missing one is left out and
      counts 5.0 in the score. */
  datatype RiskComponents = RiskComponents(braking: Option<real>, throttle: Option<real>, corner: Option<real>)

  datatype Risk = Risk(score: real, rating: RiskRating, components: RiskComponents)

  /** Percentage of the `n` rows whose reading is above `threshold`. */
  function PercentAbove(s: seq<real>, threshold: real, n: nat): (p: real)
    requires n > 0
    ensures 0.0 <= p
    ensures |s| <= n ==> p <= 100.0
  {
    CountAbove(s, threshold) as real / n as real * 100.0
  }

  /** A share `k / n`, scaled, reaches `cap` exactly when `k * scale`
      reaches `cap * n`. */
  lemma ShareCap(k: real, n: real, scale: real, cap: real)
    requires n > 0.0
    ensures k / n * scale == k * scale / n
    ensures k / n * scale >= cap <==> k * scale >= cap * n
  {
    var q := k / n;
    assert q * n == k;
    assert (q * scale) * n == k * scale;
    assert q * scale >= cap ==> q * scale * n >= cap * n;
    assert q * scale < cap ==> q * scale * n < cap * n;
  }

  /** Heavy-braking share, doubled and capped at 10: with `k` heavy rows
      out of `n`, 10 from one row in twenty on, else `200 k / n`. */
  function BrakingAggression(bi: seq<real>, n: nat): (b: real)
    requires n > 0
    ensures 0.0 <= b <= 10.0
    ensures var k := CountAbove(bi, Cfg.heavyBrakeThreshold) as real;
      && (k * 20.0 >= n as real ==> b == 10.0)
      && (k * 20.0 < n as real ==> b == k * 200.0 / n as real)
  {
    var k := CountAbove(bi, Cfg.heavyBrakeThreshold) as real;
    ShareCap(k, n as real, 200.0, 10.0);
    Min(10.0, PercentAbove(bi, Cfg.heavyBrakeThreshold, n) * 2.0)
  }

  /** Full-throttle share, divided by five and capped at 10: with `k`
      full-throttle rows out of `n`, 10 from half the rows on, else
      `20 k / n`. */
  function ThrottleAggression(th: seq<real>, n: nat): (t: real)
    requires n > 0
    ensures 0.0 <= t <= 10.0
    ensures var k := CountAbove(th, Cfg.throttleFullThreshold) as real;
      && (k * 2.0 >= n as real ==> t == 10.0)
      && (k * 2.0 < n as real ==> t == k * 20.0 / n as real)
  {
    var k := CountAbove(th, Cfg.throttleFullThreshold) as real;
    ShareCap(k, n as real, 20.0, 10.0);
    Min(10.0, PercentAbove(th, Cfg.throttleFullThreshold, n) / 5.0)
  }

  /** Speed coefficient of variation (sample std), halved and capped at 10.
      With one row the std is NaN, and with a zero mean the quotient is
      infinite or NaN; `min(10.0, ·)` returns 10 in each case. */
  function CornerVariance(speed: seq<real>, std: real): (c: real)
    requires |speed| > 0
    ensures c <= 10.0
    ensures |speed| < 2 || Mean(speed) == 0.0 ==> c == 10.0
    ensures std >= 0.0 && Mean(speed) > 0.0 ==> c >= 0.0
    ensures |speed| >= 2 && Mean(speed) > 0.0 ==>
      && (c == 10.0 <==> std * 5.0 >= Mean(speed))
      && (std * 5.0 < Mean(speed) ==> c == std * 50.0 / Mean(speed))
  {
    if |speed| < 2 || Mean(speed) == 0.0 then 10.0
    else
      var m := Mean(speed);
      if m > 0.0 then
        ShareCap(std, m, 50.0, 10.0);
        assert std >= 0.0 ==> std / m >= 0.0;
        Min(10.0, std / m * 100.0 / 2.0)
      else Min(10.0, std / m * 100.0 / 2.0)
  }

  /** With a positive mean speed, a larger spread never lowers the corner
      component. */
  lemma CornerVarianceMonotone(speed: seq<real>, std1: real, std2: real)
    requires |speed| >= 2 && Mean(speed) > 0.0 && std1 <= std2
    ensures CornerVariance(speed, std1) <= CornerVariance(speed, std2)
  {
    DivideMonotone(std1, std2, Mean(speed));
  }

  /** The speed standard deviation `std` belongs to the frame (sample,
      pandas `std`). */
  predicate SpeedStd(f: Frame, std: real)
    requires Valid(f)
  {
    std >= 0.0 && (f.speed.Some? && f.size >= 2 ==> std * std == SampleVariance(f.speed.value))
  }

  function Weighted(b: real, t: real, c: real): real
  {
    b * 0.4 + t * 0.3 + c * 0.3
  }

  /** `calculate_risk_index`: brake intensity, throttle (`ath`) and speed
      channels give the three components, weighted 0.4, 0.3 and 0.3. */
  function RiskIndex(f: Frame, speedStd: real): (r: Risk)
    requires Valid(f) && SpeedStd(f, speedStd)
    ensures f.size == 0 <==> r.rating == RiskNotRated
    ensures f.size == 0 ==> r == Risk(0.0, RiskNotRated, RiskComponents(None, None, None))
    ensures f.size > 0 ==> && (r.components.braking.Some? <==> f.brakeIntensity.Some?)
                           && (r.components.throttle.Some? <==> f.throttle.Some?)
                           && (r.components.corner.Some? <==> f.speed.Some?)
                           && r.rating == RiskRatingOf(r.score)
                           && r.score == Weighted(r.components.braking.GetOr(5.0),
                                                  r.components.throttle.GetOr(5.0),
                                                  r.components.corner.GetOr(5.0))
    ensures f.size > 0 && f.brakeIntensity.Some? ==>
              r.components.braking == Some(BrakingAggression(f.brakeIntensity.value, f.size))
    ensures f.size > 0 && f.throttle.Some? ==>
              r.components.throttle == Some(ThrottleAggression(f.throttle.value, f.size))
    ensures f.size > 0 && f.speed.Some? ==>
              r.components.corner == Some(CornerVariance(f.speed.value, speedStd))
  {
    var n := f.size;
    if n == 0 then Risk(0.0, RiskNotRated, RiskComponents(None, None, None))
    else
      var b := if f.brakeIntensity.Some? then Some(BrakingAggression(f.brakeIntensity.value, n)) else None;
      var t := if f.throttle.Some? then Some(ThrottleAggression(f.throttle.value, n)) else None;
      var c := if f.speed.Some? then Some(CornerVariance(f.speed.value, speedStd)) else None;
      var score := Weighted(b.GetOr(5.0), t.GetOr(5.0), c.GetOr(5.0));
      Risk(score, RiskRatingOf(score), RiskComponents(b, t, c))
  }

  /** Every component is capped at 10, so the index is at most 10; it is
      at least 0 when the mean speed is positive, and a frame with none of
      the three channels scores the neutral 5.0, rated balanced. */
  lemma RiskBounds(f: Frame, speedStd: real)
    requires Valid(f) && SpeedStd(f, speedStd) && f.size > 0
    ensures RiskIndex(f, speedStd).score <= 10.0
    ensures f.speed.None? || f.size < 2 || Mean(f.speed.value) > 0.0 ==> RiskIndex(f, speedStd).score >= 0.0
    ensures f.brakeIntensity.None? && f.throttle.None? && f.speed.None? ==>
              RiskIndex(f, speedStd).score == 5.0 && RiskIndex(f, speedStd).rating == Balanced
  {
  }

  /** The index lies between the smallest and the largest of the three
      contributions, as a weighted mean should. */
  lemma RiskIsWeightedMean(b: real, t: real, c: real)
    ensures Min(b, Min(t, c)) <= Weighted(b, t, c) <= Max(b, Max(t, c))
  {
  }

  /** Heavy braking on at least 5% of the rows saturates the braking
      component of the index. */
  lemma BrakingSaturates(f: Frame, speedStd: real)
    requires Valid(f) && SpeedStd(f, speedStd) && f.size > 0 && f.brakeIntensity.Some?
    requires CountAbove(f.brakeIntensity.value, Cfg.heavyBrakeThreshold) as real >= 0.05 * f.size as real
    ensures RiskIndex(f, speedStd).components.braking == Some(10.0)
  {
  }

  /** Full throttle on at least half of the rows saturates the throttle
      component of the index. */
  lemma ThrottleSaturates(f: Frame, speedStd: real)
    requires Valid(f) && SpeedStd(f, speedStd) && f.size > 0 && f.throttle.Some?
    requires CountAbove(f.throttle.value, Cfg.throttleFullThreshold) as real * 2.0 >= f.size as real
    ensures RiskIndex(f, speedStd).components.throttle == Some(10.0)
  {
  }
}
