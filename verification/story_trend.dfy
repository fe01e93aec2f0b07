/** `RaceStoryGenerator`: the session trend from a least-squares slope, the
    fastest three-lap stint and the first breakthrough lap. The lap table
    reaches this layer with a numeric time per lap. */
module StoryTrend {
  import opened Wrappers
  import opened Numeric
  import opened Collections

  datatype TimedLap = TimedLap(lap: int, time: real)

  function LapKey(x: TimedLap): real
  {
    -(x.lap as real)
  }

  /** `sort_values('lap')`. pandas does not promise a stable sort, but the
      laps of a lap table are distinct, so the order is determined; the
      model keeps ties in table order. */
  function SortByLap(r: seq<TimedLap>): (s: seq<TimedLap>)
    ensures |s| == |r| && multiset(s) == multiset(r)
    ensures forall i, j :: 0 <= i < j < |s| ==> s[i].lap <= s[j].lap
  {
    var s := SortDesc(r, LapKey);
    assert forall i, j :: 0 <= i < j < |s| ==> LapKey(s[i]) >= LapKey(s[j]);
    s
  }

  function Times(r: seq<TimedLap>): (t: seq<real>)
    ensures |t| == |r| && forall i :: 0 <= i < |r| ==> t[i] == r[i].time
  {
    seq(|r|, i requires 0 <= i < |r| => r[i].time)
  }

  // ---------------------------------------------------------------------------
  // Least-squares slope

  /** Sums over the first `n` rows of the table. */
  function SumX(r: seq<TimedLap>, n: nat): real
    requires n <= |r|
  {
    if n == 0 then 0.0 else SumX(r, n - 1) + r[n - 1].lap as real
  }

  function SumY(r: seq<TimedLap>, n: nat): real
    requires n <= |r|
  {
    if n == 0 then 0.0 else SumY(r, n - 1) + r[n - 1].time
  }

  function SumXX(r: seq<TimedLap>, n: nat): real
    requires n <= |r|
  {
    if n == 0 then 0.0 else SumXX(r, n - 1) + (r[n - 1].lap as real) * (r[n - 1].lap as real)
  }

  function SumXY(r: seq<TimedLap>, n: nat): real
    requires n <= |r|
  {
    if n == 0 then 0.0 else SumXY(r, n - 1) + (r[n - 1].lap as real) * r[n - 1].time
  }

  /** Denominator of the normal equations: `n Σx² − (Σx)²`. */
  function Spread(r: seq<TimedLap>): real
  {
    var n := |r|;
    (n as real) * SumXX(r, n) - SumX(r, n) * SumX(r, n)
  }

  /** `np.polyfit(laps, times, 1)[0]` in closed form. With a zero spread
      (every lap number equal) the fit is degenerate and the slope is 0. */
  function Slope(r: seq<TimedLap>): real
  {
    var n := |r|;
    SlopeOf(n as real, SumX(r, n), SumXX(r, n), SumY(r, n), SumXY(r, n))
  }

  /** The least-squares slope from the five sums of the normal equations. */
  function SlopeOf(n: real, sx: real, sxx: real, sy: real, sxy: real): real
  {
    var d := n * sxx - sx * sx;
    if d == 0.0 then 0.0 else (n * sxy - sx * sy) / d
  }

  /** Every row's time lies on the line `a + b·lap`. */
  predicate OnLine(r: seq<TimedLap>, a: real, b: real)
  {
    forall i :: 0 <= i < |r| ==> r[i].time == a + b * (r[i].lap as real)
  }

  /** The first `n` rows satisfy `Σy = n·a + b·Σx`. */
  predicate LineY(r: seq<TimedLap>, n: nat, a: real, b: real)
    requires n <= |r|
  {
    SumY(r, n) == (n as real) * a + b * SumX(r, n)
  }

  /** The first `n` rows satisfy `Σxy = a·Σx + b·Σx²`. */
  predicate LineXY(r: seq<TimedLap>, n: nat, a: real, b: real)
    requires n <= |r|
  {
    SumXY(r, n) == a * SumX(r, n) + b * SumXX(r, n)
  }

  /** Sums over a table whose times lie on the line `a + b·lap`. */
  lemma {:induction false} LinearSumY(r: seq<TimedLap>, n: nat, a: real, b: real)
    requires n <= |r| && OnLine(r, a, b)
    ensures LineY(r, n, a, b)
  {
    if n > 0 {
      LinearSumY(r, n - 1, a, b);
      var x := r[n - 1].lap as real;
      StepY(a, b, x, SumX(r, n - 1), (n - 1) as real);
    }
  }

  lemma {:induction false} LinearSumXY(r: seq<TimedLap>, n: nat, a: real, b: real)
    requires n <= |r| && OnLine(r, a, b)
    ensures LineXY(r, n, a, b)
  {
    if n > 0 {
      LinearSumXY(r, n - 1, a, b);
      SumXYStep(r, n, a, b);
    }
  }

  lemma SumXYStep(r: seq<TimedLap>, n: nat, a: real, b: real)
    requires 0 < n <= |r| && r[n - 1].time == a + b * (r[n - 1].lap as real)
    requires LineXY(r, n - 1, a, b)
    ensures LineXY(r, n, a, b)
  {
    var x := r[n - 1].lap as real;
    StepXY(a, b, x, r[n - 1].time, SumX(r, n - 1), SumXX(r, n - 1), SumXY(r, n - 1), SumX(r, n), SumXX(r, n), SumXY(r, n));
  }

  lemma StepY(a: real, b: real, x: real, sx: real, n: real)
    ensures (n * a + b * sx) + (a + b * x) == (n + 1.0) * a + b * (sx + x)
  {
  }

  lemma StepXY(a: real, b: real, x: real, t: real, sx: real, sxx: real, sxy: real, sx': real, sxx': real, sxy': real)
    requires t == a + b * x && sxy == a * sx + b * sxx
    requires sx' == sx + x && sxx' == sxx + x * x && sxy' == sxy + x * t
    ensures sxy' == a * sx' + b * sxx'
  {
    assert x * t == a * x + b * (x * x);
  }

  /** The fit recovers the slope of data on a line. */
  lemma LinearSlope(r: seq<TimedLap>, a: real, b: real)
    requires OnLine(r, a, b)
    requires Spread(r) != 0.0
    ensures Slope(r) == b
  {
    LinearSums(r, a, b);
    SlopeFromSums(r, a, b);
  }

  /** The normal-equation sums of a table on the line `a + b·lap`. */
  predicate SumsOnLine(r: seq<TimedLap>, a: real, b: real)
  {
    LineY(r, |r|, a, b) && LineXY(r, |r|, a, b)
  }

  lemma LinearSums(r: seq<TimedLap>, a: real, b: real)
    requires OnLine(r, a, b)
    ensures SumsOnLine(r, a, b)
  {
    LinearSumY(r, |r|, a, b);
    LinearSumXY(r, |r|, a, b);
  }

  lemma SlopeFromSums(r: seq<TimedLap>, a: real, b: real)
    requires Spread(r) != 0.0 && SumsOnLine(r, a, b)
    ensures Slope(r) == b
  {
    var n := |r|;
    SlopeAlgebra(n as real, a, b, SumX(r, n), SumXX(r, n), SumY(r, n), SumXY(r, n));
  }

  lemma SlopeAlgebra(n: real, a: real, b: real, sx: real, sxx: real, sy: real, sxy: real)
    requires n * sxx - sx * sx != 0.0
    requires sy == n * a + b * sx && sxy == a * sx + b * sxx
    ensures SlopeOf(n, sx, sxx, sy, sxy) == b
  {
    var d := n * sxx - sx * sx;
    assert n * sxy - sx * sy == b * d;
  }

  // ---------------------------------------------------------------------------
  // analyze_performance_trajectory

  datatype Trend = Improving | Declining | Consistent | InsufficientData

  /** The trend bands of the slope. */
  function TrendOf(slope: real): (t: Trend)
    ensures t != InsufficientData
    ensures t == Improving <==> slope < -0.1
    ensures t == Declining <==> slope > 0.1
  {
    if slope < -0.1 then Improving
    else if slope > 0.1 then Declining
    else Consistent
  }

  datatype Stint = Stint(startLap: int, endLap: int, avgTime: real, laps: nat)

  datatype Trajectory = Trajectory(trend: Trend, slope: real, improvementRate: real, fastestStint: Option<Stint>)

  /** Mean time of the three consecutive laps starting at `i`. */
  function WindowMean(s: seq<TimedLap>, i: nat): real
    requires i + 3 <= |s|
  {
    Mean(Times(s[i..i + 3]))
  }

  /** `_find_fastest_stint` with three laps: the first window, in lap
      order, with the smallest mean; its end lap is reported as the start
      lap plus two whatever the lap numbers are. */
  method FastestStint(r: seq<TimedLap>) returns (stint: Option<Stint>)
    ensures stint.None? <==> |r| < 3
    ensures stint.Some? ==> exists k :: StintAt(SortByLap(r), k, stint.value)
  {
    if |r| < 3 {
      return None;
    }
    var s := SortByLap(r);
    var best := WindowMean(s, 0);
    var bestIndex := 0;
    var i := 1;
    while i < |s| - 2
      invariant 1 <= i <= |s| - 2
      invariant bestIndex < i && best == WindowMean(s, bestIndex)
      invariant forall j :: 0 <= j < i ==> best <= WindowMean(s, j)
      invariant forall j :: 0 <= j < bestIndex ==> best < WindowMean(s, j)
    {
      var m := WindowMean(s, i);
      if m < best {
        best := m;
        bestIndex := i;
      }
      i := i + 1;
    }
    stint := Some(Stint(s[bestIndex].lap, s[bestIndex].lap + 2, best, 3));
    assert StintAt(s, bestIndex, stint.value);
  }

  /** `st` is the stint starting at window `k` of the lap-ordered table
      `s`, and window `k` is the first with the smallest mean. */
  predicate StintAt(s: seq<TimedLap>, k: nat, st: Stint)
  {
    && k + 3 <= |s|
    && st == Stint(s[k].lap, s[k].lap + 2, WindowMean(s, k), 3)
    && (forall j :: 0 <= j && j + 3 <= |s| ==> WindowMean(s, k) <= WindowMean(s, j))
    && (forall j :: 0 <= j < k ==> WindowMean(s, k) < WindowMean(s, j))
  }

  /** The first smallest window is unique, so the stint is determined. */
  lemma StintUnique(s: seq<TimedLap>, k1: nat, k2: nat, a: Stint, b: Stint)
    requires StintAt(s, k1, a) && StintAt(s, k2, b)
    ensures k1 == k2 && a == b
  {
  }

  /** `analyze_performance_trajectory`. */
  method AnalyzeTrajectory(r: seq<TimedLap>) returns (t: Trajectory)
    ensures |r| < 3 <==> t.trend == InsufficientData
    ensures |r| < 3 ==> t.slope == 0.0 && t.improvementRate == 0.0
    ensures |r| >= 3 ==> t.slope == Slope(r) && t.trend == TrendOf(Slope(r)) && t.fastestStint.Some?
    ensures |r| >= 3 ==> exists k :: StintAt(SortByLap(r), k, t.fastestStint.value)
    ensures |r| < 3 ==> t.fastestStint.None?
    ensures t.improvementRate >= 0.0 && (t.improvementRate == t.slope || t.improvementRate == -t.slope)
  {
    if |r| < 3 {
      return Trajectory(InsufficientData, 0.0, 0.0, None);
    }
    var slope := Slope(r);
    var stint := FastestStint(r);
    t := Trajectory(TrendOf(slope), slope, if slope < 0.0 then -slope else slope, stint);
  }

  /** Lap times on a line falling more than 0.1 s per lap read as
      improving, rising more than 0.1 s per lap as declining, and flatter
      lines as consistent. */
  lemma TrendOfLinear(r: seq<TimedLap>, a: real, b: real)
    requires |r| >= 3 && Spread(r) != 0.0 && OnLine(r, a, b)
    ensures b < -0.1 ==> TrendOf(Slope(r)) == Improving
    ensures b > 0.1 ==> TrendOf(Slope(r)) == Declining
    ensures -0.1 <= b <= 0.1 ==> TrendOf(Slope(r)) == Consistent
  {
    LinearSlope(r, a, b);
  }

  // ---------------------------------------------------------------------------
  // identify_breakthrough_moments

  datatype MomentKind = Breakthrough | BestLap

  datatype Moment = Moment(lap: int, kind: MomentKind, improvement: real)

  /** `lap_time.diff() * -1` at row `i` of the lap-ordered table. */
  function Improvement(s: seq<TimedLap>, i: nat): real
    requires 1 <= i < |s|
  {
    s[i - 1].time - s[i].time
  }

  /** First row at or after `i` that improves by more than 0.3 s. */
  function FirstBreak(s: seq<TimedLap>, i: nat): (k: nat)
    requires 1 <= i <= |s|
    ensures i <= k <= |s|
    ensures k < |s| ==> Improvement(s, k) > 0.3
    ensures forall j :: i <= j < k ==> Improvement(s, j) <= 0.3
    decreases |s| - i
  {
    if i == |s| then i
    else if Improvement(s, i) > 0.3 then i
    else FirstBreak(s, i + 1)
  }

  /** `identify_breakthrough_moments`: the first lap, in lap order, more
      than 0.3 s quicker than the lap before; failing that, the first
      fastest lap of the table with improvement 0. */
  function Breakthroughs(r: seq<TimedLap>): (m: Option<Moment>)
    ensures m.None? <==> |r| < 2
    ensures m.Some? && m.value.kind == Breakthrough ==>
              exists i :: 1 <= i < |r| && IsFirstBreak(SortByLap(r), i)
                && m.value == Moment(SortByLap(r)[i].lap, Breakthrough, Improvement(SortByLap(r), i))
    ensures m.Some? && m.value.kind == BestLap ==>
              && (forall i :: 1 <= i < |r| ==> Improvement(SortByLap(r), i) <= 0.3)
              && m.value.improvement == 0.0
              && exists k :: 0 <= k < |r| && m.value.lap == r[k].lap && IsFirstFastest(r, k)
  {
    if |r| < 2 then None
    else
      var s := SortByLap(r);
      var i := FirstBreak(s, 1);
      if i < |s| then
        assert IsFirstBreak(s, i);
        Some(Moment(s[i].lap, Breakthrough, Improvement(s, i)))
      else
        var k := FirstArgMin(Times(r));
        assert IsFirstFastest(r, k);
        Some(Moment(r[k].lap, BestLap, 0.0))
  }

  predicate IsFirstBreak(s: seq<TimedLap>, i: nat)
    requires 1 <= i < |s|
  {
    Improvement(s, i) > 0.3 && forall j :: 1 <= j < i ==> Improvement(s, j) <= 0.3
  }

  predicate IsFirstFastest(r: seq<TimedLap>, k: nat)
    requires k < |r|
  {
    (forall j :: 0 <= j < |r| ==> r[k].time <= r[j].time) && (forall j :: 0 <= j < k ==> r[k].time < r[j].time)
  }

  /** A breakthrough lap is strictly faster than the lap before it, and
      more than 0.3 s so. */
  lemma BreakthroughIsFaster(r: seq<TimedLap>)
    requires |r| >= 2 && Breakthroughs(r).value.kind == Breakthrough
    ensures exists i :: 1 <= i < |r| && SortByLap(r)[i].lap == Breakthroughs(r).value.lap
              && SortByLap(r)[i].time + 0.3 < SortByLap(r)[i - 1].time
  {
    var i :| 1 <= i < |r| && IsFirstBreak(SortByLap(r), i)
      && Breakthroughs(r).value == Moment(SortByLap(r)[i].lap, Breakthrough, Improvement(SortByLap(r), i));
  }
}
