/** `RaceStoryGenerator` sector analysis: per-sector insights ranked by
    spread, the optimal lap built from each sector's best time, and the
    capped list of recommendations. Sector rows reach this layer with a
    numeric time. */
module StorySectors {
  import opened Wrappers
  import opened Numeric
  import opened Collections
  import opened StoryTrend

  datatype SectorEntry = SectorEntry(lap: int, sector: string, time: real)

  function SectorsOf(rows: seq<SectorEntry>): (s: seq<string>)
    ensures |s| == |rows| && forall i :: 0 <= i < |rows| ==> s[i] == rows[i].sector
  {
    seq(|rows|, i requires 0 <= i < |rows| => rows[i].sector)
  }

  /** Times of the rows of sector `name`, in row order. */
  function TimesOf(rows: seq<SectorEntry>, name: string): (t: seq<real>)
    ensures name in SectorsOf(rows) ==> |t| > 0
    ensures forall x :: x in t ==> exists i :: 0 <= i < |rows| && rows[i].sector == name && rows[i].time == x
    ensures forall i :: 0 <= i < |rows| && rows[i].sector == name ==> rows[i].time in t
  {
    if |rows| == 0 then []
    else
      var rest := TimesOf(rows[1..], name);
      assert SectorsOf(rows) == [rows[0].sector] + SectorsOf(rows[1..]);
      forall x | x in rest ensures exists i :: 0 <= i < |rows| && rows[i].sector == name && rows[i].time == x {
        var j :| 0 <= j < |rows[1..]| && rows[1..][j].sector == name && rows[1..][j].time == x;
        assert rows[j + 1] == rows[1..][j];
      }
      forall i | 1 <= i < |rows| && rows[i].sector == name ensures rows[i].time in rest {
        assert rows[1..][i - 1] == rows[i];
      }
      (if rows[0].sector == name then [rows[0].time] else []) + rest
  }

  // ---------------------------------------------------------------------------
  // generate_sector_narrative

  datatype Performance = Strength | Neutral | Weakness

  /** Range bands: below 0.1 s a strength, below 0.3 s neutral, else a
      weakness. */
  function PerformanceOf(range: real): (p: Performance)
    ensures p == Strength <==> range < 0.1
    ensures p == Weakness <==> range >= 0.3
  {
    if range < 0.1 then Strength else if range < 0.3 then Neutral else Weakness
  }

  datatype Insight = Insight(sector: string, performance: Performance, bestTime: real, worstTime: real, avgTime: real, range: real)

  /** The insight of one sector: its fastest, slowest and mean time, and
      the spread between the first two. */
  function InsightOf(rows: seq<SectorEntry>, name: string): (x: Insight)
    requires name in SectorsOf(rows)
    ensures x.sector == name && x.range == x.worstTime - x.bestTime && x.range >= 0.0
    ensures x.bestTime <= x.avgTime <= x.worstTime
    ensures x.performance == PerformanceOf(x.range)
    ensures exists i :: 0 <= i < |rows| && rows[i].sector == name && rows[i].time == x.bestTime
    ensures exists i :: 0 <= i < |rows| && rows[i].sector == name && rows[i].time == x.worstTime
    ensures forall i :: 0 <= i < |rows| && rows[i].sector == name ==> x.bestTime <= rows[i].time <= x.worstTime
    ensures x.avgTime == Mean(TimesOf(rows, name))
  {
    var t := TimesOf(rows, name);
    MeanBounds(t);
    var range := MaxOf(t) - MinOf(t);
    Insight(name, PerformanceOf(range), MinOf(t), MaxOf(t), Mean(t), range)
  }

  function RangeKey(x: Insight): real
  {
    x.range
  }

  /** One insight per distinct sector, in first-appearance order. */
  function Insights(rows: seq<SectorEntry>): (r: seq<Insight>)
    ensures |r| == |Unique(SectorsOf(rows))|
    ensures forall k :: 0 <= k < |r| ==> r[k] == InsightOf(rows, Unique(SectorsOf(rows))[k])
  {
    var names := Unique(SectorsOf(rows));
    seq(|names|, k requires 0 <= k < |names| => InsightOf(rows, names[k]))
  }

  /** `generate_sector_narrative`: the insights ordered by range, widest
      first; Python's sort is stable, so ties keep first-appearance order. */
  function SectorNarrative(rows: seq<SectorEntry>): (r: seq<Insight>)
    ensures |r| == |Unique(SectorsOf(rows))|
    ensures multiset(r) == multiset(Insights(rows))
    ensures SortedDesc(r, RangeKey)
    ensures forall k :: KeyFilter(r, RangeKey, k) == KeyFilter(Insights(rows), RangeKey, k)
  {
    SortDesc(Insights(rows), RangeKey)
  }

  /** Every sector of the table gets exactly one insight, with its own
      statistics, and only sectors of the table do. */
  lemma SectorNarrativeCovers(rows: seq<SectorEntry>)
    ensures forall k :: 0 <= k < |SectorNarrative(rows)| ==>
              (SectorNarrative(rows)[k].sector in SectorsOf(rows)
               && SectorNarrative(rows)[k] == InsightOf(rows, SectorNarrative(rows)[k].sector))
    ensures forall name :: name in SectorsOf(rows) ==>
              exists k :: 0 <= k < |SectorNarrative(rows)| && SectorNarrative(rows)[k].sector == name
  {
    NarrativeSound(rows, SectorNarrative(rows));
    NarrativeComplete(rows, SectorNarrative(rows));
  }

  lemma NarrativeSound(rows: seq<SectorEntry>, r: seq<Insight>)
    requires r == SectorNarrative(rows)
    ensures forall k :: 0 <= k < |r| ==> r[k].sector in SectorsOf(rows) && r[k] == InsightOf(rows, r[k].sector)
  {
    var ins := Insights(rows);
    forall k | 0 <= k < |r| ensures r[k].sector in SectorsOf(rows) && r[k] == InsightOf(rows, r[k].sector) {
      assert r[k] in multiset(ins);
      var j :| 0 <= j < |ins| && ins[j] == r[k];
    }
  }

  lemma NarrativeComplete(rows: seq<SectorEntry>, r: seq<Insight>)
    requires r == SectorNarrative(rows)
    ensures forall name :: name in SectorsOf(rows) ==> exists k :: 0 <= k < |r| && r[k].sector == name
  {
    var ins := Insights(rows);
    var names := Unique(SectorsOf(rows));
    forall name | name in SectorsOf(rows) ensures exists k :: 0 <= k < |r| && r[k].sector == name {
      var j :| 0 <= j < |names| && names[j] == name;
      assert ins[j] in multiset(r);
      var k :| 0 <= k < |r| && r[k] == ins[j];
    }
  }

  /** No sector is reported twice. */
  lemma SectorNarrativeDistinct(rows: seq<SectorEntry>)
    ensures forall a, b :: 0 <= a < b < |SectorNarrative(rows)| ==>
              SectorNarrative(rows)[a].sector != SectorNarrative(rows)[b].sector
  {
    var r := SectorNarrative(rows);
    var ins := Insights(rows);
    var names := Unique(SectorsOf(rows));
    assert Distinct(ins) by {
      forall j, k | 0 <= j < k < |ins| ensures ins[j] != ins[k] {
        assert ins[j].sector == names[j] && ins[k].sector == names[k];
      }
    }
    PermutationDistinct(ins, r);
    NarrativeSound(rows, r);
  }

  lemma PermutationDistinct<T>(a: seq<T>, b: seq<T>)
    requires multiset(a) == multiset(b) && Distinct(a)
    ensures Distinct(b)
  {
    forall i, j | 0 <= i < j < |b| ensures b[i] != b[j] {
      if b[i] == b[j] {
        MultisetTwice(b, i, j);
        MultisetCount(a, b[i]);
        DistinctCountOne(a, b[i]);
        assert false;
      }
    }
  }

  lemma {:induction false} MultisetCount<T>(s: seq<T>, v: T)
    ensures multiset(s)[v] == Collections.Count(s, v)
  {
    if |s| > 0 {
      assert s == [s[0]] + s[1..];
      MultisetCount(s[1..], v);
    }
  }

  // ---------------------------------------------------------------------------
  // find_optimal_lap

  datatype Gap = Gap(sector: string, gap: real)

  datatype OptimalLap = OptimalLap(optimalTime: Option<real>, actualBest: Option<real>, potentialGain: real, gaps: seq<Gap>)

  /** Best time of every sector, in `groupby` (sorted name) order. */
  function SectorBests(rows: seq<SectorEntry>, names: seq<string>): (b: seq<real>)
    requires forall n :: n in names ==> n in SectorsOf(rows)
    ensures |b| == |names|
    ensures forall k :: 0 <= k < |names| ==> b[k] == MinOf(TimesOf(rows, names[k]))
  {
    seq(|names|, k requires 0 <= k < |names| => MinOf(TimesOf(rows, names[k])))
  }

  function GroupNames(rows: seq<SectorEntry>): (names: seq<string>)
    ensures forall name :: name in names <==> name in SectorsOf(rows)
    ensures StrictlySorted(names, StrLess)
  {
    StrLessIsStrictTotalOrder();
    SortedDistinct(SectorsOf(rows), StrLess)
  }

  /** Time of the first row of sector `name` on lap `lap`, if any. */
  function FirstTimeOn(rows: seq<SectorEntry>, name: string, lap: int): (t: Option<real>)
    ensures t.None? <==> forall i :: 0 <= i < |rows| ==> !(rows[i].sector == name && rows[i].lap == lap)
    ensures t.Some? ==> exists i :: 0 <= i < |rows| && rows[i].sector == name && rows[i].lap == lap && rows[i].time == t.value
                                  && forall j :: 0 <= j < i ==> !(rows[j].sector == name && rows[j].lap == lap)
  {
    if |rows| == 0 then None
    else if rows[0].sector == name && rows[0].lap == lap then Some(rows[0].time)
    else
      var t := FirstTimeOn(rows[1..], name, lap);
      if t.Some? then
        var j :| 0 <= j < |rows[1..]| && rows[1..][j].sector == name && rows[1..][j].lap == lap && rows[1..][j].time == t.value;
        assert rows[j + 1] == rows[1..][j];
        t
      else
        assert forall i :: 1 <= i < |rows| ==> rows[i] == rows[1..][i - 1];
        t
  }

  function GapKey(g: Gap): real
  {
    g.gap
  }

  /** How much slower the best lap was in sector `name` than that sector's
      best time; `None` when the best lap has no row in the sector. */
  function SectorGap(rows: seq<SectorEntry>, name: string, bestLap: int): Option<real>
    requires name in SectorsOf(rows)
  {
    var t := FirstTimeOn(rows, name, bestLap);
    if t.Some? then Some(t.value - MinOf(TimesOf(rows, name))) else None
  }

  /** Gap entries for the sectors `names`, in order: exactly the sectors
      whose gap exceeds 0.05 s. */
  function GapEntries(rows: seq<SectorEntry>, names: seq<string>, bestLap: int): (g: seq<Gap>)
    requires forall n :: n in names ==> n in SectorsOf(rows)
    ensures forall x :: x in g ==>
              x.sector in names && x.gap > 0.05 && SectorGap(rows, x.sector, bestLap) == Some(x.gap)
    ensures forall n :: n in names && SectorGap(rows, n, bestLap).Some? && SectorGap(rows, n, bestLap).value > 0.05 ==>
              Gap(n, SectorGap(rows, n, bestLap).value) in g
  {
    if |names| == 0 then []
    else
      var rest := GapEntries(rows, names[1..], bestLap);
      var gap := SectorGap(rows, names[0], bestLap);
      assert forall n :: n in names ==> n == names[0] || n in names[1..];
      if gap.Some? && gap.value > 0.05 then [Gap(names[0], gap.value)] + rest else rest
  }

  /** The lap number of the first fastest lap (`idxmin`). */
  function BestLap(laps: seq<TimedLap>): (l: int)
    requires |laps| > 0
    ensures exists k :: 0 <= k < |laps| && laps[k].lap == l
              && (forall j :: 0 <= j < |laps| ==> laps[k].time <= laps[j].time)
              && (forall j :: 0 <= j < k ==> laps[j].time > laps[k].time)
  {
    var k := FirstArgMin(Times(laps));
    laps[k].lap
  }

  /** `find_optimal_lap`. With sector rows but no lap rows `idxmin` raises,
      modelled as `None`. The gaps are collected in sorted sector-name order
      and then stably sorted by gap, largest first, so equal gaps keep
      name order. */
  function FindOptimalLap(laps: seq<TimedLap>, rows: seq<SectorEntry>): (r: Option<OptimalLap>)
    ensures r.None? <==> |rows| > 0 && |laps| == 0
    ensures |rows| == 0 ==> r == Some(OptimalLap(None, None, 0.0, []))
    ensures r.Some? && |rows| > 0 ==>
              && r.value.optimalTime == Some(Sum(SectorBests(rows, GroupNames(rows))))
              && r.value.actualBest == Some(MinOf(Times(laps)))
              && r.value.potentialGain == MinOf(Times(laps)) - Sum(SectorBests(rows, GroupNames(rows)))
              && multiset(r.value.gaps) == multiset(GapEntries(rows, GroupNames(rows), BestLap(laps)))
              && SortedDesc(r.value.gaps, GapKey)
              && (forall k :: KeyFilter(r.value.gaps, GapKey, k) == KeyFilter(GapEntries(rows, GroupNames(rows), BestLap(laps)), GapKey, k))
              && (forall k :: 0 <= k < |r.value.gaps| ==> r.value.gaps[k].gap > 0.05)
  {
    if |rows| == 0 then Some(OptimalLap(None, None, 0.0, []))
    else if |laps| == 0 then None
    else
      var names := GroupNames(rows);
      var optimal := Sum(SectorBests(rows, names));
      var best := MinOf(Times(laps));
      var gaps := GapEntries(rows, names, BestLap(laps));
      var sorted := SortDesc(gaps, GapKey);
      assert forall k :: 0 <= k < |sorted| ==> sorted[k].gap > 0.05 by {
        forall k | 0 <= k < |sorted| ensures sorted[k].gap > 0.05 {
          assert sorted[k] in multiset(gaps);
        }
      }
      Some(OptimalLap(Some(optimal), Some(best), best - optimal, sorted))
  }

  /** The optimal lap is no slower than any lap assembled from one
      recorded time per sector: `pick[k]` is some row of sector
      `names[k]`. */
  lemma OptimalBelowAnyPick(rows: seq<SectorEntry>, pick: seq<nat>)
    requires |rows| > 0 && |pick| == |GroupNames(rows)|
    requires forall k :: 0 <= k < |pick| ==> pick[k] < |rows| && rows[pick[k]].sector == GroupNames(rows)[k]
    ensures Sum(SectorBests(rows, GroupNames(rows))) <= Sum(seq(|pick|, k requires 0 <= k < |pick| => rows[pick[k]].time))
  {
    var names := GroupNames(rows);
    var bests := SectorBests(rows, names);
    var picked := seq(|pick|, k requires 0 <= k < |pick| => rows[pick[k]].time);
    forall k | 0 <= k < |pick| ensures bests[k] <= picked[k] {
      assert rows[pick[k]].time in TimesOf(rows, names[k]);
    }
    SumPointwise(bests, picked);
  }

  lemma {:induction false} SumPointwise(a: seq<real>, b: seq<real>)
    requires |a| == |b| && forall k :: 0 <= k < |a| ==> a[k] <= b[k]
    ensures Sum(a) <= Sum(b)
  {
    if |a| > 0 {
      SumPointwise(a[1..], b[1..]);
    }
  }

  // ---------------------------------------------------------------------------
  // generate_recommendations

  datatype Advice = FocusSector(sector: string) | WorkOnConsistency | ReduceRisk | ExploreLimits | PaceDeclining | KeepPushing

  /** The sector rule: the first insight, if its range exceeds 0.3 s. */
  function SectorAdvice(rows: seq<SectorEntry>): (a: seq<Advice>)
    ensures |a| <= 1
    ensures |a| == 1 ==> a[0].FocusSector?
    ensures KeepPushing !in a
  {
    if |rows| == 0 then []
    else
      var insights := SectorNarrative(rows);
      if |insights| > 0 && insights[0].range > 0.3 then [FocusSector(insights[0].sector)] else []
  }

  function ConsistencyAdvice(consistency: real): (a: seq<Advice>)
    ensures |a| <= 1 && KeepPushing !in a
  {
    if consistency < 7.0 then [WorkOnConsistency] else []
  }

  /** The risk rule has two exclusive branches. */
  function RiskAdvice(consistency: real, risk: real): (a: seq<Advice>)
    ensures |a| <= 1 && KeepPushing !in a
  {
    if risk > 8.0 && consistency < 6.0 then [ReduceRisk] else if risk < 4.0 then [ExploreLimits] else []
  }

  function TrendAdvice(trend: Trend): (a: seq<Advice>)
    ensures |a| <= 1 && KeepPushing !in a
  {
    if trend == Declining then [PaceDeclining] else []
  }

  /** The rules that fire, in the order they are checked, given the
      outcome `focus` of the sector rule. */
  function Fired(focus: seq<Advice>, consistency: real, risk: real, trend: Trend): (f: seq<Advice>)
    requires |focus| <= 1 && KeepPushing !in focus
    ensures |f| <= 4 && KeepPushing !in f
  {
    focus + ConsistencyAdvice(consistency) + RiskAdvice(consistency, risk) + TrendAdvice(trend)
  }

  /** The generic advice when nothing fires, else the first three. */
  function Capped(fired: seq<Advice>): (r: seq<Advice>)
    requires KeepPushing !in fired
    ensures 1 <= |r| <= 3
    ensures r == [KeepPushing] <==> |fired| == 0
    ensures |fired| > 0 ==> |r| == (if |fired| < 3 then |fired| else 3) && r == fired[..|r|]
  {
    if |fired| == 0 then [KeepPushing]
    else if |fired| <= 3 then fired
    else
      assert fired[0] in fired;
      fired[..3]
  }

  /** `generate_recommendations`, on the rounded scores it is given. */
  function Recommendations(rows: seq<SectorEntry>, consistency: real, risk: real, trend: Trend): (r: seq<Advice>)
    ensures 1 <= |r| <= 3
  {
    Capped(Fired(SectorAdvice(rows), consistency, risk, trend))
  }

  /** Which advice appears, for any outcome of the sector rule. */
  lemma {:induction false} CappedRules(focus: seq<Advice>, consistency: real, risk: real, trend: Trend)
    requires |focus| <= 1 && KeepPushing !in focus && (|focus| == 1 ==> focus[0].FocusSector?)
    ensures var r := Capped(Fired(focus, consistency, risk, trend));
      && (KeepPushing in r <==> |Fired(focus, consistency, risk, trend)| == 0)
      && (WorkOnConsistency in r <==> consistency < 7.0)
      && (ReduceRisk in r <==> risk > 8.0 && consistency < 6.0)
      && (ExploreLimits in r <==> !(risk > 8.0 && consistency < 6.0) && risk < 4.0)
      && (PaceDeclining in r <==> trend == Declining && |Fired(focus, consistency, risk, trend)| <= 3)
      && (forall x :: x in r && x.FocusSector? ==> focus == [x])
      && (|focus| == 1 ==> r[0] == focus[0])
  {
    var ca := ConsistencyAdvice(consistency);
    var ra := RiskAdvice(consistency, risk);
    var ta := TrendAdvice(trend);
    var fired := Fired(focus, consistency, risk, trend);
    var r := Capped(fired);
    if |fired| == 0 {
      assert r == [KeepPushing];
    } else if |fired| <= 3 {
      assert r == focus + ca + ra + ta;
    } else {
      assert r == focus + ca + ra;
    }
  }

  /** The rules of `generate_recommendations`: each advice appears under
      its own condition, the generic advice only when nothing fires, the
      trend advice only while the cap of three leaves room, and the sector
      advice comes first. */
  lemma RecommendationsRules(rows: seq<SectorEntry>, consistency: real, risk: real, trend: Trend)
    ensures var r := Recommendations(rows, consistency, risk, trend);
      && (KeepPushing in r <==> |Fired(SectorAdvice(rows), consistency, risk, trend)| == 0)
      && (WorkOnConsistency in r <==> consistency < 7.0)
      && (ReduceRisk in r <==> risk > 8.0 && consistency < 6.0)
      && (ExploreLimits in r <==> !(risk > 8.0 && consistency < 6.0) && risk < 4.0)
      && (PaceDeclining in r <==> trend == Declining && |Fired(SectorAdvice(rows), consistency, risk, trend)| <= 3)
      && (forall x :: x in r && x.FocusSector? ==> SectorAdvice(rows) == [x])
      && (|SectorAdvice(rows)| == 1 ==> r[0] == SectorAdvice(rows)[0])
  {
    CappedRules(SectorAdvice(rows), consistency, risk, trend);
  }

  /** The sector rule fires exactly when some sector's range exceeds 0.3 s,
      and it names a sector with the widest range. */
  lemma SectorAdviceWidest(rows: seq<SectorEntry>)
    ensures |SectorAdvice(rows)| == 1 <==> exists k :: 0 <= k < |SectorNarrative(rows)| && SectorNarrative(rows)[k].range > 0.3
    ensures |SectorAdvice(rows)| == 1 ==>
              (SectorAdvice(rows)[0].sector == SectorNarrative(rows)[0].sector
               && forall k :: 0 <= k < |SectorNarrative(rows)| ==> SectorNarrative(rows)[k].range <= SectorNarrative(rows)[0].range)
  {
    var ins := SectorNarrative(rows);
    if |rows| == 0 {
      assert SectorsOf(rows) == [];
    }
    if exists k :: 0 <= k < |ins| && ins[k].range > 0.3 {
      var k :| 0 <= k < |ins| && ins[k].range > 0.3;
      assert RangeKey(ins[0]) >= RangeKey(ins[k]) || k == 0;
    }
    forall k | 0 <= k < |ins| ensures ins[k].range <= ins[0].range {
      assert k == 0 || RangeKey(ins[0]) >= RangeKey(ins[k]);
    }
  }
}
