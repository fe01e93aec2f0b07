/** Lap segmentation (`TelemetryProcessor.detect_laps`): a lap starts at
    every row where the wrapping lap-distance channel falls from near its
    maximum to near zero. */
module Segmenter {
  import opened Wrappers
  import opened Numeric
  import opened Config
  import opened Telemetry

  /** Row `i` is a start/finish crossing: its distance is below the threshold
      and the previous row's is within the threshold of the session maximum.
      Row 0 has no previous row (`shift(1)` is NaN), so it never is one. */
  predicate IsCrossing(d: seq<real>, i: nat)
    requires i < |d|
  {
    i > 0 && d[i] < Cfg.lapDistanceThreshold && d[i - 1] > MaxOf(d) - Cfg.lapDistanceThreshold
  }

  /** Number of crossings among rows `0 .. n-1`. */
  function CrossingsBefore(d: seq<real>, n: nat): nat
    requires n <= |d|
  {
    if n == 0 then 0 else CrossingsBefore(d, n - 1) + (if IsCrossing(d, n - 1) then 1 else 0)
  }

  /** `lap_crossing.cumsum() + 1`: detected laps start at 1, never
      decrease, rise by one at a row exactly when that row is a crossing and
      stay put otherwise, so row `i` is at most lap `i + 1`. */
  function DetectedLaps(d: seq<real>): (r: seq<int>)
    ensures |r| == |d|
    ensures |d| > 0 ==> r[0] == 1
    ensures forall i :: 0 <= i < |d| ==> 1 <= r[i] <= i + 1
    ensures forall i, j :: 0 <= i <= j < |d| ==> r[i] <= r[j]
    ensures forall i :: 0 < i < |d| ==> (r[i] == r[i - 1] + 1 <==> IsCrossing(d, i))
    ensures forall i :: 0 < i < |d| ==> (r[i] == r[i - 1] <==> !IsCrossing(d, i))
  {
    var r := seq(|d|, i requires 0 <= i < |d| => 1 + CrossingsBefore(d, i + 1));
    LapsFromCrossings(d, r);
    r
  }

  lemma {:induction false} CrossingsMonotone(d: seq<real>, a: nat, b: nat)
    requires a <= b <= |d|
    ensures CrossingsBefore(d, a) <= CrossingsBefore(d, b) <= CrossingsBefore(d, a) + (b - a)
    decreases b
  {
    if a < b {
      CrossingsMonotone(d, a, b - 1);
    }
  }

  /** Row 0 is never a crossing, so at most `n - 1` of the first `n` rows are. */
  lemma {:induction false} CrossingsBound(d: seq<real>, n: nat)
    requires 1 <= n <= |d|
    ensures CrossingsBefore(d, n) <= n - 1
  {
    if n > 1 {
      CrossingsBound(d, n - 1);
    }
  }

  /** Laps numbered by one plus the crossings so far start at 1, rise by
      one exactly at crossings and never fall. */
  lemma LapsFromCrossings(d: seq<real>, r: seq<int>)
    requires |r| == |d| && forall i :: 0 <= i < |d| ==> r[i] == 1 + CrossingsBefore(d, i + 1)
    ensures |d| > 0 ==> r[0] == 1
    ensures forall i :: 0 <= i < |d| ==> 1 <= r[i] <= i + 1
    ensures forall i, j :: 0 <= i <= j < |d| ==> r[i] <= r[j]
    ensures forall i :: 0 < i < |d| ==> (r[i] == r[i - 1] + 1 <==> IsCrossing(d, i))
    ensures forall i :: 0 < i < |d| ==> (r[i] == r[i - 1] <==> !IsCrossing(d, i))
  {
    forall i | 0 <= i < |d| ensures 1 <= r[i] <= i + 1 {
      CrossingsBound(d, i + 1);
    }
    forall i, j | 0 <= i <= j < |d| ensures r[i] <= r[j] {
      CrossingsMonotone(d, i + 1, j + 1);
    }
  }

  /** `detect_laps`: with no distance channel an existing lap column is kept
      and a missing one becomes all 1; otherwise the detected laps replace
      the whole lap column when it is missing or holds the sentinel anywhere. */
  function DetectLaps(f: Frame): (r: Frame)
    requires Valid(f)
    ensures Valid(r) && r.lap.Some?
    ensures r == f.(lap := r.lap)
    ensures f.distance.None? && f.lap.Some? ==> r == f
    ensures f.distance.None? && f.lap.None? ==> forall i :: 0 <= i < f.size ==> r.lap.value[i] == 1
    ensures f.distance.Some? && (f.lap.None? || Cfg.erroneousLapNumber in f.lap.value) ==>
              r.lap == Some(DetectedLaps(f.distance.value))
    ensures f.distance.Some? && f.lap.Some? && Cfg.erroneousLapNumber !in f.lap.value ==> r == f
  {
    if f.distance.None? then
      if f.lap.None? then f.(lap := Some(seq(f.size, _ => 1))) else f
    else
      var detected := DetectedLaps(f.distance.value);
      if f.lap.None? || Cfg.erroneousLapNumber in f.lap.value then f.(lap := Some(detected))
      else f
  }

  /** Whatever branch `detect_laps` takes, a frame whose lap column it
      rewrites, or which has no distance channel and no laps, ends up with
      laps that start at 1 and never decrease. */
  lemma DetectLapsMonotone(f: Frame)
    requires Valid(f)
    requires f.lap.None? || (f.distance.Some? && Cfg.erroneousLapNumber in f.lap.value)
    ensures var laps := DetectLaps(f).lap.value;
      && (f.size > 0 ==> laps[0] == 1)
      && (forall i, j :: 0 <= i <= j < f.size ==> 1 <= laps[i] <= laps[j])
  {
  }
}
