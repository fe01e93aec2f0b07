/** Input normalisation of `TelemetryDataLoader`: sentinel-lap repair,
    sorting by normalised time, z-score outlier blanking and the
    preprocessing order that chains them. */
module DataLoader {
  import opened Wrappers
  import opened Numeric
  import opened Collections
  import opened Config
  import opened Telemetry
  import opened Segmenter

  // ---------------------------------------------------------------------------
  // clean_lap_numbers

  /** `clean_lap_numbers`: when the lap column holds the sentinel 32768 and
      the distance channel exists, exactly the sentinel rows take the lap
      `detect_laps` would compute; every other cell is kept. */
  function CleanLapNumbers(f: Frame): (r: Frame)
    requires Valid(f)
    ensures Valid(r) && r.size == f.size
    ensures r == f.(lap := r.lap)
    ensures f.lap.None? || f.distance.None? || Cfg.erroneousLapNumber !in f.lap.value ==> r == f
    ensures f.lap.Some? ==> r.lap.Some? && forall i :: 0 <= i < f.size && f.lap.value[i] != Cfg.erroneousLapNumber ==>
              r.lap.value[i] == f.lap.value[i]
  {
    if f.lap.None? || Cfg.erroneousLapNumber !in f.lap.value || f.distance.None? then f
    else
      var corrected := DetectedLaps(f.distance.value);
      var laps := f.lap.value;
      f.(lap := Some(seq(f.size, i requires 0 <= i < f.size =>
        if laps[i] == Cfg.erroneousLapNumber then corrected[i] else laps[i])))
  }

  /** The repaired rows agree with `detect_laps` on the same frame: a
      sentinel row gets exactly the lap number `detect_laps` would give it. */
  lemma {:induction false} CleanAgreesWithDetect(f: Frame, i: nat)
    requires Valid(f) && f.lap.Some? && f.distance.Some? && i < f.size
    requires f.lap.value[i] == Cfg.erroneousLapNumber
    ensures CleanLapNumbers(f).lap.value[i] == DetectLaps(f).lap.value[i]
  {
    assert Cfg.erroneousLapNumber in f.lap.value;
  }

  /** With the distance channel present and fewer than 32767 rows, no
      sentinel survives: a repaired row gets a lap between 1 and its row
      number plus one. */
  lemma {:induction false} CleanRemovesSentinel(f: Frame)
    requires Valid(f) && f.lap.Some? && f.distance.Some? && f.size < Cfg.erroneousLapNumber - 1
    ensures forall i :: 0 <= i < f.size ==> CleanLapNumbers(f).lap.value[i] != Cfg.erroneousLapNumber
  {
    var r := CleanLapNumbers(f);
    if Cfg.erroneousLapNumber in f.lap.value {
      var d := f.distance.value;
      forall i | 0 <= i < f.size ensures r.lap.value[i] != Cfg.erroneousLapNumber {
        if f.lap.value[i] == Cfg.erroneousLapNumber {
          CrossingsBound(d, i + 1);
          assert r.lap.value[i] == 1 + CrossingsBefore(d, i + 1);
        }
      }
    }
  }

  // ---------------------------------------------------------------------------
  // normalize_timestamps

  /** The parsed time source: `meta_time`, else `timestamp`, else the row
      index in seconds. */
  function TimeSource(f: Frame): (t: seq<Option<real>>)
    requires Valid(f)
    ensures |t| == f.size
    ensures f.metaTime.Some? ==> t == f.metaTime.value
    ensures f.metaTime.None? && f.timestamp.Some? ==> t == f.timestamp.value
    ensures f.metaTime.None? && f.timestamp.None? ==> forall i :: 0 <= i < f.size ==> t[i] == Some(i as real)
  {
    if f.metaTime.Some? then f.metaTime.value
    else if f.timestamp.Some? then f.timestamp.value
    else seq(f.size, i => Some(i as real))
  }

  /** `TimeLe` is a total preorder. */
  lemma TimeLeTotal(a: Option<real>, b: Option<real>)
    ensures TimeLe(a, b) || TimeLe(b, a)
  {
  }

  lemma TimeLeTransitive(a: Option<real>, b: Option<real>, c: Option<real>)
    requires TimeLe(a, b) && TimeLe(b, c)
    ensures TimeLe(a, c)
  {
  }

  /** Row indices `order`, read through `t`, are in time order. */
  predicate OrderedBy(order: seq<nat>, t: seq<Option<real>>)
  {
    && (forall k :: 0 <= k < |order| ==> order[k] < |t|)
    && (forall a, b :: 0 <= a < b < |order| ==> TimeLe(t[order[a]], t[order[b]]))
  }

  function Range(n: nat): (r: seq<nat>)
    ensures |r| == n && forall i :: 0 <= i < n ==> r[i] == i
  {
    seq(n, i requires 0 <= i < n => i)
  }

  /** Places row `i` after every row not later than it. */
  function InsertRow(i: nat, order: seq<nat>, t: seq<Option<real>>): (r: seq<nat>)
    ensures |r| == |order| + 1
    ensures multiset(r) == multiset(order) + multiset{i}
  {
    if |order| == 0 then [i]
    else if order[0] < |t| && i < |t| && TimeLe(t[order[0]], t[i]) then
      assert order == [order[0]] + order[1..];
      [order[0]] + InsertRow(i, order[1..], t)
    else
      [i] + order
  }

  /** Insertion keeps the order sorted by time. */
  lemma {:induction false} InsertRowOrdered(i: nat, order: seq<nat>, t: seq<Option<real>>)
    requires i < |t| && OrderedBy(order, t)
    ensures OrderedBy(InsertRow(i, order, t), t)
  {
    if |order| > 0 {
      var r := InsertRow(i, order, t);
      if TimeLe(t[order[0]], t[i]) {
        var rest := InsertRow(i, order[1..], t);
        assert r == [order[0]] + rest;
        TailOrdered(order, t);
        InsertRowOrdered(i, order[1..], t);
        forall b | 0 <= b < |rest| ensures TimeLe(t[order[0]], t[rest[b]]) {
          assert rest[b] in multiset(rest);
          if rest[b] != i {
            assert rest[b] in multiset(order[1..]);
            var j :| 0 <= j < |order[1..]| && order[1..][j] == rest[b];
            assert order[1..][j] == order[j + 1];
          }
        }
        PrependOrdered(order[0], rest, t);
      } else {
        TimeLeTotal(t[order[0]], t[i]);
        forall b | 0 <= b < |order| ensures TimeLe(t[i], t[order[b]]) {
          if b > 0 {
            TimeLeTransitive(t[i], t[order[0]], t[order[b]]);
          }
        }
        PrependOrdered(i, order, t);
        assert r == [i] + order;
      }
    }
  }

  lemma TailOrdered(order: seq<nat>, t: seq<Option<real>>)
    requires |order| > 0 && OrderedBy(order, t)
    ensures OrderedBy(order[1..], t)
  {
    var tail := order[1..];
    forall a, b | 0 <= a < b < |tail| ensures TimeLe(t[tail[a]], t[tail[b]]) {
      assert tail[a] == order[a + 1] && tail[b] == order[b + 1];
    }
  }

  /** A row no later than every row of a sorted order can go in front. */
  lemma PrependOrdered(x: nat, rest: seq<nat>, t: seq<Option<real>>)
    requires x < |t| && OrderedBy(rest, t)
    requires forall b :: 0 <= b < |rest| ==> TimeLe(t[x], t[rest[b]])
    ensures OrderedBy([x] + rest, t)
  {
    var r := [x] + rest;
    forall a, b | 0 <= a < b < |r| ensures TimeLe(t[r[a]], t[r[b]]) {
      if a == 0 {
        assert r[b] == rest[b - 1];
      } else {
        assert r[a] == rest[a - 1] && r[b] == rest[b - 1];
      }
    }
  }

  /** The order `sort_values('time_normalized')` puts the rows in (missing
      times last); rows with equal times are kept in row order here, which
      the source's default sort does not promise. */
  function SortOrder(t: seq<Option<real>>, n: nat): (r: seq<nat>)
    requires n <= |t|
    ensures |r| == n
    ensures multiset(r) == multiset(Range(n))
  {
    if n == 0 then []
    else
      RangeSnoc(n);
      InsertRow(n - 1, SortOrder(t, n - 1), t)
  }

  lemma RangeSnoc(n: nat)
    requires n > 0
    ensures multiset(Range(n)) == multiset(Range(n - 1)) + multiset{(n - 1) as nat}
  {
    assert Range(n) == Range(n - 1) + [n - 1];
  }

  /** `SortOrder` lists the rows in time order, missing times last. */
  lemma {:induction false} SortOrderOrdered(t: seq<Option<real>>, n: nat)
    requires n <= |t|
    ensures OrderedBy(SortOrder(t, n), t)
  {
    if n > 0 {
      SortOrderOrdered(t, n - 1);
      SortStep(t, n);
    }
  }

  lemma SortStep(t: seq<Option<real>>, n: nat)
    requires 0 < n <= |t| && OrderedBy(SortOrder(t, n - 1), t)
    ensures OrderedBy(SortOrder(t, n), t)
  {
    var prev := SortOrder(t, n - 1);
    InsertRowOrdered(n - 1, prev, t);
    assert SortOrder(t, n) == InsertRow(n - 1, prev, t);
  }

  /** Gather a column by the row order `p`. */
  function Permute<T>(c: Option<seq<T>>, p: seq<nat>, n: nat): (r: Option<seq<T>>)
    requires Fits(c, n) && forall k :: 0 <= k < |p| ==> p[k] < n
    ensures Fits(r, |p|) && (r.Some? <==> c.Some?)
    ensures c.Some? ==> forall k :: 0 <= k < |p| ==> r.value[k] == c.value[p[k]]
  {
    if c.None? then None else Some(Gather(c.value, p))
  }

  /** The frame's rows in the order `p`. */
  function Reorder(f: Frame, p: seq<nat>): (r: Frame)
    requires Valid(f) && forall k :: 0 <= k < |p| ==> p[k] < f.size
    ensures Valid(r) && r.size == |p|
  {
    Frame(
      |p|,
      Permute(f.lap, p, f.size),
      Permute(f.distance, p, f.size),
      Permute(f.metaTime, p, f.size),
      Permute(f.timestamp, p, f.size),
      Permute(f.time, p, f.size),
      Permute(f.speed, p, f.size),
      Permute(f.brakeFront, p, f.size),
      Permute(f.brakeRear, p, f.size),
      Permute(f.throttle, p, f.size),
      Permute(f.longitude, p, f.size),
      Permute(f.latitude, p, f.size),
      Permute(f.sector, p, f.size),
      Permute(f.brakeIntensity, p, f.size),
      Permute(f.brakingZone, p, f.size),
      Permute(f.throttleZone, p, f.size))
  }

  /** A permutation of `0 .. n-1` only names rows that exist, each once. */
  lemma {:induction false} PermutationBounds(p: seq<nat>, n: nat)
    requires multiset(p) == multiset(Range(n))
    ensures |p| == n
    ensures forall k :: 0 <= k < |p| ==> p[k] < n
    ensures forall i :: 0 <= i < n ==> i in p
    ensures forall a, b :: 0 <= a < b < |p| ==> p[a] != p[b]
  {
    assert |p| == |multiset(p)| == |multiset(Range(n))| == n;
    forall k | 0 <= k < |p| ensures p[k] < n {
      assert p[k] in multiset(Range(n));
    }
    forall i | 0 <= i < n ensures i in p {
      assert Range(n)[i] == i;
      assert i in multiset(p);
    }
    forall a, b | 0 <= a < b < |p| ensures p[a] != p[b] {
      if p[a] == p[b] {
        MultisetTwice(p, a, b);
        RangeCountOne(n, p[a]);
        assert false;
      }
    }
  }

  lemma {:induction false} RangeCountOne(n: nat, v: nat)
    requires v < n
    ensures multiset(Range(n))[v] == 1
  {
    if n - 1 == v {
      assert Range(n) == Range(n - 1) + [v];
      assert v !in Range(n - 1);
    } else {
      assert Range(n) == Range(n - 1) + [n - 1];
      RangeCountOne(n - 1, v);
    }
  }

  /** `normalize_timestamps`: adds `time_normalized` from the preferred time
      source, then reorders the rows by it. */
  function NormalizeTimestamps(f: Frame): (r: Frame)
    requires Valid(f)
    ensures Valid(r) && r.size == f.size && r.time.Some?
    ensures TimeSorted(r.time.value)
  {
    var t := TimeSource(f);
    var p := SortOrder(t, f.size);
    PermutationBounds(p, f.size);
    SortOrderOrdered(t, f.size);
    var r := Reorder(f.(time := Some(t)), p);
    assert forall k :: 0 <= k < f.size ==> r.time.value[k] == t[p[k]];
    r
  }

  /** The normalised frame holds the input rows, each exactly once, in the
      order `SortOrder` of the time source; every column moves with its row. */
  lemma {:induction false} NormalizeIsRowPermutation(f: Frame)
    requires Valid(f)
    ensures var p := SortOrder(TimeSource(f), f.size);
      && multiset(p) == multiset(Range(f.size))
      && (forall k :: 0 <= k < |p| ==> p[k] < f.size)
      && NormalizeTimestamps(f) == Reorder(f.(time := Some(TimeSource(f))), p)
  {
    PermutationBounds(SortOrder(TimeSource(f), f.size), f.size);
  }

  // ---------------------------------------------------------------------------
  // filter_outliers

  /** The GPS columns `preprocess_dataset` filters. */
  datatype GpsChannel = Longitude | Latitude

  /** Values of the present cells (pandas skips NA in `mean` and `std`). */
  function PresentValues(c: seq<Option<real>>): (v: seq<real>)
    ensures |v| <= |c|
    ensures forall i :: 0 <= i < |c| && c[i].Some? ==> c[i].value in v
    ensures forall x :: x in v ==> Some(x) in c
  {
    if |c| == 0 then []
    else
      var rest := PresentValues(c[1..]);
      assert forall i :: 1 <= i < |c| ==> c[i] == c[1..][i - 1];
      (if c[0].Some? then [c[0].value] else []) + rest
  }

  /** `|x - mean| / std > 3` with `std` the square root of `variance`,
      compared on squares. */
  predicate Outlier(x: real, mean: real, variance: real)
  {
    (x - mean) * (x - mean) > Cfg.outlierStdThreshold * Cfg.outlierStdThreshold * variance
  }

  /** One column of `filter_outliers`. With fewer than two present values
      the sample std is NaN and no cell is blanked; otherwise exactly the
      present cells more than three sample standard deviations from the mean
      become missing, and the row count is kept. */
  function FilterColumn(c: seq<Option<real>>): (r: seq<Option<real>>)
    ensures |r| == |c|
    ensures forall i :: 0 <= i < |c| ==> r[i] == c[i] || (c[i].Some? && r[i].None?)
    ensures |PresentValues(c)| < 2 ==> r == c
    ensures |PresentValues(c)| >= 2 ==> forall i :: 0 <= i < |c| ==>
              (r[i].None? <==>
                 c[i].None? || Outlier(c[i].value, Mean(PresentValues(c)), SampleVariance(PresentValues(c))))
  {
    var v := PresentValues(c);
    if |v| < 2 then c
    else
      var m := Mean(v);
      var s2 := SampleVariance(v);
      seq(|c|, i requires 0 <= i < |c| => if c[i].Some? && Outlier(c[i].value, m, s2) then None else c[i])
  }

  /** A column with zero spread is left alone: every present value equals
      the mean, so no z-score exceeds the threshold. */
  lemma {:induction false} ZeroSpreadUnchanged(c: seq<Option<real>>)
    requires |PresentValues(c)| >= 2 && SampleVariance(PresentValues(c)) == 0.0
    ensures FilterColumn(c) == c
  {
    var v := PresentValues(c);
    var m := Mean(v);
    var n1 := (|v| - 1) as real;
    assert SumSqDev(v, m) / n1 == 0.0;
    assert SumSqDev(v, m) == 0.0;
    DeviationBound(v, m);
    forall i | 0 <= i < |c| && c[i].Some? ensures !Outlier(c[i].value, m, 0.0) {
      assert c[i].value in v;
    }
  }

  /** No single squared deviation exceeds their total. */
  lemma {:induction false} DeviationBound(s: seq<real>, m: real)
    ensures forall x :: x in s ==> (x - m) * (x - m) <= SumSqDev(s, m)
  {
    if |s| > 0 {
      var head := (s[0] - m) * (s[0] - m);
      assert SumSqDev(s, m) == head + SumSqDev(s[1..], m);
      SquareNonNegative(s[0] - m);
      SumSqDevNonNegative(s[1..], m);
      DeviationBound(s[1..], m);
      forall x | x in s ensures (x - m) * (x - m) <= SumSqDev(s, m) {
        if x != s[0] {
          assert x in s[1..];
        }
      }
    }
  }

  /** `n` passes of `FilterColumn`, each taking the mean and spread of
      what the previous pass left. */
  function FilterTimes(c: seq<Option<real>>, n: nat): (r: seq<Option<real>>)
    ensures |r| == |c|
    decreases n
  {
    if n == 0 then c else FilterTimes(FilterColumn(c), n - 1)
  }

  /** One pass of the loop of `filter_outliers` over the column `ch`, when
      the frame has it. */
  function FilterChannel(f: Frame, ch: GpsChannel): (r: Frame)
    requires Valid(f)
    ensures Valid(r) && r.size == f.size
    ensures r == f.(longitude := r.longitude, latitude := r.latitude)
    ensures r.longitude == if ch == Longitude && f.longitude.Some? then Some(FilterColumn(f.longitude.value)) else f.longitude
    ensures r.latitude == if ch == Latitude && f.latitude.Some? then Some(FilterColumn(f.latitude.value)) else f.latitude
  {
    match ch
    case Longitude => if f.longitude.None? then f else f.(longitude := Some(FilterColumn(f.longitude.value)))
    case Latitude => if f.latitude.None? then f else f.(latitude := Some(FilterColumn(f.latitude.value)))
  }

  /** `filter_outliers(df, columns)`: the listed columns are filtered in
      list order, each pass reading the column as the earlier passes left
      it, so a column listed `n` times is filtered `n` times; columns the
      frame lacks are skipped, and every other column and the row count are
      kept. */
  function FilterOutliers(f: Frame, channels: seq<GpsChannel>): (r: Frame)
    requires Valid(f)
    ensures Valid(r) && r.size == f.size
    ensures r == f.(longitude := r.longitude, latitude := r.latitude)
    ensures f.longitude.None? ==> r.longitude.None?
    ensures f.latitude.None? ==> r.latitude.None?
    ensures f.longitude.Some? ==> r.longitude == Some(FilterTimes(f.longitude.value, Count(channels, Longitude)))
    ensures f.latitude.Some? ==> r.latitude == Some(FilterTimes(f.latitude.value, Count(channels, Latitude)))
    decreases |channels|
  {
    if |channels| == 0 then f
    else
      var g := FilterChannel(f, channels[0]);
      var rest := channels[1..];
      assert channels == [channels[0]] + rest;
      CountCons(channels[0], rest, Longitude);
      CountCons(channels[0], rest, Latitude);
      FilterOutliers(g, rest)
  }

  lemma CountCons<T>(x: T, s: seq<T>, v: T)
    ensures Count([x] + s, v) == (if x == v then 1 else 0) + Count(s, v)
  {
    assert ([x] + s)[1..] == s;
  }

  /** A column listed once is filtered exactly once, from its values as
      they were, and an unlisted column is untouched. */
  lemma FilterOutliersOnce(f: Frame, channels: seq<GpsChannel>)
    requires Valid(f)
    ensures Count(channels, Longitude) == 0 ==> FilterOutliers(f, channels).longitude == f.longitude
    ensures Count(channels, Latitude) == 0 ==> FilterOutliers(f, channels).latitude == f.latitude
    ensures Count(channels, Longitude) == 1 && f.longitude.Some? ==>
              FilterOutliers(f, channels).longitude == Some(FilterColumn(f.longitude.value))
    ensures Count(channels, Latitude) == 1 && f.latitude.Some? ==>
              FilterOutliers(f, channels).latitude == Some(FilterColumn(f.latitude.value))
  {
    if f.longitude.Some? {
      assert FilterTimes(f.longitude.value, 1) == FilterColumn(f.longitude.value);
    }
    if f.latitude.Some? {
      assert FilterTimes(f.latitude.value, 1) == FilterColumn(f.latitude.value);
    }
  }

  // ---------------------------------------------------------------------------
  // preprocess_dataset

  /** `preprocess_dataset`: repair laps, sort by time, then filter GPS
      outliers when both GPS columns exist. */
  function PreprocessDataset(f: Frame): (r: Frame)
    requires Valid(f)
    ensures Valid(r) && r.size == f.size && r.time.Some?
    ensures TimeSorted(r.time.value)
    ensures var g := NormalizeTimestamps(CleanLapNumbers(f));
      && r == g.(longitude := r.longitude, latitude := r.latitude)
      && (f.longitude.None? || f.latitude.None? ==> r == g)
      && (f.longitude.Some? && f.latitude.Some? ==>
            && r.longitude == Some(FilterColumn(g.longitude.value))
            && r.latitude == Some(FilterColumn(g.latitude.value)))
  {
    var g := NormalizeTimestamps(CleanLapNumbers(f));
    if g.longitude.Some? && g.latitude.Some? then FilterOutliers(g, [Longitude, Latitude]) else g
  }

  /** Laps are repaired before the rows are sorted: row `k` of the result
      carries the repaired lap of input row `p[k]`, where `p` is the time
      order of the input, so crossings are detected in file order. */
  lemma {:induction false} PreprocessRepairsInFileOrder(f: Frame, k: nat)
    requires Valid(f) && f.lap.Some? && k < f.size
    ensures var p := SortOrder(TimeSource(f), f.size);
      && p[k] < f.size
      && PreprocessDataset(f).lap.value[k] == CleanLapNumbers(f).lap.value[p[k]]
  {
    var c := CleanLapNumbers(f);
    assert TimeSource(c) == TimeSource(f);
    NormalizeIsRowPermutation(c);
  }
}
