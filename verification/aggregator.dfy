/** Lap and sector timing tables (`calculate_lap_times`,
    `calculate_sector_times`) and their delta-to-best columns
    (`calculate_lap_deltas`, `calculate_sector_deltas`). */
module Aggregator {
  import opened Wrappers
  import opened Numeric
  import opened Collections
  import opened Config
  import opened Telemetry
  import opened Segmenter
  import opened Sectors

  /** One row of the lap table. `lapTime` is `None` when the frame has no
      time column or an end of the lap has no time (NaN); `delta` is filled
      by `LapDeltas`. */
  datatype LapRecord = LapRecord(
    lap: int,
    lapTime: Option<real>,
    records: nat,
    avgSpeed: Option<real>,
    maxSpeed: Option<real>,
    delta: Option<real>
  )

  /** One row of the sector table. */
  datatype SectorRecord = SectorRecord(
    lap: int,
    sector: string,
    sectorTime: Option<real>,
    avgSpeed: Option<real>,
    delta: Option<real>
  )

  /** Time of the group's last row minus time of its first row. */
  function Span(t: seq<Option<real>>, first: nat, last: nat): Option<real>
    requires first < |t| && last < |t|
  {
    Minus(t[last], t[first])
  }

  /** The frame the lap table is computed from: laps detected if missing. */
  function WithLaps(f: Frame): (g: Frame)
    requires Valid(f)
    ensures Valid(g) && g.lap.Some? && g.size == f.size
    ensures g == f.(lap := g.lap)
  {
    if f.lap.None? then DetectLaps(f) else f
  }

  /** `sorted(df['lap'].unique())`. */
  function LapKeys(laps: seq<int>): (keys: seq<int>)
    ensures StrictlySorted(keys, IntLess)
    ensures Distinct(keys)
    ensures forall v :: v in keys <==> v in laps
  {
    IntLessIsStrictTotalOrder();
    var keys := SortedDistinct(laps, IntLess);
    StrictlySortedDistinct(keys, IntLess);
    keys
  }

  /** Aggregate of the rows of lap `v`. */
  function LapGroup(laps: seq<int>, time: Option<seq<Option<real>>>, speed: Option<seq<real>>, v: int): (r: LapRecord)
    requires Fits(time, |laps|) && Fits(speed, |laps|) && v in laps
    ensures r.lap == v && r.records == Count(laps, v) && r.delta.None?
  {
    var rows := IndicesOf(laps, v);
    GroupEnds(laps, v);
    LapRecord(
      v,
      if time.Some? then Span(time.value, rows[0], rows[|rows| - 1]) else None,
      |rows|,
      if speed.Some? then Some(Mean(Gather(speed.value, rows))) else None,
      if speed.Some? then Some(MaxOf(Gather(speed.value, rows))) else None,
      None)
  }

  function LapGroups(laps: seq<int>, time: Option<seq<Option<real>>>, speed: Option<seq<real>>, keys: seq<int>): (r: seq<LapRecord>)
    requires Fits(time, |laps|) && Fits(speed, |laps|)
    requires forall k :: 0 <= k < |keys| ==> keys[k] in laps
    ensures |r| == |keys|
    ensures forall k :: 0 <= k < |keys| ==> r[k].lap == keys[k]
    ensures forall k :: 0 <= k < |keys| ==> r[k] == LapGroup(laps, time, speed, keys[k])
  {
    seq(|keys|, k requires 0 <= k < |keys| => LapGroup(laps, time, speed, keys[k]))
  }

  function TotalRecords(r: seq<LapRecord>): nat
  {
    if |r| == 0 then 0 else r[0].records + TotalRecords(r[1..])
  }

  lemma TotalRecordsOfGroups(laps: seq<int>, time: Option<seq<Option<real>>>, speed: Option<seq<real>>, keys: seq<int>)
    requires Fits(time, |laps|) && Fits(speed, |laps|)
    requires forall k :: 0 <= k < |keys| ==> keys[k] in laps
    ensures TotalRecords(LapGroups(laps, time, speed, keys)) == SumCounts(laps, keys)
  {
    RecordCountsSum(LapGroups(laps, time, speed, keys), laps, keys);
  }

  /** Records that count the rows of their keys add up to the keys' total. */
  lemma {:induction false} RecordCountsSum(r: seq<LapRecord>, laps: seq<int>, keys: seq<int>)
    requires |r| == |keys| && forall k :: 0 <= k < |keys| ==> r[k].records == Count(laps, keys[k])
    ensures TotalRecords(r) == SumCounts(laps, keys)
  {
    if |keys| > 0 {
      var r', keys' := r[1..], keys[1..];
      assert forall k :: 0 <= k < |keys'| ==> r'[k] == r[k + 1] && keys'[k] == keys[k + 1];
      RecordCountsSum(r', laps, keys');
    }
  }

  /** One record per distinct lap value, ascending. */
  function LapTable(laps: seq<int>, time: Option<seq<Option<real>>>, speed: Option<seq<real>>): (r: seq<LapRecord>)
    requires Fits(time, |laps|) && Fits(speed, |laps|)
  {
    LapGroups(laps, time, speed, LapKeys(laps))
  }

  /** `calculate_lap_times` (laps detected first when the frame has none). */
  function LapTimes(f: Frame): (r: seq<LapRecord>)
    requires Valid(f)
  {
    LapTable(WithLaps(f).lap.value, f.time, f.speed)
  }

  predicate LapsAscending(r: seq<LapRecord>)
  {
    forall a, b :: 0 <= a < b < |r| ==> r[a].lap < r[b].lap
  }

  predicate HasLap(r: seq<LapRecord>, v: int)
  {
    exists k :: 0 <= k < |r| && r[k].lap == v
  }

  /** The lap table is in ascending lap order, so no lap has two records. */
  lemma {:induction false} LapTableAscending(laps: seq<int>, time: Option<seq<Option<real>>>, speed: Option<seq<real>>)
    requires Fits(time, |laps|) && Fits(speed, |laps|)
    ensures LapsAscending(LapTable(laps, time, speed))
  {
    var keys := LapKeys(laps);
    var r := LapTable(laps, time, speed);
    forall a, b | 0 <= a < b < |r| ensures r[a].lap < r[b].lap {
      assert r[a].lap == keys[a] && r[b].lap == keys[b];
      assert IntLess(keys[a], keys[b]);
    }
  }

  /** The lap table has a record for a lap exactly when some row carries it. */
  lemma {:induction false} LapTableCovers(laps: seq<int>, time: Option<seq<Option<real>>>, speed: Option<seq<real>>)
    requires Fits(time, |laps|) && Fits(speed, |laps|)
    ensures forall v :: v in laps <==> HasLap(LapTable(laps, time, speed), v)
  {
    var keys := LapKeys(laps);
    var r := LapTable(laps, time, speed);
    forall v | HasLap(r, v) ensures v in laps {
      var k :| 0 <= k < |r| && r[k].lap == v;
      assert r[k].lap == keys[k];
    }
    forall v | v in laps ensures HasLap(r, v) {
      var k :| 0 <= k < |keys| && keys[k] == v;
      assert r[k].lap == v;
    }
  }

  /** Each record counts the rows of its lap, so the counts add up to the
      number of rows. */
  predicate CountsRows(r: seq<LapRecord>, laps: seq<int>)
  {
    forall k :: 0 <= k < |r| ==> r[k].records == Count(laps, r[k].lap) > 0 && r[k].delta.None?
  }

  lemma {:induction false} LapTableCounts(laps: seq<int>, time: Option<seq<Option<real>>>, speed: Option<seq<real>>)
    requires Fits(time, |laps|) && Fits(speed, |laps|)
    ensures CountsRows(LapTable(laps, time, speed), laps)
    ensures TotalRecords(LapTable(laps, time, speed)) == |laps|
  {
    var keys := LapKeys(laps);
    var r := LapTable(laps, time, speed);
    TotalRecordsOfGroups(laps, time, speed, keys);
    GroupsPartition(laps, keys);
    forall k | 0 <= k < |r| ensures r[k].records == Count(laps, r[k].lap) > 0 {
      CountPositive(laps, keys[k]);
    }
  }

  /** `lap_time` is the time of the lap's last row minus that of its first
      row, and missing when the frame has no time column; speeds are present
      exactly when the frame has a speed column, and the mean never exceeds
      the maximum. */
  lemma {:induction false} LapTableTimes(laps: seq<int>, time: Option<seq<Option<real>>>, speed: Option<seq<real>>, k: nat)
    requires Fits(time, |laps|) && Fits(speed, |laps|)
    requires k < |LapTable(laps, time, speed)|
    ensures var r := LapTable(laps, time, speed);
      && r[k].lap in laps
      && (time.None? ==> r[k].lapTime.None?)
      && (time.Some? ==> r[k].lapTime == Span(time.value, FirstIndex(laps, r[k].lap), LastIndex(laps, r[k].lap)))
      && (r[k].avgSpeed.Some? <==> speed.Some?)
      && (r[k].maxSpeed.Some? <==> speed.Some?)
      && (speed.Some? ==> r[k].avgSpeed.value <= r[k].maxSpeed.value)
  {
    var keys := LapKeys(laps);
    var r := LapTable(laps, time, speed);
    assert r[k] == LapGroup(laps, time, speed, keys[k]);
    LapGroupTime(laps, time, speed, keys[k]);
    LapGroupSpeed(laps, time, speed, keys[k]);
  }

  lemma {:induction false} LapGroupTime(laps: seq<int>, time: Option<seq<Option<real>>>, speed: Option<seq<real>>, v: int)
    requires Fits(time, |laps|) && Fits(speed, |laps|) && v in laps
    ensures var g := LapGroup(laps, time, speed, v);
      && (time.None? ==> g.lapTime.None?)
      && (time.Some? ==> g.lapTime == Span(time.value, FirstIndex(laps, v), LastIndex(laps, v)))
  {
    GroupEnds(laps, v);
  }

  lemma {:induction false} LapGroupSpeed(laps: seq<int>, time: Option<seq<Option<real>>>, speed: Option<seq<real>>, v: int)
    requires Fits(time, |laps|) && Fits(speed, |laps|) && v in laps
    ensures var g := LapGroup(laps, time, speed, v);
      && (g.avgSpeed.Some? <==> speed.Some?)
      && (g.maxSpeed.Some? <==> speed.Some?)
      && (speed.Some? ==> g.avgSpeed.value <= g.maxSpeed.value)
  {
    if speed.Some? {
      GroupEnds(laps, v);
      MeanBounds(Gather(speed.value, IndicesOf(laps, v)));
    }
  }

  predicate TimedLapsNonNegative(r: seq<LapRecord>)
  {
    forall k :: 0 <= k < |r| && r[k].lapTime.Some? ==> r[k].lapTime.value >= 0.0
  }

  /** Rows sorted by time (missing times last) give every timed lap a
      non-negative lap time. */
  lemma {:induction false} LapTimesNonNegative(laps: seq<int>, time: seq<Option<real>>, speed: Option<seq<real>>)
    requires |time| == |laps| && Fits(speed, |laps|) && TimeSorted(time)
    ensures TimedLapsNonNegative(LapTable(laps, Some(time), speed))
  {
    var r := LapTable(laps, Some(time), speed);
    forall k | 0 <= k < |r| && r[k].lapTime.Some? ensures r[k].lapTime.value >= 0.0 {
      LapTableTimes(laps, Some(time), speed, k);
      var a := FirstIndex(laps, r[k].lap);
      var b := LastIndex(laps, r[k].lap);
      assert a <= b;
      if a < b {
        assert TimeLe(time[a], time[b]);
      }
    }
  }

  // ---------------------------------------------------------------------------
  // Sector times

  /** The sector names iterated: the table's keys, or `['S1.a']`. */
  function SectorNames(table: Option<SectorTable>): (names: seq<string>)
    ensures |names| > 0 && Distinct(names)
  {
    if table.Some? then Names(table.value) else [DefaultSector]
  }

  /** The frame the sector table is computed from: sectors assigned and laps
      detected when either column is missing. */
  function Prepared(f: Frame, table: Option<SectorTable>): (g: Frame)
    requires Valid(f)
    ensures Valid(g) && g.lap.Some? && g.sector.Some? && g.size == f.size
    ensures g.time == f.time && g.speed == f.speed
  {
    var g0 := if f.sector.None? then AssignSectors(f, table) else f;
    if g0.lap.None? then DetectLaps(g0) else g0
  }

  /** The (lap, sector) key of every row. */
  function RowKeys(laps: seq<int>, sectors: seq<string>): (p: seq<(int, string)>)
    requires |laps| == |sectors|
    ensures |p| == |laps|
    ensures forall i :: 0 <= i < |laps| ==> p[i] == (laps[i], sectors[i])
  {
    seq(|laps|, i requires 0 <= i < |laps| => (laps[i], sectors[i]))
  }

  /** Aggregate of the rows with key `p`. */
  function SectorGroup(keys: seq<(int, string)>, time: Option<seq<Option<real>>>, speed: Option<seq<real>>,
                       p: (int, string)): (r: SectorRecord)
    requires Fits(time, |keys|) && Fits(speed, |keys|) && p in keys
    ensures KeyOf(r) == p && r.delta.None?
  {
    var rows := IndicesOf(keys, p);
    GroupEnds(keys, p);
    SectorRecord(
      p.0, p.1,
      if time.Some? then Span(time.value, rows[0], rows[|rows| - 1]) else None,
      if speed.Some? then Some(Mean(Gather(speed.value, rows))) else None,
      None)
  }

  function KeyOf(r: SectorRecord): (int, string)
  {
    (r.lap, r.sector)
  }

  /** The (lap, sector) pairs the loops visit, lap by lap, sectors in table
      order. */
  function Pairs(laps: seq<int>, names: seq<string>): (p: seq<(int, string)>)
    ensures forall x :: x in p <==> x.0 in laps && x.1 in names
  {
    if |laps| == 0 then []
    else
      var head := seq(|names|, m requires 0 <= m < |names| => (laps[0], names[m]));
      var rest := Pairs(laps[1..], names);
      forall x: (int, string) | x.0 == laps[0] && x.1 in names ensures x in head {
        var m :| 0 <= m < |names| && names[m] == x.1;
        assert head[m] == x;
      }
      assert forall v :: v in laps <==> v == laps[0] || v in laps[1..];
      head + rest
  }

  /** The order the loops visit keys in: by lap, then by position in the
      sector table. */
  predicate PairBefore(names: seq<string>, x: (int, string), y: (int, string))
  {
    x.1 in names && y.1 in names &&
    (x.0 < y.0 || (x.0 == y.0 && FirstIndex(names, x.1) < FirstIndex(names, y.1)))
  }

  predicate PairsSorted(names: seq<string>, p: seq<(int, string)>)
  {
    forall a, b :: 0 <= a < b < |p| ==> PairBefore(names, p[a], p[b])
  }

  lemma {:induction false} PairsOrdered(laps: seq<int>, names: seq<string>)
    requires StrictlySorted(laps, IntLess) && Distinct(names)
    ensures PairsSorted(names, Pairs(laps, names))
  {
    if |laps| > 0 {
      var head := seq(|names|, m requires 0 <= m < |names| => (laps[0], names[m]));
      var rest := Pairs(laps[1..], names);
      var p := head + rest;
      assert Pairs(laps, names) == p;
      PairsOrdered(laps[1..], names);
      forall m | 0 <= m < |names| ensures FirstIndex(names, names[m]) == m {}
      forall a, b | 0 <= a < b < |p| ensures PairBefore(names, p[a], p[b]) {
        if b < |head| {
          assert p[a] == head[a] && p[b] == head[b];
        } else {
          assert p[b] == rest[b - |head|];
          assert p[b].0 in laps[1..];
          var i :| 0 <= i < |laps[1..]| && laps[1..][i] == p[b].0;
          assert p[b] in rest;
          if a < |head| {
            assert p[a] == head[a];
            assert IntLess(laps[0], laps[1 + i]);
          } else {
            assert p[a] == rest[a - |head|];
          }
        }
      }
    }
  }

  /** One record per (lap, sector) pair that has rows, laps ascending and
      sectors in table order within a lap. */
  function SectorTable(laps: seq<int>, sectors: seq<string>, time: Option<seq<Option<real>>>, speed: Option<seq<real>>,
                       names: seq<string>): (r: seq<SectorRecord>)
    requires |sectors| == |laps| && Fits(time, |laps|) && Fits(speed, |laps|)
  {
    var keys := RowKeys(laps, sectors);
    var visited := Keep(Pairs(LapKeys(laps), names), keys);
    seq(|visited|, k requires 0 <= k < |visited| => SectorGroup(keys, time, speed, visited[k]))
  }

  /** `calculate_sector_times`. */
  function SectorTimes(f: Frame, table: Option<SectorTable>): (r: seq<SectorRecord>)
    requires Valid(f)
  {
    var g := Prepared(f, table);
    SectorTable(g.lap.value, g.sector.value, g.time, g.speed, SectorNames(table))
  }

  /** Some row carries lap `p.0` and sector `p.1`. */
  predicate FromRow(laps: seq<int>, sectors: seq<string>, p: (int, string))
  {
    exists i :: 0 <= i < |laps| && i < |sectors| && laps[i] == p.0 && sectors[i] == p.1
  }

  predicate HasKey(r: seq<SectorRecord>, p: (int, string))
  {
    exists k :: 0 <= k < |r| && KeyOf(r[k]) == p
  }

  predicate RecordsSorted(names: seq<string>, r: seq<SectorRecord>)
  {
    forall a, b :: 0 <= a < b < |r| ==> PairBefore(names, KeyOf(r[a]), KeyOf(r[b]))
  }

  /** Every record names a (lap, sector) pair that occurs together in some
      row, with a sector among the iterated names. */
  lemma {:induction false} SectorTableSound(laps: seq<int>, sectors: seq<string>, time: Option<seq<Option<real>>>,
                                            speed: Option<seq<real>>, names: seq<string>)
    requires |sectors| == |laps| && Fits(time, |laps|) && Fits(speed, |laps|)
    ensures forall k :: 0 <= k < |SectorTable(laps, sectors, time, speed, names)| ==>
              var x := SectorTable(laps, sectors, time, speed, names)[k];
              x.sector in names && FromRow(laps, sectors, KeyOf(x))
  {
    var keys := RowKeys(laps, sectors);
    var visited := Keep(Pairs(LapKeys(laps), names), keys);
    var r := SectorTable(laps, sectors, time, speed, names);
    forall k | 0 <= k < |r| ensures r[k].sector in names && FromRow(laps, sectors, KeyOf(r[k])) {
      assert KeyOf(r[k]) == visited[k];
      var i :| 0 <= i < |keys| && keys[i] == visited[k];
      assert keys[i] == (laps[i], sectors[i]);
    }
  }

  /** Every row whose sector is one of the iterated names is covered by a
      record of its (lap, sector) pair. */
  lemma {:induction false} SectorTableComplete(laps: seq<int>, sectors: seq<string>, time: Option<seq<Option<real>>>,
                                               speed: Option<seq<real>>, names: seq<string>)
    requires |sectors| == |laps| && Fits(time, |laps|) && Fits(speed, |laps|)
    ensures forall i :: 0 <= i < |laps| && sectors[i] in names ==>
              HasKey(SectorTable(laps, sectors, time, speed, names), (laps[i], sectors[i]))
  {
    var keys := RowKeys(laps, sectors);
    var lapKeys := LapKeys(laps);
    var visited := Keep(Pairs(lapKeys, names), keys);
    var r := SectorTable(laps, sectors, time, speed, names);
    forall i | 0 <= i < |laps| && sectors[i] in names ensures HasKey(r, (laps[i], sectors[i])) {
      assert keys[i] == (laps[i], sectors[i]);
      assert laps[i] in lapKeys;
      var k :| 0 <= k < |visited| && visited[k] == keys[i];
      assert KeyOf(r[k]) == visited[k];
    }
  }

  /** Records come lap by lap and, within a lap, in sector-table order; so
      no (lap, sector) pair has two records. */
  lemma {:induction false} SectorTableOrdered(laps: seq<int>, sectors: seq<string>, time: Option<seq<Option<real>>>,
                                              speed: Option<seq<real>>, names: seq<string>)
    requires |sectors| == |laps| && Fits(time, |laps|) && Fits(speed, |laps|) && Distinct(names)
    ensures RecordsSorted(names, SectorTable(laps, sectors, time, speed, names))
  {
    var keys := RowKeys(laps, sectors);
    var lapKeys := LapKeys(laps);
    var pairs := Pairs(lapKeys, names);
    var visited := Keep(pairs, keys);
    var r := SectorTable(laps, sectors, time, speed, names);
    PairsOrdered(lapKeys, names);
    var before := (x, y) => PairBefore(names, x, y);
    KeepOrdered(pairs, keys, before);
    forall a, b | 0 <= a < b < |r| ensures PairBefore(names, KeyOf(r[a]), KeyOf(r[b])) {
      assert KeyOf(r[a]) == visited[a] && KeyOf(r[b]) == visited[b];
      assert before(visited[a], visited[b]);
    }
  }

  /** A record's time is the time of the last row of its (lap, sector) pair
      minus that of the first, missing without a time column; its speed is
      present exactly when the frame has a speed column. */
  lemma {:induction false} SectorTableTimes(laps: seq<int>, sectors: seq<string>, time: Option<seq<Option<real>>>,
                                            speed: Option<seq<real>>, names: seq<string>, k: nat)
    requires |sectors| == |laps| && Fits(time, |laps|) && Fits(speed, |laps|)
    requires k < |SectorTable(laps, sectors, time, speed, names)|
    ensures var r := SectorTable(laps, sectors, time, speed, names);
      var keys := RowKeys(laps, sectors);
      && KeyOf(r[k]) in keys
      && r[k].delta.None?
      && (time.None? ==> r[k].sectorTime.None?)
      && (time.Some? ==> r[k].sectorTime == Span(time.value, FirstIndex(keys, KeyOf(r[k])), LastIndex(keys, KeyOf(r[k]))))
      && (r[k].avgSpeed.Some? <==> speed.Some?)
  {
    var keys := RowKeys(laps, sectors);
    var visited := Keep(Pairs(LapKeys(laps), names), keys);
    GroupEnds(keys, visited[k]);
  }

  // ---------------------------------------------------------------------------
  // Deltas to best

  function LapTimeColumn(r: seq<LapRecord>): (t: seq<Option<real>>)
    ensures |t| == |r| && forall k :: 0 <= k < |r| ==> t[k] == r[k].lapTime
  {
    seq(|r|, k requires 0 <= k < |r| => r[k].lapTime)
  }

  function WithLapDeltas(r: seq<LapRecord>, reference: Option<real>): (out: seq<LapRecord>)
    ensures |out| == |r|
    ensures forall k :: 0 <= k < |r| ==> out[k] == r[k].(delta := Minus(r[k].lapTime, reference))
  {
    seq(|r|, k requires 0 <= k < |r| => r[k].(delta := Minus(r[k].lapTime, reference)))
  }

  /** Index of the first record of lap `l`, if any (`lap_times[lap_times['lap'] == l].iloc[0]`). */
  function FirstOfLap(r: seq<LapRecord>, l: int): (k: Option<nat>)
    ensures k.None? <==> forall j :: 0 <= j < |r| ==> r[j].lap != l
    ensures k.Some? ==> k.value < |r| && r[k.value].lap == l && forall j :: 0 <= j < k.value ==> r[j].lap != l
  {
    if |r| == 0 then None
    else if r[0].lap == l then Some(0)
    else
      var k := FirstOfLap(r[1..], l);
      assert forall j :: 1 <= j < |r| ==> r[j] == r[1..][j - 1];
      if k.None? then None else Some(1 + k.value)
  }

  /** `calculate_lap_deltas`. An empty table has no `lap_time` column and
      comes back unchanged; a reference lap that is not in the table is an
      `IndexError`, modelled as `None`. Otherwise every record's delta is its
      lap time minus the reference time: the best lap time when no
      reference lap is given, else the time of the reference lap's first
      record; all other fields are unchanged. */
  function LapDeltas(r: seq<LapRecord>, referenceLap: Option<int>): (out: Option<seq<LapRecord>>)
    ensures out.None? <==> |r| > 0 && referenceLap.Some? && forall k :: 0 <= k < |r| ==> r[k].lap != referenceLap.value
    ensures out.Some? ==> |out.value| == |r|
    ensures out.Some? ==> forall k :: 0 <= k < |r| ==> out.value[k] == r[k].(delta := out.value[k].delta)
    ensures out.Some? && |r| > 0 ==> forall k :: 0 <= k < |r| ==>
              (out.value[k].delta.Some? ==> r[k].lapTime.Some?)
    ensures out.Some? ==> forall a, b :: 0 <= a < |r| && 0 <= b < |r| ==>
              (r[a].lapTime.Some? && out.value[a].delta.Some? && r[b].lapTime.Some? && out.value[b].delta.Some? ==>
                 r[a].lapTime.value - out.value[a].delta.value == r[b].lapTime.value - out.value[b].delta.value)
  {
    if |r| == 0 then Some(r)
    else
      match referenceLap
      case None => Some(WithLapDeltas(r, MinPresent(LapTimeColumn(r))))
      case Some(l) =>
        var k := FirstOfLap(r, l);
        if k.Some? then Some(WithLapDeltas(r, r[k.value].lapTime)) else None
  }

  /** Record `j` has a lap time and no timed lap is faster. */
  predicate LapBest(r: seq<LapRecord>, j: nat)
    requires j < |r|
  {
    r[j].lapTime.Some? &&
    forall i :: 0 <= i < |r| && r[i].lapTime.Some? ==> r[j].lapTime.value <= r[i].lapTime.value
  }

  /** Without a reference lap, every delta is the lap's time minus the time
      of a fastest lap: deltas are never negative, every timed lap has one,
      and a delta is zero exactly for the laps whose time is the best. */
  lemma {:induction false} LapDeltasToBest(r: seq<LapRecord>)
    requires |r| > 0
    ensures LapDeltas(r, None).Some?
    ensures var out := LapDeltas(r, None).value;
      forall k :: 0 <= k < |r| ==>
        && (out[k].delta.Some? <==> r[k].lapTime.Some?)
        && (out[k].delta.Some? ==> out[k].delta.value >= 0.0)
        && (out[k].delta == Some(0.0) <==> LapBest(r, k))
    ensures (exists k :: 0 <= k < |r| && r[k].lapTime.Some?) ==>
      exists j :: 0 <= j < |r| && LapBest(r, j) &&
        forall k :: 0 <= k < |r| ==> LapDeltas(r, None).value[k].delta == Minus(r[k].lapTime, r[j].lapTime)
  {
    var t := LapTimeColumn(r);
    var best := MinPresent(t);
    forall k | 0 <= k < |r| && r[k].lapTime.Some? ensures best.Some? {
      assert t[k].Some?;
    }
    forall k | 0 <= k < |r| && best.Some?
      ensures r[k].lapTime.Some? ==> (forall j :: 0 <= j < |r| && r[j].lapTime.Some? ==> best.value <= r[j].lapTime.value)
    {
      assert forall j :: 0 <= j < |r| ==> t[j] == r[j].lapTime;
    }
    if best.Some? {
      var j :| 0 <= j < |t| && t[j] == best;
      assert r[j].lapTime == best;
      assert LapBest(r, j);
    }
  }

  /** With a reference lap that is in the table, every delta is the lap's
      time minus the time of that lap's first record, which therefore gets
      delta zero when it is timed. */
  lemma {:induction false} LapDeltasToReference(r: seq<LapRecord>, l: int, k: nat)
    requires k < |r| && r[k].lap == l
    requires forall j :: 0 <= j < k ==> r[j].lap != l
    ensures LapDeltas(r, Some(l)).Some?
    ensures forall j :: 0 <= j < |r| ==> LapDeltas(r, Some(l)).value[j].delta == Minus(r[j].lapTime, r[k].lapTime)
    ensures r[k].lapTime.Some? ==> LapDeltas(r, Some(l)).value[k].delta == Some(0.0)
  {
    var f := FirstOfLap(r, l);
    assert f.Some?;
    assert f.value == k by {
      if f.value < k {
      } else if f.value > k {
      }
    }
  }

  /** `groupby('sector')['sector_time'].min()` for the name `name` over
      the first `n` records: the least present time of the group, `None`
      when no record of the group has a time. */
  function GroupMin(r: seq<SectorRecord>, name: string, n: nat): (m: Option<real>)
    requires n <= |r|
    ensures m.None? <==> forall j :: 0 <= j < n && r[j].sector == name ==> r[j].sectorTime.None?
    ensures m.Some? ==> exists j :: 0 <= j < n && r[j].sector == name && r[j].sectorTime == m
    ensures m.Some? ==> forall j :: 0 <= j < n && r[j].sector == name && r[j].sectorTime.Some? ==>
              m.value <= r[j].sectorTime.value
  {
    if n == 0 then None
    else
      var prev := GroupMin(r, name, n - 1);
      var x := if r[n - 1].sector == name then r[n - 1].sectorTime else None;
      if x.None? then prev
      else if prev.None? || x.value < prev.value then x
      else prev
  }

  /** `calculate_sector_deltas`: each record's time minus the best time of
      records with the same sector name (missing times skipped); all other
      fields are unchanged. */
  function SectorDeltas(r: seq<SectorRecord>): (out: seq<SectorRecord>)
    ensures |out| == |r|
    ensures forall k :: 0 <= k < |r| ==> out[k] == r[k].(delta := out[k].delta)
  {
    seq(|r|, k requires 0 <= k < |r| =>
      r[k].(delta := Minus(r[k].sectorTime, GroupMin(r, r[k].sector, |r|))))
  }

  /** Record `k` has a time and no record of its sector is faster. */
  predicate GroupBest(r: seq<SectorRecord>, k: nat)
    requires k < |r|
  {
    r[k].sectorTime.Some? &&
    forall j :: 0 <= j < |r| && r[j].sector == r[k].sector && r[j].sectorTime.Some? ==>
      r[k].sectorTime.value <= r[j].sectorTime.value
  }

  /** A sector delta exists exactly when the record has a time, is never
      negative, and is zero exactly when the record is the best time of its
      sector; it is the record's time minus that of a best record of the
      same sector. */
  lemma {:induction false} SectorDeltasSpec(r: seq<SectorRecord>, k: nat)
    requires k < |r|
    ensures SectorDeltas(r)[k].delta.Some? <==> r[k].sectorTime.Some?
    ensures SectorDeltas(r)[k].delta.Some? ==> SectorDeltas(r)[k].delta.value >= 0.0
    ensures SectorDeltas(r)[k].delta == Some(0.0) <==> GroupBest(r, k)
    ensures r[k].sectorTime.Some? ==> exists j :: DeltaFromBest(r, k, j)
  {
    var best := GroupMin(r, r[k].sector, |r|);
    var d := SectorDeltas(r)[k].delta;
    assert d == Minus(r[k].sectorTime, best);
    if r[k].sectorTime.Some? {
      assert best.Some?;
      var x := r[k].sectorTime.value;
      var b := best.value;
      assert d == Some(x - b);
      var j :| 0 <= j < |r| && r[j].sector == r[k].sector && r[j].sectorTime == best;
      assert x == b ==> GroupBest(r, k);
      assert GroupBest(r, k) ==> x <= b;
      assert GroupBest(r, j);
      assert DeltaFromBest(r, k, j);
    }
  }

  /** Record `j` is a best record of `k`'s sector and `k`'s delta is the
      difference of their times. */
  predicate DeltaFromBest(r: seq<SectorRecord>, k: nat, j: nat)
    requires k < |r|
  {
    && j < |r| && r[j].sector == r[k].sector && GroupBest(r, j) && r[k].sectorTime.Some?
    && SectorDeltas(r)[k].delta == Some(r[k].sectorTime.value - r[j].sectorTime.value)
  }
}
