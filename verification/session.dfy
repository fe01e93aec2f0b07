/** `TelemetryProcessor.process_full_session`: the fixed pipeline from a raw
    frame to the enriched telemetry and the lap and sector tables. */
module Session {
  import opened Wrappers
  import opened Config
  import opened Telemetry
  import opened Segmenter
  import opened Sectors
  import opened Channels
  import opened Aggregator

  datatype SessionResult = SessionResult(
    telemetry: Frame,
    lapTimes: seq<LapRecord>,
    sectorTimes: seq<SectorRecord>
  )

  /** The enriched telemetry: laps, then sectors, then brake and throttle
      zones. */
  function Enrich(f: Frame, table: Option<SectorTable>): (g: Frame)
    requires Valid(f)
    ensures Valid(g) && g.size == f.size
    ensures g.lap.Some? && g.sector.Some? && g.brakeIntensity.Some? && g.brakingZone.Some?
    ensures g.time == f.time && g.speed == f.speed && g.distance == f.distance && g.throttle == f.throttle
    ensures g.lap == DetectLaps(f).lap
    ensures g.sector == AssignSectors(DetectLaps(f), table).sector
    ensures g.brakeIntensity == Some(Intensity(f))
    ensures forall i :: 0 <= i < f.size ==> g.brakingZone.value[i] == BrakeZoneOf(g.brakeIntensity.value[i])
    ensures f.throttle.Some? ==> g.throttleZone.Some? && forall i :: 0 <= i < f.size ==>
              g.throttleZone.value[i] == ThrottleZoneOf(f.throttle.value[i])
    ensures f.throttle.None? ==> g.throttleZone == f.throttleZone
  {
    var h := AssignSectors(DetectLaps(f), table);
    assert Intensity(h) == Intensity(f);
    ThrottleMetrics(BrakingIntensity(h))
  }

  /** `process_full_session`. The table is the one the processor was built
      with (`SectorsFor(track)`). Lap deltas are taken to the best lap, so
      they always exist. Without a time column every sector time is Python
      `None`, and the row-wise subtraction of `calculate_sector_deltas`
      raises on the first sector record; that run returns nothing, modelled
      as `None`. */
  function ProcessFullSession(f: Frame, table: Option<SectorTable>): (r: Option<SessionResult>)
    requires Valid(f)
    ensures r.None? <==> f.time.None? && |SectorTimes(Enrich(f, table), table)| > 0
  {
    var g := Enrich(f, table);
    var sectors := SectorTimes(g, table);
    if g.time.None? && |sectors| > 0 then None
    else
      var laps := LapDeltas(LapTimes(g), None);
      Some(SessionResult(g, laps.value, SectorDeltas(sectors)))
  }

  /** The session's tables agree with the telemetry they come from: the
      telemetry is the enriched frame, the lap records are its lap table
      with deltas, counting every row once in ascending lap order, every
      timed lap and timed sector gets a non-negative delta and no other
      record gets one, every row of a table sector is covered by a sector
      record, and without a sector table every sector record is `S1.a`. */
  lemma {:induction false} SessionTables(f: Frame, table: Option<SectorTable>)
    requires Valid(f)
    ensures ProcessFullSession(f, table).Some? ==> var r := ProcessFullSession(f, table).value;
      && r.telemetry == Enrich(f, table)
      && |r.telemetry.lap.value| == f.size
      && SameRecords(r.lapTimes, LapTimes(r.telemetry))
      && TotalRecords(r.lapTimes) == f.size
      && LapsAscending(r.lapTimes)
      && LapDeltasPresentNonNegative(r.lapTimes)
      && SameSectorRecords(r.sectorTimes, SectorTimes(r.telemetry, table))
      && SectorDeltasPresentNonNegative(r.sectorTimes)
      && (forall i :: 0 <= i < f.size && r.telemetry.sector.value[i] in SectorNames(table) ==>
            HasKey(r.sectorTimes, (r.telemetry.lap.value[i], r.telemetry.sector.value[i])))
      && (table.None? ==> AllDefaultSector(r.sectorTimes))
  {
    if ProcessFullSession(f, table).Some? {
      var r := ProcessFullSession(f, table).value;
      LapFacts(r.telemetry, r.lapTimes);
      SectorFacts(r.telemetry, table, r.sectorTimes);
      SectorCoverage(r.telemetry, table, r.sectorTimes);
    }
  }

  lemma LapFacts(g: Frame, out: seq<LapRecord>)
    requires Valid(g) && g.lap.Some?
    requires LapDeltas(LapTimes(g), None).Some? && out == LapDeltas(LapTimes(g), None).value
    ensures SameRecords(out, LapTimes(g))
    ensures TotalRecords(out) == g.size && LapsAscending(out)
    ensures LapDeltasPresentNonNegative(out)
  {
    var laps := g.lap.value;
    var plain := LapTimes(g);
    assert plain == LapTable(laps, g.time, g.speed);
    LapTableCounts(laps, g.time, g.speed);
    LapTableAscending(laps, g.time, g.speed);
    if |plain| > 0 {
      LapDeltasToBest(plain);
    }
    forall k | 0 <= k < |plain| ensures out[k].lap == plain[k].lap && out[k].records == plain[k].records {
      assert out[k] == plain[k].(delta := out[k].delta);
    }
    SameLapsSameTotal(plain, out);
  }

  lemma SectorFacts(g: Frame, table: Option<SectorTable>, out: seq<SectorRecord>)
    requires Valid(g) && g.lap.Some? && g.sector.Some?
    requires out == SectorDeltas(SectorTimes(g, table))
    ensures SameSectorRecords(out, SectorTimes(g, table))
    ensures SectorDeltasPresentNonNegative(out)
    ensures table.None? ==> AllDefaultSector(out)
  {
    var sectors := SectorTimes(g, table);
    forall k | 0 <= k < |sectors|
      ensures (out[k].delta.Some? <==> out[k].sectorTime.Some?)
      ensures out[k].delta.Some? ==> out[k].delta.value >= 0.0
    {
      SectorDeltasSpec(sectors, k);
    }
    if table.None? {
      var names := SectorNames(table);
      assert sectors == Aggregator.SectorTable(g.lap.value, g.sector.value, g.time, g.speed, names);
      SectorTableSound(g.lap.value, g.sector.value, g.time, g.speed, names);
      forall k | 0 <= k < |sectors| ensures out[k].sector == DefaultSector {
        assert sectors[k].sector in names;
      }
    }
  }

  lemma SectorCoverage(g: Frame, table: Option<SectorTable>, out: seq<SectorRecord>)
    requires Valid(g) && g.lap.Some? && g.sector.Some?
    requires out == SectorDeltas(SectorTimes(g, table))
    ensures forall i :: 0 <= i < g.size && g.sector.value[i] in SectorNames(table) ==>
              HasKey(out, (g.lap.value[i], g.sector.value[i]))
  {
    var sectors := SectorTimes(g, table);
    var laps := g.lap.value;
    var names := SectorNames(table);
    assert sectors == Aggregator.SectorTable(laps, g.sector.value, g.time, g.speed, names);
    SectorTableComplete(laps, g.sector.value, g.time, g.speed, names);
    forall i | 0 <= i < g.size && g.sector.value[i] in names ensures HasKey(out, (laps[i], g.sector.value[i])) {
      var k :| 0 <= k < |sectors| && KeyOf(sectors[k]) == (laps[i], g.sector.value[i]);
      assert KeyOf(out[k]) == KeyOf(sectors[k]);
    }
  }

  /** `a` is `b` with only the deltas set. */
  predicate SameRecords(a: seq<LapRecord>, b: seq<LapRecord>)
  {
    |a| == |b| && forall k :: 0 <= k < |a| ==> a[k] == b[k].(delta := a[k].delta)
  }

  predicate SameSectorRecords(a: seq<SectorRecord>, b: seq<SectorRecord>)
  {
    |a| == |b| && forall k :: 0 <= k < |a| ==> a[k] == b[k].(delta := a[k].delta)
  }

  /** A lap record has a delta exactly when it has a time, and that delta is
      never negative. */
  predicate LapDeltasPresentNonNegative(r: seq<LapRecord>)
  {
    forall k :: 0 <= k < |r| ==>
      && (r[k].delta.Some? <==> r[k].lapTime.Some?)
      && (r[k].delta.Some? ==> r[k].delta.value >= 0.0)
  }

  /** A sector record has a delta exactly when it has a time, and that
      delta is never negative. */
  predicate SectorDeltasPresentNonNegative(r: seq<SectorRecord>)
  {
    forall k :: 0 <= k < |r| ==>
      && (r[k].delta.Some? <==> r[k].sectorTime.Some?)
      && (r[k].delta.Some? ==> r[k].delta.value >= 0.0)
  }

  predicate AllDefaultSector(r: seq<SectorRecord>)
  {
    forall k :: 0 <= k < |r| ==> r[k].sector == DefaultSector
  }

  /** Tables with the same record counts have the same total. */
  lemma {:induction false} SameLapsSameTotal(a: seq<LapRecord>, b: seq<LapRecord>)
    requires |a| == |b| && forall k :: 0 <= k < |a| ==> a[k].lap == b[k].lap && a[k].records == b[k].records
    ensures TotalRecords(a) == TotalRecords(b)
    ensures LapsAscending(a) ==> LapsAscending(b)
  {
    if |a| > 0 {
      SameLapsSameTotal(a[1..], b[1..]);
    }
  }
}
