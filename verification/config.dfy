/** The process-wide configuration of config/config.py: sector tables and the
    thresholds every stage reads, as one immutable record. */
module Config {
  import opened Wrappers

  /** One sector: a name and the half-open distance range `[start, end)` in metres. */
  datatype SectorRange = SectorRange(name: string, start: real, end: real)

  predicate DistinctNames(t: seq<SectorRange>)
  {
    forall i, j :: 0 <= i < j < |t| ==> t[i].name != t[j].name
  }

  /** An ordered sector table (a Python dict: at least one entry, unique keys). */
  type SectorTable = t: seq<SectorRange> | |t| > 0 && DistinctNames(t)
    witness [SectorRange("S1.a", 0.0, 1.0)]

  function Names(t: seq<SectorRange>): (r: seq<string>)
    ensures |r| == |t|
    ensures forall i :: 0 <= i < |t| ==> r[i] == t[i].name
  {
    seq(|t|, i requires 0 <= i < |t| => t[i].name)
  }

  /** The ranges are contiguous, non-empty and cover exactly `[0, length)`. */
  predicate Covers(t: seq<SectorRange>, length: real)
  {
    && |t| > 0
    && t[0].start == 0.0
    && t[|t| - 1].end == length
    && (forall i :: 0 <= i < |t| ==> t[i].start < t[i].end)
    && (forall i :: 0 <= i < |t| - 1 ==> t[i].end == t[i + 1].start)
  }

  /** Name of the single sector used when a track has no table. */
  const DefaultSector: string := "S1.a"

  const Barber: SectorTable := [
    SectorRange("S1.a", 0.0, 400.0),
    SectorRange("S1.b", 400.0, 800.0),
    SectorRange("S2.a", 800.0, 1200.0),
    SectorRange("S2.b", 1200.0, 1600.0),
    SectorRange("S3.a", 1600.0, 2000.0),
    SectorRange("S3.b", 2000.0, 2400.0)
  ]

  const Cota: SectorTable := [
    SectorRange("S1.a", 0.0, 900.0),
    SectorRange("S1.b", 900.0, 1800.0),
    SectorRange("S2.a", 1800.0, 2700.0),
    SectorRange("S2.b", 2700.0, 3600.0),
    SectorRange("S3.a", 3600.0, 4500.0),
    SectorRange("S3.b", 4500.0, 5513.0)
  ]

  /** The `SECTORS` dict in insertion order; `"default"` maps to no table. */
  const Sectors: seq<(string, Option<SectorTable>)> :=
    [("Barber", Some(Barber)), ("COTA", Some(Cota)), ("default", None)]

  /** `SECTORS.get(track, SECTORS["default"])`. */
  function SectorsFor(track: string): (r: Option<SectorTable>)
    ensures r == Some(Barber) <==> track == "Barber"
    ensures r == Some(Cota) <==> track == "COTA"
    ensures r.None? <==> track != "Barber" && track != "COTA"
  {
    assert Barber != Cota by { assert Barber[0].end != Cota[0].end; }
    var d := Sectors[2].1;  // SECTORS["default"]
    assert d == None;
    var tail := [("default", d)];
    assert Lookup(tail, track, d) == d;
    assert Sectors[1..] == [("COTA", Some(Cota))] + tail;
    assert Lookup(Sectors[1..], track, d) == if track == "COTA" then Some(Cota) else d;
    assert "Barber" != "COTA" by { assert "Barber"[0] != "COTA"[0]; }
    Lookup(Sectors, track, d)
  }

  function Lookup<V>(entries: seq<(string, V)>, key: string, default: V): V
  {
    if |entries| == 0 then default
    else if entries[0].0 == key then entries[0].1
    else Lookup(entries[1..], key, default)
  }

  /** The scalar thresholds of config/config.py. */
  datatype Settings = Settings(
    brakeThreshold: real,
    heavyBrakeThreshold: real,
    maxBrakePressure: real,
    throttleFullThreshold: real,
    throttlePartialThreshold: real,
    minThrottle: real,
    maxThrottle: real,
    lapDistanceThreshold: real,
    erroneousLapNumber: int,
    unassignedCarNumber: string,
    vehicleIdPrefix: string,
    outlierStdThreshold: real
  )

  const Cfg: Settings := Settings(
    brakeThreshold := 20.0,
    heavyBrakeThreshold := 50.0,
    maxBrakePressure := 100.0,
    throttleFullThreshold := 90.0,
    throttlePartialThreshold := 50.0,
    minThrottle := 0.0,
    maxThrottle := 100.0,
    lapDistanceThreshold := 100.0,
    erroneousLapNumber := 32768,
    unassignedCarNumber := "000",
    vehicleIdPrefix := "GR86-",
    outlierStdThreshold := 3.0
  )

  /** Both configured tables partition their lap, and the bin edges are increasing. */
  lemma ConfigurationConsistent()
    ensures Covers(Barber, 2400.0)
    ensures Covers(Cota, 5513.0)
    ensures 0.0 < Cfg.brakeThreshold < Cfg.heavyBrakeThreshold
    ensures 0.0 < Cfg.throttlePartialThreshold < Cfg.throttleFullThreshold < Cfg.maxThrottle
    ensures Cfg.lapDistanceThreshold == 100.0 && Cfg.erroneousLapNumber == 32768
  {
  }
}
