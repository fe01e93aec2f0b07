/** The telemetry table: one row per sample, one optional column per channel.
    A column is `None` when the frame does not have it (pandas
    `'col' not in df.columns`). Only the time columns (`meta_time`,
    `timestamp`, `time_normalized`), the GPS columns and the two zone labels
    hold optional cells, `None` for a missing value (NaT / NaN / NA); the
    lap, distance, speed, brake, throttle and brake-intensity channels hold
    a number in every row, and sector names are always present. Extra
    channels the core never reads are not represented. */
module Telemetry {
  import opened Wrappers

  /** `pd.cut` labels of `braking_zone`. */
  datatype BrakeZone = NoBraking | LightBraking | HeavyBraking

  /** `pd.cut` labels of `throttle_zone`. */
  datatype ThrottleZone = Off | Partial | Full

  datatype Frame = Frame(
    size: nat,
    lap: Option<seq<int>>,                        // lap
    distance: Option<seq<real>>,                  // Laptrigger_lapdist_dls
    metaTime: Option<seq<Option<real>>>,          // meta_time, parsed to seconds
    timestamp: Option<seq<Option<real>>>,         // timestamp, parsed to seconds
    time: Option<seq<Option<real>>>,              // time_normalized
    speed: Option<seq<real>>,                     // Speed
    brakeFront: Option<seq<real>>,                // pbrake_f
    brakeRear: Option<seq<real>>,                 // pbrake_r
    throttle: Option<seq<real>>,                  // ath
    longitude: Option<seq<Option<real>>>,         // VBOX_Long_Minutes
    latitude: Option<seq<Option<real>>>,          // VBOX_Lat_Min
    sector: Option<seq<string>>,                  // sector
    brakeIntensity: Option<seq<real>>,            // brake_intensity
    brakingZone: Option<seq<Option<BrakeZone>>>,  // braking_zone
    throttleZone: Option<seq<Option<ThrottleZone>>>  // throttle_zone
  )

  /** A present column has one cell per row. */
  predicate Fits<T>(c: Option<seq<T>>, n: nat)
  {
    c.None? || |c.value| == n
  }

  /** The frame is rectangular. */
  predicate Valid(f: Frame)
  {
    && Fits(f.lap, f.size)
    && Fits(f.distance, f.size)
    && Fits(f.metaTime, f.size)
    && Fits(f.timestamp, f.size)
    && Fits(f.time, f.size)
    && Fits(f.speed, f.size)
    && Fits(f.brakeFront, f.size)
    && Fits(f.brakeRear, f.size)
    && Fits(f.throttle, f.size)
    && Fits(f.longitude, f.size)
    && Fits(f.latitude, f.size)
    && Fits(f.sector, f.size)
    && Fits(f.brakeIntensity, f.size)
    && Fits(f.brakingZone, f.size)
    && Fits(f.throttleZone, f.size)
  }

  /** Time cells in ascending order with missing times last
      (`sort_values` with `na_position='last'`). */
  predicate TimeLe(a: Option<real>, b: Option<real>)
  {
    b.None? || (a.Some? && a.value <= b.value)
  }

  predicate TimeSorted(t: seq<Option<real>>)
  {
    forall i, j :: 0 <= i < j < |t| ==> TimeLe(t[i], t[j])
  }
}
