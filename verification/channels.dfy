/** Row-level derived channels: `calculate_braking_intensity` and
    `calculate_throttle_metrics`. Both bin with `pd.cut`, whose bins are
    right-closed and exclude the lowest edge. */
module Channels {
  import opened Wrappers
  import opened Config
  import opened Telemetry

  /** Bins `(0, 20] (20, 50] (50, inf)`; a reading of 0 or below has no bin. */
  function BrakeZoneOf(x: real): (z: Option<BrakeZone>)
    ensures z.None? <==> x <= 0.0
    ensures z == Some(NoBraking) <==> 0.0 < x <= Cfg.brakeThreshold
    ensures z == Some(LightBraking) <==> Cfg.brakeThreshold < x <= Cfg.heavyBrakeThreshold
    ensures z == Some(HeavyBraking) <==> Cfg.heavyBrakeThreshold < x
  {
    if x <= 0.0 then None
    else if x <= Cfg.brakeThreshold then Some(NoBraking)
    else if x <= Cfg.heavyBrakeThreshold then Some(LightBraking)
    else Some(HeavyBraking)
  }

  /** Bins `(0, 50] (50, 90] (90, 100]`; 0 or below and above 100 have no bin. */
  function ThrottleZoneOf(x: real): (z: Option<ThrottleZone>)
    ensures z.None? <==> x <= 0.0 || x > Cfg.maxThrottle
    ensures z == Some(Off) <==> 0.0 < x <= Cfg.throttlePartialThreshold
    ensures z == Some(Partial) <==> Cfg.throttlePartialThreshold < x <= Cfg.throttleFullThreshold
    ensures z == Some(Full) <==> Cfg.throttleFullThreshold < x <= Cfg.maxThrottle
  {
    if x <= 0.0 || x > Cfg.maxThrottle then None
    else if x <= Cfg.throttlePartialThreshold then Some(Off)
    else if x <= Cfg.throttleFullThreshold then Some(Partial)
    else Some(Full)
  }

  function BrakeRank(z: BrakeZone): nat
  {
    match z
    case NoBraking => 0
    case LightBraking => 1
    case HeavyBraking => 2
  }

  function ThrottleRank(z: ThrottleZone): nat
  {
    match z
    case Off => 0
    case Partial => 1
    case Full => 2
  }

  /** Binning preserves order: a harder press never lands in a lower bin,
      and once a reading is binned every larger one (within range) is too. */
  lemma ZonesMonotone(x: real, y: real)
    requires x <= y
    ensures BrakeZoneOf(x).Some? ==>
              (BrakeZoneOf(y).Some? && BrakeRank(BrakeZoneOf(x).value) <= BrakeRank(BrakeZoneOf(y).value))
    ensures ThrottleZoneOf(x).Some? && ThrottleZoneOf(y).Some? ==>
              ThrottleRank(ThrottleZoneOf(x).value) <= ThrottleRank(ThrottleZoneOf(y).value)
  {
  }

  /** Mean of front and rear when both exist, else the one present, else 0. */
  function Intensity(f: Frame): (r: seq<real>)
    requires Valid(f)
    ensures |r| == f.size
    ensures f.brakeFront.Some? && f.brakeRear.Some? ==> forall i :: 0 <= i < f.size ==>
              var a := f.brakeFront.value[i]; var b := f.brakeRear.value[i];
              r[i] + r[i] == a + b && (a <= b ==> a <= r[i] <= b) && (b <= a ==> b <= r[i] <= a)
    ensures f.brakeFront.Some? && f.brakeRear.None? ==> r == f.brakeFront.value
    ensures f.brakeFront.None? && f.brakeRear.Some? ==> r == f.brakeRear.value
    ensures f.brakeFront.None? && f.brakeRear.None? ==> forall i :: 0 <= i < f.size ==> r[i] == 0.0
  {
    match (f.brakeFront, f.brakeRear)
    case (Some(front), Some(rear)) =>
      seq(f.size, i requires 0 <= i < f.size => (front[i] + rear[i]) / 2.0)
    case (Some(front), None) => front
    case (None, Some(rear)) => rear
    case (None, None) => seq(f.size, _ => 0.0)
  }

  /** `calculate_braking_intensity`: adds `brake_intensity` and its zone. */
  function BrakingIntensity(f: Frame): (r: Frame)
    requires Valid(f)
    ensures Valid(r)
    ensures r == f.(brakeIntensity := r.brakeIntensity, brakingZone := r.brakingZone)
    ensures r.brakeIntensity == Some(Intensity(f))
    ensures r.brakingZone.Some? && forall i :: 0 <= i < f.size ==>
              r.brakingZone.value[i] == BrakeZoneOf(r.brakeIntensity.value[i])
  {
    var x := Intensity(f);
    f.(brakeIntensity := Some(x),
       brakingZone := Some(seq(f.size, i requires 0 <= i < f.size => BrakeZoneOf(x[i]))))
  }

  /** With neither brake channel every intensity is 0, so no row gets a zone. */
  lemma NoBrakeChannelsNoZones(f: Frame)
    requires Valid(f) && f.brakeFront.None? && f.brakeRear.None?
    ensures forall i :: 0 <= i < f.size ==> BrakingIntensity(f).brakingZone.value[i].None?
  {
  }

  /** `calculate_throttle_metrics`: adds `throttle_zone` when `ath` exists. */
  function ThrottleMetrics(f: Frame): (r: Frame)
    requires Valid(f)
    ensures Valid(r)
    ensures r == f.(throttleZone := r.throttleZone)
    ensures f.throttle.None? ==> r == f
    ensures f.throttle.Some? ==> r.throttleZone.Some? && forall i :: 0 <= i < f.size ==>
              r.throttleZone.value[i] == ThrottleZoneOf(f.throttle.value[i])
  {
    if f.throttle.None? then f
    else
      var a := f.throttle.value;
      f.(throttleZone := Some(seq(f.size, i requires 0 <= i < f.size => ThrottleZoneOf(a[i]))))
  }
}
