/** Sector classification (`TelemetryProcessor.assign_sectors`). */
module Sectors {
  import opened Wrappers
  import opened Config
  import opened Telemetry

  predicate InRange(s: SectorRange, d: real)
  {
    s.start <= d < s.end
  }

  /** Index of the first range containing `d`, or the last index when none does. */
  function SectorIndex(t: SectorTable, d: real): (k: nat)
    ensures k < |t|
    ensures (exists i :: 0 <= i < |t| && InRange(t[i], d)) ==>
              InRange(t[k], d) && forall i :: 0 <= i < k ==> !InRange(t[i], d)
    ensures (forall i :: 0 <= i < |t| ==> !InRange(t[i], d)) ==> k == |t| - 1
  {
    FirstMatch(t, d, 0)
  }

  function FirstMatch(t: SectorTable, d: real, from: nat): (k: nat)
    requires from <= |t|
    ensures k < |t| && (from < |t| ==> from <= k)
    ensures (exists i :: from <= i < |t| && InRange(t[i], d)) ==>
              InRange(t[k], d) && forall i :: from <= i < k ==> !InRange(t[i], d)
    ensures (forall i :: from <= i < |t| ==> !InRange(t[i], d)) ==> k == |t| - 1
    decreases |t| - from
  {
    if from == |t| then |t| - 1
    else if InRange(t[from], d) then from
    else FirstMatch(t, d, from + 1)
  }

  /** `get_sector`: the first sector whose `[start, end)` holds `d`; a
      distance outside every range (overrun or negative) gets the last sector. */
  function SectorOf(t: SectorTable, d: real): string
  {
    t[SectorIndex(t, d)].name
  }

  /** On a table that partitions `[0, length)`, a distance inside the lap
      belongs to exactly one range and gets that range's name, and any
      other distance gets the last sector. */
  lemma {:induction false} CoveredSector(t: SectorTable, length: real, d: real)
    requires Covers(t, length)
    ensures 0.0 <= d < length ==> exists i :: 0 <= i < |t| && InRange(t[i], d)
    ensures forall i, j :: 0 <= i < j < |t| && InRange(t[i], d) ==> !InRange(t[j], d)
    ensures forall i :: 0 <= i < |t| && InRange(t[i], d) ==> SectorOf(t, d) == t[i].name
    ensures d < 0.0 || d >= length ==> SectorOf(t, d) == t[|t| - 1].name
  {
    OrderedBounds(t, length);
    if 0.0 <= d < length {
      var i := LocateRange(t, length, d, |t| - 1);
    }
  }

  /** Range bounds grow along the table. */
  lemma OrderedBounds(t: SectorTable, length: real)
    requires Covers(t, length)
    ensures forall i, j :: 0 <= i < j < |t| ==> t[i].end <= t[j].start
    ensures forall i :: 0 <= i < |t| ==> 0.0 <= t[i].start && t[i].end <= length
  {
    forall i, j | 0 <= i < j < |t| ensures t[i].end <= t[j].start {
      StartsGrow(t, length, i, j);
    }
    forall i | 0 <= i < |t| ensures 0.0 <= t[i].start && t[i].end <= length {
      if i > 0 { StartsGrow(t, length, 0, i); }
      if i < |t| - 1 { StartsGrow(t, length, i, |t| - 1); }
    }
  }

  lemma {:induction false} StartsGrow(t: SectorTable, length: real, i: nat, j: nat)
    requires Covers(t, length) && i < j < |t|
    ensures t[i].end <= t[j].start
    decreases j - i
  {
    if i + 1 < j {
      StartsGrow(t, length, i + 1, j);
    }
  }

  /** Some range among `0 .. k` holds `d` when `0 <= d < t[k].end`. */
  lemma {:induction false} LocateRange(t: SectorTable, length: real, d: real, k: nat) returns (i: nat)
    requires Covers(t, length) && k < |t| && 0.0 <= d < t[k].end
    ensures i <= k && InRange(t[i], d)
  {
    if t[k].start <= d || k == 0 {
      i := k;
    } else {
      i := LocateRange(t, length, d, k - 1);
    }
  }

  /** `assign_sectors`: with no distance channel or no table every row is
      `S1.a`; otherwise each row gets `SectorOf` its distance. */
  function AssignSectors(f: Frame, table: Option<SectorTable>): (r: Frame)
    requires Valid(f)
    ensures Valid(r) && r.sector.Some?
    ensures r == f.(sector := r.sector)
    ensures f.distance.None? || table.None? ==>
              forall i :: 0 <= i < f.size ==> r.sector.value[i] == DefaultSector
    ensures f.distance.Some? && table.Some? ==>
              forall i :: 0 <= i < f.size ==> r.sector.value[i] == SectorOf(table.value, f.distance.value[i])
  {
    if f.distance.None? || table.None? then
      f.(sector := Some(seq(f.size, _ => DefaultSector)))
    else
      var d := f.distance.value;
      f.(sector := Some(seq(f.size, i requires 0 <= i < f.size => SectorOf(table.value, d[i]))))
  }

  /** Every label `assign_sectors` writes is a name of the table in use, or
      `S1.a` when there is none. */
  lemma AssignedNamesFromTable(f: Frame, table: Option<SectorTable>)
    requires Valid(f)
    ensures var labels := AssignSectors(f, table).sector.value;
      forall i :: 0 <= i < f.size ==>
        if f.distance.Some? && table.Some? then labels[i] in Names(table.value)
        else labels[i] == DefaultSector
  {
    if f.distance.Some? && table.Some? {
      var labels := AssignSectors(f, table).sector.value;
      forall i | 0 <= i < f.size ensures labels[i] in Names(table.value) {
        var k := SectorIndex(table.value, f.distance.value[i]);
        assert Names(table.value)[k] == labels[i];
      }
    }
  }

  /** The overrun case of the Barber table: 2399.9 m and 2400.1 m are both
      in the last sector, and so is a negative distance. */
  lemma BarberOverrun()
    ensures SectorOf(Barber, 2399.9) == "S3.b"
    ensures SectorOf(Barber, 2400.1) == "S3.b"
    ensures SectorOf(Barber, -0.5) == "S3.b"
    ensures SectorOf(Barber, 0.0) == "S1.a"
    ensures SectorOf(Barber, 400.0) == "S1.b"
  {
    ConfigurationConsistent();
    CoveredSector(Barber, 2400.0, 2399.9);
    CoveredSector(Barber, 2400.0, 2400.1);
    CoveredSector(Barber, 2400.0, -0.5);
    CoveredSector(Barber, 2400.0, 0.0);
    CoveredSector(Barber, 2400.0, 400.0);
    assert InRange(Barber[5], 2399.9);
    assert InRange(Barber[0], 0.0);
    assert InRange(Barber[1], 400.0);
  }
}
