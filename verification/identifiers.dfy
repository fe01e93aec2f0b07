/** Naming helpers of `TelemetryDataLoader`: vehicle ids of the form
    `GR86-<chassis>-<car>` and the track name found in a dataset path. */
module Identifiers {
  import opened Config

  // ---------------------------------------------------------------------------
  // parse_vehicle_id / get_vehicle_display_name

  predicate IsDigit(c: char)
  {
    '0' <= c <= '9'
  }

  predicate AllDigits(s: string)
  {
    forall i :: 0 <= i < |s| ==> IsDigit(s[i])
  }

  /** Length of the longest all-digit prefix, which is what a greedy `\d+`
      consumes. */
  function DigitPrefix(s: string): (n: nat)
    ensures n <= |s| && AllDigits(s[..n])
    ensures n == |s| || !IsDigit(s[n])
  {
    if |s| == 0 || !IsDigit(s[0]) then 0
    else
      var n := 1 + DigitPrefix(s[1..]);
      assert forall i :: 1 <= i < n ==> s[..n][i] == s[1..][..n - 1][i - 1];
      n
  }

  /** Result of matching the vehicle-id pattern at the start of a string. */
  datatype IdMatch = NoMatch | Match(chassis: string, car: string)

  /** `re.match(VEHICLE_ID_PATTERN, id)`: the prefix `GR86-`, a digit run,
      a dash and a second digit run; anything may follow. */
  function MatchVehicleId(id: string): (m: IdMatch)
    ensures m.Match? ==> && |m.chassis| > 0 && AllDigits(m.chassis)
                         && |m.car| > 0 && AllDigits(m.car)
                         && |Cfg.vehicleIdPrefix| + |m.chassis| + 1 + |m.car| <= |id|
                         && id[..|Cfg.vehicleIdPrefix| + |m.chassis| + 1 + |m.car|]
                              == Cfg.vehicleIdPrefix + m.chassis + "-" + m.car
  {
    var p := Cfg.vehicleIdPrefix;
    if |id| < |p| || id[..|p|] != p then NoMatch
    else
      var m := MatchNumbers(id[|p|..]);
      if m.Match? then
        assert id == p + id[|p|..];
        m
      else m
  }

  /** The part of the pattern after `GR86-`. */
  function MatchNumbers(rest: string): (m: IdMatch)
    ensures m.Match? ==> && |m.chassis| > 0 && AllDigits(m.chassis)
                         && |m.car| > 0 && AllDigits(m.car)
                         && |m.chassis| + 1 + |m.car| <= |rest|
                         && rest[..|m.chassis| + 1 + |m.car|] == m.chassis + "-" + m.car
  {
    var n1 := DigitPrefix(rest);
    if n1 == 0 || n1 == |rest| || rest[n1] != '-' then NoMatch
    else
      var tail := rest[n1 + 1..];
      var n2 := DigitPrefix(tail);
      if n2 == 0 then NoMatch
      else
        assert rest[..n1 + 1 + n2] == rest[..n1] + "-" + tail[..n2];
        Match(rest[..n1], tail[..n2])
  }

  /** The matcher reads back what it is given: a well-formed id followed by
      anything that does not extend the car number parses to its parts. */
  lemma {:induction false} MatchVehicleIdRoundTrip(chassis: string, car: string, suffix: string)
    requires |chassis| > 0 && AllDigits(chassis) && |car| > 0 && AllDigits(car)
    requires |suffix| == 0 || !IsDigit(suffix[0])
    ensures MatchVehicleId(Cfg.vehicleIdPrefix + chassis + "-" + car + suffix) == Match(chassis, car)
  {
    var p := Cfg.vehicleIdPrefix;
    var rest := chassis + "-" + car + suffix;
    var id := p + chassis + "-" + car + suffix;
    assert id == p + rest;
    assert id[..|p|] == p && id[|p|..] == rest;
    MatchNumbersRoundTrip(chassis, car, suffix);
  }

  lemma {:induction false} MatchNumbersRoundTrip(chassis: string, car: string, suffix: string)
    requires |chassis| > 0 && AllDigits(chassis) && |car| > 0 && AllDigits(car)
    requires |suffix| == 0 || !IsDigit(suffix[0])
    ensures MatchNumbers(chassis + "-" + car + suffix) == Match(chassis, car)
  {
    var after := "-" + car + suffix;
    var rest := chassis + after;
    assert rest == chassis + "-" + car + suffix;
    DigitPrefixOf(chassis, after);
    assert rest[|chassis|] == '-';
    assert rest[..|chassis|] == chassis;
    var tail := rest[|chassis| + 1..];
    assert tail == car + suffix;
    DigitPrefixOf(car, suffix);
    assert tail[..|car|] == car;
  }

  /** A digit run followed by a non-digit is exactly the greedy prefix. */
  lemma {:induction false} DigitPrefixOf(digits: string, after: string)
    requires AllDigits(digits) && (|after| == 0 || !IsDigit(after[0]))
    ensures DigitPrefix(digits + after) == |digits|
  {
    if |digits| > 0 {
      assert (digits + after)[1..] == digits[1..] + after;
      DigitPrefixOf(digits[1..], after);
    } else {
      assert digits + after == after;
    }
  }

  /** `parse_vehicle_id`: `(chassis, car)` from the pattern, or
      `("Unknown", "000")` when it does not match. */
  function ParseVehicleId(id: string): (r: (string, string))
    ensures MatchVehicleId(id).NoMatch? <==> r == ("Unknown", Cfg.unassignedCarNumber)
    ensures MatchVehicleId(id).Match? ==> r == (MatchVehicleId(id).chassis, MatchVehicleId(id).car)
  {
    match MatchVehicleId(id)
    case NoMatch => ("Unknown", Cfg.unassignedCarNumber)
    case Match(chassis, car) =>
      assert chassis != "Unknown" by { assert !IsDigit(chassis[0]) || chassis[0] != 'U'; assert IsDigit(chassis[0]); }
      (chassis, car)
  }

  /** `get_vehicle_display_name`. */
  function DisplayName(id: string): (name: string)
    ensures ParseVehicleId(id).1 == Cfg.unassignedCarNumber ==>
              name == "Chassis " + ParseVehicleId(id).0 + " (Unassigned)"
    ensures ParseVehicleId(id).1 != Cfg.unassignedCarNumber ==>
              name == "Car #" + ParseVehicleId(id).1 + " (Chassis " + ParseVehicleId(id).0 + ")"
  {
    var (chassis, car) := ParseVehicleId(id);
    if car == Cfg.unassignedCarNumber then "Chassis " + chassis + " (Unassigned)"
    else "Car #" + car + " (Chassis " + chassis + ")"
  }

  predicate IsUnassignedForm(name: string)
  {
    |name| >= 8 && name[..8] == "Chassis "
  }

  /** The display name has the unassigned form exactly when the car number
      is `000`, and every id the pattern rejects displays as unassigned. */
  lemma DisplayNameUnassigned(id: string)
    ensures IsUnassignedForm(DisplayName(id)) <==> ParseVehicleId(id).1 == Cfg.unassignedCarNumber
    ensures MatchVehicleId(id).NoMatch? ==> DisplayName(id) == "Chassis Unknown (Unassigned)"
  {
    var name := DisplayName(id);
    if ParseVehicleId(id).1 != Cfg.unassignedCarNumber {
      assert name[2] == 'r';
    } else {
      assert name[..8] == "Chassis ";
    }
  }

  // ---------------------------------------------------------------------------
  // extract_track_name

  /** `TRACK_NAMES`, in the dictionary's insertion order. */
  const TrackNames: seq<(string, string)> := [
    ("barber", "Barber Motorsports Park"),
    ("cota", "Circuit of the Americas"),
    ("indianapolis", "Indianapolis Motor Speedway"),
    ("road_america", "Road America"),
    ("sebring", "Sebring International Raceway"),
    ("sonoma", "Sonoma Raceway"),
    ("vir", "Virginia International Raceway")
  ]

  const UnknownTrack: string := "Unknown Track"

  function LowerChar(c: char): char
  {
    if 'A' <= c <= 'Z' then (c as int - 'A' as int + 'a' as int) as char else c
  }

  /** `str.lower`, on ASCII letters. */
  function Lower(s: string): (r: string)
    ensures |r| == |s| && forall i :: 0 <= i < |s| ==> r[i] == LowerChar(s[i])
  {
    seq(|s|, i requires 0 <= i < |s| => LowerChar(s[i]))
  }

  /** Python's `needle in hay` on strings. */
  function Contains(hay: string, needle: string): bool
    decreases |hay|
  {
    if |needle| <= |hay| && hay[..|needle|] == needle then true
    else if |hay| == 0 then false
    else Contains(hay[1..], needle)
  }

  /** `needle` sits in `hay` at offset `i`. */
  predicate OccursAt(hay: string, needle: string, i: int)
  {
    0 <= i <= |hay| - |needle| && hay[i..i + |needle|] == needle
  }

  /** `Contains` holds exactly when `needle` sits at some offset of `hay`. */
  lemma {:induction false} ContainsAt(hay: string, needle: string)
    ensures Contains(hay, needle) <==> exists i :: OccursAt(hay, needle, i)
    decreases |hay|
  {
    if |needle| <= |hay| && hay[..|needle|] == needle {
      assert OccursAt(hay, needle, 0);
    } else if |hay| > 0 {
      ContainsAt(hay[1..], needle);
      if exists i :: OccursAt(hay, needle, i) {
        var i :| OccursAt(hay, needle, i);
        assert i != 0;
        assert hay[1..][i - 1..i - 1 + |needle|] == hay[i..i + |needle|];
        assert OccursAt(hay[1..], needle, i - 1);
      }
      if Contains(hay[1..], needle) {
        var j :| OccursAt(hay[1..], needle, j);
        assert hay[j + 1..j + 1 + |needle|] == hay[1..][j..j + |needle|];
        assert OccursAt(hay, needle, j + 1);
      }
    } else {
      assert |needle| > 0;
    }
  }

  /** Index of the first entry of `names` whose key is in `hay`, or `|names|`. */
  function FirstKeyIn(hay: string, names: seq<(string, string)>): (k: nat)
    ensures k <= |names|
    ensures k < |names| ==> Contains(hay, names[k].0)
    ensures forall j :: 0 <= j < k ==> !Contains(hay, names[j].0)
  {
    if |names| == 0 then 0
    else if Contains(hay, names[0].0) then 0
    else 1 + FirstKeyIn(hay, names[1..])
  }

  /** One pass of the key loop over an already lower-cased string. */
  function LookupTrack(hay: string): (r: string)
    ensures r == UnknownTrack || exists k :: 0 <= k < |TrackNames| && r == TrackNames[k].1
  {
    var k := FirstKeyIn(hay, TrackNames);
    if k < |TrackNames| then TrackNames[k].1 else UnknownTrack
  }

  /** Position just after the last `/`, or 0. */
  function NameStart(path: string): (i: nat)
    ensures i <= |path|
    ensures i > 0 ==> path[i - 1] == '/'
    ensures forall j :: i <= j < |path| ==> path[j] != '/'
  {
    if |path| == 0 then 0
    else if path[|path| - 1] == '/' then |path|
    else NameStart(path[..|path| - 1])
  }

  /** `Path(path).parent.name` as the slice of `path` between the last two
      separators. */
  function ParentName(path: string): (r: (nat, nat))
    ensures r.0 <= r.1 <= |path|
  {
    var i := NameStart(path);
    if i == 0 then (0, 0) else (NameStart(path[..i - 1]), i - 1)
  }

  /** `Path(path).stem` as a slice: the file name without its last
      extension; a name that starts with its only dot keeps it. */
  function Stem(path: string): (r: (nat, nat))
    ensures r.0 <= r.1 <= |path|
  {
    var i := NameStart(path);
    var name := path[i..];
    var dot := LastDot(name);
    if dot > 0 then (i, i + dot) else (i, |path|)
  }

  /** Index of the last `.` in `s`, or 0 when there is none. */
  function LastDot(s: string): (d: nat)
    ensures d < |s| || d == 0
  {
    if |s| == 0 then 0
    else if s[|s| - 1] == '.' then |s| - 1
    else LastDot(s[..|s| - 1])
  }

  /** `extract_track_name`: the key loop on the lower-cased path, then on
      the parent directory name, then on the file stem, else
      `"Unknown Track"`. */
  function ExtractTrackName(path: string): (r: string)
    ensures r == UnknownTrack || exists k :: 0 <= k < |TrackNames| && r == TrackNames[k].1
  {
    var whole := LookupTrack(Lower(path));
    if whole != UnknownTrack then whole
    else
      var (a, b) := ParentName(path);
      var parent := LookupTrack(Lower(path[a..b]));
      if parent != UnknownTrack then parent
      else
        var (c, d) := Stem(path);
        LookupTrack(Lower(path[c..d]))
  }

  /** Lower-casing commutes with slicing, so a key inside a slice of the
      path is inside the whole path. */
  lemma {:induction false} ContainsInSlice(path: string, a: nat, b: nat, key: string)
    requires a <= b <= |path| && Contains(Lower(path[a..b]), key)
    ensures Contains(Lower(path), key)
  {
    ContainsAt(Lower(path[a..b]), key);
    var i :| OccursAt(Lower(path[a..b]), key, i);
    assert Lower(path)[a + i..a + i + |key|] == Lower(path[a..b])[i..i + |key|];
    assert OccursAt(Lower(path), key, a + i);
    ContainsAt(Lower(path), key);
  }

  /** The parent-name and stem fallbacks never fire: the parent name and
      the stem are pieces of the path, so the result is the first table
      value whose key occurs in the lower-cased path, and
      `"Unknown Track"` exactly when no key occurs there. */
  lemma {:induction false} ExtractTrackNameFirstKey(path: string)
    ensures var k := FirstKeyIn(Lower(path), TrackNames);
      ExtractTrackName(path) == if k < |TrackNames| then TrackNames[k].1 else UnknownTrack
    ensures ExtractTrackName(path) == UnknownTrack <==>
              forall k :: 0 <= k < |TrackNames| ==> !Contains(Lower(path), TrackNames[k].0)
  {
    var k := FirstKeyIn(Lower(path), TrackNames);
    if k == |TrackNames| {
      var (a, b) := ParentName(path);
      var (c, d) := Stem(path);
      forall j | 0 <= j < |TrackNames| ensures !Contains(Lower(path[a..b]), TrackNames[j].0) && !Contains(Lower(path[c..d]), TrackNames[j].0) {
        if Contains(Lower(path[a..b]), TrackNames[j].0) {
          ContainsInSlice(path, a, b, TrackNames[j].0);
        }
        if Contains(Lower(path[c..d]), TrackNames[j].0) {
          ContainsInSlice(path, c, d, TrackNames[j].0);
        }
      }
      assert FirstKeyIn(Lower(path[a..b]), TrackNames) == |TrackNames|;
      assert FirstKeyIn(Lower(path[c..d]), TrackNames) == |TrackNames|;
    } else {
      assert TrackNames[k].1 != UnknownTrack;
    }
  }
}
