/** The pure decisions inside the chart helpers: lap-time formatting, pace
    categories and their colours, and the heavy-braking zones shaded on the
    speed trace. */
module Visualizations {
  import opened Wrappers
  import opened Numeric
  import opened Config

  // ---------------------------------------------------------------------------
  // Decimal rendering

  function DigitChar(d: nat): char
    requires d < 10
  {
    "0123456789"[d]
  }

  function DigitValue(c: char): int
  {
    c as int - '0' as int
  }

  /** Decimal digits of `n`, without leading zeros. */
  function NatString(n: nat): (s: string)
    ensures |s| > 0 && forall i :: 0 <= i < |s| ==> '0' <= s[i] <= '9'
  {
    if n < 10 then [DigitChar(n)] else NatString(n / 10) + [DigitChar(n % 10)]
  }

  /** Python's `str(int)`. */
  function IntString(n: int): string
  {
    if n < 0 then "-" + NatString(-n) else NatString(n)
  }

  /** `n` printed with at least `width` digits, zero-padded on the left. */
  function Padded(n: nat, width: nat): (s: string)
    ensures |s| >= width && forall i :: 0 <= i < |s| ==> '0' <= s[i] <= '9'
  {
    var digits := NatString(n);
    if |digits| >= width then digits
    else seq(width - |digits|, _ => '0') + digits
  }

  /** Value of a string of decimal digits. */
  function ParseNat(s: string): int
  {
    if |s| == 0 then 0 else 10 * ParseNat(s[..|s| - 1]) + DigitValue(s[|s| - 1])
  }

  /** Reading the digits back gives the number. */
  lemma {:induction false} ParseNatString(n: nat)
    ensures ParseNat(NatString(n)) == n
  {
    if n >= 10 {
      var s := NatString(n);
      assert s[..|s| - 1] == NatString(n / 10);
      ParseNatString(n / 10);
    }
  }

  /** Leading zeros do not change the value. */
  lemma {:induction false} ParseNatZeros(k: nat, s: string)
    ensures ParseNat(seq(k, _ => '0') + s) == ParseNat(s)
    decreases |s|
  {
    if |s| == 0 {
      ParseZeros(k);
      assert seq(k, _ => '0') + s == seq(k, _ => '0');
    } else {
      var z := seq(k, _ => '0');
      assert (z + s)[..|z + s| - 1] == z + s[..|s| - 1];
      ParseNatZeros(k, s[..|s| - 1]);
    }
  }

  lemma {:induction false} ParseZeros(k: nat)
    ensures ParseNat(seq(k, _ => '0')) == 0
  {
    if k > 0 {
      assert seq(k, _ => '0')[..k - 1] == seq(k - 1, _ => '0');
      ParseZeros(k - 1);
    }
  }

  lemma ParsePadded(n: nat, width: nat)
    ensures ParseNat(Padded(n, width)) == n
  {
    ParseNatString(n);
    if |NatString(n)| < width {
      ParseNatZeros(width - |NatString(n)|, NatString(n));
    }
  }

  // ---------------------------------------------------------------------------
  // format_lap_time

  /** Python's `x // 60` on a float: the floor of the quotient. */
  function MinutesOf(s: real): (m: int)
    ensures m as real * 60.0 <= s < m as real * 60.0 + 60.0
  {
    (s / 60.0).Floor
  }

  /** `s % 60` on a float: the remainder with the divisor's sign. */
  function SecondsOf(s: real): (r: real)
    ensures MinutesOf(s) as real * 60.0 + r == s
    ensures 0.0 <= r < 60.0
  {
    s - MinutesOf(s) as real * 60.0
  }

  /** `{x:.3f}` rounding of a non-negative value to thousandths, halves up. */
  function Millis(x: real): (ms: int)
    ensures ms as real <= x * 1000.0 + 0.5 < ms as real + 1.0
  {
    (x * 1000.0 + 0.5).Floor
  }

  /** `SS.mmm` for a count of thousandths, with the whole seconds padded to
      two digits. */
  function SecondsField(ms: nat): string
  {
    Padded(ms / 1000, 2) + "." + Padded(ms % 1000, 3)
  }

  /** `format_lap_time` as written: minutes from the unrounded value, and
      the remainder rounded on its own, so a remainder within half a
      millisecond of 60 prints as `60.000`. */
  function FormatLapTime(seconds: Option<real>): (r: string)
    ensures seconds.None? <==> r == "N/A"
  {
    if seconds.None? then "N/A"
    else
      var m := IntString(MinutesOf(seconds.value));
      var ms := Millis(SecondsOf(seconds.value));
      assert m[|m| - 1] != 'A';
      m + ":" + SecondsField(ms)
  }

  /** The rounded seconds field of `format_lap_time` as written stays within
      `[0, 60000]` thousandths, and reaches 60000 exactly when the remainder
      is at least 59.9995. */
  lemma FormatLapTimeField(s: real)
    ensures 0 <= Millis(SecondsOf(s)) <= 60000
    ensures Millis(SecondsOf(s)) == 60000 <==> SecondsOf(s) >= 59.9995
  {
  }

  /** A lap of 59.9999 s prints as `0:60.000`, a seconds field no clock
      shows. */
  lemma FormatLapTimeOverflow()
    ensures FormatLapTime(Some(59.9999)) == "0:60.000"
  {
    OverflowArithmetic();
    SixtySecondsField();
    var m := IntString(0);
    assert m == "0";
    assert FormatLapTime(Some(59.9999)) == m + ":" + SecondsField(60000);
    assert m + ":" + "60.000" == "0:60.000";
  }

  lemma OverflowArithmetic()
    ensures MinutesOf(59.9999) == 0 && Millis(SecondsOf(59.9999)) == 60000
  {
    assert MinutesOf(59.9999) == 0;
    assert SecondsOf(59.9999) == 59.9999;
  }

  lemma SixtySecondsField()
    ensures SecondsField(60000) == "60.000"
  {
    var tens := Padded(60, 2);
    var frac := Padded(0, 3);
    assert tens == "60" by {
      assert NatString(6) == "6";
      assert NatString(60) == NatString(6) + [DigitChar(0)];
    }
    assert frac == "000" by {
      assert NatString(0) == "0";
      assert frac == seq(2, _ => '0') + "0";
    }
    assert SecondsField(60000) == tens + "." + frac;
  }

  /** Rounding the whole value to thousandths first and splitting that
      count into minutes and seconds keeps the seconds field below 60. */
  function FormatLapTimeCorrected(seconds: Option<real>): (r: string)
    ensures seconds.None? <==> r == "N/A"
  {
    if seconds.None? then "N/A"
    else
      var total := Millis(seconds.value);
      var m := IntString(total / 60000);
      assert m[|m| - 1] != 'A';
      m + ":" + SecondsField(total % 60000)
  }

  /** `MM:SS.mmm` read back as thousandths; `None` when malformed. */
  function ParseLapTime(text: string): (r: Option<int>)
  {
    var n := |text|;
    if n < 8 || text[n - 7] != ':' || text[n - 4] != '.' then None
    else Some(ParseNat(text[..n - 7]) * 60000 + ParseNat(text[n - 6..n - 4]) * 1000 + ParseNat(text[n - 3..]))
  }

  /** For every non-negative lap time the corrected format reads back as the
      time rounded to the millisecond, and its seconds field is a proper
      clock value below 60. */
  lemma FormatLapTimeRoundTrip(s: real)
    requires s >= 0.0
    ensures ParseLapTime(FormatLapTimeCorrected(Some(s))) == Some(Millis(s))
    ensures (Millis(s) % 60000) / 1000 < 60
  {
    var total := Millis(s);
    var rest := total % 60000;
    var m := NatString(total / 60000);
    var secs := Padded(rest / 1000, 2);
    var frac := Padded(rest % 1000, 3);
    PaddedWidth(rest / 1000, 2);
    PaddedWidth(rest % 1000, 3);
    assert FormatLapTimeCorrected(Some(s)) == m + ":" + secs + "." + frac;
    ParseClockText(m, secs, frac);
    ParseNatString(total / 60000);
    ParsePadded(rest / 1000, 2);
    ParsePadded(rest % 1000, 3);
  }

  /** `format_lap_time` as written still reads back as the lap time rounded
      to the millisecond: the minutes field and the rounded remainder add up
      to the rounded whole, even when the remainder prints as `60.000`. */
  lemma FormatLapTimeParse(s: real)
    requires s >= 0.0
    ensures ParseLapTime(FormatLapTime(Some(s))) == Some(MinutesOf(s) * 60000 + Millis(SecondsOf(s)))
    ensures ParseLapTime(FormatLapTime(Some(s))) == Some(Millis(s))
  {
    var mins := MinutesOf(s);
    var ms := Millis(SecondsOf(s));
    FormatLapTimeField(s);
    MillisSplit(s);
    assert FormatLapTime(Some(s)) == IntString(mins) + ":" + SecondsField(ms);
    ClockParse(mins, ms);
  }

  /** Rounding commutes with removing whole minutes. */
  lemma MillisSplit(s: real)
    ensures Millis(s) == MinutesOf(s) * 60000 + Millis(SecondsOf(s))
  {
    var k := MinutesOf(s) * 60000;
    assert s * 1000.0 + 0.5 == k as real + (SecondsOf(s) * 1000.0 + 0.5);
  }

  /** A minutes count and a seconds field of at most 60000 thousandths read
      back as their total. */
  lemma ClockParse(mins: nat, ms: nat)
    requires ms <= 60000
    ensures ParseLapTime(IntString(mins) + ":" + SecondsField(ms)) == Some(mins * 60000 + ms)
  {
    var m := NatString(mins);
    var secs := Padded(ms / 1000, 2);
    var frac := Padded(ms % 1000, 3);
    PaddedWidth(ms / 1000, 2);
    PaddedWidth(ms % 1000, 3);
    assert IntString(mins) + ":" + SecondsField(ms) == m + ":" + secs + "." + frac;
    ParseClockText(m, secs, frac);
    ParseNatString(mins);
    ParsePadded(ms / 1000, 2);
    ParsePadded(ms % 1000, 3);
  }

  /** For every non-negative lap time, the format as written and the
      corrected one print the same text exactly when the remainder after
      whole minutes is below 59.9995 s. */
  lemma FormatLapTimeAgrees(s: real)
    requires s >= 0.0
    ensures FormatLapTime(Some(s)) == FormatLapTimeCorrected(Some(s)) <==> SecondsOf(s) < 59.9995
  {
    FormatLapTimeField(s);
    MillisSplit(s);
    ClockAgrees(MinutesOf(s), Millis(SecondsOf(s)), Millis(s));
  }

  /** Printing minutes and a seconds field of at most 60000 thousandths
      gives the same text as splitting their total afresh exactly when the
      field is below 60000. */
  lemma ClockAgrees(mins: nat, ms: nat, total: int)
    requires ms <= 60000 && total == mins * 60000 + ms
    ensures (IntString(mins) + ":" + SecondsField(ms) == IntString(total / 60000) + ":" + SecondsField(total % 60000))
            == (ms < 60000)
  {
    if ms < 60000 {
      assert total / 60000 == mins && total % 60000 == ms;
    } else {
      assert total / 60000 == mins + 1 && total % 60000 == 0;
      PaddedWidth(60, 2);
      PaddedWidth(0, 2);
      assert Padded(60, 2)[0] == '6' by {
        assert NatString(60) == NatString(6) + [DigitChar(0)];
      }
      assert Padded(0, 2)[0] == '0';
      ClockSecondsAt(IntString(mins), ms);
      ClockSecondsAt(IntString(mins + 1), 0);
    }
  }

  /** Where the whole seconds sit in `M:SS.mmm`. */
  lemma ClockSecondsAt(m: string, ms: nat)
    requires |m| > 0 && ms <= 60000
    ensures var text := m + ":" + SecondsField(ms);
      && |text| == |m| + 7 && text[|text| - 6..|text| - 4] == Padded(ms / 1000, 2)
  {
    var secs := Padded(ms / 1000, 2);
    var frac := Padded(ms % 1000, 3);
    PaddedWidth(ms / 1000, 2);
    PaddedWidth(ms % 1000, 3);
    assert m + ":" + SecondsField(ms) == m + ":" + secs + "." + frac;
    ClockSlices(m, secs, frac);
  }

  /** A number below `10^width` pads to exactly `width` digits. */
  lemma {:induction false} PaddedWidth(n: nat, width: nat)
    requires width == 2 || width == 3
    requires if width == 2 then n < 100 else n < 1000
    ensures |Padded(n, width)| == width
  {
    if n >= 100 {
      assert NatString(n) == NatString(n / 10) + [DigitChar(n % 10)];
      assert NatString(n / 10) == NatString(n / 100) + [DigitChar(n / 10 % 10)];
    } else if n >= 10 {
      assert NatString(n) == NatString(n / 10) + [DigitChar(n % 10)];
    }
  }

  /** The fields of `M:SS.mmm` are found again by position. */
  lemma ParseClockText(m: string, secs: string, frac: string)
    requires |m| > 0 && |secs| == 2 && |frac| == 3
    ensures ParseLapTime(m + ":" + secs + "." + frac)
              == Some(ParseNat(m) * 60000 + ParseNat(secs) * 1000 + ParseNat(frac))
  {
    ClockSlices(m, secs, frac);
    ParseByPosition(m + ":" + secs + "." + frac, m, secs, frac);
  }

  /** `ParseLapTime` reads its three fields at fixed offsets from the end. */
  lemma ParseByPosition(text: string, m: string, secs: string, frac: string)
    requires |text| >= 8 && text[|text| - 7] == ':' && text[|text| - 4] == '.'
    requires text[..|text| - 7] == m && text[|text| - 6..|text| - 4] == secs && text[|text| - 3..] == frac
    ensures ParseLapTime(text) == Some(ParseNat(m) * 60000 + ParseNat(secs) * 1000 + ParseNat(frac))
  {
  }

  lemma ClockSlices(m: string, secs: string, frac: string)
    requires |m| > 0 && |secs| == 2 && |frac| == 3
    ensures var text := m + ":" + secs + "." + frac;
      && |text| == |m| + 7 && text[..|text| - 7] == m
      && text[|text| - 7] == ':' && text[|text| - 4] == '.'
      && text[|text| - 6..|text| - 4] == secs && text[|text| - 3..] == frac
  {
  }

  // ---------------------------------------------------------------------------
  // get_lap_pace_category and the lap-chart colours

  datatype Pace = Best | Fast | Medium | Slow

  /** `get_lap_pace_category`. */
  function PaceCategory(lapTime: real, bestTime: real): (p: Pace)
    ensures p == Best <==> lapTime == bestTime
    ensures p == Fast <==> lapTime != bestTime && lapTime <= bestTime * 1.02
    ensures p == Medium <==> lapTime != bestTime && bestTime * 1.02 < lapTime <= bestTime * 1.05
    ensures p == Slow <==> lapTime != bestTime && bestTime * 1.02 < lapTime && bestTime * 1.05 < lapTime
  {
    if lapTime == bestTime then Best
    else if lapTime <= bestTime * 1.02 then Fast
    else if lapTime <= bestTime * 1.05 then Medium
    else Slow
  }

  function Rank(p: Pace): nat
  {
    match p
    case Best => 0
    case Fast => 1
    case Medium => 2
    case Slow => 3
  }

  /** Against a positive best time, a slower lap never gets a better
      category. */
  lemma PaceMonotone(a: real, b: real, best: real)
    requires 0.0 < best <= a <= b
    ensures Rank(PaceCategory(a, best)) <= Rank(PaceCategory(b, best))
  {
  }

  /** `config.COLORS` for the four categories. */
  function PaceColour(p: Pace): string
  {
    match p
    case Best => "#0066ff"
    case Fast => "#00cc66"
    case Medium => "#ffcc00"
    case Slow => "#ff3333"
  }

  /** The colour loop of `create_lap_time_chart`: the best time is the
      minimum present lap time; a missing time (NaN) fails every comparison
      and is drawn slow. */
  function LapChartColours(times: seq<Option<real>>): (c: seq<string>)
    ensures |c| == |times|
  {
    var best := MinPresent(times);
    seq(|times|, i requires 0 <= i < |times| =>
      if times[i].None? || best.None? then PaceColour(Slow)
      else PaceColour(PaceCategory(times[i].value, best.value)))
  }

  /** Each chart colour is the colour of the lap's pace category against
      the session best, exactly the minimal laps are drawn best, and some
      lap is when any time is present. */
  lemma LapChartColoursAgree(times: seq<Option<real>>)
    ensures forall i :: 0 <= i < |times| && times[i].Some? ==>
              LapChartColours(times)[i] == PaceColour(PaceCategory(times[i].value, MinPresent(times).value))
    ensures forall i :: 0 <= i < |times| ==>
              (LapChartColours(times)[i] == PaceColour(Best) <==>
                 times[i].Some? && times[i] == MinPresent(times))
    ensures MinPresent(times).Some? ==> exists i :: 0 <= i < |times| && LapChartColours(times)[i] == PaceColour(Best)
  {
    var best := MinPresent(times);
    if best.Some? {
      var i :| 0 <= i < |times| && times[i] == best;
      assert LapChartColours(times)[i] == PaceColour(Best);
    }
  }

  // ---------------------------------------------------------------------------
  // Heavy-braking zones of create_speed_trace_chart

  predicate Heavy(intensity: real)
  {
    intensity > Cfg.heavyBrakeThreshold
  }

  /** First row of the heavy run that contains row `j`. */
  function RunStart(heavy: seq<bool>, j: nat): (s: nat)
    requires j < |heavy| && heavy[j]
    ensures s <= j && heavy[s] && (s == 0 || !heavy[s - 1])
    ensures forall k :: s <= k <= j ==> heavy[k]
  {
    if j == 0 || !heavy[j - 1] then j else RunStart(heavy, j - 1)
  }

  /** A zone closes at row `e` when row `e - 1` is heavy and row `e` is not. */
  predicate Closes(heavy: seq<bool>, e: nat)
    requires e < |heavy|
  {
    e > 0 && heavy[e - 1] && !heavy[e]
  }

  /** Reference: one zone per closing row among the first `n`, from the
      distance where its run began to the distance of the closing row. */
  function ZonesUpTo(heavy: seq<bool>, dist: seq<real>, n: nat): seq<(real, real)>
    requires n <= |heavy| == |dist|
  {
    if n == 0 then []
    else
      ZonesUpTo(heavy, dist, n - 1)
        + (if Closes(heavy, n - 1) then [(dist[RunStart(heavy, n - 2)], dist[n - 1])] else [])
  }

  /** The loop of `create_speed_trace_chart` over the shown lap's rows. A
      run still open at the last row is not emitted. */
  method BrakeZones(intensity: seq<real>, dist: seq<real>) returns (zones: seq<(real, real)>)
    requires |intensity| == |dist|
    ensures zones == ZonesUpTo(seq(|intensity|, i requires 0 <= i < |intensity| => Heavy(intensity[i])), dist, |dist|)
  {
    var heavy := seq(|intensity|, i requires 0 <= i < |intensity| => Heavy(intensity[i]));
    zones := [];
    var inZone := false;
    var start := 0.0;
    var i := 0;
    while i < |dist|
      invariant 0 <= i <= |dist|
      invariant zones == ZonesUpTo(heavy, dist, i)
      invariant inZone <==> i > 0 && heavy[i - 1]
      invariant inZone ==> start == dist[RunStart(heavy, i - 1)]
    {
      if heavy[i] && !inZone {
        start := dist[i];
        inZone := true;
      } else if !heavy[i] && inZone {
        zones := zones + [(start, dist[i])];
        inZone := false;
      }
      i := i + 1;
    }
  }

  /** Every zone is a maximal heavy run that has closed: it starts where a
      run starts, every row up to the closing row is heavy, and the closing
      row is not. Zones come in row order. */
  lemma {:induction false} ZonesAreClosedRuns(heavy: seq<bool>, dist: seq<real>, n: nat)
    requires n <= |heavy| == |dist|
    ensures forall z :: z in ZonesUpTo(heavy, dist, n) ==>
              exists s, e :: 0 <= s < e < n && z == (dist[s], dist[e]) && IsClosedRun(heavy, s, e)
    ensures |ZonesUpTo(heavy, dist, n)| == CountClosings(heavy, n)
  {
    if n > 0 {
      ZonesAreClosedRuns(heavy, dist, n - 1);
      if Closes(heavy, n - 1) {
        var s := RunStart(heavy, n - 2);
        assert IsClosedRun(heavy, s, n - 1);
      }
    }
  }

  /** Conversely every heavy run that closes within the first `n` rows is
      shaded. */
  lemma {:induction false} ClosedRunsAreZones(heavy: seq<bool>, dist: seq<real>, n: nat, s: nat, e: nat)
    requires n <= |heavy| == |dist| && s < e < n && IsClosedRun(heavy, s, e)
    ensures (dist[s], dist[e]) in ZonesUpTo(heavy, dist, n)
  {
    if e == n - 1 {
      RunStartUnique(heavy, s, n - 2);
    } else {
      ClosedRunsAreZones(heavy, dist, n - 1, s, e);
    }
  }

  /** A row of a run that began at `s` has `s` as its run start. */
  lemma {:induction false} RunStartUnique(heavy: seq<bool>, s: nat, j: nat)
    requires s <= j < |heavy| && (s == 0 || !heavy[s - 1])
    requires forall k :: s <= k <= j ==> heavy[k]
    ensures RunStart(heavy, j) == s
  {
    if j > s {
      RunStartUnique(heavy, s, j - 1);
    }
  }

  /** Rows `s .. e - 1` form a heavy run that starts at `s` and ends
      because row `e` is not heavy. */
  predicate IsClosedRun(heavy: seq<bool>, s: nat, e: nat)
    requires s < e < |heavy|
  {
    && (s == 0 || !heavy[s - 1])
    && (forall k :: s <= k < e ==> heavy[k])
    && !heavy[e]
  }

  function CountClosings(heavy: seq<bool>, n: nat): nat
    requires n <= |heavy|
  {
    if n == 0 then 0 else CountClosings(heavy, n - 1) + (if Closes(heavy, n - 1) then 1 else 0)
  }
}
