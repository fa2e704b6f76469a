/**
 * Rendering of track positions and total durations: the player's
 * `formatTime`, the albums page's `formatDuration` and
 * `formatAlbumDuration`, and the total-duration line of the liked-songs and
 * playlist pages. Each rendering is paired with a reader that recovers the
 * number of seconds it shows.
 */
module Durations {
  import opened Wrappers
  import opened Text
  import opened Songs

  /** `formatTime`: minutes, a colon, and the seconds with a leading 0 below 10. */
  function FormatTime(seconds: nat): string {
    var secs := seconds % 60;
    NatToString(seconds / 60) + ":" + (if secs < 10 then "0" else "") + NatToString(secs)
  }

  /** `s.padStart(2, '0')`. */
  function PadStart2(s: string): string {
    if |s| >= 2 then s else seq(2 - |s|, _ => '0') + s
  }

  /** The albums page's `formatDuration`. */
  function FormatDuration(seconds: nat): string {
    NatToString(seconds / 60) + ":" + PadStart2(NatToString(seconds % 60))
  }

  /** Reads `m:ss` back into seconds. */
  function ReadClock(t: string): Option<nat> {
    var k := DigitRun(t);
    if k == 0 || k + 3 != |t| || t[k] != ':' || !AllDigits(t[k + 1..]) then None
    else Some(ParseDigits(t[..k]) * 60 + ParseDigits(t[k + 1..]))
  }

  lemma TwoDigitSeconds(secs: nat)
    requires secs < 60
    ensures |(if secs < 10 then "0" else "") + NatToString(secs)| == 2
    ensures AllDigits((if secs < 10 then "0" else "") + NatToString(secs))
    ensures ParseDigits((if secs < 10 then "0" else "") + NatToString(secs)) == secs
  {
    ParseNatToString(secs);
    var d := NatToString(secs);
    if secs < 10 {
      var p := "0" + d;
      assert p[..|p| - 1] == "0";
      assert ParseDigits("0") == 0 by {
        assert "0"[..0] == "";
      }
      assert d[..|d| - 1] == "";
    } else {
      assert NatToString(secs) == NatToString(secs / 10) + [DigitChar(secs % 10)];
    }
  }

  /** The player's clock text reads back as exactly the seconds it renders. */
  lemma ReadFormatTime(seconds: nat)
    ensures ReadClock(FormatTime(seconds)) == Some(seconds)
  {
    var secs := seconds % 60;
    var d := NatToString(seconds / 60);
    var ss := (if secs < 10 then "0" else "") + NatToString(secs);
    TwoDigitSeconds(secs);
    var t := FormatTime(seconds);
    assert t == d + (":" + ss);
    DigitRunOfNumber(seconds / 60, ":" + ss);
    assert t[..|d|] == d;
    assert t[|d| + 1..] == ss;
    ParseNatToString(seconds / 60);
  }

  /** The albums page renders track lengths exactly as the player does. */
  lemma FormatDurationIsFormatTime(seconds: nat)
    ensures FormatDuration(seconds) == FormatTime(seconds)
  {
    var secs := seconds % 60;
    if secs < 10 {
      assert |NatToString(secs)| == 1;
      assert PadStart2(NatToString(secs)) == "0" + NatToString(secs);
    } else {
      assert NatToString(secs) == NatToString(secs / 10) + [DigitChar(secs % 10)];
    }
  }

  // ------------------------------------------------------ hours and minutes

  /** `"{h}{hourUnit}{m}{minuteUnit}"` when there is at least one hour, else
      `"{m}{minuteUnit}"`, with `h = total div 3600` and
      `m = (total mod 3600) div 60`; leftover seconds are dropped. */
  function FormatHoursMinutes(total: nat, hourUnit: string, minuteUnit: string): string {
    var hours := total / 3600;
    var minutes := (total % 3600) / 60;
    if hours > 0 then NatToString(hours) + hourUnit + NatToString(minutes) + minuteUnit
    else NatToString(minutes) + minuteUnit
  }

  /** A unit label that cannot be confused with the digits before it. */
  predicate UnitLabel(u: string) {
    |u| > 0 && !IsDigit(u[0])
  }

  /** Reads `"{n}{unit}"` back into `n`. */
  function ReadNumberThen(t: string, unit: string): Option<nat> {
    var k := DigitRun(t);
    if k > 0 && t[k..] == unit then Some(ParseDigits(t[..k])) else None
  }

  /** Reads a text of the `FormatHoursMinutes` shape back into seconds. */
  function ReadHoursMinutes(t: string, hourUnit: string, minuteUnit: string): Option<nat> {
    match ReadNumberThen(t, minuteUnit)
    case Some(m) => Some(m * 60)
    case None =>
      var k := DigitRun(t);
      if k == 0 || !StartsWith(t[k..], hourUnit) then None
      else
        match ReadNumberThen(t[k + |hourUnit|..], minuteUnit)
        case Some(m) => Some(ParseDigits(t[..k]) * 3600 + m * 60)
        case None => None
  }

  lemma ReadNumberThenNumber(n: nat, unit: string)
    requires UnitLabel(unit)
    ensures ReadNumberThen(NatToString(n) + unit, unit) == Some(n)
  {
    LeadingNumber(n, unit);
  }

  lemma ReadMinutesOnly(m: nat, hourUnit: string, minuteUnit: string)
    requires UnitLabel(minuteUnit)
    ensures ReadHoursMinutes(NatToString(m) + minuteUnit, hourUnit, minuteUnit) == Some(m * 60)
  {
    ReadNumberThenNumber(m, minuteUnit);
  }

  lemma ReadHoursThenMinutes(t: string, hourUnit: string, minuteUnit: string, k: nat, h: nat, m: nat)
    requires ReadNumberThen(t, minuteUnit) == None
    requires k == DigitRun(t) && 0 < k && StartsWith(t[k..], hourUnit)
    requires ParseDigits(t[..k]) == h
    requires ReadNumberThen(t[k + |hourUnit|..], minuteUnit) == Some(m)
    ensures ReadHoursMinutes(t, hourUnit, minuteUnit) == Some(h * 3600 + m * 60)
  {
  }

  lemma ReadNumberUnitNumber(a: string, hourUnit: string, u: string, minuteUnit: string, h: nat, m: nat)
    requires 0 < |a| && DigitRun(a + (hourUnit + u)) == |a| && ParseDigits(a) == h
    requires ReadNumberThen(u, minuteUnit) == Some(m)
    requires |minuteUnit| < |hourUnit + u|
    ensures ReadHoursMinutes(a + (hourUnit + u), hourUnit, minuteUnit) == Some(h * 3600 + m * 60)
  {
    var rest := hourUnit + u;
    var t := a + rest;
    var k := |a|;
    assert t[k..] == rest && t[..k] == a;
    assert ReadNumberThen(t, minuteUnit) == None by {
      assert rest != minuteUnit;
    }
    assert StartsWith(t[k..], hourUnit) by {
      assert rest[..|hourUnit|] == hourUnit;
    }
    assert t[k + |hourUnit|..] == u by {
      assert t[k + |hourUnit|..] == rest[|hourUnit|..];
    }
    ReadHoursThenMinutes(t, hourUnit, minuteUnit, k, h, m);
  }

  lemma ReadHoursAndMinutes(h: nat, m: nat, hourUnit: string, minuteUnit: string)
    requires UnitLabel(hourUnit) && UnitLabel(minuteUnit)
    ensures ReadHoursMinutes(NatToString(h) + (hourUnit + (NatToString(m) + minuteUnit)), hourUnit, minuteUnit)
            == Some(h * 3600 + m * 60)
  {
    LeadingNumber(h, hourUnit + (NatToString(m) + minuteUnit));
    ReadNumberThenNumber(m, minuteUnit);
    ReadNumberUnitNumber(NatToString(h), hourUnit, NatToString(m) + minuteUnit, minuteUnit, h, m);
  }

  /** A number of seconds with its leftover seconds past the last whole
      minute dropped. */
  function WholeMinutes(total: nat): (r: nat)
    ensures r <= total < r + 60
    ensures r % 60 == 0
  {
    total - total % 60
  }

  lemma HoursMinutesArithmetic(total: nat)
    ensures (total / 3600) * 3600 + ((total % 3600) / 60) * 60 == WholeMinutes(total)
  {
  }

  /** The rendered text determines the total down to the whole minute. */
  lemma ReadFormatHoursMinutes(total: nat, hourUnit: string, minuteUnit: string)
    requires UnitLabel(hourUnit) && UnitLabel(minuteUnit)
    ensures ReadHoursMinutes(FormatHoursMinutes(total, hourUnit, minuteUnit), hourUnit, minuteUnit)
            == Some(WholeMinutes(total))
  {
    var hours := total / 3600;
    var minutes := (total % 3600) / 60;
    var text := FormatHoursMinutes(total, hourUnit, minuteUnit);
    HoursMinutesArithmetic(total);
    if hours > 0 {
      assert text == NatToString(hours) + (hourUnit + (NatToString(minutes) + minuteUnit));
      ReadHoursAndMinutes(hours, minutes, hourUnit, minuteUnit);
    } else {
      assert text == NatToString(minutes) + minuteUnit;
      ReadMinutesOnly(minutes, hourUnit, minuteUnit);
    }
  }

  /** The albums page's `formatAlbumDuration`: `"{h}h {m}m"` or `"{m}m"`. */
  function FormatAlbumDuration(total: nat): string {
    FormatHoursMinutes(total, "h ", "m")
  }

  /** Reading an album duration back gives the total minus its leftover seconds. */
  lemma ReadFormatAlbumDuration(total: nat)
    ensures ReadHoursMinutes(FormatAlbumDuration(total), "h ", "m") == Some(WholeMinutes(total))
  {
    ReadFormatHoursMinutes(total, "h ", "m");
  }

  /** `getTotalDuration` of the liked-songs and playlist pages: `'0:00'` for
      an empty list, otherwise `"{h} hr {m} min"` or `"{m} min"` of the summed
      durations. */
  function TotalDurationText(songs: seq<Song>): string {
    if |songs| == 0 then "0:00" else FormatHoursMinutes(TotalDuration(songs), " hr ", " min")
  }

  lemma ReadTotalHoursMinutes(t: nat)
    ensures ReadHoursMinutes(FormatHoursMinutes(t, " hr ", " min"), " hr ", " min") == Some(WholeMinutes(t))
  {
    assert UnitLabel(" hr ") && UnitLabel(" min");
    ReadFormatHoursMinutes(t, " hr ", " min");
  }

  /** The empty list's placeholder reads as a zero clock. */
  lemma ReadZeroClock()
    ensures ReadClock("0:00") == Some(0)
  {
    ReadFormatTime(0);
    assert NatToString(0) == "0";
    assert FormatTime(0) == "0:00";
  }

  /** An empty list's total-duration line reads as zero seconds. */
  lemma ReadEmptyTotalDurationText(songs: seq<Song>)
    requires |songs| == 0
    ensures ReadClock(TotalDurationText(songs)) == Some(0)
  {
    ReadZeroClock();
  }

  /** A non-empty list's total-duration line shows the summed durations down
      to the whole minute. */
  lemma ReadTotalDurationText(songs: seq<Song>)
    requires |songs| > 0
    ensures ReadHoursMinutes(TotalDurationText(songs), " hr ", " min")
              == Some(WholeMinutes(TotalDuration(songs)))
  {
    var t := TotalDuration(songs);
    var text := TotalDurationText(songs);
    assert text == FormatHoursMinutes(t, " hr ", " min");
    ReadTotalHoursMinutes(t);
    assert ReadHoursMinutes(text, " hr ", " min") == Some(WholeMinutes(t));
  }
}
