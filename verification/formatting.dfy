/** The clock and duration texts of the two clients: `m:ss` (player `formatTime`
    and `formatVideoTime`, admin `formatDuration`) and `Hh Mm` (player
    `formatDuration`, admin `updateStats`). Seconds are whole numbers here. */
module Formatting {
  import opened Wrappers
  import opened Strings

  // ------------------------------------------------------------------ m:ss

  /** Minutes written without leading zeros, a colon, then exactly two digits of
      seconds below 60. */
  predicate ClockShaped(r: string) {
    && |r| >= 4
    && (|r| == 4 || r[0] != '0')
    && r[|r| - 3] == ':'
    && AllDigits(r[..|r| - 3])
    && AllDigits(r[|r| - 2..])
    && ParseNat(r[|r| - 2..]) < 60
  }

  /** Reads an `m:ss` text back as seconds. */
  function ParseClock(r: string): nat
    requires ClockShaped(r)
  {
    ParseNat(r[..|r| - 3]) * 60 + ParseNat(r[|r| - 2..])
  }

  /** A number below 60 padded to two digits reads back as itself. */
  lemma TwoDigits(x: nat)
    requires x < 60
    ensures var p := PadTwo(NatToString(x));
            |p| == 2 && AllDigits(p) && ParseNat(p) == x
  {
    var p := PadTwo(NatToString(x));
    if x < 10 {
      assert NatToString(x) == [DigitChar(x)];
      assert p == ['0', DigitChar(x)];
      assert p[..1] == "0";
      assert ParseNat("0") == ParseNat("") * 10 + 0;
    } else {
      assert NatToString(x) == NatToString(x / 10) + [DigitChar(x % 10)];
      ParseNatToString(x);
    }
  }

  /** `formatTime`: `floor(s/60):` and the remaining seconds padded to two digits;
      the text reads back as the same number of seconds. */
  function FormatTime(seconds: nat): (r: string)
    ensures ClockShaped(r)
    ensures ParseClock(r) == seconds
  {
    var m := NatToString(seconds / 60);
    var ss := PadTwo(NatToString(seconds % 60));
    var r := m + ":" + ss;
    TwoDigits(seconds % 60);
    ParseNatToString(seconds / 60);
    NatToStringLeading(seconds / 60);
    assert r[..|r| - 3] == m && r[|r| - 2..] == ss && r[|r| - 3] == ':';
    r
  }

  /** Two seconds counts with the same text are equal. */
  lemma FormatTimeInjective(a: nat, b: nat)
    requires FormatTime(a) == FormatTime(b)
    ensures a == b
  {
  }

  /** `formatVideoTime`: `0:00` for a missing or zero length, `m:ss` otherwise. */
  function FormatVideoTime(seconds: Option<nat>): (r: string)
    ensures seconds.None? || seconds == Some(0) ==> r == "0:00"
    ensures ClockShaped(r) && ParseClock(r) == seconds.GetOr(0)
  {
    if seconds.None? || seconds.value == 0 then
      assert FormatTime(0) == "0:00";
      "0:00"
    else FormatTime(seconds.value)
  }

  /** On whole seconds the video clock and the audio clock agree, zero included. */
  lemma VideoTimeIsTime(seconds: nat)
    ensures FormatVideoTime(Some(seconds)) == FormatTime(seconds)
  {
    if seconds == 0 {
      assert NatToString(0) == "0";
    }
  }

  /** The admin console's `formatDuration`: `-` for a missing or zero length. */
  function AdminFormatDuration(seconds: Option<nat>): (r: string)
    ensures r == "-" <==> seconds.None? || seconds == Some(0)
    ensures r != "-" ==> ClockShaped(r) && ParseClock(r) == seconds.value
  {
    if seconds.None? || seconds.value == 0 then "-" else FormatTime(seconds.value)
  }

  // ----------------------------------------------------------------- Hh Mm

  /** Whole hours and the whole minutes left over. */
  datatype HoursMinutes = HoursMinutes(hours: nat, minutes: nat)

  /** `floor(s/3600)` and `floor((s mod 3600)/60)`: the split that leaves fewer than
      60 seconds over. */
  function SplitHours(total: nat): (hm: HoursMinutes)
    ensures hm.minutes < 60
    ensures hm.hours * 3600 + hm.minutes * 60 <= total < hm.hours * 3600 + hm.minutes * 60 + 60
  {
    HoursMinutes(total / 3600, (total % 3600) / 60)
  }

  /** The split is the only one with those bounds. */
  lemma SplitHoursUnique(total: nat, h: nat, m: nat)
    requires m < 60 && h * 3600 + m * 60 <= total < h * 3600 + m * 60 + 60
    ensures SplitHours(total) == HoursMinutes(h, m)
  {
    var hm := SplitHours(total);
    assert hm.hours == h;
  }

  function HoursMinutesText(hm: HoursMinutes): string {
    NatToString(hm.hours) + "h " + NatToString(hm.minutes) + "m"
  }

  /** The player's `formatDuration`: `0h 0m` for a missing or zero length, else the
      hours and leftover minutes of the total. */
  function PlayerFormatDuration(seconds: Option<nat>): (r: string)
    ensures seconds.None? || seconds == Some(0) ==> r == "0h 0m"
    ensures r == HoursMinutesText(SplitHours(seconds.GetOr(0)))
  {
    if seconds.None? || seconds.value == 0 then "0h 0m"
    else HoursMinutesText(SplitHours(seconds.value))
  }
}
