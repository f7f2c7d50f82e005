/**
 * The exam countdown shared by the coordinator's monitor and the
 * participant's timer: the end time is the clock plus the duration, and a
 * positive remainder in milliseconds shows as "%02d:%02d:%02d" of whole
 * hours, minutes and seconds.
 */
module Countdown {
  import opened Text

  const MsPerSecond: nat := 1000
  const MsPerMinute: nat := 60 * MsPerSecond
  const MsPerHour: nat := 60 * MsPerMinute

  /** now + (long) durationMinutes * 60 * 1000. */
  function EndTime(now: int, durationMinutes: int): (t: int)
    ensures t - now == durationMinutes * MsPerMinute
  {
    now + durationMinutes * 60 * 1000
  }

  const TimeUp: string := "00:00:00"

  /** The display for a positive remainder; hours are not capped. */
  function Hms(remaining: nat): (r: string)
    ensures remaining < 100 * MsPerHour ==> |r| == 8 && r[2] == ':' && r[5] == ':'
  {
    var hours := remaining / 3600000;
    var minutes := (remaining % 3600000) / 60000;
    var seconds := (remaining % 60000) / 1000;
    Pad2(hours) + ":" + Pad2(minutes) + ":" + Pad2(seconds)
  }

  /** The display reads back as the remainder truncated to whole seconds. */
  lemma HmsReadsBack(remaining: nat)
    requires remaining < 100 * MsPerHour
    ensures var r := Hms(remaining);
      && AllDigits(r[..2]) && AllDigits(r[3..5]) && AllDigits(r[6..])
      && DigitsValue(r[3..5]) < 60 && DigitsValue(r[6..]) < 60
      && var shown := DigitsValue(r[..2]) * MsPerHour + DigitsValue(r[3..5]) * MsPerMinute + DigitsValue(r[6..]) * MsPerSecond;
         shown <= remaining < shown + MsPerSecond
  {
    var hours, minutes, seconds := remaining / 3600000, (remaining % 3600000) / 60000, (remaining % 60000) / 1000;
    HmsFields(remaining, hours, minutes, seconds);
    Pad2Digits(hours);
    Pad2Digits(minutes);
    Pad2Digits(seconds);
    HmsParts(Pad2(hours), Pad2(minutes), Pad2(seconds));
  }

  /** Whole hours, minutes below 60 and seconds below 60 add up to the remainder less its milliseconds. */
  lemma HmsFields(remaining: nat, hours: nat, minutes: nat, seconds: nat)
    requires hours == remaining / 3600000 && minutes == (remaining % 3600000) / 60000 && seconds == (remaining % 60000) / 1000
    ensures remaining < 100 * MsPerHour ==> hours < 100
    ensures minutes < 60 && seconds < 60
    ensures hours * 3600000 + minutes * 60000 + seconds * 1000 <= remaining < hours * 3600000 + minutes * 60000 + seconds * 1000 + 1000
  {
    var r1 := remaining % 3600000;
    var r2 := r1 % 60000;
    assert remaining == hours * 3600000 + r1 && r1 < 3600000;
    assert r1 == minutes * 60000 + r2 && r2 < 60000;
    ModMinute(remaining, hours * 60 + minutes, r2);
    assert r2 == seconds * 1000 + r2 % 1000;
  }

  lemma ModMinute(a: nat, q: nat, r: nat)
    requires a == q * 60000 + r && r < 60000
    ensures a % 60000 == r
  {
  }

  /** The three fields of "hh:mm:ss" sit at 0-1, 3-4 and 6-7. */
  lemma HmsParts(h: string, m: string, s: string)
    requires |h| == 2 && |m| == 2 && |s| == 2
    ensures var r := h + ":" + m + ":" + s; r[..2] == h && r[3..5] == m && r[6..] == s
  {
  }

  /** One tick: the remainder if positive, otherwise "00:00:00", at which point the exam ends. */
  function Display(remaining: int): (r: string)
    ensures remaining <= 0 ==> r == TimeUp
  {
    if remaining > 0 then Hms(remaining) else TimeUp
  }
}
