/**
 * The `TimeField` duration of a result (appraise/wmt13/models.py:561) and
 * its rendering by `'{}'.format(duration)`, Python's `str` of a
 * `datetime.time`: `HH:MM:SS`, followed by `.ffffff` when there are
 * microseconds, or `None` when no duration was stored.
 */
module Clock {
  import opened Basics
  import opened Text

  datatype Time = Time(hour: nat, minute: nat, second: nat, microsecond: nat)
  {
    predicate Valid()
    {
      hour < 24 && minute < 60 && second < 60 && microsecond < 1000000
    }

    /** Python 2 treats midnight (every field zero) as false. */
    predicate IsMidnight()
    {
      hour == 0 && minute == 0 && second == 0 && microsecond == 0
    }
  }

  /** `n` in exactly `width` decimal digits, zero-padded. */
  function Pad(n: nat, width: nat): (r: string)
    ensures |r| == width && AllDigits(r)
    ensures n < Power10(width) ==> DigitsValue(r) == n
  {
    if width == 0 then ""
    else
      var r := Pad(n / 10, width - 1) + [DigitChar(n % 10)];
      assert r[..|r| - 1] == Pad(n / 10, width - 1);
      r
  }

  function Power10(k: nat): nat
  {
    if k == 0 then 1 else 10 * Power10(k - 1)
  }

  /** `HH:MM:SS`, the part of `str(t)` every time has. */
  function HourMinuteSecond(t: Time): (r: string)
    requires t.Valid()
    ensures |r| == 8 && r[2] == ':' && r[5] == ':'
    ensures AllDigits(r[0..2]) && AllDigits(r[3..5]) && AllDigits(r[6..8])
    ensures DigitsValue(r[0..2]) == t.hour && DigitsValue(r[3..5]) == t.minute && DigitsValue(r[6..8]) == t.second
  {
    assert Power10(2) == 100;
    var r := Pad(t.hour, 2) + ":" + Pad(t.minute, 2) + ":" + Pad(t.second, 2);
    assert r[0..2] == Pad(t.hour, 2) && r[3..5] == Pad(t.minute, 2) && r[6..8] == Pad(t.second, 2);
    r
  }

  /** `str(t)` for a valid `datetime.time`. */
  function FormatTime(t: Time): (r: string)
    requires t.Valid()
    ensures |r| == (if t.microsecond == 0 then 8 else 15)
    ensures r[..8] == HourMinuteSecond(t)
    ensures t.microsecond != 0 ==> r[8] == '.' && AllDigits(r[9..15]) && DigitsValue(r[9..15]) == t.microsecond
  {
    var hms := HourMinuteSecond(t);
    if t.microsecond == 0 then
      assert hms[..8] == hms;
      hms
    else
      assert Power10(6) == 1000000;
      var r := hms + "." + Pad(t.microsecond, 6);
      assert r[..8] == hms && r[9..15] == Pad(t.microsecond, 6);
      r
  }

  /** `'{}'.format(duration)`; a missing duration prints as `None`. */
  function FormatDuration(d: Option<Time>): (r: string)
    requires d.Some? ==> d.value.Valid()
    ensures d.None? ==> r == "None"
    ensures d.Some? ==> r == FormatTime(d.value)
  {
    match d
    case None => "None"
    case Some(t) => FormatTime(t)
  }

  /** Different times print differently: the rendering loses nothing. */
  lemma FormatTimeInjective(s: Time, t: Time)
    requires s.Valid() && t.Valid()
    requires FormatTime(s) == FormatTime(t)
    ensures s == t
  {
    var a := HourMinuteSecond(s);
    var b := HourMinuteSecond(t);
    assert a == FormatTime(s)[..8] == FormatTime(t)[..8] == b;
    assert |FormatTime(s)| == |FormatTime(t)|;
  }
}
