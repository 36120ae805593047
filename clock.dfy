/**
 * Clock times as minutes since midnight (0..1439), the span of a shift
 * that may cross midnight, and the night window 22:00-06:00.
 */
module Clock {
  import opened Wrappers
  import opened Text

  const MinutesPerDay: nat := 1440
  const NightStartHour: nat := 22
  const NightEndHour: nat := 6

  /**
   * `datetime.strptime(t, "%H:%M")` for the `DD:DD` tokens the row parser
   * extracts: hours 00-23 and minutes 00-59 are accepted, anything else
   * raises (None here).
   */
  function ParseClock(text: string): (r: Option<nat>)
    ensures r.Some? ==> r.value < MinutesPerDay
    ensures r.Some? ==> ClockShaped(text)
  {
    if ClockShaped(text) then
      var h := 10 * DigitValue(text[0]) + DigitValue(text[1]);
      var m := 10 * DigitValue(text[3]) + DigitValue(text[4]);
      if h < 24 && m < 60 then Some(h * 60 + m) else None
    else None
  }

  /** The two-digit `HH:MM` text of a clock time. */
  function ClockText(t: nat): (s: string)
    requires t < MinutesPerDay
    ensures ClockShaped(s)
  {
    var h := t / 60;
    var m := t % 60;
    [DigitChar(h / 10), DigitChar(h % 10), ':', DigitChar(m / 10), DigitChar(m % 10)]
  }

  /** Every clock time is read back from its text. */
  lemma ClockRoundTrip(t: nat)
    requires t < MinutesPerDay
    ensures ParseClock(ClockText(t)) == Some(t)
  {
    var s := ClockText(t);
    assert DigitValue(s[0]) == t / 60 / 10 && DigitValue(s[1]) == t / 60 % 10;
    assert DigitValue(s[3]) == t % 60 / 10 && DigitValue(s[4]) == t % 60 % 10;
  }

  /** A text that parses is the canonical text of its clock time, so parsing is one-to-one. */
  lemma ClockTextCanonical(text: string)
    requires ParseClock(text).Some?
    ensures ClockText(ParseClock(text).value) == text
  {
    var h := 10 * DigitValue(text[0]) + DigitValue(text[1]);
    var m := 10 * DigitValue(text[3]) + DigitValue(text[4]);
    var t := h * 60 + m;
    assert t / 60 == h && t % 60 == m;
    var s := ClockText(t);
    assert s[0] == text[0] && s[1] == text[1] && s[3] == text[3] && s[4] == text[4];
  }

  /**
   * Minutes from start to end; an end earlier than the start lies on the
   * next day, an end equal to the start gives an empty span.
   */
  function Span(start: nat, end: nat): (r: nat)
    requires start < MinutesPerDay && end < MinutesPerDay
    ensures r < MinutesPerDay
    ensures (start + r) % MinutesPerDay == end
    ensures start == end ==> r == 0
  {
    if end < start then end + MinutesPerDay - start else end - start
  }

  /** The clock hour of a minute counted from the start of the first day. */
  function HourOf(t: nat): nat
  {
    (t % MinutesPerDay) / 60
  }

  /** `c.hour >= 22 or c.hour < 6` */
  predicate IsNight(t: nat)
  {
    HourOf(t) >= NightStartHour || HourOf(t) < NightEndHour
  }

  /** The hour test is the minute window [22:00, 06:00) of every day. */
  lemma NightWindow(t: nat)
    ensures IsNight(t) <==> (t % MinutesPerDay >= NightStartHour * 60 || t % MinutesPerDay < NightEndHour * 60)
    ensures IsNight(t + MinutesPerDay) == IsNight(t)
  {
    assert (t + MinutesPerDay) % MinutesPerDay == t % MinutesPerDay;
  }
}
