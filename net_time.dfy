/**
 * The table's net-time column: written as `{h}h {m}m` when a row is
 * inserted or recalculated, and read back with `(\d+)h` and `(\d+)m`.
 */
module NetTime {
  import opened Wrappers
  import opened Text

  predicate IsHourUnit(c: char) { c == 'h' }

  predicate IsMinuteUnit(c: char) { c == 'm' }

  /** `f"{net // 60}h {net % 60}m"` */
  function FormatNet(net: nat): string
  {
    NatToText(net / 60) + "h " + NatToText(net % 60) + "m"
  }

  /** Hours group times 60 plus minutes group; a missing group counts 0. */
  function ParseNet(text: string): nat
  {
    var h := Search(text, IsHourUnit);
    var m := Search(text, IsMinuteUnit);
    (if h.Some? then h.value * 60 else 0) + (if m.Some? then m.value else 0)
  }

  /** A number at the very front, followed by a unit character, is the first match. */
  lemma LeadingNumber(a: string, rest: string, unit: char -> bool)
    requires |a| > 0 && AllDigits(a)
    requires |rest| > 0 && unit(rest[0]) && !IsDigit(rest[0])
    ensures Search(a + rest, unit) == Some(DigitsValue(a))
  {
    var s := a + rest;
    RunEndAt(s, 0, |a|);
    assert s[0..|a|] == a;
    SearchFromFirst(s, 0, 0, unit);
  }

  /** In `a + "h " + b + "m"` the minutes group is b. */
  lemma MinutesGroup(a: string, b: string)
    requires |a| > 0 && AllDigits(a) && |b| > 0 && AllDigits(b)
    ensures Search(a + "h " + b + "m", IsMinuteUnit) == Some(DigitsValue(b))
  {
    var s := a + "h " + b + "m";
    var n := |a|;
    assert s[n] == 'h' && s[n + 1] == ' ';
    var k := n + 2;
    RunEndAt(s, k, k + |b|);
    assert s[k..k + |b|] == b;
    forall j | 0 <= j < k
      ensures !MatchesAt(s, j, IsMinuteUnit)
    {
      if j < n {
        RunEndAt(s, j, n);
      }
    }
    SearchFromFirst(s, 0, k, IsMinuteUnit);
  }

  /** Reading the column back gives the number of minutes that was written. */
  lemma NetRoundTrip(net: nat)
    ensures ParseNet(FormatNet(net)) == net
  {
    var a := NatToText(net / 60);
    var b := NatToText(net % 60);
    assert FormatNet(net) == a + ("h " + b + "m");
    LeadingNumber(a, "h " + b + "m", IsHourUnit);
    assert FormatNet(net) == a + "h " + b + "m";
    MinutesGroup(a, b);
  }
}
