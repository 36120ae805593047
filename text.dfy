/** Option type shared by the parsers. */
module Wrappers {
  datatype Option<+T> = None | Some(value: T)
}

/**
 * String helpers with Python's meaning: decimal digits, `str(n)`, and the
 * three regular-expression scans the row parser uses (`re.search` of a
 * number followed by a unit letter, `re.findall(r'\d+')` and
 * `re.findall(r'\d{2}:\d{2}')`). Only ASCII digits are recognised.
 */
module Text {
  import opened Wrappers

  predicate IsDigit(c: char) { '0' <= c <= '9' }

  predicate AllDigits(s: string) { forall i :: 0 <= i < |s| ==> IsDigit(s[i]) }

  function DigitValue(c: char): nat
    requires IsDigit(c)
  {
    c as int - '0' as int
  }

  function DigitChar(d: nat): (c: char)
    requires d < 10
    ensures IsDigit(c) && DigitValue(c) == d
  {
    ('0' as int + d) as char
  }

  /** `int(s)` for a string of decimal digits. */
  function DigitsValue(s: string): nat
    requires AllDigits(s)
  {
    if s == [] then 0 else 10 * DigitsValue(s[..|s| - 1]) + DigitValue(s[|s| - 1])
  }

  /** `str(n)`: the decimal text of n, with no leading zero. */
  function NatToText(n: nat): (s: string)
    ensures |s| > 0 && AllDigits(s)
    ensures DigitsValue(s) == n
    ensures s[0] == '0' <==> n == 0
    ensures n == 0 ==> s == "0"
  {
    if n < 10 then [DigitChar(n)]
    else
      var s := NatToText(n / 10) + [DigitChar(n % 10)];
      assert s[..|s| - 1] == NatToText(n / 10);
      s
  }

  /** End of the maximal run of digits that starts at i (i itself when s[i] is no digit). */
  function RunEnd(s: string, i: nat): (j: nat)
    requires i <= |s|
    ensures i <= j <= |s|
    ensures forall k :: i <= k < j ==> IsDigit(s[k])
    ensures j == |s| || !IsDigit(s[j])
    decreases |s| - i
  {
    if i < |s| && IsDigit(s[i]) then RunEnd(s, i + 1) else i
  }

  lemma RunEndAt(s: string, i: nat, j: nat)
    requires i <= j <= |s|
    requires forall k :: i <= k < j ==> IsDigit(s[k])
    requires j == |s| || !IsDigit(s[j])
    ensures RunEnd(s, i) == j
  {
  }

  /** Value of the digit run starting at i. */
  function ValueAt(s: string, i: nat): nat
    requires i <= |s|
  {
    var j := RunEnd(s, i);
    assert AllDigits(s[i..j]) by {
      forall k | 0 <= k < j - i ensures IsDigit(s[i..j][k]) { assert s[i..j][k] == s[i + k]; }
    }
    DigitsValue(s[i..j])
  }

  /**
   * `re.search(r'(\d+)U', s)` matches at i, where U is a class of unit
   * characters none of which is a digit: the greedy run of digits from i
   * is followed by a unit character (a shorter run would be followed by a
   * digit, which is never a unit, so backtracking finds nothing more).
   */
  predicate MatchesAt(s: string, i: nat, unit: char -> bool)
    requires i <= |s|
  {
    i < |s| && IsDigit(s[i]) && RunEnd(s, i) < |s| && unit(s[RunEnd(s, i)])
  }

  /** The leftmost match at or after i, with the value of its group. */
  function SearchFrom(s: string, i: nat, unit: char -> bool): Option<nat>
    requires i <= |s|
    decreases |s| - i
  {
    if i == |s| then None
    else if MatchesAt(s, i, unit) then Some(ValueAt(s, i))
    else SearchFrom(s, i + 1, unit)
  }

  /** The search fails exactly when no position from i on matches. */
  lemma {:induction false} SearchFromNone(s: string, i: nat, unit: char -> bool)
    requires i <= |s|
    ensures SearchFrom(s, i, unit).None? <==> forall k :: i <= k < |s| ==> !MatchesAt(s, k, unit)
    decreases |s| - i
  {
    if i < |s| {
      SearchFromNone(s, i + 1, unit);
    }
  }

  /** A successful search reports the group of the leftmost matching position. */
  lemma {:induction false} SearchFromSome(s: string, i: nat, unit: char -> bool)
    requires i <= |s| && SearchFrom(s, i, unit).Some?
    ensures exists k :: i <= k < |s| && MatchesAt(s, k, unit) && SearchFrom(s, i, unit).value == ValueAt(s, k)
                        && forall j :: i <= j < k ==> !MatchesAt(s, j, unit)
    decreases |s| - i
  {
    if !MatchesAt(s, i, unit) {
      SearchFromSome(s, i + 1, unit);
    }
  }

  function Search(s: string, unit: char -> bool): Option<nat>
  {
    SearchFrom(s, 0, unit)
  }

  /** When k is the leftmost match from i on, the search yields its value. */
  lemma {:induction false} SearchFromFirst(s: string, i: nat, k: nat, unit: char -> bool)
    requires i <= k < |s| && MatchesAt(s, k, unit)
    requires forall j :: i <= j < k ==> !MatchesAt(s, j, unit)
    ensures SearchFrom(s, i, unit) == Some(ValueAt(s, k))
    decreases k - i
  {
    if i < k {
      SearchFromFirst(s, i + 1, k, unit);
    }
  }

  /** `re.findall(r'\d+', s[i..])`, as integers. */
  function NumbersFrom(s: string, i: nat): (r: seq<nat>)
    requires i <= |s|
    ensures |r| <= |s| - i
    decreases |s| - i
  {
    if i == |s| then []
    else if IsDigit(s[i]) then [ValueAt(s, i)] + NumbersFrom(s, RunEnd(s, i))
    else NumbersFrom(s, i + 1)
  }

  /** A digit run of s[i..] begins at p: the first position counts whenever it is a digit. */
  predicate RunStart(s: string, i: nat, p: nat)
  {
    i <= p < |s| && IsDigit(s[p]) && (p == i || !IsDigit(s[p - 1]))
  }

  /** The positions at which the matches of `re.findall(r'\d+', s[i..])` begin: run starts, in increasing order. */
  function NumberStarts(s: string, i: nat): (ps: seq<nat>)
    requires i <= |s|
    ensures forall k :: 0 <= k < |ps| ==> RunStart(s, i, ps[k])
    ensures forall k, l :: 0 <= k < l < |ps| ==> ps[k] < ps[l]
    decreases |s| - i
  {
    if i == |s| then []
    else if IsDigit(s[i]) then
      var j := RunEnd(s, i);
      var rest := NumberStarts(s, j);
      assert forall k :: 0 <= k < |rest| ==> j < rest[k] && RunStart(s, i, rest[k]);
      [i] + rest
    else
      var rest := NumberStarts(s, i + 1);
      assert forall k :: 0 <= k < |rest| ==> RunStart(s, i, rest[k]);
      rest
  }

  /** Every run start is a match position. */
  lemma {:induction false} NumberStartsComplete(s: string, i: nat, p: nat)
    requires i <= |s| && RunStart(s, i, p)
    ensures p in NumberStarts(s, i)
    decreases |s| - i
  {
    if IsDigit(s[i]) {
      var j := RunEnd(s, i);
      if p != i {
        assert !IsDigit(s[p - 1]);
        assert p > j;
        NumberStartsComplete(s, j, p);
      }
    } else {
      assert p != i;
      NumberStartsComplete(s, i + 1, p);
    }
  }

  /** `re.findall` yields, in order, the value of the digit run at each match position. */
  lemma {:induction false} NumbersFromRuns(s: string, i: nat)
    requires i <= |s|
    ensures |NumbersFrom(s, i)| == |NumberStarts(s, i)|
    ensures forall k :: 0 <= k < |NumbersFrom(s, i)| ==> NumbersFrom(s, i)[k] == ValueAt(s, NumberStarts(s, i)[k])
    decreases |s| - i
  {
    if i < |s| {
      if IsDigit(s[i]) {
        var j := RunEnd(s, i);
        NumbersFromRuns(s, j);
        var nums, ps := NumbersFrom(s, j), NumberStarts(s, j);
        assert NumbersFrom(s, i) == [ValueAt(s, i)] + nums;
        assert NumberStarts(s, i) == [i] + ps;
        forall k | 0 < k < |NumbersFrom(s, i)|
          ensures NumbersFrom(s, i)[k] == ValueAt(s, NumberStarts(s, i)[k])
        {
          assert NumbersFrom(s, i)[k] == nums[k - 1] && NumberStarts(s, i)[k] == ps[k - 1];
        }
      } else {
        NumbersFromRuns(s, i + 1);
        assert NumbersFrom(s, i) == NumbersFrom(s, i + 1);
        assert NumberStarts(s, i) == NumberStarts(s, i + 1);
      }
    }
  }

  /** A clock-shaped token `DD:DD` starts at i. */
  predicate ClockShapeAt(s: string, i: nat)
  {
    i + 5 <= |s| && IsDigit(s[i]) && IsDigit(s[i + 1]) && s[i + 2] == ':'
    && IsDigit(s[i + 3]) && IsDigit(s[i + 4])
  }

  predicate ClockShaped(t: string) { |t| == 5 && ClockShapeAt(t, 0) }

  /** `re.findall(r'\d{2}:\d{2}', s[i..])`: non-overlapping, left to right. */
  function ClockTokensFrom(s: string, i: nat): (r: seq<string>)
    requires i <= |s|
    ensures forall k :: 0 <= k < |r| ==> ClockShaped(r[k])
    decreases |s| - i
  {
    if i + 5 > |s| then []
    else if ClockShapeAt(s, i) then [s[i..i + 5]] + ClockTokensFrom(s, i + 5)
    else ClockTokensFrom(s, i + 1)
  }

  /** No clock-shaped token starts in [a, b). */
  predicate NoClockIn(s: string, a: nat, b: nat)
  {
    forall q :: a <= q < b ==> !ClockShapeAt(s, q)
  }

  /** The positions at which the matches of `re.findall(r'\d{2}:\d{2}', s[i..])` begin. */
  function ClockStarts(s: string, i: nat): (ps: seq<nat>)
    requires i <= |s|
    ensures forall k :: 0 <= k < |ps| ==> i <= ps[k] && ClockShapeAt(s, ps[k])
    ensures forall j, k :: 0 <= j < k < |ps| && k == j + 1 ==> ps[j] + 5 <= ps[k]
    decreases |s| - i
  {
    if i + 5 > |s| then []
    else if ClockShapeAt(s, i) then [i] + ClockStarts(s, i + 5)
    else ClockStarts(s, i + 1)
  }

  /** No clock-shaped position lies before the first match, or anywhere when there is none. */
  lemma {:induction false} ClockStartsFirst(s: string, i: nat)
    requires i <= |s|
    ensures |ClockStarts(s, i)| == 0 ==> NoClockIn(s, i, |s|)
    ensures |ClockStarts(s, i)| > 0 ==> NoClockIn(s, i, ClockStarts(s, i)[0])
    decreases |s| - i
  {
    if i + 5 <= |s| && !ClockShapeAt(s, i) {
      ClockStartsFirst(s, i + 1);
    }
  }

  /**
   * The scan is leftmost and non-overlapping: no clock-shaped position
   * lies between the end of match j and the start of match j + 1.
   */
  lemma {:induction false} ClockStartsGap(s: string, i: nat, j: nat)
    requires i <= |s| && j + 1 < |ClockStarts(s, i)|
    ensures NoClockIn(s, ClockStarts(s, i)[j] + 5, ClockStarts(s, i)[j + 1])
    decreases |s| - i
  {
    if ClockShapeAt(s, i) {
      var rest := ClockStarts(s, i + 5);
      assert ClockStarts(s, i) == [i] + rest;
      if j == 0 {
        ClockStartsFirst(s, i + 5);
      } else {
        ClockStartsGap(s, i + 5, j - 1);
      }
    } else {
      ClockStartsGap(s, i + 1, j);
    }
  }

  /** No clock-shaped position lies after the end of the last match. */
  lemma {:induction false} ClockStartsLast(s: string, i: nat)
    requires i <= |s|
    ensures |ClockStarts(s, i)| > 0 ==> NoClockIn(s, ClockStarts(s, i)[|ClockStarts(s, i)| - 1] + 5, |s|)
    decreases |s| - i
  {
    if i + 5 <= |s| {
      if ClockShapeAt(s, i) {
        ClockStartsLast(s, i + 5);
        ClockStartsFirst(s, i + 5);
        var rest := ClockStarts(s, i + 5);
        assert ClockStarts(s, i) == [i] + rest;
      } else {
        ClockStartsLast(s, i + 1);
      }
    }
  }

  /** The tokens are the five characters at each match position. */
  lemma {:induction false} ClockTokensAtStarts(s: string, i: nat)
    requires i <= |s|
    ensures |ClockTokensFrom(s, i)| == |ClockStarts(s, i)|
    ensures forall k :: 0 <= k < |ClockStarts(s, i)| ==>
              ClockTokensFrom(s, i)[k] == s[ClockStarts(s, i)[k]..ClockStarts(s, i)[k] + 5]
    decreases |s| - i
  {
    if i + 5 <= |s| {
      if ClockShapeAt(s, i) {
        ClockTokensAtStarts(s, i + 5);
      } else {
        ClockTokensAtStarts(s, i + 1);
      }
    }
  }

  /** `s.replace(" ", "")` */
  function RemoveSpaces(s: string): (r: string)
    ensures ' ' !in r
    ensures ' ' !in s ==> r == s
  {
    if s == [] then []
    else (if s[0] == ' ' then [] else [s[0]]) + RemoveSpaces(s[1..])
  }

  /** `"".join(parts)` */
  function Concat(parts: seq<string>): string
  {
    if parts == [] then [] else Concat(parts[..|parts| - 1]) + parts[|parts| - 1]
  }
}
