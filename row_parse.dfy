/**
 * Turning one line of recognised text into a table row: the two clock
 * tokens give the span, the net duration is the last "N hours M minutes"
 * token (or, failing that, the last two numbers of a long line), and the
 * break is whatever of the span the net duration does not cover.
 */
module RowParse {
  import opened Wrappers
  import opened Text
  import opened Clock
  import opened Dates

  /**
   * One line of recognised text: its tokens left to right, and the date
   * that the date pattern and `strptime` found in it (None: none found).
   */
  datatype Line = Line(elements: seq<string>, date: Option<Date>)

  /** What `insert_row` receives for an accepted line. */
  datatype ParsedRow = ParsedRow(date: Date, start: string, end: string, net: nat, brk: nat)

  /** `(?:시간|시|h|H)` after the digits: both Korean spellings begin with 시. */
  predicate IsHoursMark(c: char) { c == '시' || c == 'h' || c == 'H' }

  /** `(?:분|준|문|m|M)`: 분 and the two characters it is often misread as. */
  predicate IsMinutesMark(c: char) { c == '분' || c == '준' || c == '문' || c == 'm' || c == 'M' }

  /** The duration a token states, or None when it has neither an hours nor a minutes number. */
  function TokenNet(element: string): Option<nat>
  {
    var e := RemoveSpaces(element);
    var h := Search(e, IsHoursMark);
    var m := Search(e, IsMinutesMark);
    if h.Some? || m.Some? then
      Some((if h.Some? then h.value else 0) * 60 + (if m.Some? then m.value else 0))
    else None
  }

  predicate PositiveNet(o: Option<nat>) { o.Some? && o.value > 0 }

  /** The duration each token states, in token order. */
  function TokenNets(elements: seq<string>): (ds: seq<Option<nat>>)
  {
    seq(|elements|, k requires 0 <= k < |elements| => TokenNet(elements[k]))
  }

  /**
   * The last positive duration of ds, scanning from the right; 0 when
   * there is none.
   */
  function LastPositive(ds: seq<Option<nat>>): (f: nat)
    ensures f == 0 <==> forall k :: 0 <= k < |ds| ==> !PositiveNet(ds[k])
  {
    if ds == [] then 0
    else if PositiveNet(ds[|ds| - 1]) then ds[|ds| - 1].value
    else LastPositive(ds[..|ds| - 1])
  }

  /** A positive result is a duration of ds after which no positive one follows. */
  lemma {:induction false} LastPositiveIsLast(ds: seq<Option<nat>>)
    requires LastPositive(ds) > 0
    ensures exists k :: 0 <= k < |ds| && ds[k] == Some(LastPositive(ds))
                        && forall j :: k < j < |ds| ==> !PositiveNet(ds[j])
  {
    var n := |ds|;
    if !PositiveNet(ds[n - 1]) {
      var rest := ds[..n - 1];
      LastPositiveIsLast(rest);
      var k :| 0 <= k < |rest| && rest[k] == Some(LastPositive(rest))
               && forall j :: k < j < |rest| ==> !PositiveNet(rest[j]);
      assert ds[k] == rest[k];
      forall j | k < j < n
        ensures !PositiveNet(ds[j])
      {
        if j < n - 1 {
          assert ds[j] == rest[j];
        }
      }
    }
  }

  /** The duration of the last token, scanning from the right, that states a positive one. */
  function LastPositiveNet(elements: seq<string>): nat
  {
    LastPositive(TokenNets(elements))
  }

  /**
   * No token states a positive duration exactly when the scan finds none,
   * and a positive result is stated by a token after which none is.
   */
  lemma LastPositiveNetIsLast(elements: seq<string>)
    ensures LastPositiveNet(elements) == 0 <==> forall k :: 0 <= k < |elements| ==> !PositiveNet(TokenNet(elements[k]))
    ensures LastPositiveNet(elements) > 0 ==>
      exists k :: 0 <= k < |elements| && TokenNet(elements[k]) == Some(LastPositiveNet(elements))
                  && forall j :: k < j < |elements| ==> !PositiveNet(TokenNet(elements[j]))
  {
    var ds := TokenNets(elements);
    assert forall k :: 0 <= k < |elements| ==> ds[k] == TokenNet(elements[k]);
    if LastPositive(ds) > 0 {
      LastPositiveIsLast(ds);
    }
  }

  /** A token's duration, from its two searches. */
  lemma TokenNetOf(element: string, h: Option<nat>, m: Option<nat>)
    requires h == Search(RemoveSpaces(element), IsHoursMark) && m == Search(RemoveSpaces(element), IsMinutesMark)
    ensures TokenNet(element) == if h.Some? || m.Some? then Some((if h.Some? then h.value else 0) * 60 + (if m.Some? then m.value else 0)) else None
  {
  }

  /** Scanning one more token from the right. */
  lemma LastPositiveStep(ds: seq<Option<nat>>, i: nat)
    requires i < |ds|
    ensures LastPositive(ds[..i + 1]) == if PositiveNet(ds[i]) then ds[i].value else LastPositive(ds[..i])
  {
    assert ds[..i + 1][..i] == ds[..i];
  }

  /**
   * The `for elem in reversed(elements)` scan: a token with an hours or a
   * minutes number sets the duration, and a positive duration ends the scan.
   */
  method ExtractNet(elements: seq<string>) returns (fNet: nat)
    ensures fNet == LastPositiveNet(elements)
  {
    ghost var ds := TokenNets(elements);
    fNet := 0;
    var i := |elements|;
    assert ds[..i] == ds;
    while i > 0
      invariant 0 <= i <= |elements|
      invariant fNet == 0
      invariant LastPositive(ds) == LastPositive(ds[..i])
    {
      i := i - 1;
      LastPositiveStep(ds, i);
      var elemC := RemoveSpaces(elements[i]);
      var h := Search(elemC, IsHoursMark);
      var m := Search(elemC, IsMinutesMark);
      TokenNetOf(elements[i], h, m);
      assert ds[i] == TokenNet(elements[i]);
      if h.Some? || m.Some? {
        fNet := (if h.Some? then h.value else 0) * 60 + (if m.Some? then m.value else 0);
        if fNet > 0 {
          break;
        }
      }
    }
    assert i == 0 ==> ds[..i] == [];
  }

  /** The whole line with spaces removed, as the date, time and number patterns see it. */
  function LineText(line: Line): string
  {
    RemoveSpaces(Concat(line.elements))
  }

  /** Last resort: on a line with at least eight numbers, the last two are hours and minutes. */
  function FallbackNet(text: string): nat
  {
    var nums := NumbersFrom(text, 0);
    if |nums| >= 8 then nums[|nums| - 2] * 60 + nums[|nums| - 1] else 0
  }

  /**
   * The fallback is nonzero only on a text with at least eight digit runs,
   * and then it is the second-last run as hours and the last as minutes.
   */
  lemma FallbackLastTwo(text: string)
    ensures FallbackNet(text) > 0 ==> |NumberStarts(text, 0)| >= 8
    ensures |NumberStarts(text, 0)| >= 8 ==>
              FallbackNet(text) == ValueAt(text, NumberStarts(text, 0)[|NumberStarts(text, 0)| - 2]) * 60
                                   + ValueAt(text, NumberStarts(text, 0)[|NumberStarts(text, 0)| - 1])
  {
    var nums := NumbersFrom(text, 0);
    assert FallbackNet(text) == if |nums| >= 8 then nums[|nums| - 2] * 60 + nums[|nums| - 1] else 0;
    NumbersFromRuns(text, 0);
  }

  /** A run start after the second-last match position is the last one. */
  lemma LastRunStart(text: string, p: nat)
    requires |NumberStarts(text, 0)| >= 2 && RunStart(text, 0, p)
    requires p > NumberStarts(text, 0)[|NumberStarts(text, 0)| - 2]
    ensures p == NumberStarts(text, 0)[|NumberStarts(text, 0)| - 1]
  {
    var ps := NumberStarts(text, 0);
    var n := |ps|;
    NumberStartsComplete(text, 0, p);
    var m :| 0 <= m < n && ps[m] == p;
  }

  function NetOf(line: Line): nat
  {
    var f := LastPositiveNet(line.elements);
    if f == 0 then FallbackNet(LineText(line)) else f
  }

  /**
   * The row a line yields, or None when it is skipped: no date, fewer than
   * two clock tokens, no positive duration, or a clock token `strptime`
   * rejects.
   */
  function ParseLine(line: Line): (r: Option<ParsedRow>)
    ensures r.Some? <==>
      var times := ClockTokensFrom(LineText(line), 0);
      && line.date.Some? && |times| >= 2 && NetOf(line) > 0
      && ParseClock(times[0]).Some? && ParseClock(times[1]).Some?
    ensures r.Some? ==>
      var times := ClockTokensFrom(LineText(line), 0);
      && line.date == Some(r.value.date)
      && |times| >= 2 && r.value.start == times[0] && r.value.end == times[1]
      && r.value.net == NetOf(line) > 0
    ensures r.Some? ==>
      && ParseClock(r.value.start).Some? && ParseClock(r.value.end).Some?
      && var span := Span(ParseClock(r.value.start).value, ParseClock(r.value.end).value);
         && r.value.brk + r.value.net >= span
         && (r.value.brk > 0 ==> r.value.brk + r.value.net == span)
  {
    var times := ClockTokensFrom(LineText(line), 0);
    if line.date.None? || |times| < 2 then None
    else
      var f := NetOf(line);
      if f == 0 then None
      else
        var st := ParseClock(times[0]);
        var et := ParseClock(times[1]);
        if st.None? || et.None? then None
        else
          var span := Span(st.value, et.value);
          Some(ParsedRow(line.date.value, times[0], times[1], f, if span > f then span - f else 0))
  }

  /**
   * The body of the `for elements in lines_data` loop of `parse_rows`:
   * skip a line without a date or two clock tokens, scan for the net
   * duration, fall back to the last two numbers, and infer the break
   * `max(0, range_min - f_net)`.
   */
  method ReadLine(line: Line) returns (r: Option<ParsedRow>)
    ensures r == ParseLine(line)
  {
    r := None;
    var lineFull := LineText(line);
    var times := ClockTokensFrom(lineFull, 0);
    if line.date.None? || |times| < 2 {
      return;
    }
    var fNet := ExtractNet(line.elements);
    if fNet == 0 {
      fNet := FallbackNet(lineFull);
    }
    if fNet > 0 {
      var st := ParseClock(times[0]);
      var et := ParseClock(times[1]);
      if st.Some? && et.Some? {
        var rangeMin := Span(st.value, et.value);
        var brk := if rangeMin > fNet then rangeMin - fNet else 0;
        r := Some(ParsedRow(line.date.value, times[0], times[1], fNet, brk));
      }
    }
  }

  /** The outcome of every line, in order. */
  function LineResults(lines: seq<Line>): seq<Option<ParsedRow>>
  {
    seq(|lines|, k requires 0 <= k < |lines| => ParseLine(lines[k]))
  }

  /** The present values of os, in order. */
  function Accepted<T>(os: seq<Option<T>>): (vs: seq<T>)
    ensures |vs| <= |os|
    ensures forall v :: v in vs ==> Some(v) in os
  {
    if os == [] then []
    else
      var o := os[|os| - 1];
      Accepted(os[..|os| - 1]) + (if o.Some? then [o.value] else [])
  }

  lemma AcceptedSnoc<T>(os: seq<Option<T>>, o: Option<T>)
    ensures Accepted(os + [o]) == Accepted(os) + (if o.Some? then [o.value] else [])
  {
    assert (os + [o])[..|os|] == os;
  }

  /** Accepted is the filter that keeps the present values: it splits over +, keeps Some(x) and drops None. */
  lemma {:induction false} AcceptedFilter<T>(a: seq<Option<T>>, b: seq<Option<T>>, x: T)
    ensures Accepted(a + b) == Accepted(a) + Accepted(b)
    ensures Accepted([Some(x)]) == [x] && Accepted<T>([None]) == []
    decreases |b|
  {
    AcceptedSnoc([], Some(x));
    AcceptedSnoc<T>([], None);
    var none: Option<T> := None;
    assert [] + [Some(x)] == [Some(x)] && [] + [none] == [none];
    if b == [] {
      assert a + b == a;
    } else {
      var b', o := b[..|b| - 1], b[|b| - 1];
      assert a + b == (a + b') + [o];
      assert b == b' + [o];
      AcceptedSnoc(a + b', o);
      AcceptedSnoc(b', o);
      AcceptedFilter(a, b', x);
    }
  }

  /** Every present value of os is kept. */
  lemma {:induction false} AcceptedComplete<T>(os: seq<Option<T>>, k: nat)
    requires k < |os| && os[k].Some?
    ensures os[k].value in Accepted(os)
  {
    var n := |os|;
    assert os == os[..n - 1] + [os[n - 1]];
    AcceptedSnoc(os[..n - 1], os[n - 1]);
    if k < n - 1 {
      AcceptedComplete(os[..n - 1], k);
    }
  }

  /** The rows of the accepted lines, in order: each has a positive net and clocks that parse. */
  function ParsedRows(lines: seq<Line>): (rs: seq<ParsedRow>)
    ensures |rs| <= |lines|
    ensures forall k :: 0 <= k < |rs| ==> rs[k].net > 0 && ParseClock(rs[k].start).Some? && ParseClock(rs[k].end).Some?
  {
    var rs := Accepted(LineResults(lines));
    assert forall k :: 0 <= k < |rs| ==> Some(rs[k]) in LineResults(lines) by {
      forall k | 0 <= k < |rs| ensures Some(rs[k]) in LineResults(lines) {
        assert rs[k] in rs;
      }
    }
    rs
  }

  lemma LineResultsConcat(a: seq<Line>, b: seq<Line>)
    ensures LineResults(a + b) == LineResults(a) + LineResults(b)
  {
    var l, r := LineResults(a + b), LineResults(a) + LineResults(b);
    forall k | 0 <= k < |a + b|
      ensures l[k] == r[k]
    {
      if k < |a| {
        assert (a + b)[k] == a[k];
      } else {
        assert (a + b)[k] == b[k - |a|];
      }
    }
  }

  /** The rows of a block of lines followed by another are the rows of each, in line order. */
  lemma ParsedRowsFilter(a: seq<Line>, b: seq<Line>, line: Line)
    ensures ParsedRows(a + b) == ParsedRows(a) + ParsedRows(b)
    ensures ParsedRows([line]) == if ParseLine(line).Some? then [ParseLine(line).value] else []
  {
    LineResultsConcat(a, b);
    AcceptedFilter(LineResults(a), LineResults(b), ParsedRow(Date(0, 0), [], [], 0, 0));
    assert LineResults([line]) == [] + [ParseLine(line)];
    AcceptedSnoc([], ParseLine(line));
  }

  /** The row of every accepted line is among the rows. */
  lemma ParsedRowsComplete(lines: seq<Line>)
    ensures forall k :: 0 <= k < |lines| && ParseLine(lines[k]).Some? ==> ParseLine(lines[k]).value in ParsedRows(lines)
  {
    forall k | 0 <= k < |lines| && ParseLine(lines[k]).Some?
      ensures ParseLine(lines[k]).value in ParsedRows(lines)
    {
      AcceptedComplete(LineResults(lines), k);
    }
  }
}
