/**
 * The overtime table: one row per shift, filled by the row parser and
 * re-evaluated by the recalculation pass, which rewrites each row's net,
 * break and band columns and produces the period summary.
 */
module Sheet {
  import opened Wrappers
  import opened Text
  import opened Clock
  import opened Bands
  import opened NetTime
  import opened Shift
  import opened Period
  import opened Dates
  import opened RowParse

  /** The computed columns of a row: ×1.5, ×2.0 and ×2.5 minutes and the doubled weighted total. */
  datatype Shown = Shown(x15: nat, x20: nat, x25: nat, doubledWeighted: nat)

  /**
   * A table row. The range column `start-end` is kept as its two clock
   * texts, the net column as its text, the break column as the number it
   * shows; shown is None until the row has been recalculated.
   */
  datatype TableRow = TableRow(date: Date, start: string, end: string, netText: string,
                               breakMinutes: int, shown: Option<Shown>)

  /** Both clock texts are accepted by `strptime(..., "%H:%M")`. */
  predicate ClocksReadable(row: TableRow)
  {
    ParseClock(row.start).Some? && ParseClock(row.end).Some?
  }

  predicate AllReadable(rows: seq<TableRow>)
  {
    forall row :: row in rows ==> ClocksReadable(row)
  }

  /**
   * What the recalculation reads from a row: the net minutes from its net
   * column, the break as span minus net (negative when the net exceeds the
   * span), the day kind, and the band minutes of the walk.
   */
  function Evaluate(row: TableRow, cal: Calendar): Evaluation
    requires ClocksReadable(row)
  {
    var st := ParseClock(row.start).value;
    var et := ParseClock(row.end).value;
    var net := ParseNet(row.netText);
    var span := Span(st, et);
    var brk := span - net;
    var nw := NonWorking(cal, row.date);
    Evaluation(net, brk, nw, TallyUpTo(st, brk, nw, span))
  }

  /**
   * The break and the net fill the span exactly, and the bands hold the
   * declared net minutes, or the whole span when the net exceeds it.
   */
  lemma EvaluateSpan(row: TableRow, cal: Calendar)
    requires ClocksReadable(row)
    ensures var e := Evaluate(row, cal);
            && e.net == ParseNet(row.netText)
            && e.brk + e.net == Span(ParseClock(row.start).value, ParseClock(row.end).value)
            && e.nonWorking == NonWorking(cal, row.date)
            && e.tally.Total() == if e.brk >= 0 then e.net else Span(ParseClock(row.start).value, ParseClock(row.end).value)
  {
    var e := Evaluate(row, cal);
    TallyTotal(ParseClock(row.start).value, e.brk, e.nonWorking, e.brk + e.net);
  }

  /** The row as the recalculation rewrites it: net and break columns re-written, bands filled in. */
  function Refresh(row: TableRow, cal: Calendar): TableRow
    requires ClocksReadable(row)
  {
    var e := Evaluate(row, cal);
    row.(netText := FormatNet(e.net), breakMinutes := e.brk,
         shown := Some(Shown(e.tally.x15, e.tally.x20, e.tally.x25, e.tally.DoubledWeighted())))
  }

  /** Every row refreshed, in place. */
  function Recalculated(rows: seq<TableRow>, cal: Calendar): seq<TableRow>
    requires AllReadable(rows)
  {
    seq(|rows|, k requires 0 <= k < |rows| => Refresh(rows[k], cal))
  }

  /** A table whose every row is the refreshed row of another is its recalculation. */
  lemma RecalculatedPointwise(rows: seq<TableRow>, rs: seq<TableRow>, cal: Calendar)
    requires AllReadable(rows) && |rs| == |rows|
    requires forall k :: 0 <= k < |rows| ==> rs[k] == Refresh(rows[k], cal)
    ensures rs == Recalculated(rows, cal)
  {
  }

  /** The evaluations of the rows, in table order. */
  function Evaluations(rows: seq<TableRow>, cal: Calendar): seq<Evaluation>
    requires AllReadable(rows)
  {
    if rows == [] then []
    else Evaluations(rows[..|rows| - 1], cal) + [Evaluate(rows[|rows| - 1], cal)]
  }

  /** The summary box of a table. */
  function PeriodSummary(rows: seq<TableRow>, cal: Calendar): Summary
    requires AllReadable(rows)
  {
    Summarize(Aggregate(Evaluations(rows, cal)))
  }

  /** Refreshing a row keeps its clocks and its net minutes, so it evaluates the same. */
  lemma RefreshEvaluation(row: TableRow, cal: Calendar)
    requires ClocksReadable(row)
    ensures ClocksReadable(Refresh(row, cal))
    ensures Evaluate(Refresh(row, cal), cal) == Evaluate(row, cal)
  {
    var e := Evaluate(row, cal);
    var r := Refresh(row, cal);
    assert r.start == row.start && r.end == row.end && r.date == row.date && r.netText == FormatNet(e.net);
    NetRoundTrip(e.net);
  }

  /** Recalculating a second time changes nothing. */
  lemma RecalculateIdempotent(rows: seq<TableRow>, cal: Calendar)
    requires AllReadable(rows)
    ensures AllReadable(Recalculated(rows, cal))
    ensures Recalculated(Recalculated(rows, cal), cal) == Recalculated(rows, cal)
  {
    var r := Recalculated(rows, cal);
    forall k | 0 <= k < |rows|
      ensures ClocksReadable(r[k]) && Refresh(r[k], cal) == r[k]
    {
      RefreshEvaluation(rows[k], cal);
    }
  }

  /** Every prefix of a readable table is readable. */
  lemma ReadablePrefix(rows: seq<TableRow>, i: nat)
    requires AllReadable(rows) && i <= |rows|
    ensures AllReadable(rows[..i])
  {
    forall row | row in rows[..i] ensures ClocksReadable(row) {
      var k :| 0 <= k < i && rows[..i][k] == row;
      assert rows[k] == row;
    }
  }

  /** A sequence holding the evaluation of every row, in order, is the table's evaluations. */
  lemma {:induction false} EvaluationsPointwise(rows: seq<TableRow>, es: seq<Evaluation>, cal: Calendar)
    requires AllReadable(rows) && |es| == |rows|
    requires forall k :: 0 <= k < |rows| ==> es[k] == Evaluate(rows[k], cal)
    ensures es == Evaluations(rows, cal)
  {
    if rows != [] {
      var n := |rows|;
      ReadablePrefix(rows, n - 1);
      assert rows[n - 1] in rows;
      EvaluationsPointwise(rows[..n - 1], es[..n - 1], cal);
      assert es == es[..n - 1] + [es[n - 1]];
    }
  }

  /**
   * Progress of the row loop: the first i rows are refreshed and their
   * evaluations collected, the others are untouched.
   */
  ghost predicate RefreshedUpTo(orig: seq<TableRow>, rows: seq<TableRow>, evs: seq<Evaluation>, i: nat, cal: Calendar)
  {
    && AllReadable(orig) && i <= |orig| && |rows| == |orig| && |evs| == i
    && (forall k :: 0 <= k < i ==> rows[k] == Refresh(orig[k], cal) && evs[k] == Evaluate(orig[k], cal))
    && (forall k :: i <= k < |rows| ==> rows[k] == orig[k])
  }

  lemma RefreshedStep(orig: seq<TableRow>, rows: seq<TableRow>, evs: seq<Evaluation>, i: nat, cal: Calendar)
    requires RefreshedUpTo(orig, rows, evs, i, cal) && i < |orig|
    ensures rows[i] == orig[i] && ClocksReadable(orig[i])
    ensures RefreshedUpTo(orig, rows[i := Refresh(orig[i], cal)], evs + [Evaluate(orig[i], cal)], i + 1, cal)
  {
    assert orig[i] in orig;
  }

  lemma RefreshedAll(orig: seq<TableRow>, rows: seq<TableRow>, evs: seq<Evaluation>, cal: Calendar)
    requires RefreshedUpTo(orig, rows, evs, |orig|, cal)
    ensures rows == Recalculated(orig, cal)
    ensures evs == Evaluations(orig, cal)
  {
    RecalculatedPointwise(orig, rows, cal);
    EvaluationsPointwise(orig, evs, cal);
  }

  /** Adding a row's contribution adds each of its figures to the matching sum. */
  lemma ContributionAdds(t: Totals, e: Evaluation)
    ensures Plus(t, Contribution(e))
            == Totals(t.net + e.net, t.x15 + e.tally.x15, t.x20 + e.tally.x20, t.x25 + e.tally.x25,
                      t.deficit + if !e.nonWorking && e.net < DailyBaseline then DailyBaseline - e.net else 0)
  {
  }

  /** Recalculating leaves every row's evaluation as it was. */
  lemma {:induction false} EvaluationsRecalculated(rows: seq<TableRow>, cal: Calendar)
    requires AllReadable(rows)
    ensures AllReadable(Recalculated(rows, cal))
    ensures Evaluations(Recalculated(rows, cal), cal) == Evaluations(rows, cal)
  {
    RecalculateIdempotent(rows, cal);
    if rows != [] {
      var n := |rows|;
      var front := rows[..n - 1];
      ReadablePrefix(rows, n - 1);
      EvaluationsRecalculated(front, cal);
      var r := Recalculated(rows, cal);
      assert r[..n - 1] == Recalculated(front, cal);
      RefreshEvaluation(rows[n - 1], cal);
      assert Evaluate(r[n - 1], cal) == Evaluate(rows[n - 1], cal);
    }
  }

  /** The summary of a recalculated table is the summary it was computed from. */
  lemma RecalculatedSummary(rows: seq<TableRow>, cal: Calendar)
    requires AllReadable(rows)
    ensures AllReadable(Recalculated(rows, cal))
    ensures PeriodSummary(Recalculated(rows, cal), cal) == PeriodSummary(rows, cal)
  {
    EvaluationsRecalculated(rows, cal);
  }

  lemma {:induction false} EvaluationsConcat(a: seq<TableRow>, b: seq<TableRow>, cal: Calendar)
    requires AllReadable(a) && AllReadable(b)
    ensures AllReadable(a + b)
    ensures Evaluations(a + b, cal) == Evaluations(a, cal) + Evaluations(b, cal)
    decreases |b|
  {
    if b == [] {
      assert a + b == a;
    } else {
      var b' := b[..|b| - 1];
      assert (a + b)[..|a + b| - 1] == a + b';
      assert (a + b)[|a + b| - 1] == b[|b| - 1];
      EvaluationsConcat(a, b', cal);
    }
  }

  /** Readability is about the rows present, so it carries over to a rearrangement and its parts. */
  lemma ReadableParts(a: seq<TableRow>, b: seq<TableRow>, j: nat)
    requires AllReadable(a) && multiset(a) == multiset(b) && |a| > 0
    requires j < |b| && b[j] == a[|a| - 1]
    ensures AllReadable(b) && AllReadable(a[..|a| - 1])
    ensures AllReadable(b[..j]) && AllReadable(b[j + 1..]) && AllReadable(b[..j] + b[j + 1..])
  {
    forall row | row in b ensures ClocksReadable(row) {
      assert row in multiset(b);
    }
    forall row | row in a[..|a| - 1] ensures ClocksReadable(row) {
      assert row in a;
    }
    forall row | row in b[..j] + b[j + 1..] ensures ClocksReadable(row) {
      assert row in b;
    }
  }

  /** Taking row j out of b takes its evaluation out of the evaluations of b. */
  lemma EvaluationsRemove(b: seq<TableRow>, j: nat, cal: Calendar)
    requires AllReadable(b) && j < |b|
    requires AllReadable(b[..j]) && AllReadable(b[j + 1..]) && AllReadable(b[..j] + b[j + 1..])
    ensures ClocksReadable(b[j])
    ensures multiset(Evaluations(b, cal)) == multiset(Evaluations(b[..j] + b[j + 1..], cal)) + multiset{Evaluate(b[j], cal)}
  {
    var front, x, back := b[..j], b[j], b[j + 1..];
    assert x in b;
    assert b == (front + [x]) + back;
    assert AllReadable([x]);
    EvaluationsConcat(front, [x], cal);
    EvaluationsConcat(front + [x], back, cal);
    EvaluationsConcat(front, back, cal);
    assert Evaluations([x], cal) == [Evaluate(x, cal)] by {
      assert [x][..0] == [];
    }
  }

  /** Rows that are a rearrangement of each other evaluate to a rearrangement. */
  lemma {:induction false} EvaluationsPermutation(a: seq<TableRow>, b: seq<TableRow>, cal: Calendar)
    requires AllReadable(a) && multiset(a) == multiset(b)
    ensures AllReadable(b)
    ensures multiset(Evaluations(a, cal)) == multiset(Evaluations(b, cal))
    decreases |a|
  {
    if a == [] {
      assert |multiset(b)| == 0;
      assert b == [];
    } else {
      var x := a[|a| - 1];
      var a' := a[..|a| - 1];
      assert x in multiset(b);
      var j :| 0 <= j < |b| && b[j] == x;
      ReadableParts(a, b, j);
      RemoveMatching(a, b, j);
      EvaluationsPermutation(a', b[..j] + b[j + 1..], cal);
      EvaluationsRemove(b, j, cal);
      assert Evaluations(a, cal) == Evaluations(a', cal) + [Evaluate(x, cal)];
    }
  }

  /** The summary does not depend on the order of the rows. */
  lemma RowOrderIrrelevant(a: seq<TableRow>, b: seq<TableRow>, cal: Calendar)
    requires AllReadable(a) && multiset(a) == multiset(b)
    ensures AllReadable(b)
    ensures PeriodSummary(a, cal) == PeriodSummary(b, cal)
  {
    EvaluationsPermutation(a, b, cal);
    AggregatePermutation(Evaluations(a, cal), Evaluations(b, cal));
  }

  /** The row `insert_row` adds for an accepted line: net column `{h}h {m}m`, band columns empty. */
  function InsertedRow(p: ParsedRow): TableRow
  {
    TableRow(p.date, p.start, p.end, FormatNet(p.net), p.brk, None)
  }

  /**
   * A parsed row, once in the table, is read back with the net that was
   * parsed, and its inferred break is the parse-time break without the
   * floor at zero.
   */
  lemma InsertedRowEvaluation(line: Line, cal: Calendar)
    requires ParseLine(line).Some?
    ensures ClocksReadable(InsertedRow(ParseLine(line).value))
    ensures Evaluate(InsertedRow(ParseLine(line).value), cal).net == NetOf(line)
    ensures var e := Evaluate(InsertedRow(ParseLine(line).value), cal);
            ParseLine(line).value.brk == if e.brk > 0 then e.brk else 0
  {
    NetRoundTrip(ParseLine(line).value.net);
  }

  function TableRows(ps: seq<ParsedRow>): (rows: seq<TableRow>)
    ensures |rows| == |ps|
    ensures forall k :: 0 <= k < |ps| ==> rows[k] == InsertedRow(ps[k])
  {
    if ps == [] then [] else TableRows(ps[..|ps| - 1]) + [InsertedRow(ps[|ps| - 1])]
  }

  /** Every row taken from the lines can be recalculated. */
  lemma ParsedRowsReadable(lines: seq<Line>)
    ensures AllReadable(TableRows(ParsedRows(lines)))
  {
    var rows := TableRows(ParsedRows(lines));
    forall row | row in rows ensures ClocksReadable(row) {
      var k :| 0 <= k < |rows| && rows[k] == row;
    }
  }

  lemma TableRowsSnoc(ps: seq<ParsedRow>, extra: seq<ParsedRow>)
    requires |extra| <= 1
    ensures TableRows(ps + extra) == TableRows(ps) + (if extra == [] then [] else [InsertedRow(extra[0])])
  {
    if extra != [] {
      assert (ps + extra)[..|ps|] == ps;
    } else {
      assert ps + extra == ps;
    }
  }

  /** Progress of the line loop: the outcomes of the first i lines are collected. */
  ghost predicate ReadUpTo(lines: seq<Line>, results: seq<Option<ParsedRow>>, i: nat)
  {
    i <= |lines| && |results| == i && forall k :: 0 <= k < i ==> results[k] == ParseLine(lines[k])
  }

  lemma ReadStep(lines: seq<Line>, results: seq<Option<ParsedRow>>, i: nat, r: Option<ParsedRow>)
    requires ReadUpTo(lines, results, i) && i < |lines| && r == ParseLine(lines[i])
    ensures ReadUpTo(lines, results + [r], i + 1)
  {
    var rs := results + [r];
    forall k | 0 <= k < i + 1
      ensures rs[k] == ParseLine(lines[k])
    {
      if k < i {
        assert rs[k] == results[k];
      }
    }
  }

  lemma ReadAll(lines: seq<Line>, results: seq<Option<ParsedRow>>)
    requires ReadUpTo(lines, results, |lines|)
    ensures Accepted(results) == ParsedRows(lines)
  {
    assert results == LineResults(lines);
  }

  /** The table widget and the summary box. */
  class OvertimeSheet {
    var rows: seq<TableRow>
    var summary: Option<Summary>

    /** Every row can be read back by the recalculation. */
    ghost predicate Valid()
      reads this
    {
      AllReadable(rows)
    }

    constructor ()
      ensures rows == [] && summary == None
      ensures Valid()
    {
      rows := [];
      summary := None;
    }

    /** `insert_row`: a new last row with the net as `{h}h {m}m` and empty band columns. */
    method InsertRow(date: Date, start: string, end: string, net: nat, brk: nat)
      modifies this
      ensures rows == old(rows) + [TableRow(date, start, end, FormatNet(net), brk, None)]
      ensures summary == old(summary)
      ensures old(Valid()) && ParseClock(start).Some? && ParseClock(end).Some? ==> Valid()
    {
      rows := rows + [TableRow(date, start, end, FormatNet(net), brk, None)];
    }

    /**
     * One row of `recalculate_from_table`: read the clocks and the net
     * column, infer the break, decide the day kind, walk the minutes, and
     * write the net, break and band columns back into the row.
     */
    method RefreshRow(i: nat, cal: Calendar) returns (e: Evaluation)
      requires i < |rows| && ClocksReadable(rows[i])
      modifies this
      ensures e == Evaluate(old(rows)[i], cal)
      ensures rows == old(rows)[i := Refresh(old(rows)[i], cal)]
      ensures summary == old(summary)
    {
      var row := rows[i];
      var st := ParseClock(row.start).value;
      var et := ParseClock(row.end).value;
      var netMin := ParseNet(row.netText);
      var rangeMin := Span(st, et);
      var brk := rangeMin as int - netMin as int;
      var isH := NonWorking(cal, row.date);
      var t := WalkShift(st, rangeMin, brk, isH);
      e := Evaluation(netMin, brk, isH, t);
      assert e == Evaluate(row, cal);
      var refreshed := row.(netText := FormatNet(e.net), breakMinutes := e.brk,
                            shown := Some(Shown(e.tally.x15, e.tally.x20, e.tally.x25, e.tally.DoubledWeighted())));
      assert refreshed == Refresh(row, cal);
      rows := rows[i := refreshed];
    }

    /**
     * The row loop of `recalculate_from_table`: evaluate each row with the
     * minute walk, rewrite its columns, and keep the running sums of net
     * minutes, bands and deficits.
     */
    method RefreshRows(cal: Calendar) returns (totals: Totals)
      requires Valid()
      modifies this
      ensures rows == Recalculated(old(rows), cal)
      ensures summary == old(summary)
      ensures totals == Aggregate(Evaluations(old(rows), cal))
    {
      ghost var orig := rows;
      var totalNet: nat, sum15: nat, sum20: nat, sum25: nat, totalMinus: nat := 0, 0, 0, 0, 0;
      ghost var evs: seq<Evaluation> := [];
      var i := 0;
      while i < |rows|
        invariant RefreshedUpTo(orig, rows, evs, i, cal)
        invariant summary == old(summary)
        invariant Totals(totalNet, sum15, sum20, sum25, totalMinus) == Aggregate(evs)
      {
        RefreshedStep(orig, rows, evs, i, cal);
        var e := RefreshRow(i, cal);
        ghost var before := Totals(totalNet, sum15, sum20, sum25, totalMinus);
        ContributionAdds(before, e);
        totalNet, sum15, sum20, sum25 := totalNet + e.net, sum15 + e.tally.x15, sum20 + e.tally.x20, sum25 + e.tally.x25;
        if !e.nonWorking && e.net < DailyBaseline {
          totalMinus := totalMinus + (DailyBaseline - e.net);
        }
        assert Totals(totalNet, sum15, sum20, sum25, totalMinus) == Plus(before, Contribution(e));
        AggregateSnoc(evs, e);
        evs := evs + [e];
        i := i + 1;
      }
      RefreshedAll(orig, rows, evs, cal);
      totals := Totals(totalNet, sum15, sum20, sum25, totalMinus);
    }

    /**
     * `recalculate_from_table`: refresh every row, then net the deficit
     * against the ×1.5 total and fill the summary box.
     */
    method Recalculate(cal: Calendar)
      requires Valid()
      modifies this
      ensures Valid()
      ensures rows == Recalculated(old(rows), cal)
      ensures summary == Some(PeriodSummary(old(rows), cal))
    {
      ghost var orig := rows;
      var t := RefreshRows(cal);
      var adjX15 := if t.x15 > t.deficit then t.x15 - t.deficit else 0;
      var fOt := 3 * adjX15 + 4 * t.x20 + 5 * t.x25;
      assert adjX15 == AdjustedX15(t) && fOt == DoubledOvertime(t);
      summary := Some(Summary(t.net, adjX15, t.x20, t.x25, fOt));
      assert summary.value == Summarize(t);
      RecalculateIdempotent(orig, cal);
    }

    /**
     * The line loop of `parse_rows`: clear the table, then insert a row
     * for every accepted line, with the break `max(0, range - net)`.
     */
    method FillRows(lines: seq<Line>)
      modifies this
      ensures rows == TableRows(ParsedRows(lines))
      ensures summary == old(summary)
    {
      rows := [];
      ghost var results: seq<Option<ParsedRow>> := [];
      var i := 0;
      while i < |lines|
        invariant ReadUpTo(lines, results, i)
        invariant rows == TableRows(Accepted(results))
        invariant summary == old(summary)
      {
        var r := ReadLine(lines[i]);
        AcceptedSnoc(results, r);
        TableRowsSnoc(Accepted(results), if r.Some? then [r.value] else []);
        if r.Some? {
          var p := r.value;
          InsertRow(p.date, p.start, p.end, p.net, p.brk);
        }
        ReadStep(lines, results, i, r);
        results := results + [r];
        i := i + 1;
      }
      ReadAll(lines, results);
    }

    /** `parse_rows`: fill the table from the lines, then recalculate. */
    method ParseRows(lines: seq<Line>, cal: Calendar)
      modifies this
      ensures Valid()
      ensures rows == Recalculated(TableRows(ParsedRows(lines)), cal)
      ensures summary == Some(PeriodSummary(TableRows(ParsedRows(lines)), cal))
    {
      FillRows(lines);
      ParsedRowsReadable(lines);
      Recalculate(cal);
    }
  }
}
