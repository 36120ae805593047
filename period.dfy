/**
 * Period aggregation: the per-row band minutes are summed, working days
 * short of eight declared hours add their shortfall to a deficit, and the
 * deficit is netted against the ×1.5 total only (flexible-work offset).
 * All figures are minutes; the payable overtime is kept doubled.
 */
module Period {
  import opened Shift

  /** Declared net minutes of a full working day. */
  const DailyBaseline: nat := 480

  /** What one row contributes: declared net, inferred break, day kind and bands. */
  datatype Evaluation = Evaluation(net: nat, brk: int, nonWorking: bool, tally: Tally)

  /** `8 - row_net` for a working-day row declared under eight hours, otherwise 0. */
  function Deficit(e: Evaluation): (d: nat)
    ensures d > 0 <==> !e.nonWorking && e.net < DailyBaseline
    ensures d > 0 ==> e.net + d == DailyBaseline
    ensures d <= DailyBaseline
  {
    if !e.nonWorking && e.net < DailyBaseline then DailyBaseline - e.net else 0
  }

  /** Running sums: total_net, sum15, sum20, sum25 and total_minus. */
  datatype Totals = Totals(net: nat, x15: nat, x20: nat, x25: nat, deficit: nat)

  function Plus(a: Totals, b: Totals): Totals
  {
    Totals(a.net + b.net, a.x15 + b.x15, a.x20 + b.x20, a.x25 + b.x25, a.deficit + b.deficit)
  }

  function Contribution(e: Evaluation): Totals
  {
    Totals(e.net, e.tally.x15, e.tally.x20, e.tally.x25, Deficit(e))
  }

  lemma PlusAssociative(a: Totals, b: Totals, c: Totals)
    ensures Plus(Plus(a, b), c) == Plus(a, Plus(b, c))
  {
  }

  /** The sums after the rows es, added in table order. */
  function Aggregate(es: seq<Evaluation>): Totals
  {
    if es == [] then Totals(0, 0, 0, 0, 0)
    else Plus(Aggregate(es[..|es| - 1]), Contribution(es[|es| - 1]))
  }

  /** One more row adds its contribution to the sums. */
  lemma AggregateSnoc(es: seq<Evaluation>, e: Evaluation)
    ensures Aggregate(es + [e]) == Plus(Aggregate(es), Contribution(e))
  {
    assert (es + [e])[..|es|] == es;
  }

  /** The deficit is at most eight hours per row. */
  lemma {:induction false} DeficitBound(es: seq<Evaluation>)
    ensures Aggregate(es).deficit <= DailyBaseline * |es|
  {
    if es != [] {
      DeficitBound(es[..|es| - 1]);
    }
  }

  /** Summing two blocks of rows separately and adding gives the sum of all rows. */
  lemma {:induction false} AggregateConcat(a: seq<Evaluation>, b: seq<Evaluation>)
    ensures Aggregate(a + b) == Plus(Aggregate(a), Aggregate(b))
    decreases |b|
  {
    if b == [] {
      assert a + b == a;
    } else {
      var b' := b[..|b| - 1];
      var x := b[|b| - 1];
      assert (a + b)[..|a + b| - 1] == a + b';
      assert (a + b)[|a + b| - 1] == x;
      AggregateConcat(a, b');
      calc {
        Aggregate(a + b);
        Plus(Aggregate(a + b'), Contribution(x));
        Plus(Plus(Aggregate(a), Aggregate(b')), Contribution(x));
        { PlusAssociative(Aggregate(a), Aggregate(b'), Contribution(x)); }
        Plus(Aggregate(a), Plus(Aggregate(b'), Contribution(x)));
        Plus(Aggregate(a), Aggregate(b));
      }
    }
  }

  lemma PlusSwap(p: Totals, c: Totals, r: Totals)
    ensures Plus(Plus(p, c), r) == Plus(Plus(p, r), c)
  {
  }

  /** Taking the last element off a and one equal element off b keeps the multisets equal. */
  lemma RemoveMatching<T>(a: seq<T>, b: seq<T>, j: nat)
    requires |a| > 0 && multiset(a) == multiset(b)
    requires j < |b| && b[j] == a[|a| - 1]
    ensures multiset(a[..|a| - 1]) == multiset(b[..j] + b[j + 1..])
  {
    var x := a[|a| - 1];
    assert a == a[..|a| - 1] + [x];
    assert b == b[..j] + [x] + b[j + 1..];
    assert multiset(a[..|a| - 1]) == multiset(a) - multiset{x};
    assert multiset(b[..j] + b[j + 1..]) == multiset(b) - multiset{x};
  }

  /** The sums, and hence the netting, do not depend on the order of the rows. */
  lemma {:induction false} AggregatePermutation(a: seq<Evaluation>, b: seq<Evaluation>)
    requires multiset(a) == multiset(b)
    ensures Aggregate(a) == Aggregate(b)
    decreases |a|
  {
    if a == [] {
      assert |multiset(b)| == 0;
    } else {
      var x := a[|a| - 1];
      var a' := a[..|a| - 1];
      assert x in multiset(b);
      var j :| 0 <= j < |b| && b[j] == x;
      var front, back := b[..j], b[j + 1..];
      RemoveMatching(a, b, j);
      AggregatePermutation(a', front + back);
      assert b == (front + [x]) + back;
      AggregateConcat(front + [x], back);
      AggregateConcat(front, [x]);
      AggregateConcat(front, back);
      assert Aggregate([x]) == Contribution(x) by {
        assert [x][..0] == [];
      }
      calc {
        Aggregate(b);
        Plus(Aggregate(front + [x]), Aggregate(back));
        Plus(Plus(Aggregate(front), Contribution(x)), Aggregate(back));
        { PlusSwap(Aggregate(front), Contribution(x), Aggregate(back)); }
        Plus(Plus(Aggregate(front), Aggregate(back)), Contribution(x));
        Plus(Aggregate(front + back), Contribution(x));
        Plus(Aggregate(a'), Contribution(x));
        Aggregate(a);
      }
    }
  }

  /** `adj_x15 = max(0, sum15 - total_minus)` */
  function AdjustedX15(t: Totals): (r: nat)
    ensures r <= t.x15
    ensures t.deficit <= t.x15 ==> r + t.deficit == t.x15
    ensures t.deficit >= t.x15 ==> r == 0
  {
    if t.x15 > t.deficit then t.x15 - t.deficit else 0
  }

  /**
   * `f_ot = adj_x15 * 1.5 + sum20 * 2.0 + sum25 * 2.5`, doubled. The ×2.0
   * and ×2.5 minutes are paid in full; netting can only take away ×1.5 pay,
   * and only as much as there is.
   */
  function DoubledOvertime(t: Totals): (r: nat)
    ensures 4 * t.x20 + 5 * t.x25 <= r <= 3 * t.x15 + 4 * t.x20 + 5 * t.x25
    ensures t.deficit == 0 ==> r == 3 * t.x15 + 4 * t.x20 + 5 * t.x25
  {
    3 * AdjustedX15(t) + 4 * t.x20 + 5 * t.x25
  }

  /** A larger deficit never raises the payable overtime. */
  lemma NettingMonotone(t: Totals, deficit: nat)
    requires t.deficit <= deficit
    ensures DoubledOvertime(t.(deficit := deficit)) <= DoubledOvertime(t)
  {
  }

  /** The summary box: total net, adjusted ×1.5, ×2.0, ×2.5 and the doubled payable total. */
  datatype Summary = Summary(totalNet: nat, adjustedX15: nat, x20: nat, x25: nat, doubledOvertime: nat)

  function Summarize(t: Totals): (s: Summary)
    ensures s.totalNet == t.net && s.adjustedX15 == AdjustedX15(t)
    ensures s.adjustedX15 <= t.x15 && s.x20 == t.x20 && s.x25 == t.x25
    ensures s.doubledOvertime == 3 * s.adjustedX15 + 4 * s.x20 + 5 * s.x25
  {
    Summary(t.net, AdjustedX15(t), t.x20, t.x25, DoubledOvertime(t))
  }
}
