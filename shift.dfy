/**
 * The minute walk over one shift: the first `brk` minutes of the span are
 * the break, every later minute is worked, counted, and given a band from
 * the night test, the eight-hour threshold and the day kind.
 */
module Shift {
  import opened Wrappers
  import opened Clock
  import opened Bands

  /** Worked minutes after which a minute is past eight hours. */
  const OverThreshold: nat := 480

  /** Minutes per band for one shift (the source's h10, h15, h20, h25). */
  datatype Tally = Tally(standard: nat, x15: nat, x20: nat, x25: nat)
  {
    function Total(): nat
    {
      standard + x15 + x20 + x25
    }

    function Add(b: Band): Tally
    {
      match b
      case Standard => this.(standard := standard + 1)
      case Premium15 => this.(x15 := x15 + 1)
      case Premium20 => this.(x20 := x20 + 1)
      case Premium25 => this.(x25 := x25 + 1)
    }

    /** The row's weighted-equivalent minutes, doubled: every band at its own multiplier. */
    function DoubledWeighted(): (w: nat)
      ensures 2 * Total() <= w <= 5 * Total()
    {
      2 * standard + 3 * x15 + 4 * x20 + 5 * x25
    }
  }


  /** Minutes the loop skips at the front: `m < brk` never holds for a negative brk. */
  function Skipped(brk: int): nat
  {
    if brk > 0 then brk else 0
  }

  /** Worked minutes among the first k minutes of the span. */
  function Counted(k: nat, brk: int): nat
  {
    if k > Skipped(brk) then k - Skipped(brk) else 0
  }

  /**
   * The band of minute m of a span starting at clock time start, or None
   * when m is break. The worked-minute counter has just been incremented,
   * so it equals the number of worked minutes in 0..m.
   */
  function MinuteBand(start: nat, brk: int, nonWorking: bool, m: nat): Option<Band>
  {
    if m < brk then None
    else Some(Classify(nonWorking, Counted(m + 1, brk) > OverThreshold, NightMinute(start, m)))
  }

  /** Minute m of a span that starts at clock time start falls in the night window. */
  predicate NightMinute(start: nat, m: nat)
  {
    IsNight(start + m)
  }

  /** The bands of the first k minutes of the span, summed. */
  function TallyUpTo(start: nat, brk: int, nonWorking: bool, k: nat): Tally
  {
    if k == 0 then Tally(0, 0, 0, 0)
    else
      Step(TallyUpTo(start, brk, nonWorking, k - 1), MinuteBand(start, brk, nonWorking, k - 1))
  }

  /** The tally after one more minute of the span. */
  function Step(t: Tally, mb: Option<Band>): Tally
  {
    if mb.None? then t else t.Add(mb.value)
  }

  /** Each worked minute lands in exactly one band and no break minute in any. */
  lemma {:induction false} TallyTotal(start: nat, brk: int, nonWorking: bool, k: nat)
    ensures TallyUpTo(start, brk, nonWorking, k).Total() == Counted(k, brk)
  {
    if k > 0 {
      TallyTotal(start, brk, nonWorking, k - 1);
      var mb := MinuteBand(start, brk, nonWorking, k - 1);
      assert Counted(k, brk) == Counted(k - 1, brk) + (if mb.Some? then 1 else 0);
    }
  }

  /**
   * The `for m in range(range_min)` loop of one row: every worked minute
   * lands in exactly one band, so the bands sum to the span minus the
   * break (the whole span when the break is negative).
   */
  method WalkShift(start: nat, rangeMin: nat, brk: int, nonWorking: bool) returns (t: Tally)
    ensures t == TallyUpTo(start, brk, nonWorking, rangeMin)
    ensures 0 <= brk <= rangeMin ==> t.Total() == rangeMin - brk
    ensures brk < 0 ==> t.Total() == rangeMin
  {
    t := Tally(0, 0, 0, 0);
    var wCnt := 0;
    for m := 0 to rangeMin
      invariant wCnt == Counted(m, brk)
      invariant t == TallyUpTo(start, brk, nonWorking, m)
    {
      if m >= brk {
        var isNight := IsNight(start + m);
        wCnt := wCnt + 1;
        var over := wCnt > OverThreshold;
        var w := Classify(nonWorking, over, isNight);
        assert MinuteBand(start, brk, nonWorking, m) == Some(w);
        assert TallyUpTo(start, brk, nonWorking, m + 1) == t.Add(w);
        t := t.Add(w);
      } else {
        assert MinuteBand(start, brk, nonWorking, m) == None;
        assert TallyUpTo(start, brk, nonWorking, m + 1) == t;
      }
    }
    TallyTotal(start, brk, nonWorking, rangeMin);
  }

  /** At most 480 worked minutes are ×1.0: a standard minute is never past eight hours. */
  lemma {:induction false} StandardWithinThreshold(start: nat, brk: int, nonWorking: bool, k: nat)
    ensures TallyUpTo(start, brk, nonWorking, k).standard <= Counted(k, brk)
    ensures TallyUpTo(start, brk, nonWorking, k).standard <= OverThreshold
  {
    if k > 0 {
      StandardWithinThreshold(start, brk, nonWorking, k - 1);
      var prev := TallyUpTo(start, brk, nonWorking, k - 1);
      var mb := MinuteBand(start, brk, nonWorking, k - 1);
      if mb.Some? {
        assert Counted(k, brk) == Counted(k - 1, brk) + 1;
        assert mb.value == Standard ==> Counted(k, brk) <= OverThreshold;
        assert TallyUpTo(start, brk, nonWorking, k) == prev.Add(mb.value);
      } else {
        assert TallyUpTo(start, brk, nonWorking, k) == prev;
      }
    }
  }

  /** Every worked minute after the 480th is past eight hours, so it is never ×1.0. */
  lemma PastThresholdIsPremium(start: nat, brk: int, nonWorking: bool, m: nat)
    requires m >= brk && m >= Skipped(brk) + OverThreshold
    ensures MinuteBand(start, brk, nonWorking, m).Some?
    ensures DoubledWeight(MinuteBand(start, brk, nonWorking, m).value) >= 3
  {
  }

  /** ×2.5 minutes occur only on non-working days. */
  lemma {:induction false} WorkingDayHasNoPremium25(start: nat, brk: int, nonWorking: bool, k: nat)
    requires !nonWorking
    ensures TallyUpTo(start, brk, nonWorking, k).x25 == 0
  {
    if k > 0 {
      WorkingDayHasNoPremium25(start, brk, nonWorking, k - 1);
      var prev := TallyUpTo(start, brk, nonWorking, k - 1);
      var mb := MinuteBand(start, brk, nonWorking, k - 1);
      if mb.Some? {
        assert mb.value != Premium25;
        assert TallyUpTo(start, brk, nonWorking, k) == prev.Add(mb.value);
      } else {
        assert TallyUpTo(start, brk, nonWorking, k) == prev;
      }
    }
  }

  /** No worked minute among the first k lies in the night window. */
  ghost predicate NightFree(start: nat, brk: int, k: nat)
  {
    forall m :: Skipped(brk) <= m < k ==> !NightMinute(start, m)
  }

  /** The tally of c worked minutes none of which is at night. */
  function NightFreeExpected(c: nat, nonWorking: bool): Tally
  {
    var base := if c <= OverThreshold then c else OverThreshold;
    if nonWorking then Tally(base, 0, c - base, 0) else Tally(base, c - base, 0, 0)
  }

  lemma NightFreeStep(c: nat, nonWorking: bool)
    requires c >= 1
    ensures NightFreeExpected(c - 1, nonWorking).Add(Classify(nonWorking, c > OverThreshold, false))
            == NightFreeExpected(c, nonWorking)
  {
  }

  /**
   * Closed form of a shift without night minutes: the first 480 worked
   * minutes are ×1.0 and the rest are ×1.5 on a working day, ×2.0 on a
   * non-working day.
   */
  lemma {:induction false} NightFreeTally(start: nat, brk: int, nonWorking: bool, k: nat)
    requires NightFree(start, brk, k)
    ensures TallyUpTo(start, brk, nonWorking, k) == NightFreeExpected(Counted(k, brk), nonWorking)
  {
    if k > 0 {
      assert NightFree(start, brk, k - 1);
      NightFreeTally(start, brk, nonWorking, k - 1);
      NightFreeMinute(start, brk, nonWorking, k);
    }
  }

  /** The k-th minute of a night-free shift keeps the closed form. */
  lemma NightFreeMinute(start: nat, brk: int, nonWorking: bool, k: nat)
    requires k >= 1
    requires k - 1 >= brk ==> !NightMinute(start, k - 1)
    ensures Step(NightFreeExpected(Counted(k - 1, brk), nonWorking), MinuteBand(start, brk, nonWorking, k - 1))
            == NightFreeExpected(Counted(k, brk), nonWorking)
  {
    if k - 1 >= brk {
      var c := Counted(k, brk);
      assert c == Counted(k - 1, brk) + 1;
      assert MinuteBand(start, brk, nonWorking, k - 1) == Some(Classify(nonWorking, c > OverThreshold, false));
      NightFreeStep(c, nonWorking);
    }
  }
}
