/**
 * The multiplier bands ×1.0, ×1.5, ×2.0 and ×2.5 and the matrix that picks
 * one for a worked minute. Weights are doubled so that they stay integral.
 */
module Bands {
  datatype Band = Standard | Premium15 | Premium20 | Premium25

  /** Twice the band's multiplier. */
  function DoubledWeight(b: Band): nat
  {
    match b
    case Standard => 2
    case Premium15 => 3
    case Premium20 => 4
    case Premium25 => 5
  }

  function FlagCount(over: bool, night: bool): nat
  {
    (if over then 1 else 0) + (if night then 1 else 0)
  }

  /**
   * The weight matrix of a minute: on a working day each of the two flags
   * (past eight hours, night) adds ×0.5; on a non-working day a flagged
   * minute has a further ×0.5, while an unflagged one stays at ×1.0.
   */
  function Classify(nonWorking: bool, over: bool, night: bool): (b: Band)
    ensures DoubledWeight(b) == 2 + FlagCount(over, night) + (if nonWorking && (over || night) then 1 else 0)
  {
    if !nonWorking then
      if over && night then Premium20
      else if over || night then Premium15
      else Standard
    else
      if over && night then Premium25
      else if over || night then Premium20
      else Standard
  }

  /** Adding a flag, or moving to a non-working day, never lowers the weight. */
  lemma ClassifyMonotone(nw1: bool, o1: bool, n1: bool, nw2: bool, o2: bool, n2: bool)
    requires (nw1 ==> nw2) && (o1 ==> o2) && (n1 ==> n2)
    ensures DoubledWeight(Classify(nw1, o1, n1)) <= DoubledWeight(Classify(nw2, o2, n2))
  {
  }

  /** ×2.5 is reached exactly by a night minute past eight hours on a non-working day. */
  lemma Premium25Exactly(nonWorking: bool, over: bool, night: bool)
    ensures Classify(nonWorking, over, night) == Premium25 <==> nonWorking && over && night
    ensures Classify(nonWorking, over, night) == Standard <==> !over && !night
  {
  }
}
