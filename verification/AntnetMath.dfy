/** The numeric core of AntNet (antnet_math.h), on reals, and the little algebra its histories need. */
module AntnetMath {

  /** Relative weight of the queue heuristic against pheromone (antnet_common.h). */
  const ALPHA: real := 0.45

  function LinkProbability(phvalue: real, alpha: real, linkQueue: real, totalQueue: real, numNeighbors: nat): real
    requires totalQueue > 0.0 && 0.0 <= alpha < 1.0
  {
    (phvalue + alpha * (1.0 - linkQueue / totalQueue)) / Denominator(alpha, numNeighbors)
  }

  /** 1 + alpha (N - 1): positive even for N = 0, because alpha < 1. */
  function Denominator(alpha: real, numNeighbors: nat): (d: real)
    requires 0.0 <= alpha < 1.0
    ensures d > 0.0
  {
    var n := numNeighbors as real;
    assert n == 0.0 || n >= 1.0;
    assert alpha * (n - 1.0) >= -alpha;
    1.0 + alpha * (n - 1.0)
  }

  function ReinforcePheromone(oldPhvalue: real, r: real): real {
    oldPhvalue + r * (1.0 - oldPhvalue)
  }

  function EvaporatePheromone(oldPhvalue: real, r: real): real {
    (1.0 - r) * oldPhvalue
  }

  // ---- Products, named so that inductive proofs can keep them folded ----

  function Times(x: real, y: real): real {
    x * y
  }

  lemma TimesDistributes(q: real, x: real, y: real)
    ensures Times(q, x + y) == Times(q, x) + Times(q, y)
  {}

  lemma TimesUnits(x: real)
    ensures Times(x, 0.0) == 0.0 && Times(0.0, x) == 0.0 && Times(x, 1.0) == x && Times(1.0, x) == x
  {}

  lemma TimesReorders(p: real, q: real, x: real)
    ensures Times(p, Times(q, x)) == Times(Times(q, p), x)
  {}

  lemma TimesCommutes(x: real, y: real)
    ensures Times(x, y) == Times(y, x)
  {}

  lemma TimesPositive(x: real, y: real)
    ensures x >= 0.0 && y >= 0.0 ==> Times(x, y) >= 0.0
    ensures x > 0.0 && y > 0.0 ==> Times(x, y) > 0.0
    ensures Times(x, y) == 0.0 ==> x == 0.0 || y == 0.0
  {}

  function Pow(b: real, n: nat): real {
    if n == 0 then 1.0 else Times(b, Pow(b, n - 1))
  }

  lemma {:induction false} PowPositive(b: real, n: nat)
    ensures b >= 0.0 ==> Pow(b, n) >= 0.0
    ensures b > 0.0 ==> Pow(b, n) > 0.0
  {
    hide Times;
    if n > 0 {
      PowPositive(b, n - 1);
      TimesPositive(b, Pow(b, n - 1));
    }
  }
}
