/** The hit and miss counters and the running miss rate derived from them
    (index.tsx, `runSimulationStep`). */
module Counters {

  /** The miss rate after one more access: the misses so far plus this
      access's miss, over the accesses so far plus this one.
      `runSimulationStep` in index.tsx guards the division with `totalAccesses > 0 ? … : 0`; the guard never
      fails, since the total counts the current access. */
  function MissRate(hits: nat, misses: nat, wasHit: bool): (rate: real)
    ensures rate * (hits + misses + 1) as real == (misses + if wasHit then 0 else 1) as real
    ensures 0.0 <= rate <= 1.0
  {
    var totalAccesses := hits + misses + 1;
    var currentMisses := misses + if wasHit then 0 else 1;
    if totalAccesses > 0 then
      FractionInUnit(currentMisses, totalAccesses);
      currentMisses as real / totalAccesses as real
    else 0.0
  }

  /** A count over a larger positive total is a fraction in `[0, 1]`. */
  lemma FractionInUnit(part: nat, total: nat)
    requires 0 < total && part <= total
    ensures var q := part as real / total as real;
            0.0 <= q <= 1.0 && q * total as real == part as real
  {
    var q := part as real / total as real;
    assert q * total as real == part as real;
  }

  /** The share of misses among the accesses the counters record; none
      before the first access. */
  function MissShare(hits: nat, misses: nat): (share: real)
    ensures 0.0 <= share <= 1.0
    ensures hits + misses == 0 ==> share == 0.0
    ensures share * (hits + misses) as real == misses as real
  {
    if hits + misses == 0 then 0.0 else misses as real / (hits + misses) as real
  }

  /** The rate a step computes from the counters before it and its own
      outcome is the miss share of the counters after it. */
  lemma MissRateIsShareAfterStep(hits: nat, misses: nat, wasHit: bool)
    ensures MissRate(hits, misses, wasHit) ==
            MissShare(hits + (if wasHit then 1 else 0), misses + (if wasHit then 0 else 1))
  {
  }

  /** From zero counters, a hit gives rate 0 and a miss after it gives 1/2. */
  lemma RateScenario()
    ensures MissRate(0, 0, true) == 0.0
    ensures MissRate(1, 0, false) == 0.5
  {
  }
}
