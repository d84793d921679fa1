/** Trust tiers, lowest first. */
module Tiers {
  import opened Wrappers

  /** A tier by its rank, T0 to T4. */
  type Tier = t: nat | t <= 4

  function Rank(tier: string): int {
    if tier == "T0" then 0
    else if tier == "T1" then 1
         else if tier == "T2" then 2 else if tier == "T3" then 3 else if tier == "T4" then 4 else -1
  }

  predicate TierOk(have: Option<string>, min: string) {
    have.Some? && Rank(have.value) >= 0 && Rank(min) >= 0 && Rank(have.value) >= Rank(min)
  }

  /** There are five tiers, each enough for itself and for those below. */
  lemma TiersInOrder(have: Option<string>, min: string)
    ensures TierOk(have, min) <==>
              && have.Some?
              && (|| (min == "T0" && have.value in {"T0", "T1", "T2", "T3", "T4"})
                  || (min == "T1" && have.value in {"T1", "T2", "T3", "T4"})
                  || (min == "T2" && have.value in {"T2", "T3", "T4"})
                  || (min == "T3" && have.value in {"T3", "T4"})
                  || (min == "T4" && have.value == "T4"))
  {
  }
}
