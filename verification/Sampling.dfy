// Rejection sampling: src/random.cpp, DeterministicRng::below, over the values the
// generator draws.
module Sampling {
  import opened Sequences
  import opened Bytes

  /** (0 - bound) % bound in 64-bit arithmetic. */
  function Threshold(bound: nat): nat
    requires 0 < bound < U64_LIMIT
  {
    (U64_LIMIT - bound) % bound
  }

  /** The value drawn first that is not rejected, reduced; None while all are. */
  method Below(draws: seq<nat>, bound: nat) returns (r: Option<nat>, used: nat)
    requires bound < U64_LIMIT && forall d | d in draws :: d < U64_LIMIT
    ensures bound == 0 ==> r == Some(0) && used == 0
    ensures bound > 0 && r.Some? ==>
              0 < used <= |draws| && draws[used - 1] >= Threshold(bound) && r.value == draws[used - 1] % bound
              && forall k | 0 <= k < used - 1 :: draws[k] < Threshold(bound)
    ensures bound > 0 && r.None? ==> forall k | 0 <= k < |draws| :: draws[k] < Threshold(bound)
  {
    if bound == 0 {
      return Some(0), 0;
    }
    var threshold := (U64_LIMIT - bound) % bound;
    for i := 0 to |draws|
      invariant forall k | 0 <= k < i :: draws[k] < threshold
    {
      if draws[i] >= threshold {
        return Some(draws[i] % bound), i + 1;
      }
    }
    return None, |draws|;
  }

  /** How many of the accepted values below `end` leave the remainder `r`. */
  ghost function Hits(bound: nat, r: nat, start: nat, end: nat): nat
    requires 0 < bound && start <= end
    decreases end - start
  {
    if start == end then 0
    else Hits(bound, r, start, end - 1) + if (end - 1) % bound == r then 1 else 0
  }

  lemma {:induction false} HitsOf(bound: nat, r: nat, start: nat, blocks: nat, extra: nat)
    requires r < bound && start % bound == 0 && extra <= bound
    ensures Hits(bound, r, start, start + bound * blocks + extra) == blocks + if extra > r then 1 else 0
    decreases blocks, extra
  {
    var end := start + bound * blocks + extra;
    if extra > 0 {
      HitsOf(bound, r, start, blocks, extra - 1);
      var q := start / bound;
      Divided(start, bound);
      Distribute(bound, q, blocks);
      QuotientIs(end - 1, bound, q + blocks, extra - 1);
    } else if blocks > 0 {
      HitsOf(bound, r, start, blocks - 1, bound);
      Distribute(bound, blocks - 1, 1);
    }
  }

  lemma {:induction false} HitsSplit(bound: nat, r: nat, start: nat, mid: nat, end: nat)
    requires 0 < bound && start <= mid <= end
    ensures Hits(bound, r, start, end) == Hits(bound, r, start, mid) + Hits(bound, r, mid, end)
    decreases end - mid
  {
    if mid < end {
      HitsSplit(bound, r, start, mid, end - 1);
    }
  }

  lemma ThresholdIsRemainder(bound: nat, limit: nat)
    requires 0 < bound < limit
    ensures (limit - bound) % bound == limit % bound
  {
    var q := limit / bound;
    Divided(limit, bound);
    if q > 0 {
      Distribute(bound, q - 1, 1);
      QuotientIs(limit - bound, bound, q - 1, limit % bound);
    }
  }

  /** Rejection keeps the distribution exactly uniform: every remainder is left by the
      same number of accepted values, and fewer than `bound` values are rejected. */
  lemma AcceptedValuesAreUniform(bound: nat, r: nat)
    requires 0 < bound < U64_LIMIT && r < bound
    ensures Threshold(bound) < bound
    ensures Hits(bound, r, Threshold(bound), U64_LIMIT) == U64_LIMIT / bound
  {
    ThresholdIsRemainder(bound, U64_LIMIT);
    UniformBelow(bound, r, U64_LIMIT);
    hide Hits;
  }

  lemma UniformBelow(bound: nat, r: nat, limit: nat)
    requires 0 < bound && r < bound
    ensures limit % bound <= limit
    ensures Hits(bound, r, limit % bound, limit) == limit / bound
  {
    var t := limit % bound;
    Divided(limit, bound);
    HitsOf(bound, r, 0, limit / bound, t);
    HitsOf(bound, r, 0, 0, t);
    HitsSplit(bound, r, 0, t, limit);
    hide Hits;
  }
}
