/**
 The retransmission timeout estimator: RFC 6298 section 2 in integer
 arithmetic, with floor division.
 */
module Rto {
  import opened Prelude

  const INITIAL_RETRANSMIT_MILLISECONDS := 1000
  const MINIMUM_RETRANSMIT_MILLISECONDS := 250
  const MAXIMUM_RETRANSMIT_MILLISECONDS := 10000

  datatype Estimate = Estimate(smoothed: Option<nat>, variation: nat, timeout: nat)

  const INITIAL := Estimate(None, 0, INITIAL_RETRANSMIT_MILLISECONDS)

  function Distance(a: nat, b: nat): nat {
    if a < b then b - a else a - b
  }

  function Clamped(milliseconds: nat): nat {
    Max(MINIMUM_RETRANSMIT_MILLISECONDS, Min(milliseconds, MAXIMUM_RETRANSMIT_MILLISECONDS))
  }

  /** The timeout before it is clamped: smoothed round trip plus four variations. */
  function Unclamped(e: Estimate): nat
    requires e.smoothed.Some?
  {
    e.smoothed.value + 4 * e.variation
  }

  /** The estimate after one more sample, in unbounded arithmetic. */
  function Sampled(e: Estimate, sample: nat): (next: Estimate)
    ensures next.smoothed.Some? && next.timeout == Clamped(Unclamped(next))
  {
    var smoothed := if e.smoothed.None? then sample else (7 * e.smoothed.value + sample) / 8;
    var variation := if e.smoothed.None? then sample / 2
                     else (3 * e.variation + Distance(e.smoothed.value, sample)) / 4;
    Estimate(Some(smoothed), variation, Clamped(smoothed + 4 * variation))
  }

  function AfterSamples(e: Estimate, samples: seq<nat>): Estimate {
    if samples == [] then e
    else Sampled(AfterSamples(e, samples[..|samples| - 1]), samples[|samples| - 1])
  }

  predicate AllWithin(samples: seq<nat>, lo: nat, hi: nat) {
    forall k :: 0 <= k < |samples| ==> lo <= samples[k] <= hi
  }

  /** The estimator never leaves its timeout bounds nor the range of the samples it has seen. */
  lemma {:induction false} StaysInRange(samples: seq<nat>, lo: nat, hi: nat)
    requires AllWithin(samples, lo, hi)
    ensures var e := AfterSamples(INITIAL, samples);
            && MINIMUM_RETRANSMIT_MILLISECONDS <= e.timeout <= MAXIMUM_RETRANSMIT_MILLISECONDS
            && e.variation <= hi
            && (samples != [] ==> e.smoothed.Some? && lo <= e.smoothed.value <= hi)
  {
    if samples != [] {
      var n := |samples| - 1;
      StaysInRange(samples[..n], lo, hi);
    }
  }

  // ---- A steady network -----------------------------------------------------

  /** The estimate after `count` samples that all equal `sample`. */
  function Steady(e: Estimate, sample: nat, count: nat): Estimate
    decreases count
  {
    if count == 0 then e else Steady(Sampled(e, sample), sample, count - 1)
  }

  lemma {:induction false} SteadyAdds(e: Estimate, sample: nat, first: nat, second: nat)
    ensures Steady(e, sample, first + second) == Steady(Steady(e, sample, first), sample, second)
    decreases first
  {
    if first != 0 { SteadyAdds(Sampled(e, sample), sample, first - 1, second); }
  }

  predicate SmoothedSettled(e: Estimate, sample: nat) {
    e.smoothed.Some? && sample - 7 <= e.smoothed.value <= sample
  }

  predicate Settled(e: Estimate, sample: nat) {
    SmoothedSettled(e, sample)
    && sample - e.smoothed.value - 3 <= e.variation <= sample - e.smoothed.value
  }

  /** Outside the settled band each sample moves the smoothed value strictly closer. */
  lemma {:induction false} SmoothedSettles(e: Estimate, sample: nat) returns (count: nat)
    requires e.smoothed.Some?
    ensures SmoothedSettled(Steady(e, sample, count), sample)
    decreases Distance(e.smoothed.value, sample)
  {
    if SmoothedSettled(e, sample) {
      count := 0;
    } else {
      count := SmoothedSettles(Sampled(e, sample), sample);
      count := count + 1;
    }
  }

  lemma {:induction false} VariationSettles(e: Estimate, sample: nat) returns (count: nat)
    requires SmoothedSettled(e, sample)
    ensures Settled(Steady(e, sample, count), sample)
    decreases Distance(e.variation, sample - e.smoothed.value)
  {
    if Settled(e, sample) {
      count := 0;
    } else {
      count := VariationSettles(Sampled(e, sample), sample);
      count := count + 1;
    }
  }

  lemma {:induction false} SettledIsFixed(e: Estimate, sample: nat, count: nat)
    requires Settled(e, sample)
    ensures var later := Steady(e, sample, count);
            later.smoothed == e.smoothed && later.variation == e.variation
    decreases count
  {
    if count != 0 { SettledIsFixed(Sampled(e, sample), sample, count - 1); }
  }

  /** From any state, a constant round trip drives the unclamped timeout into [x - 7, x + 21] for good. */
  lemma SteadyTimeoutConverges(e: Estimate, sample: nat) returns (count: nat)
    ensures forall later :: later >= count ==>
        var settled := Steady(e, sample, later);
        settled.smoothed.Some? && sample - 7 <= Unclamped(settled) <= sample + 21
  {
    var first := Sampled(e, sample);
    var c1 := SmoothedSettles(first, sample);
    var c2 := VariationSettles(Steady(first, sample, c1), sample);
    count := 1 + c1 + c2;
    SteadyAdds(first, sample, c1, c2);
    forall later | later >= count
      ensures var settled := Steady(e, sample, later);
              settled.smoothed.Some? && sample - 7 <= Unclamped(settled) <= sample + 21
    {
      SteadyAdds(e, sample, count, later - count);
      SettledIsFixed(Steady(e, sample, count), sample, later - count);
    }
  }

  lemma {:induction false} VariationVanishes(e: Estimate, sample: nat) returns (count: nat)
    requires e.smoothed == Some(sample)
    ensures Steady(e, sample, count).smoothed == Some(sample) && Steady(e, sample, count).variation == 0
    decreases e.variation
  {
    if e.variation == 0 {
      count := 0;
    } else {
      count := VariationVanishes(Sampled(e, sample), sample);
      count := count + 1;
    }
  }

  /** A new estimator fed one constant value converges to exactly that value. */
  lemma FirstSampleConverges(sample: nat) returns (count: nat)
    ensures forall later :: later >= count ==>
        var settled := Steady(INITIAL, sample, later);
        settled.smoothed.Some? && Unclamped(settled) == sample
  {
    var first := Sampled(INITIAL, sample);
    count := VariationVanishes(first, sample);
    count := count + 1;
    forall later | later >= count
      ensures var settled := Steady(INITIAL, sample, later);
              settled.smoothed.Some? && Unclamped(settled) == sample
    {
      SteadyAdds(INITIAL, sample, count, later - count);
      SettledIsFixed(Steady(INITIAL, sample, count), sample, later - count);
    }
  }

  // ---- One sample, and RFC 6298 --------------------------------------------

  /** The first sample x: the variation is half of it, the unclamped timeout three times it, up to rounding. */
  lemma FirstSampleIs(e: Estimate, sample: nat)
    requires e.smoothed.None?
    ensures var next := Sampled(e, sample);
            && next.smoothed == Some(sample)
            && 2 * next.variation <= sample <= 2 * next.variation + 1
            && 3 * sample - 2 <= Unclamped(next) <= 3 * sample
  {
  }

  /** A later sample x: a quarter of its distance into the variation, an eighth of it into the smoothed value. */
  lemma LaterSampleIs(e: Estimate, sample: nat)
    requires e.smoothed.Some?
    ensures var next := Sampled(e, sample);
            var (s, v) := (e.smoothed.value, e.variation);
            var distance := if s < sample then sample - s else s - sample;
            && next.smoothed.Some?
            && 4 * next.variation <= 3 * v + distance < 4 * next.variation + 4
            && 8 * next.smoothed.value <= 7 * s + sample < 8 * next.smoothed.value + 8
  {
  }

  /** The timeout is the unclamped one wherever that lies between the bounds, and the nearer bound elsewhere. */
  lemma TimeoutIsClamped(e: Estimate, sample: nat)
    ensures var next := Sampled(e, sample);
            && (250 <= Unclamped(next) <= 10_000 ==> next.timeout == Unclamped(next))
            && (Unclamped(next) < 250 ==> next.timeout == 250)
            && (Unclamped(next) > 10_000 ==> next.timeout == 10_000)
  {
  }

  /** SRTT and RTTVAR of section 2 of RFC 6298, in exact arithmetic. */
  function Exact(samples: seq<nat>): (real, real)
    requires samples != []
  {
    var sample := samples[|samples| - 1] as real;
    if |samples| == 1 then (sample, sample / 2.0)
    else
      var (srtt, rttvar) := Exact(samples[..|samples| - 1]);
      ((7.0 / 8.0) * srtt + (1.0 / 8.0) * sample, (3.0 / 4.0) * rttvar + (1.0 / 4.0) * Gap(srtt, sample))
  }

  function Gap(a: real, b: real): real {
    if a < b then b - a else a - b
  }

  /**
   Over every run of samples the integers stay this close to the exact values: the smoothed value
   less than 8 below SRTT, the variation within 12 of RTTVAR.
   */
  lemma {:induction false} FollowsRfc6298(samples: seq<nat>)
    requires samples != []
    ensures var e := AfterSamples(INITIAL, samples);
            var (srtt, rttvar) := Exact(samples);
            && e.smoothed.Some? && 0.0 <= srtt - e.smoothed.value as real < 8.0
            && -12.0 < rttvar - e.variation as real < 12.0
  {
    var n := |samples| - 1;
    var sample := samples[n];
    if n == 0 {
      assert samples[..0] == [];
      FirstSampleIs(INITIAL, sample);
    } else {
      FollowsRfc6298(samples[..n]);
      var e := AfterSamples(INITIAL, samples[..n]);
      var (srtt, rttvar) := Exact(samples[..n]);
      LaterSampleIs(e, sample);
      var next := Sampled(e, sample);
      StaysClose(e.smoothed.value, e.variation, sample, next.smoothed.value, next.variation, srtt, rttvar);
    }
  }

  lemma StaysClose(s: nat, v: nat, x: nat, s1: nat, v1: nat, srtt: real, rttvar: real)
    requires 0.0 <= srtt - s as real < 8.0 && -12.0 < rttvar - v as real < 12.0
    requires 4 * v1 <= 3 * v + Distance(s, x) < 4 * v1 + 4 && 8 * s1 <= 7 * s + x < 8 * s1 + 8
    ensures 0.0 <= ((7.0 / 8.0) * srtt + (1.0 / 8.0) * x as real) - s1 as real < 8.0
    ensures -12.0 < ((3.0 / 4.0) * rttvar + (1.0 / 4.0) * Gap(srtt, x as real)) - v1 as real < 12.0
  {
    assert -8.0 < Gap(srtt, x as real) - Distance(s, x) as real < 8.0;
    assert 4.0 * v1 as real <= 3.0 * v as real + Distance(s, x) as real < 4.0 * v1 as real + 4.0;
    assert 8.0 * s1 as real <= 7.0 * s as real + x as real < 8.0 * s1 as real + 8.0;
  }

  // ---- As computed ----------------------------------------------------------

  /** The estimator's fields, updated in place with saturating 64-bit arithmetic. */
  class RoundTripEstimator {
    var smoothed: Option<nat>
    var variation: nat
    var timeout: nat

    ghost function Value(): Estimate
      reads this
    {
      Estimate(smoothed, variation, timeout)
    }

    constructor ()
      ensures Value() == INITIAL
    {
      smoothed, variation, timeout := None, 0, INITIAL_RETRANSMIT_MILLISECONDS;
    }

    /** The sixteen-bit samples of this protocol never make the saturating operations saturate. */
    method Update(sample: u16)
      requires variation <= U16_MAX && (smoothed.Some? ==> smoothed.value <= U16_MAX)
      modifies this
      ensures Value() == Sampled(old(Value()), sample)
      ensures variation <= U16_MAX && smoothed.Some? && smoothed.value <= U16_MAX
    {
      if smoothed.Some? {
        var difference := Distance(smoothed.value, sample);
        variation := SaturatingAdd(SaturatingMul(variation, 3), difference) / 4;
        smoothed := Some(SaturatingAdd(SaturatingMul(smoothed.value, 7), sample) / 8);
      } else {
        smoothed := Some(sample);
        variation := sample / 2;
      }
      timeout := Max(MINIMUM_RETRANSMIT_MILLISECONDS,
                     Min(SaturatingAdd(smoothed.value, SaturatingMul(variation, 4)), MAXIMUM_RETRANSMIT_MILLISECONDS));
    }
  }
}
