/**
 * The interactive-activation-and-competition (IAC) neuron. It sums only the
 * excitatory part of its input (synapses whose source is active), moves its
 * activation toward the ceiling when that sum is positive and toward the
 * floor otherwise, decays toward a rest value, and optionally adds noise
 * and clips. In the source the IAC neuron is a subclass of Neuron; here the
 * inherited neuron state is the object `base`.
 */
module IACNeurons {
  import opened NetworkCore

  /** Sum of strength times source activation over the incoming synapses
      whose source activation is strictly positive, in fan-in order. */
  function PositiveWeightedSum(fanIn: seq<Input>): (r: real)
  {
    if fanIn == [] then 0.0
    else
      var w := fanIn[|fanIn| - 1];
      PositiveWeightedSum(fanIn[..|fanIn| - 1]) + (if w.source > 0.0 then Contribution(w) else 0.0)
  }

  /** The incoming synapses whose source activation is strictly positive. */
  function ActiveInputs(fanIn: seq<Input>): (r: seq<Input>)
    ensures forall k :: 0 <= k < |r| ==> r[k].source > 0.0
    ensures |r| <= |fanIn|
  {
    if fanIn == [] then []
    else
      var w := fanIn[|fanIn| - 1];
      ActiveInputs(fanIn[..|fanIn| - 1]) + (if w.source > 0.0 then [w] else [])
  }

  /** Exactly the inputs with an active source are kept. */
  lemma {:induction false} ActiveInputsMembership(fanIn: seq<Input>, x: Input)
    ensures x in ActiveInputs(fanIn) <==> x in fanIn && x.source > 0.0
  {
    if fanIn != [] {
      var init := fanIn[..|fanIn| - 1];
      ActiveInputsMembership(init, x);
      assert fanIn == init + [fanIn[|fanIn| - 1]];
    }
  }

  /** Appending one input adds its own product to the weighted sum. */
  lemma {:induction false} WeightedSumSnoc(s: seq<Input>, x: Input)
    ensures WeightedSum(s + [x]) == WeightedSum(s) + Contribution(x)
  {
    assert (s + [x])[..|s + [x]| - 1] == s;
  }

  /** The IAC sum is the ordinary weighted sum restricted to active sources:
      inactive or inhibited sources contribute nothing. */
  lemma {:induction false} PositiveSumIsWeightedSumOfActive(fanIn: seq<Input>)
    ensures PositiveWeightedSum(fanIn) == WeightedSum(ActiveInputs(fanIn))
  {
    if fanIn != [] {
      var init := fanIn[..|fanIn| - 1];
      var w := fanIn[|fanIn| - 1];
      PositiveSumIsWeightedSumOfActive(init);
      if w.source > 0.0 {
        assert ActiveInputs(fanIn) == ActiveInputs(init) + [w];
        WeightedSumSnoc(ActiveInputs(init), w);
      } else {
        assert ActiveInputs(fanIn) == ActiveInputs(init) + [];
        assert ActiveInputs(init) + [] == ActiveInputs(init);
      }
    }
  }

  /** With only excitatory (non-negative) strengths the IAC sum is never negative. */
  lemma {:induction false} PositiveSumNonNegative(fanIn: seq<Input>)
    requires forall k :: 0 <= k < |fanIn| ==> fanIn[k].strength >= 0.0
    ensures PositiveWeightedSum(fanIn) >= 0.0
  {
    if fanIn != [] {
      var w := fanIn[|fanIn| - 1];
      PositiveSumNonNegative(fanIn[..|fanIn| - 1]);
      if w.source > 0.0 {
        assert Contribution(w) >= 0.0;
      }
    }
  }

  /** The activation change before noise and clipping. A positive sum scales
      the distance to the ceiling, any other sum the distance to the floor;
      decay pulls toward rest in both cases. */
  function IACDelta(a: real, wtdSum: real, decay: real, rest: real, lo: real, hi: real): (r: real)
  {
    if wtdSum > 0.0 then wtdSum * (hi - a) - decay * (a - rest)
    else wtdSum * (a - lo) - decay * (a - rest)
  }

  /** The value the IAC rule writes into the buffer. */
  function IACValue(a: real, wtdSum: real, decay: real, rest: real, addNoise: bool, clipping: bool,
                    noise: real, lo: real, hi: real): (r: real)
    ensures clipping && lo <= hi ==> lo <= r <= hi
    ensures !clipping && !addNoise ==> r == a + IACDelta(a, wtdSum, decay, rest, lo, hi)
    ensures !clipping && addNoise ==> r == a + IACDelta(a, wtdSum, decay, rest, lo, hi) + noise
  {
    var val := a + IACDelta(a, wtdSum, decay, rest, lo, hi);
    var noisy := if addNoise then val + noise else val;
    if clipping then Clip(noisy, lo, hi) else noisy
  }

  /** Clipping is applied last: the clipped value is the unclipped value
      (the delta plus any noise) saturated to the bounds. */
  lemma IACClipsUnclipped(a: real, wtdSum: real, decay: real, rest: real, addNoise: bool,
                          noise: real, lo: real, hi: real)
    ensures IACValue(a, wtdSum, decay, rest, addNoise, true, noise, lo, hi)
         == Clip(IACValue(a, wtdSum, decay, rest, addNoise, false, noise, lo, hi), lo, hi)
  {
  }

  /** With noise switched off the noise sample has no effect, whether or
      not the value is clipped. */
  lemma IACNoiseIgnoredWhenOff(a: real, wtdSum: real, decay: real, rest: real, clipping: bool,
                               n1: real, n2: real, lo: real, hi: real)
    ensures IACValue(a, wtdSum, decay, rest, false, clipping, n1, lo, hi)
         == IACValue(a, wtdSum, decay, rest, false, clipping, n2, lo, hi)
  {
  }

  /** Without decay, an excitatory sum of at most 1 moves an in-range
      activation up toward the ceiling without overshooting it. */
  lemma ExcitationApproachesCeiling(a: real, wtdSum: real, rest: real, lo: real, hi: real)
    requires lo <= a <= hi && 0.0 < wtdSum <= 1.0
    ensures a <= a + IACDelta(a, wtdSum, 0.0, rest, lo, hi) <= hi
  {
    NonNegProduct(wtdSum, hi - a);
    NonNegProduct(1.0 - wtdSum, hi - a);
  }

  /** Without decay, an inhibitory sum of at least -1 moves an in-range
      activation down toward the floor without undershooting it. */
  lemma InhibitionApproachesFloor(a: real, wtdSum: real, rest: real, lo: real, hi: real)
    requires lo <= a <= hi && -1.0 <= wtdSum <= 0.0
    ensures lo <= a + IACDelta(a, wtdSum, 0.0, rest, lo, hi) <= a
  {
    NonNegProduct(-wtdSum, a - lo);
    NonNegProduct(1.0 + wtdSum, a - lo);
  }

  /** The product of two non-negative reals is non-negative. */
  lemma NonNegProduct(x: real, y: real)
    requires x >= 0.0 && y >= 0.0
    ensures x * y >= 0.0
  {
  }

  /** A fan-in with no active source contributes nothing to the IAC sum. */
  lemma {:induction false} InactiveFanInSumsToZero(fanIn: seq<Input>)
    requires forall k :: 0 <= k < |fanIn| ==> fanIn[k].source <= 0.0
    ensures PositiveWeightedSum(fanIn) == 0.0
  {
    if fanIn != [] {
      InactiveFanInSumsToZero(fanIn[..|fanIn| - 1]);
    }
  }

  /** With the defaults (no decay, no noise, clipping) and a fan-in with no
      active source, the value is the clipped current activation. */
  lemma QuiescentKeepsActivation(fanIn: seq<Input>, a: real, rest: real, noise: real, lo: real, hi: real)
    requires forall k :: 0 <= k < |fanIn| ==> fanIn[k].source <= 0.0
    ensures IACValue(a, PositiveWeightedSum(fanIn), 0.0, rest, false, true, noise, lo, hi) == Clip(a, lo, hi)
  {
    InactiveFanInSumsToZero(fanIn);
  }

  class IACNeuron {
    /** The inherited neuron state. */
    const base: Neuron
    var decay: real
    var rest: real
    var addNoise: bool
    var clipping: bool

    /** A fresh IAC neuron over the given neuron state, with the defaults
        decay 0, rest 0, no noise and clipping. */
    constructor (activation: real, lowerBound: real, upperBound: real, fanIn: seq<Input>)
      ensures fresh(base)
      ensures base.activation == activation && base.lowerBound == lowerBound
      ensures base.upperBound == upperBound && base.fanIn == fanIn
      ensures decay == 0.0 && rest == 0.0 && !addNoise && clipping
    {
      base := new Neuron(activation, lowerBound, upperBound, fanIn);
      decay := 0.0;
      rest := 0.0;
      addNoise := false;
      clipping := true;
    }

    /** A copy with its own neuron state and the same IAC parameters. */
    method Duplicate() returns (iac: IACNeuron)
      ensures fresh(iac) && fresh(iac.base)
      ensures iac.decay == decay && iac.rest == rest
      ensures iac.clipping == clipping && iac.addNoise == addNoise
      ensures iac.base.activation == base.activation
      ensures iac.base.lowerBound == base.lowerBound && iac.base.upperBound == base.upperBound
    {
      iac := new IACNeuron(base.activation, base.lowerBound, base.upperBound, []);
      iac.decay := decay;
      iac.rest := rest;
      iac.clipping := clipping;
      iac.addNoise := addNoise;
    }

    /** Accumulate the excitatory sum over the fan-in, compute the new value
        and write it into the buffer; the live activation is not touched. */
    method Update(noise: real)
      modifies base`buffer
      ensures base.buffer
           == IACValue(base.activation, PositiveWeightedSum(base.fanIn), decay, rest, addNoise, clipping,
                       noise, base.lowerBound, base.upperBound)
      ensures clipping && base.lowerBound <= base.upperBound ==>
                base.lowerBound <= base.buffer <= base.upperBound
      ensures decay == 0.0 && !addNoise && clipping &&
              (forall k :: 0 <= k < |base.fanIn| ==> base.fanIn[k].source <= 0.0) ==>
                base.buffer == Clip(base.activation, base.lowerBound, base.upperBound)
      ensures base.activation == old(base.activation)
    {
      var activation := base.activation;
      var val := activation;
      var wtdSum := 0.0;
      var fanIn := base.fanIn;
      var i := 0;
      while i < |fanIn|
        invariant 0 <= i <= |fanIn|
        invariant wtdSum == PositiveWeightedSum(fanIn[..i])
      {
        var w := fanIn[i];
        if w.source > 0.0 {
          wtdSum := wtdSum + Contribution(w);
        }
        assert fanIn[..i + 1][..i] == fanIn[..i];
        i := i + 1;
      }
      assert fanIn[..|fanIn|] == fanIn;

      val := val + IACDelta(activation, wtdSum, decay, rest, base.lowerBound, base.upperBound);
      if addNoise {
        val := val + noise;
      }
      if clipping {
        val := Clip(val, base.lowerBound, base.upperBound);
      }
      base.buffer := val;
      ghost var quiet := forall k :: 0 <= k < |fanIn| ==> fanIn[k].source <= 0.0;
      if quiet && decay == 0.0 && !addNoise && clipping {
        QuiescentKeepsActivation(fanIn, activation, rest, noise, base.lowerBound, base.upperBound);
      }
    }
  }
}
