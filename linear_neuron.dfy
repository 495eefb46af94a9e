/**
 * The linear neuron update rule: the buffer becomes slope times (weighted
 * input plus bias), optionally plus noise, optionally clipped to the
 * neuron's bounds.
 */
module LinearNeurons {
  import opened NetworkCore

  /** The plain affine response of the rule. */
  function Affine(slope: real, bias: real, wtdInput: real): (r: real)
  {
    slope * (wtdInput + bias)
  }

  /** The value the linear rule writes into the buffer. `noise` is the value
      the rule's noise source would produce; it is used only when `addNoise`. */
  function LinearValue(slope: real, bias: real, addNoise: bool, clipping: bool,
                       wtdInput: real, noise: real, lo: real, hi: real): (r: real)
    // clipping keeps the buffer inside the neuron's bounds
    ensures clipping && lo <= hi ==> lo <= r <= hi
    // without clipping or noise the value is the plain affine response
    ensures !clipping && !addNoise ==> r == Affine(slope, bias, wtdInput)
    // noise only enters the result when it is switched on
    ensures !clipping && addNoise ==> r == Affine(slope, bias, wtdInput) + noise
    // clipping is saturation: an in-range response is kept as it is
    ensures clipping && !addNoise && lo <= Affine(slope, bias, wtdInput) <= hi ==> r == Affine(slope, bias, wtdInput)
  {
    var val := Affine(slope, bias, wtdInput);
    var noisy := if addNoise then val + noise else val;
    if clipping then Clip(noisy, lo, hi) else noisy
  }

  /** Clipping is applied last: the clipped value is the unclipped value
      (the affine response plus any noise) saturated to the bounds. */
  lemma LinearClipsUnclipped(slope: real, bias: real, addNoise: bool, wtdInput: real,
                             noise: real, lo: real, hi: real)
    ensures LinearValue(slope, bias, addNoise, true, wtdInput, noise, lo, hi)
         == Clip(LinearValue(slope, bias, addNoise, false, wtdInput, noise, lo, hi), lo, hi)
  {
  }

  /** With noise switched off, the noise value is irrelevant. */
  lemma NoiseIgnoredWhenOff(slope: real, bias: real, clipping: bool, wtdInput: real,
                            n1: real, n2: real, lo: real, hi: real)
    ensures LinearValue(slope, bias, false, clipping, wtdInput, n1, lo, hi)
         == LinearValue(slope, bias, false, clipping, wtdInput, n2, lo, hi)
  {
  }

  /** With the default parameters (slope 1, bias 0, no noise, clipping on)
      the buffer is the clipped weighted input. */
  lemma DefaultsClipWeightedInput(wtdInput: real, noise: real, lo: real, hi: real)
    ensures LinearValue(1.0, 0.0, false, true, wtdInput, noise, lo, hi) == Clip(wtdInput, lo, hi)
  {
  }

  /** Slope 2, bias 1, weighted input 3, no noise, no clipping gives 8. */
  lemma WorkedExample(noise: real, lo: real, hi: real)
    ensures LinearValue(2.0, 1.0, false, false, 3.0, noise, lo, hi) == 8.0
  {
  }

  /** The rule object: its parameters are plain fields. */
  class LinearNeuron {
    var slope: real
    var bias: real
    var addNoise: bool
    var clipping: bool

    /** A fresh rule carries the defaults slope 1, bias 0, no noise, clipping. */
    constructor ()
      ensures slope == 1.0 && bias == 0.0 && !addNoise && clipping
    {
      slope := 1.0;
      bias := 0.0;
      addNoise := false;
      clipping := true;
    }

    /** Initialisation does nothing to the neuron. */
    method Init(neuron: Neuron)
      ensures neuron.activation == old(neuron.activation) && neuron.buffer == old(neuron.buffer)
    {
    }

    /** Compute the new value from the neuron's weighted input and write it
        into the buffer; nothing else changes. */
    method Update(neuron: Neuron, noise: real)
      modifies neuron`buffer
      ensures neuron.buffer
           == LinearValue(slope, bias, addNoise, clipping, WeightedSum(neuron.fanIn),
                          noise, neuron.lowerBound, neuron.upperBound)
      ensures clipping && neuron.lowerBound <= neuron.upperBound ==>
                neuron.lowerBound <= neuron.buffer <= neuron.upperBound
      ensures neuron.activation == old(neuron.activation)
    {
      var wtdInput := WeightedSum(neuron.fanIn);
      var val := slope * (wtdInput + bias);
      assert val == Affine(slope, bias, wtdInput);
      if addNoise {
        val := val + noise;
      }
      if clipping {
        val := Clip(val, neuron.lowerBound, neuron.upperBound);
      }
      assert val == LinearValue(slope, bias, addNoise, clipping, wtdInput, noise, neuron.lowerBound, neuron.upperBound);
      neuron.buffer := val;
    }
  }
}
