/**
 * Minimal stand-ins for the engine's Neuron and Synapse core classes, whose
 * own source is not part of this model: a neuron holds its live activation,
 * the buffer that update rules write, its clipping bounds and its fan-in; a
 * synapse holds its strength, its bounds and its two endpoints.
 */
module NetworkCore {

  /** One incoming synapse as an update rule sees it: its strength and the
      current activation of its source neuron. */
  datatype Input = Input(strength: real, source: real)

  /** Saturation of `x` to `[lo, hi]` (the `clip` of Neuron and Synapse):
      first the ceiling, then the floor, so a floor above the ceiling wins. */
  function Clip(x: real, lo: real, hi: real): (r: real)
    ensures lo <= hi ==> lo <= r <= hi
    ensures lo <= x <= hi ==> r == x
    ensures x > hi && lo <= hi ==> r == hi
    ensures x < lo ==> r == lo
  {
    var capped := if x > hi then hi else x;
    if capped < lo then lo else capped
  }

  /** The weighted input of a neuron: the sum of strength times source
      activation over its fan-in (Neuron.getWeightedInputs). */
  function WeightedSum(fanIn: seq<Input>): (r: real)
  {
    if fanIn == [] then 0.0
    else WeightedSum(fanIn[..|fanIn| - 1]) + Contribution(fanIn[|fanIn| - 1])
  }

  /** What one incoming synapse adds to the weighted input. */
  function Contribution(w: Input): (r: real)
  {
    w.strength * w.source
  }

  /** A neuron: live activation, the buffered next activation, the bounds used
      by clipping and the incoming synapses. */
  class Neuron {
    var activation: real
    var buffer: real
    var lowerBound: real
    var upperBound: real
    var fanIn: seq<Input>

    constructor (activation: real, lowerBound: real, upperBound: real, fanIn: seq<Input>)
      ensures this.activation == activation && this.buffer == 0.0
      ensures this.lowerBound == lowerBound && this.upperBound == upperBound
      ensures this.fanIn == fanIn
    {
      this.activation := activation;
      this.buffer := 0.0;
      this.lowerBound := lowerBound;
      this.upperBound := upperBound;
      this.fanIn := fanIn;
    }
  }

  /** A synapse: strength, bounds and its (non-owned) endpoints. */
  class Synapse {
    var strength: real
    var lowerBound: real
    var upperBound: real
    var source: Neuron
    var target: Neuron

    constructor (source: Neuron, target: Neuron, strength: real, lowerBound: real, upperBound: real)
      ensures this.source == source && this.target == target
      ensures this.strength == strength
      ensures this.lowerBound == lowerBound && this.upperBound == upperBound
    {
      this.source := source;
      this.target := target;
      this.strength := strength;
      this.lowerBound := lowerBound;
      this.upperBound := upperBound;
    }
  }
}
