/**
 * The stochastic neuron update rule: it ignores its inputs and sets the
 * buffer to one of the neuron's two bounds, depending on a uniform draw in
 * [0, 1) compared with the firing probability.
 */
module StochasticNeurons {
  import opened NetworkCore

  /** Default firing probability of a fresh rule. */
  const DefaultFiringProbability: real := 0.5

  /** The value written for a given draw: a draw above the firing probability
      gives the lower bound, any other draw the upper bound. */
  function StochasticValue(draw: real, firingProbability: real, lo: real, hi: real): (r: real)
    ensures r == lo || r == hi
    ensures draw > firingProbability ==> r == lo
    ensures draw <= firingProbability ==> r == hi
    ensures lo != hi ==> (r == hi <==> draw <= firingProbability)
  {
    if draw > firingProbability then lo else hi
  }

  /** A probability of 1 or more makes every draw in [0, 1) fire. */
  lemma AlwaysFiresAtProbabilityOne(draw: real, p: real, lo: real, hi: real)
    requires 0.0 <= draw < 1.0 && p >= 1.0
    ensures StochasticValue(draw, p, lo, hi) == hi
  {
  }

  /** A negative probability makes no draw in [0, 1) fire. */
  lemma NeverFiresBelowZero(draw: real, p: real, lo: real, hi: real)
    requires 0.0 <= draw < 1.0 && p < 0.0
    ensures StochasticValue(draw, p, lo, hi) == lo
  {
  }

  /** At probability 0 only a draw of exactly 0 fires: every other draw in
      [0, 1) exceeds the probability and gives the lower bound. */
  lemma ZeroProbabilityFiresOnlyOnZeroDraw(draw: real, lo: real, hi: real)
    requires 0.0 <= draw < 1.0 && lo != hi
    ensures StochasticValue(draw, 0.0, lo, hi) == hi <==> draw == 0.0
  {
  }

  /** Raising the firing probability never turns a firing draw into a
      non-firing one: higher probability, upper bound at least as often. */
  lemma FiringMonotone(draw: real, p: real, q: real, lo: real, hi: real)
    requires p <= q
    requires StochasticValue(draw, p, lo, hi) == hi
    ensures StochasticValue(draw, q, lo, hi) == hi
  {
  }

  class StochasticNeuron {
    var firingProbability: real

    /** A fresh rule fires with the default probability. */
    constructor ()
      ensures firingProbability == DefaultFiringProbability
    {
      firingProbability := DefaultFiringProbability;
    }

    /** Initialisation does nothing to the neuron. */
    method Init(neuron: Neuron)
      ensures neuron.activation == old(neuron.activation) && neuron.buffer == old(neuron.buffer)
    {
    }

    /** Write the bound selected by `draw` (the value of Math.random) into
        the buffer; the fan-in is never read and nothing else changes. */
    method Update(neuron: Neuron, draw: real)
      modifies neuron`buffer
      ensures neuron.buffer == StochasticValue(draw, firingProbability, neuron.lowerBound, neuron.upperBound)
      ensures neuron.buffer == neuron.lowerBound || neuron.buffer == neuron.upperBound
      ensures neuron.activation == old(neuron.activation)
    {
      if draw > firingProbability {
        neuron.buffer := neuron.lowerBound;
      } else {
        neuron.buffer := neuron.upperBound;
      }
    }
  }
}
