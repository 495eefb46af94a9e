/**
 * The random synapse rule: each update re-draws the synapse's strength from
 * a randomizer whose bounds are first set to the synapse's own bounds, and
 * clips the draw to those bounds.
 */
module RandomSynapseRules {
  import opened NetworkCore

  /** Stand-in for the randomizer: only the bounds the rule sets are kept;
      the value it produces is an input of the operations that draw. */
  class Randomizer {
    var lowerBound: real
    var upperBound: real

    constructor (lowerBound: real, upperBound: real)
      ensures this.lowerBound == lowerBound && this.upperBound == upperBound
    {
      this.lowerBound := lowerBound;
      this.upperBound := upperBound;
    }
  }

  /** The name the rule is listed under. */
  function Description(): (d: string)
    ensures d == "Random"
  {
    "Random"
  }

  class RandomSynapseRule {
    var randomizer: Randomizer

    /** A fresh rule owns a fresh randomizer; its initial bounds are given
        (the randomizer's defaults are not part of this model). */
    constructor (lowerBound: real, upperBound: real)
      ensures fresh(randomizer)
      ensures randomizer.lowerBound == lowerBound && randomizer.upperBound == upperBound
    {
      randomizer := new Randomizer(lowerBound, upperBound);
    }

    /** Initialisation does nothing to the synapse. */
    method Init(synapse: Synapse)
      ensures synapse.strength == old(synapse.strength)
    {
    }

    /** A copy with its own randomizer carrying the same bounds. */
    method DeepCopy() returns (rs: RandomSynapseRule)
      ensures fresh(rs) && fresh(rs.randomizer)
      ensures rs.randomizer.lowerBound == randomizer.lowerBound
      ensures rs.randomizer.upperBound == randomizer.upperBound
    {
      rs := new RandomSynapseRule(randomizer.lowerBound, randomizer.upperBound);
    }

    /** Align the randomizer's bounds with the synapse's, then set the
        strength to the clipped draw. The bounds and the endpoints of the
        synapse are unchanged. */
    method Update(synapse: Synapse, draw: real)
      modifies randomizer`lowerBound, randomizer`upperBound, synapse`strength
      ensures randomizer.upperBound == synapse.upperBound
      ensures randomizer.lowerBound == synapse.lowerBound
      ensures synapse.strength == Clip(draw, synapse.lowerBound, synapse.upperBound)
      ensures synapse.lowerBound <= synapse.upperBound ==>
                synapse.lowerBound <= synapse.strength <= synapse.upperBound
      ensures synapse.lowerBound == old(synapse.lowerBound) && synapse.upperBound == old(synapse.upperBound)
      ensures synapse.source == old(synapse.source) && synapse.target == old(synapse.target)
    {
      randomizer.upperBound := synapse.upperBound;
      randomizer.lowerBound := synapse.lowerBound;
      synapse.strength := Clip(draw, synapse.lowerBound, synapse.upperBound);
    }
  }

  /** Changing the bounds of a copy's randomizer leaves the original's
      randomizer as it was: the copy does not share it. */
  method CopyIsIndependent(rule: RandomSynapseRule, lo: real, hi: real) returns (copy: RandomSynapseRule)
    ensures fresh(copy) && copy.randomizer != rule.randomizer
    ensures copy.randomizer.lowerBound == lo && copy.randomizer.upperBound == hi
    ensures rule.randomizer.lowerBound == old(rule.randomizer.lowerBound)
    ensures rule.randomizer.upperBound == old(rule.randomizer.upperBound)
  {
    copy := rule.DeepCopy();
    copy.randomizer.lowerBound := lo;
    copy.randomizer.upperBound := hi;
  }
}
