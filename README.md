# Simbrain network update engine, modelled in Dafny

This project models the update engine of the Simbrain neural-network
simulator. It covers three layers, each with proofs about the model.

- **Neuron update rules.** The linear, IAC and stochastic rules each read a
  neuron's activation, bounds and fan-in. Each computes a new value and
  writes it into the neuron's *buffer*. The live activation is never written.
- **Synapse update rule.** The random synapse rule re-draws a synapse's
  strength inside the synapse's bounds.
- **Composite subnetworks.**
  - The *Hopfield* network is one group of binary neurons, connected
    all-to-all without self-loops. It has Hebbian training, symmetric integer
    weight randomisation, and an update that commits each neuron at once, in
    list order or in a drawn order.
  - The *feed-forward* network is a stack of labelled layers. Each
    consecutive pair of layers is connected all-to-all by a clamped base
    synapse bounded by -1 and 1.

Each rule's new value is a pure function: `LinearValue`, `IACValue`,
`StochasticValue`. The rule's `Update` method writes that value into a
`Neuron` object. Its `modifies` clause names only the buffer.

The Hopfield network is a class:
- activations and synapse strengths are `array<real>` fields, updated in
  place by loops;
- each loop is proved against a specification function (`Sweep`, `Trained`);
- the properties of those functions are proved as lemmas.

The feed-forward network is a class whose group and connection lists are
`seq` fields. The builder extends them step by step. It is proved to produce
the topology `Groups`/`Connections`, whose shape is proved separately.

Java doubles are modelled as `real`. Every random value is an explicit
input:
- the stochastic draw, a `real` in [0, 1);
- the noise sample, an arbitrary `real`;
- the randomiser output, an arbitrary `real`;
- the Hopfield random order, a sequence of indices;
- the values of `Synapse.randomize`, a sequence of `real`s.

Files:
- `wrappers.dfy`: `Option`.
- `network_core.dfy`: stand-ins for `Neuron`, `Synapse`, `clip` and the weighted input.
- `linear_neuron.dfy`, `iac_neuron.dfy`, `stochastic_neuron.dfy`: the neuron rules.
- `random_synapse_rule.dfy`: the random synapse rule.
- `hopfield.dfy`: the Hopfield network.
- `feed_forward.dfy`: the feed-forward network.

Two details of the stochastic rule, as the code has them:
- **Probability 0.** At probability 0, only a draw of exactly 0 gives the
  upper bound. Every other draw in [0, 1) gives the lower bound
  (`src/org/simbrain/network/neurons/StochasticNeuron.java:75-79`).
  `ZeroProbabilityFiresOnlyOnZeroDraw` states this.
- **Class comment.** The class comment says the upper bound is taken when
  the draw is above the probability. The code does the opposite, and the
  model follows the code.

## Model

| member | source | states |
|---|---|---|
| NetworkCore.Clip | src/org/simbrain/network/neurons/LinearNeuron.java:94-96 | Saturation: the result lies in [lo, hi] when lo <= hi. An in-range value is kept. A value above the ceiling gives the ceiling, and a value below the floor gives the floor. |
| LinearNeurons.LinearValue | src/org/simbrain/network/neurons/LinearNeuron.java:86-98 | With clipping, the value lies in the bounds. Without clipping or noise, it is slope*(input+bias) exactly, with no bound enforced. Without clipping but with noise, it is that plus the noise. With clipping and no noise, an in-range affine response is kept unchanged. |
| LinearNeurons.LinearClipsUnclipped | src/org/simbrain/network/neurons/LinearNeuron.java:86-98 | With clipping on, the value is the unclipped value (slope*(input+bias), plus the noise when noise is on) saturated to the bounds. |
| LinearNeurons.NoiseIgnoredWhenOff | src/org/simbrain/network/neurons/LinearNeuron.java:90-92 | With noise switched off, the noise sample has no effect on the value. |
| LinearNeurons.DefaultsClipWeightedInput | src/org/simbrain/network/neurons/LinearNeuron.java:33-45 | With the defaults (slope 1, bias 0, no noise, clipping), the value is the clipped weighted input. |
| LinearNeurons.WorkedExample | src/org/simbrain/network/neurons/LinearNeuron.java:87-88 | Slope 2, bias 1 and input 3, with no noise and no clipping, give 8. |
| LinearNeurons.LinearNeuron.constructor | src/org/simbrain/network/neurons/LinearNeuron.java:32-45 | A fresh rule has slope 1, bias 0, noise off and clipping on. |
| LinearNeurons.LinearNeuron.Init | src/org/simbrain/network/neurons/LinearNeuron.java:64-66 | Init leaves the neuron's activation and buffer unchanged. |
| LinearNeurons.LinearNeuron.Update | src/org/simbrain/network/neurons/LinearNeuron.java:86-98 | The buffer becomes LinearValue of the weighted fan-in sum. With clipping, it lies within the neuron's bounds. Only the buffer is written, and the activation is unchanged. |
| StochasticNeurons.StochasticValue | src/org/simbrain/network/neurons/StochasticNeuron.java:72-80 | The result is always one of the two bounds. A draw above the probability gives the lower bound, and any other draw gives the upper bound. When the bounds differ, the upper bound is given if and only if draw <= probability. |
| StochasticNeurons.AlwaysFiresAtProbabilityOne | src/org/simbrain/network/neurons/StochasticNeuron.java:73-79 | For draws in [0, 1), a probability >= 1 always gives the upper bound. |
| StochasticNeurons.NeverFiresBelowZero | src/org/simbrain/network/neurons/StochasticNeuron.java:73-79 | For draws in [0, 1), a negative probability always gives the lower bound. |
| StochasticNeurons.ZeroProbabilityFiresOnlyOnZeroDraw | src/org/simbrain/network/neurons/StochasticNeuron.java:75-79 | At probability 0, with distinct bounds, the upper bound is given if and only if the draw is exactly 0. |
| StochasticNeurons.FiringMonotone | src/org/simbrain/network/neurons/StochasticNeuron.java:75-79 | A draw that fires at probability p also fires at every q >= p. |
| StochasticNeurons.StochasticNeuron.constructor | src/org/simbrain/network/neurons/StochasticNeuron.java:31-35 | A fresh rule has firing probability 0.5. |
| StochasticNeurons.StochasticNeuron.Init | src/org/simbrain/network/neurons/StochasticNeuron.java:54-56 | Init leaves the neuron's activation and buffer unchanged. |
| StochasticNeurons.StochasticNeuron.Update | src/org/simbrain/network/neurons/StochasticNeuron.java:72-80 | The buffer becomes StochasticValue of the draw, the probability and the neuron's bounds, so it is one of the two bounds. The fan-in is not an argument of the value, so inputs are ignored. The activation is unchanged. |
| IACNeurons.ActiveInputsMembership | branches/attributeRefactor_2010/src/org/simbrain/network/neurons/IACNeuron.java:87-93 | An input is among the active inputs if and only if it is in the fan-in and its source activation is strictly positive. |
| IACNeurons.PositiveSumIsWeightedSumOfActive | branches/attributeRefactor_2010/src/org/simbrain/network/neurons/IACNeuron.java:87-93 | The IAC sum equals the ordinary weighted sum over the active inputs only. |
| IACNeurons.PositiveSumNonNegative | branches/attributeRefactor_2010/src/org/simbrain/network/neurons/IACNeuron.java:87-93 | With non-negative strengths, the IAC sum is never negative. |
| IACNeurons.IACValue | branches/attributeRefactor_2010/src/org/simbrain/network/neurons/IACNeuron.java:95-107 | With clipping, the value lies in the bounds. Without clipping or noise, it is a + IACDelta. Without clipping but with noise, it is a + IACDelta + noise. IACDelta uses the ceiling branch only when sum > 0, so a sum of 0 takes the floor branch. |
| IACNeurons.IACClipsUnclipped | branches/attributeRefactor_2010/src/org/simbrain/network/neurons/IACNeuron.java:95-107 | With clipping on, the value is the unclipped value (a + IACDelta, plus the noise when noise is on) saturated to the bounds. |
| IACNeurons.IACNoiseIgnoredWhenOff | branches/attributeRefactor_2010/src/org/simbrain/network/neurons/IACNeuron.java:101-103 | With noise switched off, the noise sample has no effect on the value, with or without clipping. |
| IACNeurons.ExcitationApproachesCeiling | branches/attributeRefactor_2010/src/org/simbrain/network/neurons/IACNeuron.java:95-96 | Without decay, a sum in (0, 1] moves an in-range activation up toward the ceiling without passing it. |
| IACNeurons.InhibitionApproachesFloor | branches/attributeRefactor_2010/src/org/simbrain/network/neurons/IACNeuron.java:97-99 | Without decay, a sum in [-1, 0] moves an in-range activation down toward the floor without passing it. |
| IACNeurons.QuiescentKeepsActivation | branches/attributeRefactor_2010/src/org/simbrain/network/neurons/IACNeuron.java:95-109 | With the defaults (decay 0, no noise, clipping) and a fan-in where no source is active, the value written is the clipped current activation. |
| IACNeurons.InactiveFanInSumsToZero | branches/attributeRefactor_2010/src/org/simbrain/network/neurons/IACNeuron.java:87-93 | A fan-in with no strictly positive source activation gives an IAC sum of 0. |
| IACNeurons.IACNeuron.constructor | branches/attributeRefactor_2010/src/org/simbrain/network/neurons/IACNeuron.java:30-39 | A fresh neuron has decay 0, rest 0, noise off and clipping on. |
| IACNeurons.IACNeuron.Duplicate | branches/attributeRefactor_2010/src/org/simbrain/network/neurons/IACNeuron.java:67-78 | The copy is a fresh object with its own neuron state. Decay, rest, clipping, addNoise, activation and bounds are all preserved. |
| IACNeurons.IACNeuron.Update | branches/attributeRefactor_2010/src/org/simbrain/network/neurons/IACNeuron.java:83-110 | The loop accumulates PositiveWeightedSum of the fan-in. The buffer becomes IACValue of it, and with clipping it lies within the bounds. With the defaults and no active source, the buffer is the clipped activation. Only the buffer is written, and the activation is unchanged. |
| RandomSynapseRules.Description | trunk/src/org/simbrain/network/synapse_update_rules/RandomSynapseRule.java:37-40 | The description is "Random". |
| RandomSynapseRules.RandomSynapseRule.constructor | trunk/src/org/simbrain/network/synapse_update_rules/RandomSynapseRule.java:30-31 | A rule owns a fresh randomiser. |
| RandomSynapseRules.RandomSynapseRule.Init | trunk/src/org/simbrain/network/synapse_update_rules/RandomSynapseRule.java:33-35 | Init leaves the synapse's strength unchanged. |
| RandomSynapseRules.RandomSynapseRule.DeepCopy | trunk/src/org/simbrain/network/synapse_update_rules/RandomSynapseRule.java:42-47 | The copy is fresh, and so is its randomiser, which carries the same bounds. |
| RandomSynapseRules.CopyIsIndependent | trunk/src/org/simbrain/network/synapse_update_rules/RandomSynapseRule.java:43-47 | Changing the bounds of a copy's randomiser leaves the original's randomiser bounds unchanged, because the two randomisers are distinct objects. |
| RandomSynapseRules.RandomSynapseRule.Update | trunk/src/org/simbrain/network/synapse_update_rules/RandomSynapseRule.java:49-54 | The randomiser's bounds become the synapse's bounds. The strength becomes the clipped draw, so it lies in [lower, upper]. The synapse's bounds, source and target are unchanged. |
| HopfieldNet.AllPairs | src/org/simbrain/network/subnetworks/Hopfield.java:99-108 | The synapse list of an n-neuron network has exactly n*(n-1) entries. A pair is listed if and only if both ends are below n and differ, so there are no self-loops. Every entry has a randomisation slot below Tri(n), which is n*(n-1)/2 by `TriClosedForm`. |
| HopfieldNet.TriClosedForm | src/org/simbrain/network/subnetworks/Hopfield.java:116-117 | The number of (i, j) pairs with j < i < m that the randomisation loops visit, Tri(m), satisfies 2*Tri(m) == m*(m-1). |
| HopfieldNet.AllPairsDistinct | src/org/simbrain/network/subnetworks/Hopfield.java:99-108 | No ordered pair appears twice in the synapse list. |
| HopfieldNet.Hopfield.constructor | src/org/simbrain/network/subnetworks/Hopfield.java:78-110 | A negative count gives zero neurons. The network has n*(n-1) synapses, exactly the ordered pairs of distinct neurons. Every strength is 0, and every neuron has the binary rule with threshold 0, floor 0, ceiling 1 and increment 1. The update order is sequential, and no random generator exists yet. |
| HopfieldNet.Hopfield.NeuronRules | src/org/simbrain/network/subnetworks/Hopfield.java:88-96 | The neuron loop gives count neurons, each with threshold 0, floor 0, ceiling 1 and increment 1. |
| HopfieldNet.Hopfield.SynapseList | src/org/simbrain/network/subnetworks/Hopfield.java:99-108 | The nested source/target loops, skipping source == target, produce exactly AllPairs(count). |
| HopfieldNet.Hopfield.FindSynapse | src/org/simbrain/network/subnetworks/Hopfield.java:118-119 | The lookup returns an index of the synapse from i to j, or -1 if and only if there is none. |
| HopfieldNet.Hopfield.UpdateNeuron | src/org/simbrain/network/subnetworks/Hopfield.java:178-180 | One update-then-commit step: only neuron k changes. It takes the binary rule's value of its weighted input computed from the current activations. |
| HopfieldNet.Hopfield.UpdateInOrder | src/org/simbrain/network/subnetworks/Hopfield.java:170-182 | Stepping through an order gives Sweep of that order. Each step sees the values committed before it. |
| HopfieldNet.Hopfield.Update | src/org/simbrain/network/subnetworks/Hopfield.java:157-185 | When clamped, nothing changes and no index is drawn. In random order, exactly n steps run on the first n drawn indices, and the generator exists afterwards. In sequential order, the steps run on 0..n-1 and no index is drawn. |
| HopfieldNet.SweepKeepsUntargeted | src/org/simbrain/network/subnetworks/Hopfield.java:170-175 | A neuron omitted from the drawn order keeps its activation. |
| HopfieldNet.SweepTargetedIsBinary | src/org/simbrain/network/subnetworks/Hopfield.java:170-182 | A neuron that is updated ends at its rule's floor or ceiling. |
| HopfieldNet.SequentialSeesCommitted | src/org/simbrain/network/subnetworks/Hopfield.java:176-182 | In sequential order, neuron i is computed from the values committed for neurons 0..i-1 in this tick and the old values of neurons i..n-1. |
| HopfieldNet.Hopfield.Train | src/org/simbrain/network/subnetworks/Hopfield.java:138-154 | An empty network throws (ok is false) and nothing changes. Otherwise every strength gains the Hebbian increment over neuron 0's floor and ceiling, i.e. the strengths become Trained(old strengths). |
| HopfieldNet.Hopfield.AddHebbIncrements | src/org/simbrain/network/subnetworks/Hopfield.java:146-152 | The training loop: every synapse, in list order, gains the Hebbian increment of its endpoints' activations over [low, hi]. The strengths become Trained(old strengths), and nothing else changes. |
| HopfieldNet.HebbOnBinaryPattern | src/org/simbrain/network/subnetworks/Hopfield.java:149-151 | On floor/ceiling activations, the increment is +1 when the two endpoints agree and -1 when they differ. |
| HopfieldNet.TrainPreservesSymmetry | src/org/simbrain/network/subnetworks/Hopfield.java:146-152 | Training keeps symmetric weights symmetric. |
| HopfieldNet.TrainTwiceAddsTwice | src/org/simbrain/network/subnetworks/Hopfield.java:146-152 | Training twice on an unchanged pattern adds the same increment twice. |
| HopfieldNet.Hopfield.RandomizePair | src/org/simbrain/network/subnetworks/Hopfield.java:118-129 | Synapses (i,j) and (j,i) take the draw rounded to an integer, as Math.round does. Every other synapse keeps its strength. |
| HopfieldNet.Hopfield.RandomizeWeights | src/org/simbrain/network/subnetworks/Hopfield.java:115-133 | Every synapse takes the rounded draw of its unordered pair's slot in loop order. The weights end symmetric and integer-valued. |
| HopfieldNet.Hopfield.RandomizeRow | src/org/simbrain/network/subnetworks/Hopfield.java:117-130 | The inner loop for row i: every pair (i,j) with j < i takes its rounded draw, so afterwards exactly the pairs whose larger end is at most i are randomised. The other synapses keep their strengths. |
| HopfieldNet.SlotValuesSymmetric | src/org/simbrain/network/subnetworks/Hopfield.java:124-129 | Strengths determined by the unordered pair alone are symmetric and integer-valued. |
| HopfieldNet.UpdateMethodDescription | src/org/simbrain/network/subnetworks/Hopfield.java:212-218 | Random order gives "Random update of neurons". Every other code gives "Sequential update of neurons". |
| HopfieldNet.Hopfield.GetNumUnits | src/org/simbrain/network/subnetworks/Hopfield.java:190-192 | As written, it returns the numUnits field, which only the initialiser sets. It is 9 for a network of any size. |
| HopfieldNet.NumUnitsIgnoresSize | src/org/simbrain/network/subnetworks/Hopfield.java:48-51 | A four-neuron network reports 9 units. |
| HopfieldNet.Hopfield.GetNeuronCount | src/org/simbrain/network/subnetworks/Hopfield.java:187-192 | Corrected: the count equals the number of neurons (activations and rules). |
| FeedForwardNet.Size | src/org/simbrain/network/groups/FeedForward.java:111-114 | A layer has entry neurons, or none when the entry is negative. |
| FeedForwardNet.LayerLabel | src/org/simbrain/network/groups/FeedForward.java:192-195 | The label is "Layer " followed by the decimal group count. |
| FeedForwardNet.DecimalRoundTrip | src/org/simbrain/network/groups/FeedForward.java:194 | The decimal rendering of a count reads back as the count. |
| FeedForwardNet.NoLeadingZero | src/org/simbrain/network/groups/FeedForward.java:194 | A rendering of two or more digits never starts with 0, as Java's int-to-string conversion guarantees. |
| FeedForwardNet.LabelsDistinct | src/org/simbrain/network/groups/FeedForward.java:192-195 | Different positions give different labels. |
| FeedForwardNet.Groups | src/org/simbrain/network/groups/FeedForward.java:111-146 | There are |nodesPerLayer| groups. Group k is labelled "Layer k+1" and holds Size(nodesPerLayer[k]) neurons. Input neurons are copies of the template. Every neuron of layer k >= 1 has the sigmoidal rule with floor 0 and priority k. |
| FeedForwardNet.AllToAllLength | src/org/simbrain/network/groups/FeedForward.java:150-156 | The connection between two layers has sourceCount*targetCount synapses. |
| FeedForwardNet.AllToAllMember | src/org/simbrain/network/groups/FeedForward.java:150-156 | A connection is made if and only if it joins one of the source layer's neurons to one of the target layer's neurons and carries the given synapse. |
| FeedForwardNet.ConnectionsLength | src/org/simbrain/network/groups/FeedForward.java:133-160 | The total number of connections is the sum of products of consecutive layer sizes. |
| FeedForwardNet.ConnectionsMember | src/org/simbrain/network/groups/FeedForward.java:125-159 | A connection exists if and only if it runs from a neuron of layer i-1 to a neuron of layer i, and it carries the clamped base synapse bounded by -1 and 1. |
| FeedForwardNet.BuildStep | src/org/simbrain/network/groups/FeedForward.java:133-160 | Each loop iteration appends exactly one group and exactly the all-to-all connections from the previous layer to it. |
| FeedForwardNet.SingleLayerHasNoConnections | src/org/simbrain/network/groups/FeedForward.java:133 | A one-entry array gives one group and no connections. |
| FeedForwardNet.UpdateMethodDescription | src/org/simbrain/network/groups/FeedForward.java:235-238 | The description is "Layered update". |
| FeedForwardNet.FeedForward.Create | src/org/simbrain/network/groups/FeedForward.java:61-66 | The four-argument constructor fails (None) if and only if the array is empty. Otherwise it gives a fresh network that is the topology of its arguments. |
| FeedForwardNet.FeedForward.CreateWithLinearInput | src/org/simbrain/network/groups/FeedForward.java:79-87 | The same, with the input template a linear rule with increment 1 and floor 0. |
| FeedForwardNet.FeedForward.constructor | src/org/simbrain/network/groups/FeedForward.java:61-66 | The constructed network's label, groups and connections are those of its arguments. |
| FeedForwardNet.FeedForward.AddNeuronGroup | src/org/simbrain/network/groups/FeedForward.java:191-195 | The group is appended and relabelled "Layer " followed by the group count after insertion. |
| FeedForwardNet.FeedForward.LayerNeurons | src/org/simbrain/network/groups/FeedForward.java:134-141 | The filling loop gives Size(count) copies of the neuron. |
| FeedForwardNet.FeedForward.BuildNetwork | src/org/simbrain/network/groups/FeedForward.java:100-161 | After building, the label is "Layered Network", the groups are Groups(nodesPerLayer, template), and the connections are Connections(nodesPerLayer). |
| FeedForwardNet.FeedForward.InputLayer | src/org/simbrain/network/groups/FeedForward.java:202-204 | The input layer is labelled "Layer 1" and has the first entry's size. |
| FeedForwardNet.FeedForward.OutputLayer | src/org/simbrain/network/groups/FeedForward.java:211-213 | The output layer is labelled after the layer count and has the last entry's size. |
| FeedForwardNet.FeedForward.InputNeurons | src/org/simbrain/network/groups/FeedForward.java:221-223 | The input neurons are copies of the input template. |
| FeedForwardNet.FeedForward.OutputNeurons | src/org/simbrain/network/groups/FeedForward.java:231-233 | For one layer, the output neurons are the input neurons. Otherwise they are sigmoidal neurons with the last layer's priority. |

## Left out

- Random sources: `Math.random`, `java.util.Random.nextInt`, `Randomizer.getRandom`, `RandomSource.getRandom` and `Synapse.randomize` are all inputs. Their distributions and parameters are not modelled. The only randomiser state kept is its two bounds.
- The engine's `Neuron` and `Synapse` classes are not part of this model. Minimal stand-ins replace them:
  - `clip` is saturation to the bounds, ceiling first;
  - `getWeightedInputs` is the sum of strength times source activation over the fan-in.
- `BinaryRule` is not part of this model. It is a step from floor to ceiling when the weighted input exceeds the threshold. Its increment is only recorded.
- `SigmoidalRule` is not part of this model. Only its floor is recorded.
- `AllToAll` is not part of this model. It is every source/target pair, listed source by source. Its excitatory/inhibitory randomisation of strengths is not modelled, so connection strengths are left out.
- IEEE double rounding, NaN and infinities are not modelled. Doubles are reals.
- `HopfieldNet.Hopfield.Train` and `HopfieldNet.HebbIncrement` require neuron 0's floor and ceiling to differ. In Java, equal bounds make the division by `hi - low` give NaN or Infinity with no exception. The model does not cover that case.
- `HopfieldNet.FanInSum`: a Hopfield neuron's weighted input sums only the subnetwork's own synapses. In the source, `Neuron.getWeightedInputs` would also count synapses into the group from outside it; the model has none.
- `HopfieldNet.Hopfield.constructor`: a fresh `Neuron` is assumed to start at activation 0. `Neuron` is not part of this model.
- Hopfield neurons' buffers are left out: each step commits the new value at once, so the buffer is never observable.
- `HopfieldNet.Hopfield.RandomizeWeights`: the `w == null` path is not modelled. The constructor always creates both (i,j) and (j,i), so the lookups cannot fail.
- The Hopfield copy constructor (`src/org/simbrain/network/subnetworks/Hopfield.java:64-68`) and `setUpdateOrder` are left out. The update order is a plain field.
- `fireNetworkChanged` listener notification is left out.
- The Hopfield subnetwork label ("Hopfield network") and `setDisplayNeuronGroups` are left out.
- Feed-forward layout (`LineLayout`, `offsetNeuronGroup`, `initialPosition`, `Point2D`) is left out, being geometry of the view.
- `FeedForwardNet.FeedForward.Create`: the Java constructor throws on an empty array. The model returns `None` instead. The constructor itself requires a non-empty array.
- `FeedForwardNet.FeedForward.BuildNetwork`: requires a freshly constructed object (empty groups and connections). This is the only way Java calls it.
- Input neurons copied from the template keep their priority unchanged. The two-argument constructor's `Neuron` is assumed to have the default priority 0.
- Feed-forward update (layered propagation) is left out. It is not in `FeedForward.java`.
- Each loop or loop body of the Hopfield constructor, update, training and weight randomisation is a helper method (`NeuronRules`, `SynapseList`, `UpdateNeuron`, `UpdateInOrder`, `AddHebbIncrements`, `RandomizeRow`, `RandomizePair`). Each keeps its loop's order and state changes.
- Getters and setters of the rule parameters are plain field access on the classes.

## Findings

| source | as written | input that shows it | evidently intended | confidence | as-written member | corrected member |
|---|---|---|---|---|---|---|
| src/org/simbrain/network/subnetworks/Hopfield.java:190-192 | `getNumUnits` returns the field `numUnits`. The field is initialised to the default 9 and never assigned, so the constructor's neuron count is not recorded. | Build a Hopfield network with 4 neurons, then call `getNumUnits()`: it returns 9. | Return the number of neurons, as the getter's documentation says ("The number of neurons"). | not executed | HopfieldNet.NumUnitsIgnoresSize | HopfieldNet.Hopfield.GetNeuronCount |
