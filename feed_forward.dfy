/**
 * The layered feed-forward subnetwork: a succession of neuron groups, one per
 * entry of the layer-size array, with every neuron of each layer connected to
 * every neuron of the next. The builder labels the groups "Layer 1",
 * "Layer 2", ..., gives hidden and output neurons a sigmoidal rule with floor
 * 0 and their layer's index as update priority, and uses a clamped base
 * synapse bounded by -1 and 1 for every connection.
 */
module FeedForwardNet {
  import opened Wrappers

  /** The update rules the builder assigns; only the fields it sets are kept. */
  datatype NeuronRule = LinearRule(increment: real, floor: real) | SigmoidalRule(floor: real)

  /** A neuron as the builder sees it: its rule and its update priority. */
  datatype LayerNeuron = LayerNeuron(rule: NeuronRule, priority: int)

  /** A neuron group of the subnetwork: its label and its neurons in order. */
  datatype NeuronGroup = NeuronGroup(groupLabel: string, neurons: seq<LayerNeuron>)

  datatype SynapseRule = ClampedSynapseRule

  /** The template every connection's synapse is copied from. */
  datatype SynapseTemplate = SynapseTemplate(lowerBound: real, upperBound: real, rule: SynapseRule)

  /** A neuron addressed by its group's position and its position in the group. */
  datatype NeuronRef = NeuronRef(layer: nat, index: nat)

  datatype Connection = Connection(source: NeuronRef, target: NeuronRef, synapse: SynapseTemplate)

  const NetworkLabel: string := "Layered Network"

  /** The base synapse for connecting layers: clamped, bounds -1 and 1. */
  const BaseSynapse: SynapseTemplate := SynapseTemplate(-1.0, 1.0, ClampedSynapseRule)

  /** The input template of the two-argument constructor: a linear rule with
      increment 1 and floor 0, at the neuron's default priority 0. */
  const LinearInputTemplate: LayerNeuron := LayerNeuron(LinearRule(1.0, 0.0), 0)

  /** Hidden and output neurons: sigmoidal with floor 0, priority = layer index. */
  function HiddenNeuron(layer: nat): (r: LayerNeuron)
  {
    LayerNeuron(SigmoidalRule(0.0), layer)
  }

  /** The number of neurons a layer-size entry produces: the filling loop
      counts up to the entry, so a negative entry gives an empty layer. */
  function Size(entry: int): (r: nat)
    ensures entry >= 0 ==> r == entry
    ensures entry < 0 ==> r == 0
  {
    if entry < 0 then 0 else entry
  }

  /** `m` copies of `x`. */
  function Repeat<T>(m: nat, x: T): (r: seq<T>)
    ensures |r| == m && forall k :: 0 <= k < m ==> r[k] == x
  {
    seq(m, _ => x)
  }

  // ----- Decimal labels -----

  function DigitChar(d: nat): (r: char)
    requires d < 10
  {
    "0123456789"[d]
  }

  function DigitValue(c: char): (r: nat)
  {
    if '0' <= c <= '9' then (c - '0') as nat else 0
  }

  /** Java's decimal rendering of a non-negative int. */
  function NatToString(k: nat): (s: string)
    ensures |s| > 0
    ensures forall i :: 0 <= i < |s| ==> '0' <= s[i] <= '9'
  {
    if k < 10 then [DigitChar(k)] else NatToString(k / 10) + [DigitChar(k % 10)]
  }

  /** Reading a string of decimal digits back as a number. */
  function ParseDecimal(s: string): (r: nat)
  {
    if s == [] then 0 else ParseDecimal(s[..|s| - 1]) * 10 + DigitValue(s[|s| - 1])
  }

  /** Rendering a number in decimal and reading it back gives the number. */
  lemma {:induction false} DecimalRoundTrip(k: nat)
    ensures ParseDecimal(NatToString(k)) == k
  {
    if k < 10 {
      assert NatToString(k)[..0] == [];
    } else {
      var s := NatToString(k);
      assert s[..|s| - 1] == NatToString(k / 10);
      DecimalRoundTrip(k / 10);
    }
  }

  /** A rendering of two or more digits does not start with 0, so the
      rendering is the canonical decimal one. */
  lemma {:induction false} NoLeadingZero(k: nat)
    requires k >= 10
    ensures NatToString(k)[0] != '0'
  {
    if k / 10 >= 10 {
      NoLeadingZero(k / 10);
    }
    assert NatToString(k)[0] == NatToString(k / 10)[0];
  }

  /** The label a group receives when it is the `count`-th group added. */
  function LayerLabel(count: nat): (s: string)
    ensures |s| == 6 + |NatToString(count)|
    ensures s[..6] == "Layer " && s[6..] == NatToString(count)
  {
    "Layer " + NatToString(count)
  }

  /** Different positions give different labels. */
  lemma LabelsDistinct(k: nat, m: nat)
    requires k != m
    ensures LayerLabel(k) != LayerLabel(m)
  {
    DecimalRoundTrip(k);
    DecimalRoundTrip(m);
    assert LayerLabel(k)[6..] != LayerLabel(m)[6..];
  }

  // ----- The topology the builder produces -----

  /** The `k`-th group built for layer-size entry `entry`: the input layer
      copies `template`, every later layer holds hidden neurons of its own
      index; each is labelled after its 1-based position. */
  function LayerGroup(k: nat, entry: int, template: LayerNeuron): (r: NeuronGroup)
  {
    if k == 0 then NeuronGroup(LayerLabel(1), Repeat(Size(entry), template))
    else NeuronGroup(LayerLabel(k + 1), Repeat(Size(entry), HiddenNeuron(k)))
  }

  /** The groups built from `sizes`, one per entry. */
  function Groups(sizes: seq<int>, template: LayerNeuron): (r: seq<NeuronGroup>)
    ensures |r| == |sizes|
    ensures forall k :: 0 <= k < |r| ==> r[k].groupLabel == LayerLabel(k + 1) && |r[k].neurons| == Size(sizes[k])
    ensures |r| > 0 ==> forall j :: 0 <= j < |r[0].neurons| ==> r[0].neurons[j] == template
    ensures forall k, j :: 1 <= k < |r| && 0 <= j < |r[k].neurons| ==>
              r[k].neurons[j].rule == SigmoidalRule(0.0) && r[k].neurons[j].priority == k
  {
    seq(|sizes|, k requires 0 <= k < |sizes| => LayerGroup(k, sizes[k], template))
  }

  /** The connections of one source neuron to every neuron of the next layer. */
  function Fan(source: NeuronRef, targetLayer: nat, targetCount: nat, synapse: SynapseTemplate): (r: seq<Connection>)
    ensures |r| == targetCount
    ensures forall j :: 0 <= j < targetCount ==> r[j] == Connection(source, NeuronRef(targetLayer, j), synapse)
  {
    seq(targetCount, j requires 0 <= j < targetCount => Connection(source, NeuronRef(targetLayer, j), synapse))
  }

  /** Stand-in for the all-to-all connection: every source neuron, in order,
      is connected to every target neuron by a copy of `synapse`. */
  function AllToAll(sourceLayer: nat, sourceCount: nat, targetLayer: nat, targetCount: nat,
                    synapse: SynapseTemplate): (r: seq<Connection>)
  {
    if sourceCount == 0 then []
    else AllToAll(sourceLayer, sourceCount - 1, targetLayer, targetCount, synapse)
         + Fan(NeuronRef(sourceLayer, sourceCount - 1), targetLayer, targetCount, synapse)
  }

  /** Membership in a concatenation. */
  lemma InConcat<T>(x: T, xs: seq<T>, ys: seq<T>)
    ensures x in xs + ys <==> x in xs || x in ys
  {
  }

  /** One connection per (source, target) pair. */
  lemma {:induction false} AllToAllLength(sourceLayer: nat, sourceCount: nat, targetLayer: nat, targetCount: nat,
                                          synapse: SynapseTemplate)
    ensures |AllToAll(sourceLayer, sourceCount, targetLayer, targetCount, synapse)| == sourceCount * targetCount
  {
    if sourceCount > 0 {
      AllToAllLength(sourceLayer, sourceCount - 1, targetLayer, targetCount, synapse);
      assert (sourceCount - 1) * targetCount + targetCount == sourceCount * targetCount;
    }
  }

  /** `c` runs from one of the first `sourceCount` neurons of group
      `sourceLayer` to one of the first `targetCount` neurons of group
      `targetLayer` and carries `synapse`. */
  predicate Joins(c: Connection, sourceLayer: nat, sourceCount: nat, targetLayer: nat, targetCount: nat,
                  synapse: SynapseTemplate)
  {
    c.source.layer == sourceLayer && c.source.index < sourceCount
    && c.target.layer == targetLayer && c.target.index < targetCount
    && c.synapse == synapse
  }

  lemma {:induction false} AllToAllSoundAt(sourceLayer: nat, sourceCount: nat, targetLayer: nat, targetCount: nat,
                                           synapse: SynapseTemplate, a: nat)
    requires a < |AllToAll(sourceLayer, sourceCount, targetLayer, targetCount, synapse)|
    ensures Joins(AllToAll(sourceLayer, sourceCount, targetLayer, targetCount, synapse)[a],
                  sourceLayer, sourceCount, targetLayer, targetCount, synapse)
  {
    var prior := AllToAll(sourceLayer, sourceCount - 1, targetLayer, targetCount, synapse);
    var fan := Fan(NeuronRef(sourceLayer, sourceCount - 1), targetLayer, targetCount, synapse);
    assert AllToAll(sourceLayer, sourceCount, targetLayer, targetCount, synapse) == prior + fan;
    if a < |prior| {
      AllToAllSoundAt(sourceLayer, sourceCount - 1, targetLayer, targetCount, synapse, a);
      assert (prior + fan)[a] == prior[a];
    } else {
      assert (prior + fan)[a] == fan[a - |prior|];
    }
  }

  lemma {:induction false} AllToAllComplete(sourceLayer: nat, sourceCount: nat, targetLayer: nat, targetCount: nat,
                                            synapse: SynapseTemplate, c: Connection)
    requires Joins(c, sourceLayer, sourceCount, targetLayer, targetCount, synapse)
    ensures c in AllToAll(sourceLayer, sourceCount, targetLayer, targetCount, synapse)
  {
    var prior := AllToAll(sourceLayer, sourceCount - 1, targetLayer, targetCount, synapse);
    var fan := Fan(NeuronRef(sourceLayer, sourceCount - 1), targetLayer, targetCount, synapse);
    assert AllToAll(sourceLayer, sourceCount, targetLayer, targetCount, synapse) == prior + fan;
    if c.source.index < sourceCount - 1 {
      AllToAllComplete(sourceLayer, sourceCount - 1, targetLayer, targetCount, synapse, c);
    } else {
      assert fan[c.target.index] == c;
    }
    InConcat(c, prior, fan);
  }

  /** AllToAll holds exactly the connections from the source group to the
      target group that carry the given synapse. */
  lemma AllToAllMember(sourceLayer: nat, sourceCount: nat, targetLayer: nat, targetCount: nat,
                       synapse: SynapseTemplate, c: Connection)
    ensures c in AllToAll(sourceLayer, sourceCount, targetLayer, targetCount, synapse)
        <==> Joins(c, sourceLayer, sourceCount, targetLayer, targetCount, synapse)
  {
    var r := AllToAll(sourceLayer, sourceCount, targetLayer, targetCount, synapse);
    if c in r {
      var a :| 0 <= a < |r| && r[a] == c;
      AllToAllSoundAt(sourceLayer, sourceCount, targetLayer, targetCount, synapse, a);
    }
    if Joins(c, sourceLayer, sourceCount, targetLayer, targetCount, synapse) {
      AllToAllComplete(sourceLayer, sourceCount, targetLayer, targetCount, synapse, c);
    }
  }

  /** The connections built from `sizes`: layer k - 1 to layer k for every k >= 1. */
  function Connections(sizes: seq<int>): (r: seq<Connection>)
  {
    if |sizes| <= 1 then []
    else
      var k := |sizes| - 1;
      Connections(sizes[..k]) + AllToAll(k - 1, Size(sizes[k - 1]), k, Size(sizes[k]), BaseSynapse)
  }

  /** The product of consecutive layer sizes, summed. */
  function ConnectionCount(sizes: seq<int>): (r: nat)
  {
    if |sizes| <= 1 then 0
    else
      var k := |sizes| - 1;
      ConnectionCount(sizes[..k]) + Size(sizes[k - 1]) * Size(sizes[k])
  }

  /** There is one connection per pair of neurons in consecutive layers. */
  lemma {:induction false} ConnectionsLength(sizes: seq<int>)
    ensures |Connections(sizes)| == ConnectionCount(sizes)
  {
    if |sizes| > 1 {
      var k := |sizes| - 1;
      var prior := Connections(sizes[..k]);
      var last := AllToAll(k - 1, Size(sizes[k - 1]), k, Size(sizes[k]), BaseSynapse);
      assert Connections(sizes) == prior + last;
      ConnectionsLength(sizes[..k]);
      AllToAllLength(k - 1, Size(sizes[k - 1]), k, Size(sizes[k]), BaseSynapse);
      assert |prior + last| == |prior| + |last|;
    }
  }

  /** `c` runs from some neuron of a layer to some neuron of the next layer
      of `sizes` and carries the base synapse. */
  predicate Consecutive(sizes: seq<int>, c: Connection)
  {
    1 <= c.target.layer < |sizes| && c.source.layer + 1 == c.target.layer
    && c.source.index < Size(sizes[c.source.layer])
    && c.target.index < Size(sizes[c.target.layer])
    && c.synapse == BaseSynapse
  }

  lemma {:induction false} ConnectionsSoundAt(sizes: seq<int>, a: nat)
    requires a < |Connections(sizes)|
    ensures Consecutive(sizes, Connections(sizes)[a])
  {
    var k := |sizes| - 1;
    var init := sizes[..k];
    var prior := Connections(init);
    var last := AllToAll(k - 1, Size(sizes[k - 1]), k, Size(sizes[k]), BaseSynapse);
    assert Connections(sizes) == prior + last;
    if a < |prior| {
      ConnectionsSoundAt(init, a);
      var c := prior[a];
      assert (prior + last)[a] == c;
      assert init[c.source.layer] == sizes[c.source.layer] && init[c.target.layer] == sizes[c.target.layer];
    } else {
      assert (prior + last)[a] == last[a - |prior|];
      AllToAllSoundAt(k - 1, Size(sizes[k - 1]), k, Size(sizes[k]), BaseSynapse, a - |prior|);
    }
  }

  lemma {:induction false} ConnectionsComplete(sizes: seq<int>, c: Connection)
    requires Consecutive(sizes, c)
    ensures c in Connections(sizes)
  {
    var k := |sizes| - 1;
    var init := sizes[..k];
    var prior := Connections(init);
    var last := AllToAll(k - 1, Size(sizes[k - 1]), k, Size(sizes[k]), BaseSynapse);
    assert Connections(sizes) == prior + last;
    if c.target.layer < k {
      assert init[c.source.layer] == sizes[c.source.layer] && init[c.target.layer] == sizes[c.target.layer];
      ConnectionsComplete(init, c);
    } else {
      AllToAllComplete(k - 1, Size(sizes[k - 1]), k, Size(sizes[k]), BaseSynapse, c);
    }
    InConcat(c, prior, last);
  }

  /** A connection exists exactly between some neuron of a layer and some
      neuron of the next layer, and it carries the base synapse. */
  lemma ConnectionsMember(sizes: seq<int>, c: Connection)
    ensures c in Connections(sizes) <==> Consecutive(sizes, c)
  {
    var r := Connections(sizes);
    if c in r {
      var a :| 0 <= a < |r| && r[a] == c;
      ConnectionsSoundAt(sizes, a);
    }
    if Consecutive(sizes, c) {
      ConnectionsComplete(sizes, c);
    }
  }

  /** One more layer-size entry adds one group after the ones before and
      the all-to-all connections from the previous layer to it. */
  lemma BuildStep(sizes: seq<int>, k: nat, template: LayerNeuron)
    requires 1 <= k < |sizes|
    ensures |Groups(sizes[..k], template)| == k
    ensures |Groups(sizes[..k], template)[k - 1].neurons| == Size(sizes[k - 1])
    ensures Groups(sizes[..k + 1], template) == Groups(sizes[..k], template) + [LayerGroup(k, sizes[k], template)]
    ensures Connections(sizes[..k + 1])
         == Connections(sizes[..k]) + AllToAll(k - 1, Size(sizes[k - 1]), k, Size(sizes[k]), BaseSynapse)
  {
    assert sizes[..k + 1][..k] == sizes[..k];
  }

  /** The update method a feed-forward network reports. */
  function UpdateMethodDescription(): (d: string)
    ensures d == "Layered update"
  {
    "Layered update"
  }

  /** A one-entry size array gives a single group and no connections. */
  lemma SingleLayerHasNoConnections(sizes: seq<int>, template: LayerNeuron)
    requires |sizes| == 1
    ensures |Groups(sizes, template)| == 1
    ensures Connections(sizes) == []
  {
  }

  // ----- The subnetwork object -----

  class FeedForward {
    var networkLabel: string
    var groups: seq<NeuronGroup>
    var connections: seq<Connection>
    /** The arguments the network was built from. */
    ghost var sizes: seq<int>
    ghost var template: LayerNeuron

    /** The network is the topology built from its arguments. */
    ghost predicate Valid()
      reads this
    {
      |sizes| > 0 && networkLabel == NetworkLabel
      && groups == Groups(sizes, template) && connections == Connections(sizes)
    }

    /** The four-argument constructor; an empty size array makes it throw. */
    static method Create(nodesPerLayer: seq<int>, inputNeuronTemplate: LayerNeuron) returns (r: Option<FeedForward>)
      ensures r.None? <==> |nodesPerLayer| == 0
      ensures r.Some? ==> fresh(r.value) && r.value.Valid()
      ensures r.Some? ==> r.value.sizes == nodesPerLayer && r.value.template == inputNeuronTemplate
    {
      if |nodesPerLayer| == 0 {
        return None;
      }
      var f := new FeedForward(nodesPerLayer, inputNeuronTemplate);
      return Some(f);
    }

    /** The two-argument constructor: the input layer uses a linear rule
        with increment 1 and floor 0. */
    static method CreateWithLinearInput(nodesPerLayer: seq<int>) returns (r: Option<FeedForward>)
      ensures r.None? <==> |nodesPerLayer| == 0
      ensures r.Some? ==> fresh(r.value) && r.value.Valid()
      ensures r.Some? ==> r.value.sizes == nodesPerLayer && r.value.template == LinearInputTemplate
    {
      r := Create(nodesPerLayer, LinearInputTemplate);
    }

    constructor (nodesPerLayer: seq<int>, inputNeuronTemplate: LayerNeuron)
      requires |nodesPerLayer| > 0
      ensures Valid() && sizes == nodesPerLayer && template == inputNeuronTemplate
    {
      networkLabel := "";
      groups := [];
      connections := [];
      sizes := nodesPerLayer;
      template := inputNeuronTemplate;
      new;
      BuildNetwork(nodesPerLayer, inputNeuronTemplate);
    }

    /** Add a group; it is relabelled after the number of groups it makes. */
    method AddNeuronGroup(group: NeuronGroup)
      modifies this`groups
      ensures groups == old(groups) + [group.(groupLabel := LayerLabel(|old(groups)| + 1))]
    {
      groups := groups + [group];
      groups := groups[|groups| - 1 := group.(groupLabel := LayerLabel(|groups|))];
    }

    /** The neuron loop of one layer: `count` copies of `neuron`, none when
        `count` is not positive. */
    static method LayerNeurons(count: int, neuron: LayerNeuron) returns (neurons: seq<LayerNeuron>)
      ensures neurons == Repeat(Size(count), neuron)
    {
      neurons := [];
      var i := 0;
      while i < count
        invariant 0 <= i <= Size(count)
        invariant neurons == Repeat(i, neuron)
      {
        assert neurons + [neuron] == Repeat(i + 1, neuron);
        neurons := neurons + [neuron];
        i := i + 1;
      }
    }

    /** Build the layers and the connections between consecutive layers. */
    method BuildNetwork(nodesPerLayer: seq<int>, inputNeuronTemplate: LayerNeuron)
      requires |nodesPerLayer| > 0 && groups == [] && connections == []
      requires sizes == nodesPerLayer && template == inputNeuronTemplate
      modifies this`networkLabel, this`groups, this`connections
      ensures Valid()
    {
      networkLabel := NetworkLabel;

      var inputLayerNeurons := LayerNeurons(nodesPerLayer[0], inputNeuronTemplate);
      AddNeuronGroup(NeuronGroup("", inputLayerNeurons));
      assert nodesPerLayer[..1] == [nodesPerLayer[0]];

      var synapse := BaseSynapse;
      var lastLayer := 0;
      var k := 1;
      while k < |nodesPerLayer|
        invariant 1 <= k <= |nodesPerLayer| && lastLayer == k - 1
        invariant networkLabel == NetworkLabel
        invariant groups == Groups(nodesPerLayer[..k], inputNeuronTemplate)
        invariant connections == Connections(nodesPerLayer[..k])
      {
        var hiddenLayerNeurons := LayerNeurons(nodesPerLayer[k], HiddenNeuron(k));
        var hiddenLayer := NeuronGroup("", hiddenLayerNeurons);
        BuildStep(nodesPerLayer, k, inputNeuronTemplate);
        assert hiddenLayer.(groupLabel := LayerLabel(|groups| + 1)) == LayerGroup(k, nodesPerLayer[k], inputNeuronTemplate);
        var previous := groups[lastLayer];
        AddNeuronGroup(hiddenLayer);
        connections := connections + AllToAll(lastLayer, |previous.neurons|, k, |hiddenLayerNeurons|, synapse);
        lastLayer := k;
        k := k + 1;
      }
      assert nodesPerLayer[..k] == nodesPerLayer;
    }

    /** The input layer is the first group, labelled "Layer 1". */
    function InputLayer(): (g: NeuronGroup)
      reads this
      requires Valid()
      ensures g.groupLabel == LayerLabel(1)
      ensures |g.neurons| == Size(sizes[0])
    {
      groups[0]
    }

    /** The output layer is the last group, labelled after the layer count. */
    function OutputLayer(): (g: NeuronGroup)
      reads this
      requires Valid()
      ensures g.groupLabel == LayerLabel(|sizes|)
      ensures |g.neurons| == Size(sizes[|sizes| - 1])
    {
      groups[|groups| - 1]
    }

    /** The input neurons are copies of the input template. */
    function InputNeurons(): (r: seq<LayerNeuron>)
      reads this
      requires Valid()
      ensures r == Repeat(Size(sizes[0]), template)
    {
      InputLayer().neurons
    }

    /** The output neurons: the input neurons themselves for a one-layer
        network, otherwise sigmoidal neurons with the last layer's priority. */
    function OutputNeurons(): (r: seq<LayerNeuron>)
      reads this
      requires Valid()
      ensures |sizes| == 1 ==> r == InputNeurons()
      ensures |sizes| > 1 ==> r == Repeat(Size(sizes[|sizes| - 1]), HiddenNeuron(|sizes| - 1))
    {
      OutputLayer().neurons
    }
  }
}
