/**
 * A discrete Hopfield network: one group of binary threshold neurons,
 * connected all-to-all without self-loops. Weights are trained with the
 * Hebbian outer-product rule or randomised symmetrically to integers, and
 * an update visits the neurons one at a time, committing each new value
 * immediately, either in list order or in a randomly drawn order.
 *
 * Neurons are indexed 0 .. n-1. The synapses form one list in construction
 * order; synapse `a` runs from `synapses[a].source` to `synapses[a].target`
 * and has strength `strength[a]`.
 */
module HopfieldNet {

  /** Update-order codes. */
  const SequentialUpdate: int := 0
  const RandomUpdate: int := 1

  /** The number of units the network reports (see GetNumUnits). */
  const DefaultNumUnits: int := 9

  /** Parameters of the binary rule. */
  datatype BinaryRule = BinaryRule(threshold: real, floor: real, ceiling: real, increment: real)

  /** The rule every Hopfield neuron is built with: threshold 0, floor 0,
      ceiling 1, increment 1. */
  const HopfieldRule: BinaryRule := BinaryRule(0.0, 0.0, 1.0, 1.0)

  /** Stand-in for the binary rule: a step from floor to ceiling once the
      weighted input exceeds the threshold. */
  function BinaryValue(rule: BinaryRule, input: real): (r: real)
    ensures r == rule.floor || r == rule.ceiling
    ensures input > rule.threshold ==> r == rule.ceiling
    ensures input <= rule.threshold ==> r == rule.floor
  {
    if input > rule.threshold then rule.ceiling else rule.floor
  }

  // ---------------------------------------------------------------------
  // Topology: the synapse list built by the constructor
  // ---------------------------------------------------------------------

  datatype SynapseEnds = SynapseEnds(source: nat, target: nat)

  /** Synapses from `s` to the targets below `m`, skipping `s` itself. */
  function Row(s: nat, m: nat): (r: seq<SynapseEnds>)
  {
    if m == 0 then []
    else Row(s, m - 1) + (if m - 1 == s then [] else [SynapseEnds(s, m - 1)])
  }

  /** Rows of the sources below `m`, in order, for a group of `n` neurons. */
  function Pairs(n: nat, m: nat): (r: seq<SynapseEnds>)
  {
    if m == 0 then [] else Pairs(n, m - 1) + Row(m - 1, n)
  }

  /** Lexicographic order on (source, target). */
  predicate LexLess(p: SynapseEnds, q: SynapseEnds)
  {
    p.source < q.source || (p.source == q.source && p.target < q.target)
  }

  predicate StrictlySorted(s: seq<SynapseEnds>)
  {
    forall a, b :: 0 <= a < b < |s| ==> LexLess(s[a], s[b])
  }

  lemma {:induction false} RowLength(s: nat, m: nat)
    ensures |Row(s, m)| == if s < m then m - 1 else m
  {
    if m > 0 { RowLength(s, m - 1); }
  }

  lemma {:induction false} RowMember(s: nat, m: nat, p: SynapseEnds)
    ensures p in Row(s, m) <==> p.source == s && p.target < m && p.target != s
  {
    if m == 0 {
      assert Row(s, m) == [];
    } else {
      RowMember(s, m - 1, p);
      var prev := Row(s, m - 1);
      var tail := if m - 1 == s then [] else [SynapseEnds(s, m - 1)];
      assert Row(s, m) == prev + tail;
      assert (p in prev + tail) == (p in prev || p in tail);
    }
  }

  lemma RowMembers(s: nat, m: nat)
    ensures forall p :: p in Row(s, m) <==> p.source == s && p.target < m && p.target != s
  {
    forall p { RowMember(s, m, p); }
  }

  lemma {:induction false} RowSorted(s: nat, m: nat)
    ensures StrictlySorted(Row(s, m))
  {
    if m > 0 {
      RowSorted(s, m - 1);
      RowMembers(s, m - 1);
      var prev := Row(s, m - 1);
      if m - 1 != s {
        assert Row(s, m) == prev + [SynapseEnds(s, m - 1)];
        forall a, b | 0 <= a < b < |Row(s, m)|
          ensures LexLess(Row(s, m)[a], Row(s, m)[b])
        {
          if b == |prev| {
            assert Row(s, m)[a] in prev;
          }
        }
      } else {
        assert Row(s, m) == prev;
      }
    }
  }

  lemma {:induction false} PairsLength(n: nat, m: nat)
    requires m <= n
    ensures |Pairs(n, m)| == m * (n - 1)
  {
    if m > 0 {
      PairsLength(n, m - 1);
      RowLength(m - 1, n);
      assert |Pairs(n, m)| == (m - 1) * (n - 1) + (n - 1);
      assert (m - 1) * (n - 1) + (n - 1) == m * (n - 1);
    }
  }

  /** Every listed pair is a valid synapse of a source below `m`. */
  lemma {:induction false} PairsSoundAt(n: nat, m: nat, a: nat)
    requires m <= n && a < |Pairs(n, m)|
    ensures Pairs(n, m)[a].source < m && Pairs(n, m)[a].target < n && Pairs(n, m)[a].source != Pairs(n, m)[a].target
  {
    var prev := Pairs(n, m - 1);
    var row := Row(m - 1, n);
    assert Pairs(n, m) == prev + row;
    if a < |prev| {
      PairsSoundAt(n, m - 1, a);
      assert Pairs(n, m)[a] == prev[a];
    } else {
      assert Pairs(n, m)[a] == row[a - |prev|];
      RowMember(m - 1, n, row[a - |prev|]);
    }
  }

  lemma PairsSound(n: nat, m: nat, p: SynapseEnds)
    requires m <= n && p in Pairs(n, m)
    ensures p.source < m && p.target < n && p.source != p.target
  {
    var a :| 0 <= a < |Pairs(n, m)| && Pairs(n, m)[a] == p;
    PairsSoundAt(n, m, a);
  }

  /** Every valid synapse of a source below `m` is listed. */
  lemma {:induction false} PairsComplete(n: nat, m: nat, p: SynapseEnds)
    requires m <= n && p.source < m && p.target < n && p.source != p.target
    ensures p in Pairs(n, m)
  {
    var prev := Pairs(n, m - 1);
    var row := Row(m - 1, n);
    assert Pairs(n, m) == prev + row;
    if p.source < m - 1 {
      PairsComplete(n, m - 1, p);
      var i :| 0 <= i < |prev| && prev[i] == p;
      assert Pairs(n, m)[i] == p;
    } else {
      RowMember(m - 1, n, p);
      var i :| 0 <= i < |row| && row[i] == p;
      assert Pairs(n, m)[|prev| + i] == p;
    }
  }

  lemma PairsMember(n: nat, m: nat, p: SynapseEnds)
    requires m <= n
    ensures p in Pairs(n, m) <==> p.source < m && p.target < n && p.source != p.target
  {
    if p in Pairs(n, m) {
      PairsSound(n, m, p);
    }
    if p.source < m && p.target < n && p.source != p.target {
      PairsComplete(n, m, p);
    }
  }

  lemma PairsMembers(n: nat, m: nat)
    requires m <= n
    ensures forall p :: p in Pairs(n, m) <==> p.source < m && p.target < n && p.source != p.target
  {
    forall p { PairsMember(n, m, p); }
  }

  /** Two sorted lists, every element of the first below every element of
      the second, concatenate to a sorted list. */
  lemma SortedConcat(xs: seq<SynapseEnds>, ys: seq<SynapseEnds>)
    requires StrictlySorted(xs) && StrictlySorted(ys)
    requires forall a, b :: 0 <= a < |xs| && 0 <= b < |ys| ==> LexLess(xs[a], ys[b])
    ensures StrictlySorted(xs + ys)
  {
    forall a, b | 0 <= a < b < |xs + ys|
      ensures LexLess((xs + ys)[a], (xs + ys)[b])
    {
      if b < |xs| {
        assert (xs + ys)[a] == xs[a] && (xs + ys)[b] == xs[b];
      } else if a < |xs| {
        assert (xs + ys)[a] == xs[a] && (xs + ys)[b] == ys[b - |xs|];
      } else {
        assert (xs + ys)[a] == ys[a - |xs|] && (xs + ys)[b] == ys[b - |xs|];
      }
    }
  }

  lemma {:induction false} PairsSorted(n: nat, m: nat)
    requires m <= n
    ensures StrictlySorted(Pairs(n, m))
  {
    if m == 0 {
      assert Pairs(n, m) == [];
    } else {
      var prev := Pairs(n, m - 1);
      var row := Row(m - 1, n);
      PairsSorted(n, m - 1);
      RowSorted(m - 1, n);
      forall a | 0 <= a < |prev| ensures prev[a].source < m - 1 {
        PairsMember(n, m - 1, prev[a]);
      }
      forall b | 0 <= b < |row| ensures row[b].source == m - 1 {
        RowMember(m - 1, n, row[b]);
      }
      SortedConcat(prev, row);
      assert Pairs(n, m) == prev + row;
    }
  }

  /** In a strictly sorted list no synapse appears twice. */
  lemma SortedIsDistinct(s: seq<SynapseEnds>)
    requires StrictlySorted(s)
    ensures forall a, b :: 0 <= a < |s| && 0 <= b < |s| && a != b ==> s[a] != s[b]
  {
    forall a, b | 0 <= a < |s| && 0 <= b < |s| && a != b
      ensures s[a] != s[b]
    {
      if a < b { assert LexLess(s[a], s[b]); } else { assert LexLess(s[b], s[a]); }
    }
  }

  /** The whole synapse list of an `n`-neuron network: exactly n*(n-1)
      synapses, one per ordered pair of distinct neurons, none a self-loop. */
  function AllPairs(n: nat): (r: seq<SynapseEnds>)
    ensures |r| == n * (n - 1)
    ensures forall p :: p in r <==> p.source < n && p.target < n && p.source != p.target
    ensures forall a :: 0 <= a < |r| ==> r[a].source < n && r[a].target < n && r[a].source != r[a].target
    ensures forall a :: 0 <= a < |r| ==> PairSlot(r[a]) < Tri(n)
  {
    PairsLength(n, n);
    PairsMembers(n, n);
    var r := Pairs(n, n);
    assert forall a :: 0 <= a < |r| ==> r[a] in r;
    forall a | 0 <= a < |r| ensures PairSlot(r[a]) < Tri(n) {
      PairSlotBound(r[a], n);
    }
    r
  }

  /** No synapse appears twice in the list. */
  lemma AllPairsDistinct(n: nat)
    ensures forall a, b :: 0 <= a < |AllPairs(n)| && 0 <= b < |AllPairs(n)| && a != b ==> AllPairs(n)[a] != AllPairs(n)[b]
  {
    PairsSorted(n, n);
    SortedIsDistinct(AllPairs(n));
  }

  // ---------------------------------------------------------------------
  // Dynamics
  // ---------------------------------------------------------------------

  /** Shape of a network state over `n` neurons. */
  predicate Shaped(syns: seq<SynapseEnds>, str: seq<real>, rules: seq<BinaryRule>, n: nat)
  {
    |str| == |syns| && |rules| == n && Endpoints(syns, n)
  }

  /** Every synapse joins two of the `n` neurons. */
  predicate Endpoints(syns: seq<SynapseEnds>, n: nat)
  {
    forall a :: 0 <= a < |syns| ==> syns[a].source < n && syns[a].target < n
  }

  /** Weighted input of neuron `k`: strength times source activation summed
      over the synapses whose target is `k`, in list order. */
  function FanInSum(syns: seq<SynapseEnds>, str: seq<real>, act: seq<real>, k: nat): (r: real)
    requires |str| == |syns|
    requires forall a :: 0 <= a < |syns| ==> syns[a].source < |act|
  {
    if syns == [] then 0.0
    else
      var last := |syns| - 1;
      FanInSum(syns[..last], str[..last], act, k)
        + (if syns[last].target == k then str[last] * act[syns[last].source] else 0.0)
  }

  /** One update-then-commit step on neuron `k`. */
  function Step(syns: seq<SynapseEnds>, str: seq<real>, rules: seq<BinaryRule>, act: seq<real>, k: nat): (r: seq<real>)
    requires Shaped(syns, str, rules, |act|) && k < |act|
    ensures |r| == |act|
  {
    act[k := BinaryValue(rules[k], FanInSum(syns, str, act, k))]
  }

  /** Update-then-commit steps on the neurons of `order`, one after the
      other, each seeing the values committed by the steps before it. */
  function Sweep(syns: seq<SynapseEnds>, str: seq<real>, rules: seq<BinaryRule>, act: seq<real>, order: seq<nat>): (r: seq<real>)
    requires Shaped(syns, str, rules, |act|)
    requires forall t :: 0 <= t < |order| ==> order[t] < |act|
    ensures |r| == |act|
    decreases |order|
  {
    if order == [] then act
    else Step(syns, str, rules, Sweep(syns, str, rules, act, order[..|order| - 1]), order[|order| - 1])
  }

  /** The indices 0 .. m-1 in increasing order. */
  function Range(m: nat): (r: seq<nat>)
    ensures |r| == m && forall t :: 0 <= t < m ==> r[t] == t
  {
    seq(m, t => t)
  }

  /** A neuron that no step targets keeps its activation. */
  lemma {:induction false} SweepKeepsUntargeted(syns: seq<SynapseEnds>, str: seq<real>, rules: seq<BinaryRule>,
                                               act: seq<real>, order: seq<nat>, m: nat)
    requires Shaped(syns, str, rules, |act|)
    requires forall t :: 0 <= t < |order| ==> order[t] < |act|
    requires m < |act| && m !in order
    ensures Sweep(syns, str, rules, act, order)[m] == act[m]
    decreases |order|
  {
    if order != [] {
      var init := order[..|order| - 1];
      SweepKeepsUntargeted(syns, str, rules, act, init, m);
      assert order[|order| - 1] != m;
    }
  }

  /** A neuron that some step targets ends at its rule's floor or ceiling. */
  lemma {:induction false} SweepTargetedIsBinary(syns: seq<SynapseEnds>, str: seq<real>, rules: seq<BinaryRule>,
                                                act: seq<real>, order: seq<nat>, m: nat)
    requires Shaped(syns, str, rules, |act|)
    requires forall t :: 0 <= t < |order| ==> order[t] < |act|
    requires m in order
    ensures var r := Sweep(syns, str, rules, act, order); r[m] == rules[m].floor || r[m] == rules[m].ceiling
    decreases |order|
  {
    var init := order[..|order| - 1];
    if order[|order| - 1] != m {
      assert m in init by {
        var t :| 0 <= t < |order| && order[t] == m;
        assert t < |order| - 1;
        assert init[t] == m;
      }
      SweepTargetedIsBinary(syns, str, rules, act, init, m);
    }
  }

  /** In the sequential order, neuron i is computed from the values already
      committed for neurons 0 .. i-1 in this tick and the old values of
      neurons i .. n-1. */
  lemma SequentialSeesCommitted(syns: seq<SynapseEnds>, str: seq<real>, rules: seq<BinaryRule>,
                                act: seq<real>, i: nat)
    requires Shaped(syns, str, rules, |act|) && i < |act|
    ensures var before := Sweep(syns, str, rules, act, Range(i));
            && (forall m :: i <= m < |act| ==> before[m] == act[m])
            && Sweep(syns, str, rules, act, Range(i + 1))
               == before[i := BinaryValue(rules[i], FanInSum(syns, str, before, i))]
  {
    assert Range(i + 1)[..i] == Range(i);
    forall m | i <= m < |act|
      ensures Sweep(syns, str, rules, act, Range(i))[m] == act[m]
    {
      assert m !in Range(i);
      SweepKeepsUntargeted(syns, str, rules, act, Range(i), m);
    }
  }

  // ---------------------------------------------------------------------
  // Training and randomisation
  // ---------------------------------------------------------------------

  /** The Hebbian increment for a synapse between activations `src` and
      `tar`, both rescaled from [lo, hi] to [-1, 1]. */
  function HebbIncrement(src: real, tar: real, lo: real, hi: real): (r: real)
    requires hi != lo
  {
    ((2.0 * src - hi - lo) / (hi - lo)) * ((2.0 * tar - hi - lo) / (hi - lo))
  }

  /** On activations at the floor or the ceiling the increment is +1 when
      the two endpoints agree and -1 when they differ. */
  lemma HebbOnBinaryPattern(src: real, tar: real, lo: real, hi: real)
    requires hi != lo
    requires (src == lo || src == hi) && (tar == lo || tar == hi)
    ensures HebbIncrement(src, tar, lo, hi) == if src == tar then 1.0 else -1.0
  {
    var d := hi - lo;
    assert (2.0 * hi - hi - lo) / d == 1.0;
    assert (2.0 * lo - hi - lo) / d == -1.0;
  }

  /** Strengths after one training pass over the synapse list. */
  function Trained(syns: seq<SynapseEnds>, str: seq<real>, act: seq<real>, lo: real, hi: real): (r: seq<real>)
    requires hi != lo && |str| == |syns| && Endpoints(syns, |act|)
    ensures |r| == |str|
  {
    seq(|str|, a requires 0 <= a < |str| => str[a] + HebbIncrement(act[syns[a].source], act[syns[a].target], lo, hi))
  }

  /** Synapse (i,j) and synapse (j,i) carry the same strength. */
  predicate Symmetric(syns: seq<SynapseEnds>, str: seq<real>)
    requires |str| == |syns|
  {
    forall a, b ::
      (0 <= a < |syns| && 0 <= b < |syns| && syns[a].source == syns[b].target && syns[a].target == syns[b].source)
      ==> str[a] == str[b]
  }

  /** Training adds the same increment to (i,j) and (j,i), so symmetric
      weights stay symmetric. */
  lemma TrainPreservesSymmetry(syns: seq<SynapseEnds>, str: seq<real>, act: seq<real>, lo: real, hi: real)
    requires hi != lo && |str| == |syns| && Endpoints(syns, |act|)
    requires Symmetric(syns, str)
    ensures Symmetric(syns, Trained(syns, str, act, lo, hi))
  {
    var r := Trained(syns, str, act, lo, hi);
    forall a, b | 0 <= a < |syns| && 0 <= b < |syns| &&
      syns[a].source == syns[b].target && syns[a].target == syns[b].source
      ensures r[a] == r[b]
    {
      var x := act[syns[a].source];
      var y := act[syns[a].target];
      assert HebbIncrement(x, y, lo, hi) == HebbIncrement(y, x, lo, hi);
    }
  }

  /** Training twice on an unchanged pattern adds the same increment twice. */
  lemma TrainTwiceAddsTwice(syns: seq<SynapseEnds>, str: seq<real>, act: seq<real>, lo: real, hi: real, a: nat)
    requires hi != lo && |str| == |syns| && Endpoints(syns, |act|)
    requires a < |str|
    ensures Trained(syns, Trained(syns, str, act, lo, hi), act, lo, hi)[a]
         == str[a] + 2.0 * HebbIncrement(act[syns[a].source], act[syns[a].target], lo, hi)
  {
  }

  /** Math.round on doubles: the nearest integer, halves rounded up. */
  function Round(x: real): (r: int)
  {
    (x + 0.5).Floor
  }

  /** Tri(m) = m*(m-1)/2: the number of pairs j < i with i < m. */
  function Tri(m: nat): (r: nat)
  {
    if m == 0 then 0 else Tri(m - 1) + (m - 1)
  }

  /** The closed form of Tri: twice it is m*(m-1). */
  lemma {:induction false} TriClosedForm(m: nat)
    ensures 2 * Tri(m) == m * (m - 1)
  {
    if m > 0 { TriClosedForm(m - 1); }
  }

  lemma {:induction false} TriMonotone(m: nat, k: nat)
    requires m <= k
    ensures Tri(m) <= Tri(k)
    decreases k - m
  {
    if m < k { TriMonotone(m, k - 1); }
  }

  function MaxEnd(p: SynapseEnds): (r: nat) { if p.source < p.target then p.target else p.source }
  function MinEnd(p: SynapseEnds): (r: nat) { if p.source < p.target then p.source else p.target }

  /** Index of the draw used for the unordered pair of `p`: pairs are
      visited row by row, (1,0), (2,0), (2,1), (3,0), ... */
  function PairSlot(p: SynapseEnds): (r: nat)
  {
    Tri(MaxEnd(p)) + MinEnd(p)
  }

  /** Every draw slot of a synapse of an `n`-neuron network is below Tri(n). */
  lemma PairSlotBound(p: SynapseEnds, n: nat)
    requires p.source < n && p.target < n && p.source != p.target
    ensures PairSlot(p) < Tri(n)
  {
    TriMonotone(MaxEnd(p) + 1, n);
  }

  /** The rounded draw is an integer-valued strength. */
  predicate IsInteger(x: real)
  {
    x == x.Floor as real
  }

  /** Description of the update order shown to the user. */
  function UpdateMethodDescription(updateOrder: int): (d: string)
    ensures updateOrder == RandomUpdate ==> d == "Random update of neurons"
    ensures updateOrder != RandomUpdate ==> d == "Sequential update of neurons"
  {
    if updateOrder == RandomUpdate then "Random update of neurons" else "Sequential update of neurons"
  }

  class Hopfield {
    /** Number of neurons. */
    const n: nat
    /** The synapse list, fixed at construction. */
    const synapses: seq<SynapseEnds>
    /** Activation of each neuron. */
    const activation: array<real>
    /** Strength of each synapse of `synapses`. */
    const strength: array<real>
    /** Binary rule of each neuron. */
    var rules: seq<BinaryRule>
    var updateOrder: int
    /** Whether the lazily created random generator exists yet. */
    var randIntCreated: bool
    /** The reported number of units. */
    var numUnits: int

    ghost predicate Valid()
      reads this
    {
      activation.Length == n && |rules| == n &&
      synapses == AllPairs(n) && strength.Length == |synapses| &&
      Endpoints(synapses, n) && activation != strength &&
      numUnits == DefaultNumUnits
    }

    /** Build `numNeurons` binary neurons (none when it is not positive) and
        a zero-strength synapse for every ordered pair of distinct neurons. */
    constructor (numNeurons: int)
      ensures Valid() && fresh(activation) && fresh(strength)
      ensures n == if numNeurons < 0 then 0 else numNeurons
      ensures |synapses| == n * (n - 1)
      ensures forall p :: p in synapses <==> p.source < n && p.target < n && p.source != p.target
      ensures forall a :: 0 <= a < strength.Length ==> strength[a] == 0.0
      ensures forall k :: 0 <= k < n ==> rules[k] == HopfieldRule
      ensures forall k :: 0 <= k < n ==> activation[k] == 0.0
      ensures updateOrder == SequentialUpdate && !randIntCreated
      ensures numUnits == DefaultNumUnits
    {
      var count: nat := if numNeurons < 0 then 0 else numNeurons;
      var ruleList := NeuronRules(count);
      var list := SynapseList(count);
      n := count;
      synapses := list;
      rules := ruleList;
      activation := new real[count](_ => 0.0);
      strength := new real[|list|](_ => 0.0);
      updateOrder := SequentialUpdate;
      randIntCreated := false;
      numUnits := DefaultNumUnits;
    }

    /** The constructor's neuron loop: `count` neurons with the Hopfield rule. */
    static method NeuronRules(count: nat) returns (ruleList: seq<BinaryRule>)
      ensures |ruleList| == count
      ensures forall q :: 0 <= q < count ==> ruleList[q] == HopfieldRule
    {
      ruleList := [];
      var k := 0;
      while k < count
        invariant 0 <= k <= count && |ruleList| == k
        invariant forall q :: 0 <= q < k ==> ruleList[q] == HopfieldRule
      {
        ruleList := ruleList + [BinaryRule(0.0, 0.0, 1.0, 1.0)];
        k := k + 1;
      }
    }

    /** The constructor's synapse loops: every source, every target,
        skipping self-loops. */
    static method SynapseList(count: nat) returns (list: seq<SynapseEnds>)
      ensures list == AllPairs(count)
    {
      list := [];
      var s := 0;
      while s < count
        invariant 0 <= s <= count
        invariant list == Pairs(count, s)
      {
        var t := 0;
        while t < count
          invariant 0 <= t <= count
          invariant list == Pairs(count, s) + Row(s, t)
        {
          if s != t {
            list := list + [SynapseEnds(s, t)];
          }
          t := t + 1;
        }
        s := s + 1;
      }
    }

    /** The reported number of units, as written: the default, whatever the
        network's size. */
    method GetNumUnits() returns (r: int)
      requires Valid()
      ensures r == numUnits && r == DefaultNumUnits
    {
      r := numUnits;
    }

    /** The number of neurons, as the getter's documentation intends. */
    method GetNeuronCount() returns (r: int)
      requires Valid()
      ensures r == activation.Length && r == |rules|
    {
      r := n;
    }

    /** The synapse from neuron `i` to neuron `j`, as an index into the
        synapse list, or -1 when there is none (Network.getSynapse). */
    method FindSynapse(i: nat, j: nat) returns (k: int)
      ensures -1 <= k < |synapses|
      ensures k >= 0 ==> synapses[k] == SynapseEnds(i, j)
      ensures k < 0 <==> SynapseEnds(i, j) !in synapses
    {
      k := 0;
      while k < |synapses|
        invariant 0 <= k <= |synapses|
        invariant SynapseEnds(i, j) !in synapses[..k]
      {
        if synapses[k] == SynapseEnds(i, j) {
          return;
        }
        assert synapses[..k + 1] == synapses[..k] + [synapses[k]];
        k := k + 1;
      }
      assert synapses[..k] == synapses;
      k := -1;
    }

    /** Update neuron `k` from its weighted input and commit the buffer to
        its activation at once. */
    method UpdateNeuron(k: nat)
      requires Valid() && k < n
      modifies activation
      ensures activation[..] == Step(synapses, strength[..], rules, old(activation[..]), k)
    {
      var input := FanInSum(synapses, strength[..], activation[..], k);
      activation[k] := BinaryValue(rules[k], input);
    }

    /** One tick. When the parent network clamps its neurons nothing happens
        and no index is drawn. Otherwise n update-then-commit steps run: in
        list order, or, for the random order, on the first n entries of
        `draws` (each in [0, n), repeats and omissions allowed). `consumed`
        is the number of random indices drawn. */
    method Update(clampNeurons: bool, draws: seq<nat>) returns (consumed: nat)
      requires Valid()
      requires !clampNeurons && updateOrder == RandomUpdate ==>
                 |draws| >= n && forall t :: 0 <= t < n ==> draws[t] < n
      modifies activation, this`randIntCreated
      ensures Valid()
      ensures clampNeurons ==>
                consumed == 0 && activation[..] == old(activation[..]) && randIntCreated == old(randIntCreated)
      ensures !clampNeurons && updateOrder == RandomUpdate ==>
                consumed == n && randIntCreated &&
                activation[..] == Sweep(synapses, strength[..], rules, old(activation[..]), draws[..n])
      ensures !clampNeurons && updateOrder != RandomUpdate ==>
                consumed == 0 && randIntCreated == old(randIntCreated) &&
                activation[..] == Sweep(synapses, strength[..], rules, old(activation[..]), Range(n))
    {
      consumed := 0;
      if clampNeurons {
        return;
      }
      var nCount := n;
      var order: seq<nat>;
      if updateOrder == RandomUpdate {
        if !randIntCreated {
          randIntCreated := true;
        }
        order := draws[..nCount];
        consumed := nCount;
      } else {
        order := Range(nCount);
      }
      UpdateInOrder(order);
    }

    /** Update-then-commit each neuron of `order` in turn. */
    method UpdateInOrder(order: seq<nat>)
      requires Valid()
      requires forall t :: 0 <= t < |order| ==> order[t] < n
      modifies activation
      ensures activation[..] == Sweep(synapses, strength[..], rules, old(activation[..]), order)
    {
      ghost var start := activation[..];
      var i := 0;
      while i < |order|
        invariant 0 <= i <= |order|
        invariant activation[..] == Sweep(synapses, strength[..], rules, start, order[..i])
      {
        UpdateNeuron(order[i]);
        assert order[..i + 1][..i] == order[..i];
        i := i + 1;
      }
      assert order[..|order|] == order;
    }

    /** Add the Hebbian increment of the current activation pattern to every
        synapse. The floor and ceiling are read from neuron 0's rule, so an
        empty network throws (`ok` false) and changes nothing. */
    method Train() returns (ok: bool)
      requires Valid()
      requires n > 0 ==> rules[0].ceiling != rules[0].floor
      modifies strength
      ensures ok == (n > 0)
      ensures !ok ==> strength[..] == old(strength[..])
      ensures ok ==> strength[..] == Trained(synapses, old(strength[..]), activation[..], rules[0].floor, rules[0].ceiling)
    {
      if n == 0 {
        return false;
      }
      var low := rules[0].floor;
      var hi := rules[0].ceiling;
      AddHebbIncrements(low, hi);
      ok := true;
    }

    /** The training loop: every synapse, in list order, gains the Hebbian
        increment of its two endpoints' activations over [low, hi]. */
    method AddHebbIncrements(low: real, hi: real)
      requires Valid() && hi != low
      modifies strength
      ensures strength[..] == Trained(synapses, old(strength[..]), activation[..], low, hi)
    {
      ghost var before := strength[..];
      var a := 0;
      while a < strength.Length
        invariant 0 <= a <= strength.Length
        invariant forall b :: 0 <= b < a ==>
                    strength[b] == before[b] + HebbIncrement(activation[synapses[b].source], activation[synapses[b].target], low, hi)
        invariant forall b :: a <= b < strength.Length ==> strength[b] == before[b]
      {
        var src := synapses[a].source;
        var tar := synapses[a].target;
        strength[a] := strength[a] + HebbIncrement(activation[src], activation[tar], low, hi);
        a := a + 1;
      }
    }

    /** One step of the randomisation loop: synapse (i,j) takes `draw`
        rounded to an integer and synapse (j,i) copies its strength. Both
        exist in a Hopfield network, so neither lookup comes back empty. */
    method RandomizePair(i: nat, j: nat, draw: real)
      requires Valid() && j < i < n
      modifies strength
      ensures forall a :: 0 <= a < |synapses| ==>
                strength[a] == if synapses[a] == SynapseEnds(i, j) || synapses[a] == SynapseEnds(j, i)
                               then Round(draw) as real else old(strength[a])
    {
      AllPairsDistinct(n);
      var w := FindSynapse(i, j);
      assert SynapseEnds(i, j) in synapses;
      if w >= 0 {
        strength[w] := Round(draw) as real;
      }
      var w2 := FindSynapse(j, i);
      assert SynapseEnds(j, i) in synapses;
      if w2 >= 0 {
        strength[w2] := strength[w];
      }
    }

    /** Randomise the weights symmetrically: for each pair j < i the synapse
        (i,j) takes the next draw rounded to an integer, and (j,i) copies it.
        `draws` holds the values the synapses' own randomisation produces. */
    method RandomizeWeights(draws: seq<real>)
      requires Valid()
      requires |draws| >= Tri(n)
      modifies strength
      ensures forall a :: 0 <= a < |synapses| ==> strength[a] == Round(draws[PairSlot(synapses[a])]) as real
      ensures Symmetric(synapses, strength[..])
      ensures forall a :: 0 <= a < strength.Length ==> IsInteger(strength[a])
    {
      ghost var before := strength[..];
      var d := 0;
      var i := 0;
      while i < n
        invariant 0 <= i <= n && d == Tri(i)
        invariant forall a :: 0 <= a < |synapses| ==>
                    strength[a] == if MaxEnd(synapses[a]) < i then Round(draws[PairSlot(synapses[a])]) as real else before[a]
      {
        RandomizeRow(i, d, draws, before);
        d := d + i;
        i := i + 1;
      }
      SlotValuesSymmetric(synapses, strength[..], draws);
    }

    /** The inner loop of the randomisation for row `i`: the pairs (i,j) and
        (j,i) for every j < i take the draws d, d + 1, ..., d + i - 1. */
    method RandomizeRow(i: nat, d: nat, draws: seq<real>, ghost before: seq<real>)
      requires Valid() && i < n && d == Tri(i) && |draws| >= Tri(n) && |before| == |synapses|
      requires forall a :: 0 <= a < |synapses| ==>
                 strength[a] == if MaxEnd(synapses[a]) < i then Round(draws[PairSlot(synapses[a])]) as real else before[a]
      modifies strength
      ensures forall a :: 0 <= a < |synapses| ==>
                strength[a] == if MaxEnd(synapses[a]) < i + 1 then Round(draws[PairSlot(synapses[a])]) as real else before[a]
    {
      var j := 0;
      while j < i
        invariant 0 <= j <= i
        invariant forall a :: 0 <= a < |synapses| ==>
                    strength[a] == if Done(synapses[a], i, j) then Round(draws[PairSlot(synapses[a])]) as real else before[a]
      {
        PairSlotBound(SynapseEnds(i, j), n);
        RandomizePair(i, j, draws[d + j]);
        forall a | 0 <= a < |synapses|
          ensures strength[a] == if Done(synapses[a], i, j + 1) then Round(draws[PairSlot(synapses[a])]) as real else before[a]
        {
          DoneAdvance(synapses[a], i, j);
        }
        j := j + 1;
      }
    }
  }

  /** Strengths that depend only on the unordered pair are symmetric and
      integer-valued. */
  lemma SlotValuesSymmetric(syns: seq<SynapseEnds>, str: seq<real>, draws: seq<real>)
    requires |str| == |syns|
    requires forall a :: 0 <= a < |syns| ==> PairSlot(syns[a]) < |draws|
    requires forall a :: 0 <= a < |syns| ==> str[a] == Round(draws[PairSlot(syns[a])]) as real
    ensures Symmetric(syns, str)
    ensures forall a :: 0 <= a < |str| ==> IsInteger(str[a])
  {
    forall a, b | 0 <= a < |syns| && 0 <= b < |syns| &&
      syns[a].source == syns[b].target && syns[a].target == syns[b].source
      ensures str[a] == str[b]
    {
      assert PairSlot(syns[a]) == PairSlot(syns[b]);
    }
  }

  /** Whether the pair of `p` has been randomised once the inner loop of row
      `i` reaches column `j`. */
  predicate Done(p: SynapseEnds, i: nat, j: nat)
  {
    MaxEnd(p) < i || (MaxEnd(p) == i && MinEnd(p) < j)
  }

  /** Moving the inner loop of row `i` from column `j` to `j + 1` adds
      exactly the pairs (i,j) and (j,i), whose draw slot is Tri(i) + j. */
  lemma DoneAdvance(p: SynapseEnds, i: nat, j: nat)
    requires p.source != p.target && j < i
    ensures Done(p, i, j + 1) == (Done(p, i, j) || p == SynapseEnds(i, j) || p == SynapseEnds(j, i))
    ensures p == SynapseEnds(i, j) || p == SynapseEnds(j, i) ==> PairSlot(p) == Tri(i) + j
  {
  }

  /** Building a four-neuron network reports nine units, not four. */
  method NumUnitsIgnoresSize() returns (h: Hopfield)
    ensures h.n == 4 && h.numUnits == 9 && h.numUnits != h.n
  {
    h := new Hopfield(4);
  }
}
