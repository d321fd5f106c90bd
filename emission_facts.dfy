/** What the emission of `propagateLayer` (loader.js) guarantees: the shape of
    every pulse it appends and, on a fully connected network, how many pulses
    each branch appends. */
module EmissionFacts {
  import opened Draws
  import opened NeuralTopology
  import opened EdgeRanking
  import opened PulseFlow

  lemma {:induction false} ActiveFromExact(a: seq<real>, i: nat)
    requires i <= |a|
    ensures forall j :: i <= j < |a| && a[j] > ACTIVE_THRESHOLD ==> j in ActiveFrom(a, i)
    ensures forall k1, k2 :: 0 <= k1 < k2 < |ActiveFrom(a, i)| ==> ActiveFrom(a, i)[k1] < ActiveFrom(a, i)[k2]
    decreases |a| - i
  {
    if i < |a| {
      ActiveFromExact(a, i + 1);
    }
  }

  /** The filter keeps every node above the threshold, in layer order. */
  lemma ActiveIndicesExact(a: seq<real>)
    ensures forall i :: 0 <= i < |a| && a[i] > ACTIVE_THRESHOLD ==> i in ActiveIndices(a)
    ensures forall k1, k2 :: 0 <= k1 < k2 < |ActiveIndices(a)| ==> ActiveIndices(a)[k1] < ActiveIndices(a)[k2]
  {
    ActiveFromExact(a, 0);
  }

  lemma {:induction false} TargetPulsesShape(conns: seq<Edge>, src: NodeRef, a: real, targets: seq<nat>, gen: nat)
    ensures forall p :: p in TargetPulses(conns, src, a, targets, gen) ==>
      p.from == src && p.to.layer == src.layer + 1 && p.to.index in targets &&
      p.progress == 0.0 && p.speed == OUTPUT_SPEED && p.intensity == a && p.generation == gen
  {
    if targets != [] {
      TargetPulsesShape(conns, src, a, targets[..|targets| - 1], gen);
    }
  }

  lemma {:induction false} OutputBranchShape(act: seq<seq<real>>, l: nat, nodes: seq<nat>, targets: seq<nat>, conns: seq<Edge>, gen: nat)
    requires Shaped(act) && l + 1 < |LAYERS|
    requires forall k :: 0 <= k < |nodes| ==> nodes[k] < |act[l]| && act[l][nodes[k]] > ACTIVE_THRESHOLD
    requires forall k :: 0 <= k < |targets| ==> targets[k] < LAYERS[l + 1]
    ensures forall p :: p in OutputBranch(act[l], l, nodes, targets, conns, gen) ==> Emitted(p, act, l, gen)
  {
    if nodes != [] {
      var i := nodes[|nodes| - 1];
      OutputBranchShape(act, l, nodes[..|nodes| - 1], targets, conns, gen);
      TargetPulsesShape(conns, NodeRef(l, i), act[l][i], targets, gen);
    }
  }

  lemma EdgePulsesShape(act: seq<seq<real>>, l: nat, i: nat, sel: seq<Edge>, rand: nat -> real, k0: nat, gen: nat)
    requires Shaped(act) && l + 1 < |LAYERS| && i < |act[l]| && act[l][i] > ACTIVE_THRESHOLD && Uniform(rand)
    requires forall e :: e in sel ==> Leaves(LAYERS, NodeRef(l, i), e.from, e.to)
    ensures forall p :: p in EdgePulses(sel, act[l][i], rand, k0, gen) ==> Emitted(p, act, l, gen)
  {
    var r := EdgePulses(sel, act[l][i], rand, k0, gen);
    forall p | p in r ensures Emitted(p, act, l, gen) {
      var m :| 0 <= m < |r| && r[m] == p;
      assert sel[m] in sel;
      assert 0.0 <= rand(k0 + m) < 1.0;
    }
  }

  lemma {:induction false} RankedBranchShape(act: seq<seq<real>>, l: nat, nodes: seq<nat>, fanout: nat, conns: seq<Edge>, rand: nat -> real, gen: nat)
    requires Shaped(act) && l + 1 < |LAYERS| && Uniform(rand)
    requires forall k :: 0 <= k < |nodes| ==> nodes[k] < |act[l]| && act[l][nodes[k]] > ACTIVE_THRESHOLD
    ensures forall p :: p in RankedBranch(act[l], l, nodes, fanout, conns, rand, gen) ==> Emitted(p, act, l, gen)
  {
    if nodes != [] {
      var i := nodes[|nodes| - 1];
      var prev := RankedBranch(act[l], l, nodes[..|nodes| - 1], fanout, conns, rand, gen);
      RankedBranchShape(act, l, nodes[..|nodes| - 1], fanout, conns, rand, gen);
      var out := OutEdges(conns, LAYERS, NodeRef(l, i));
      var sel := Strongest(out, fanout);
      StrongestSelects(out, fanout);
      OutEdgesMembers(conns, LAYERS, NodeRef(l, i));
      forall e | e in sel ensures Leaves(LAYERS, NodeRef(l, i), e.from, e.to) {
        assert e in multiset(sel);
        assert e in multiset(out);
      }
      EdgePulsesShape(act, l, i, sel, rand, |prev|, gen);
    }
  }

  lemma EmissionInput(act: seq<seq<real>>, conns: seq<Edge>, rand: nat -> real, gen: nat)
    requires Shaped(act) && Uniform(rand)
    ensures Emission(act, conns, 0, rand, gen) == RankedBranch(act[0], 0, ActiveIndices(act[0]), 2, conns, rand, gen)
  {
  }

  lemma EmissionHidden(act: seq<seq<real>>, conns: seq<Edge>, rand: nat -> real, gen: nat)
    requires Shaped(act) && Uniform(rand)
    ensures Emission(act, conns, 1, rand, gen) == RankedBranch(act[1], 1, Senders(ActiveIndices(act[1])), 1, conns, rand, gen)
  {
  }

  lemma EmissionOutput(act: seq<seq<real>>, conns: seq<Edge>, rand: nat -> real, gen: nat)
    requires Shaped(act) && Uniform(rand)
    ensures Emission(act, conns, 2, rand, gen) == OutputBranch(act[2], 2, ActiveIndices(act[2]), OutputTargets(rand, |act[3]|), conns, gen)
  {
  }

  /** Every pulse `propagateLayer(l)` emits starts at progress 0, runs from an
      active node of layer `l` (activation above 0.2) to a node of layer
      `l + 1`, carries that source's activation as its intensity, and has a
      speed in [0.08, 0.10). */
  lemma EmissionShape(act: seq<seq<real>>, conns: seq<Edge>, l: nat, rand: nat -> real, gen: nat)
    requires Shaped(act) && Uniform(rand)
    ensures forall p :: p in Emission(act, conns, l, rand, gen) ==> Emitted(p, act, l, gen)
  {
    if l == 0 {
      EmissionInput(act, conns, rand, gen);
      RankedBranchShape(act, l, ActiveIndices(act[0]), 2, conns, rand, gen);
    } else if l == 1 {
      EmissionHidden(act, conns, rand, gen);
      RankedBranchShape(act, l, Senders(ActiveIndices(act[1])), 1, conns, rand, gen);
    } else if l == 2 {
      EmissionOutput(act, conns, rand, gen);
      OutputBranchShape(act, l, ActiveIndices(act[2]), OutputTargets(rand, |act[3]|), conns, gen);
    }
  }

  lemma {:induction false} TargetPulsesCount(conns: seq<Edge>, src: NodeRef, a: real, targets: seq<nat>, gen: nat)
    requires Connected(conns, LAYERS) && IsNode(LAYERS, src) && src.layer + 1 < |LAYERS|
    requires forall k :: 0 <= k < |targets| ==> targets[k] < LAYERS[src.layer + 1]
    ensures |TargetPulses(conns, src, a, targets, gen)| == |targets|
  {
    if targets != [] {
      var t := targets[|targets| - 1];
      TargetPulsesCount(conns, src, a, targets[..|targets| - 1], gen);
      assert IsNode(LAYERS, NodeRef(src.layer + 1, t));
    }
  }

  lemma {:induction false} OutputBranchCount(a: seq<real>, l: nat, nodes: seq<nat>, targets: seq<nat>, n: nat, conns: seq<Edge>, gen: nat)
    requires Connected(conns, LAYERS) && l + 1 < |LAYERS| && |a| == LAYERS[l]
    requires forall k :: 0 <= k < |nodes| ==> nodes[k] < |a|
    requires |targets| == n && forall k :: 0 <= k < |targets| ==> targets[k] < LAYERS[l + 1]
    ensures |OutputBranch(a, l, nodes, targets, conns, gen)| == |nodes| * n
  {
    if nodes != [] {
      var i := nodes[|nodes| - 1];
      OutputBranchCount(a, l, nodes[..|nodes| - 1], targets, n, conns, gen);
      TargetPulsesCount(conns, NodeRef(l, i), a[i], targets, gen);
      assert (|nodes| - 1) * n + n == |nodes| * n;
    }
  }

  lemma {:induction false} RankedBranchCount(a: seq<real>, l: nat, nodes: seq<nat>, fanout: nat, conns: seq<Edge>, rand: nat -> real, gen: nat)
    requires Connected(conns, LAYERS) && l + 1 < |LAYERS| && |a| == LAYERS[l] && fanout <= LAYERS[l + 1]
    requires forall k :: 0 <= k < |nodes| ==> nodes[k] < |a|
    ensures |RankedBranch(a, l, nodes, fanout, conns, rand, gen)| == |nodes| * fanout
  {
    if nodes != [] {
      var i := nodes[|nodes| - 1];
      RankedBranchCount(a, l, nodes[..|nodes| - 1], fanout, conns, rand, gen);
      assert IsNode(LAYERS, NodeRef(l, i));
      assert (|nodes| - 1) * fanout + fanout == |nodes| * fanout;
    }
  }

  /** The output layer emits nothing. */
  lemma FinalEmissionEmpty(act: seq<seq<real>>, conns: seq<Edge>, l: nat, rand: nat -> real, gen: nat)
    requires Shaped(act) && Uniform(rand) && l >= |LAYERS| - 1
    ensures Emission(act, conns, l, rand, gen) == []
  {
  }
}
