/** The loops of `propagateLayer` (loader.js), each proved to produce exactly
    the pulses `PulseFlow` specifies. Each method returns the pulses it
    pushes, in push order; the loader appends them to its queue. */
module PulseEmit {
  import opened Draws
  import opened NeuralTopology
  import opened EdgeRanking
  import opened PulseFlow

  /** `targetNodes.forEach(...)` for one source node of the output-adjacent branch. */
  method EmitToTargets(conns: seq<Edge>, src: NodeRef, a: real, targets: seq<nat>, gen: nat) returns (out: seq<Pulse>)
    ensures out == TargetPulses(conns, src, a, targets, gen)
  {
    out := [];
    var j := 0;
    while j < |targets|
      invariant 0 <= j <= |targets|
      invariant out == TargetPulses(conns, src, a, targets[..j], gen)
    {
      var conn := FindEdge(conns, src, NodeRef(src.layer + 1, targets[j]));
      if conn.Some? {
        out := out + [Pulse(conn.value.from, conn.value.to, 0.0, OUTPUT_SPEED, a, gen)];
      }
      assert targets[..j + 1][..j] == targets[..j];
      j := j + 1;
    }
    assert targets[..j] == targets;
  }

  /** `activeNodes.forEach(...)` of the output-adjacent branch. */
  method EmitOutputBranch(a: seq<real>, l: nat, nodes: seq<nat>, targets: seq<nat>, conns: seq<Edge>, gen: nat)
    returns (out: seq<Pulse>)
    requires forall k :: 0 <= k < |nodes| ==> nodes[k] < |a|
    ensures out == OutputBranch(a, l, nodes, targets, conns, gen)
  {
    out := [];
    var k := 0;
    while k < |nodes|
      invariant 0 <= k <= |nodes|
      invariant out == OutputBranch(a, l, nodes[..k], targets, conns, gen)
    {
      var more := EmitToTargets(conns, NodeRef(l, nodes[k]), a[nodes[k]], targets, gen);
      out := out + more;
      assert nodes[..k + 1][..k] == nodes[..k];
      k := k + 1;
    }
    assert nodes[..k] == nodes;
  }

  /** `selected.forEach(...)`: a pulse along each selected edge, the `m`-th
      taking speed draw `k0 + m`. */
  method EmitAlong(sel: seq<Edge>, a: real, rand: nat -> real, k0: nat, gen: nat) returns (out: seq<Pulse>)
    ensures out == EdgePulses(sel, a, rand, k0, gen)
  {
    out := [];
    var m := 0;
    while m < |sel|
      invariant 0 <= m <= |sel|
      invariant out == EdgePulses(sel[..m], a, rand, k0, gen)
    {
      out := out + [Pulse(sel[m].from, sel[m].to, 0.0, RandomSpeed(rand(k0 + m)), a, gen)];
      assert sel[..m + 1][..m] == sel[..m];
      m := m + 1;
    }
    assert sel[..m] == sel;
  }

  /** The input and hidden branches: each listed node sends pulses along its
      `fanout` strongest edges. */
  method EmitRanked(a: seq<real>, l: nat, nodes: seq<nat>, fanout: nat, conns: seq<Edge>, rand: nat -> real, gen: nat)
    returns (out: seq<Pulse>)
    requires l + 1 < |LAYERS|
    requires forall k :: 0 <= k < |nodes| ==> nodes[k] < |a|
    ensures out == RankedBranch(a, l, nodes, fanout, conns, rand, gen)
  {
    out := [];
    var k := 0;
    while k < |nodes|
      invariant 0 <= k <= |nodes|
      invariant out == RankedBranch(a, l, nodes[..k], fanout, conns, rand, gen)
    {
      var selected := Strongest(OutEdges(conns, LAYERS, NodeRef(l, nodes[k])), fanout);
      var more := EmitAlong(selected, a[nodes[k]], rand, |out|, gen);
      out := out + more;
      assert nodes[..k + 1][..k] == nodes[..k];
      k := k + 1;
    }
    assert nodes[..k] == nodes;
  }

  /** The body of `propagateLayer(l)`: the pulses it appends. */
  method EmitLayer(act: seq<seq<real>>, conns: seq<Edge>, l: nat, rand: nat -> real, gen: nat) returns (out: seq<Pulse>)
    requires Shaped(act) && Uniform(rand)
    ensures out == Emission(act, conns, l, rand, gen)
  {
    if l >= |act| - 1 {
      return [];
    }
    var active := ActiveIndices(act[l]);
    if l == |act| - 2 {
      var targets := [FloorIndex(rand(0), |act[l + 1]|), FloorIndex(rand(1), |act[l + 1]|)];
      out := EmitOutputBranch(act[l], l, active, targets, conns, gen);
    } else if l == 0 {
      out := EmitRanked(act[l], l, active, 2, conns, rand, gen);
    } else {
      var senders := active[..Min(HIDDEN_SENDERS, |active|)];
      out := EmitRanked(act[l], l, senders, 1, conns, rand, gen);
    }
  }
}
