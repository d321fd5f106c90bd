/** What `propagateLayer` emits and what one `updatePulses` sweep does
    (loader.js), as functions of the network state. The loader's methods are
    proved to compute exactly these; the lemmas here state what the source
    promises about them. */
module PulseFlow {
  import opened Draws
  import opened NeuralTopology
  import opened EdgeRanking

  /** A node takes part in propagation when its activation exceeds this. */
  const ACTIVE_THRESHOLD: real := 0.2
  /** Fixed speed of pulses into the output layer. */
  const OUTPUT_SPEED: real := 0.08
  /** At most this many hidden nodes propagate per call. */
  const HIDDEN_SENDERS: nat := 10
  /** Share of a pulse's intensity added to the node it reaches. */
  const HIT_GAIN: real := 0.8

  /** A pulse in flight. `generation` identifies the node objects it points
      to: a resize builds new nodes, and pulses still in flight keep pointing
      at the old ones. */
  datatype Pulse = Pulse(from: NodeRef, to: NodeRef, progress: real, speed: real, intensity: real, generation: nat)

  /** One activation per node, layer by layer, sized like `LAYERS`. */
  ghost predicate Shaped(act: seq<seq<real>>)
  {
    |act| == |LAYERS| && forall l :: 0 <= l < |act| ==> |act[l]| == LAYERS[l]
  }

  ghost predicate Bounded(act: seq<seq<real>>)
  {
    forall l, i :: 0 <= l < |act| && 0 <= i < |act[l]| ==> 0.0 <= act[l][i] <= 1.0
  }

  // ------------------------------------------------------------ emission

  /** Positions from `i` on whose activation exceeds the threshold, in order. */
  function ActiveFrom(a: seq<real>, i: nat): (r: seq<nat>)
    requires i <= |a|
    ensures forall k :: 0 <= k < |r| ==> i <= r[k] < |a| && a[r[k]] > ACTIVE_THRESHOLD
    decreases |a| - i
  {
    if i == |a| then []
    else (if a[i] > ACTIVE_THRESHOLD then [i] else []) + ActiveFrom(a, i + 1)
  }

  /** `fromLayer.filter(n => n.activation > 0.2)`, as positions in the layer. */
  function ActiveIndices(a: seq<real>): (r: seq<nat>)
    ensures forall k :: 0 <= k < |r| ==> r[k] < |a| && a[r[k]] > ACTIVE_THRESHOLD
  {
    ActiveFrom(a, 0)
  }

  /** `0.08 + Math.random() * 0.02`. */
  function RandomSpeed(r: real): real
  {
    0.08 + r * 0.02
  }

  /** Output-adjacent branch, one source: a pulse at speed 0.08 toward each
      chosen target for which an edge exists. */
  function TargetPulses(conns: seq<Edge>, src: NodeRef, a: real, targets: seq<nat>, gen: nat): seq<Pulse>
  {
    if targets == [] then []
    else
      var t := targets[|targets| - 1];
      TargetPulses(conns, src, a, targets[..|targets| - 1], gen) +
        match FindEdge(conns, src, NodeRef(src.layer + 1, t))
        case Some(e) => [Pulse(e.from, e.to, 0.0, OUTPUT_SPEED, a, gen)]
        case None => []
  }

  /** Output-adjacent branch: every listed source, in order. */
  function OutputBranch(a: seq<real>, l: nat, nodes: seq<nat>, targets: seq<nat>, conns: seq<Edge>, gen: nat): seq<Pulse>
    requires forall k :: 0 <= k < |nodes| ==> nodes[k] < |a|
  {
    if nodes == [] then []
    else
      var i := nodes[|nodes| - 1];
      OutputBranch(a, l, nodes[..|nodes| - 1], targets, conns, gen) + TargetPulses(conns, NodeRef(l, i), a[i], targets, gen)
  }

  /** A pulse along each selected edge; the `m`-th takes speed draw `k0 + m`. */
  function EdgePulses(sel: seq<Edge>, a: real, rand: nat -> real, k0: nat, gen: nat): (r: seq<Pulse>)
    ensures |r| == |sel|
  {
    seq(|sel|, m requires 0 <= m < |sel| => Pulse(sel[m].from, sel[m].to, 0.0, RandomSpeed(rand(k0 + m)), a, gen))
  }

  /** Input and hidden branches: each listed source sends a pulse along each
      of its `fanout` strongest edges; speed draws are taken in emission order. */
  function RankedBranch(a: seq<real>, l: nat, nodes: seq<nat>, fanout: nat, conns: seq<Edge>, rand: nat -> real, gen: nat): seq<Pulse>
    requires l + 1 < |LAYERS|
    requires forall k :: 0 <= k < |nodes| ==> nodes[k] < |a|
  {
    if nodes == [] then []
    else
      var i := nodes[|nodes| - 1];
      var prev := RankedBranch(a, l, nodes[..|nodes| - 1], fanout, conns, rand, gen);
      prev + EdgePulses(Strongest(OutEdges(conns, LAYERS, NodeRef(l, i)), fanout), a[i], rand, |prev|, gen)
  }

  /** The two output targets `Math.floor(Math.random() * toLayer.length)`,
      drawn independently: they may coincide. */
  function OutputTargets(rand: nat -> real, n: nat): (t: seq<nat>)
    requires Uniform(rand) && n > 0
    ensures |t| == 2 && t[0] < n && t[1] < n
  {
    [FloorIndex(rand(0), n), FloorIndex(rand(1), n)]
  }

  /** The pulses `propagateLayer(l)` appends, for activations `act`, edge list
      `conns`, draws `rand` and current node generation `gen`. The
      output-adjacent test comes before the input test. */
  function Emission(act: seq<seq<real>>, conns: seq<Edge>, l: nat, rand: nat -> real, gen: nat): seq<Pulse>
    requires Shaped(act) && Uniform(rand)
  {
    if l >= |act| - 1 then []
    else
      var active := ActiveIndices(act[l]);
      if l == |act| - 2 then
        OutputBranch(act[l], l, active, OutputTargets(rand, |act[l + 1]|), conns, gen)
      else if l == 0 then
        RankedBranch(act[l], l, active, 2, conns, rand, gen)
      else
        RankedBranch(act[l], l, Senders(active), 1, conns, rand, gen)
  }

  /** What every emitted pulse looks like. */
  ghost predicate Emitted(p: Pulse, act: seq<seq<real>>, l: nat, gen: nat)
    requires Shaped(act)
  {
    p.progress == 0.0 && p.generation == gen &&
    p.from.layer == l && l + 1 < |LAYERS| && p.to.layer == l + 1 &&
    p.from.index < LAYERS[l] && p.to.index < LAYERS[l + 1] &&
    act[l][p.from.index] > ACTIVE_THRESHOLD && p.intensity == act[l][p.from.index] &&
    OUTPUT_SPEED <= p.speed < 0.1
  }

  /** The first ten of the active hidden nodes (all of them when fewer). */
  function Senders(active: seq<nat>): (r: seq<nat>)
    ensures |r| == Min(HIDDEN_SENDERS, |active|)
    ensures forall k :: 0 <= k < |r| ==> r[k] == active[k]
  {
    active[..Min(HIDDEN_SENDERS, |active|)]
  }
}
