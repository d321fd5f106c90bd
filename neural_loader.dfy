/** The `NeuralLoader` state machine of loader.js: a four-layer network
    whose pulses reveal the visitor's name one letter per cycle, then fade
    out. Canvas drawing is not modelled; the frame driver, the pulse queue,
    activations, timers and the caption state are. */
module Loader {
  import opened Draws
  import opened NeuralTopology
  import opened EdgeRanking
  import opened PulseFlow
  import opened PulseSweep
  import opened PulseEmit
  import EmissionFacts
  import EmissionCounts

  /** `cycleDelay`: milliseconds between the starts of two letter cycles. */
  const CYCLE_DELAY: real := 1000.0
  /** `cursorBlinkInterval`, in milliseconds. */
  const BLINK_INTERVAL: real := 500.0
  /** `lastCycleTime` at construction, so that the first frame starts a cycle. */
  const FIRST_CYCLE_TIME: real := -5000.0
  /** Activation kept per drawn frame. */
  const DECAY: real := 0.94
  /** Opacity lost per frame while fading out. */
  const FADE_STEP: real := 0.015
  /** Number of edges of the fully connected [18, 15, 10, 5] network. */
  const EDGES: nat := 470

  /** `toUpperCase` on ASCII letters. */
  function Upper(c: char): char
  {
    if 'a' <= c <= 'z' then (c as int - 32) as char else c
  }

  function ToUpper(s: string): (r: string)
    ensures |r| == |s|
  {
    seq(|s|, i requires 0 <= i < |s| => Upper(s[i]))
  }

  /** The stored name has no lower-case ASCII letter, and upper-casing it
      again changes nothing. */
  lemma ToUpperNormal(s: string)
    ensures forall i :: 0 <= i < |s| ==> !('a' <= ToUpper(s)[i] <= 'z')
    ensures ToUpper(ToUpper(s)) == ToUpper(s)
  {
  }

  /** The activations of a freshly built network: every node at 0. */
  function ZeroNetwork(): (act: seq<seq<real>>)
    ensures Shaped(act) && Bounded(act)
  {
    seq(|LAYERS|, l requires 0 <= l < |LAYERS| => seq(LAYERS[l], i => 0.0))
  }

  /** The activations `startCycle` leaves on a network shaped like `act`:
      input node `i` at `0.3 + draw i * 0.4`, every other node at 0. */
  function CycleActivations(act: seq<seq<real>>, rand: nat -> real): (r: seq<seq<real>>)
    requires |act| > 0
    ensures |r| == |act| && forall l :: 0 <= l < |r| ==> |r[l]| == |act[l]|
  {
    seq(|act|, l requires 0 <= l < |act| =>
      if l == 0 then seq(|act[0]|, i requires 0 <= i < |act[0]| => 0.3 + rand(i) * 0.4)
      else seq(|act[l]|, i => 0.0))
  }

  /** A new cycle zeroes everything past the input layer and gives every
      input node an activation in [0.3, 0.7), so all of them are above the
      0.2 threshold. */
  lemma CycleActivationsRange(act: seq<seq<real>>, rand: nat -> real)
    requires Shaped(act) && Uniform(rand)
    ensures Shaped(CycleActivations(act, rand)) && Bounded(CycleActivations(act, rand))
    ensures forall i :: 0 <= i < LAYERS[0] ==> 0.3 <= CycleActivations(act, rand)[0][i] < 0.7
    ensures forall l, i :: 0 < l < |LAYERS| && 0 <= i < LAYERS[l] ==> CycleActivations(act, rand)[l][i] == 0.0
  {
    var a := CycleActivations(act, rand);
    forall i | 0 <= i < LAYERS[0] ensures 0.3 <= a[0][i] < 0.7 {
      ScaleBelow(rand(i), 0.4);
    }
  }

  lemma {:induction false} AllActiveFrom(a: seq<real>, i: nat)
    requires i <= |a| && forall j :: i <= j < |a| ==> a[j] > ACTIVE_THRESHOLD
    ensures |ActiveFrom(a, i)| == |a| - i
    decreases |a| - i
  {
    if i < |a| {
      AllActiveFrom(a, i + 1);
    }
  }

  /** Every input node of a new cycle is active, so the input layer sends
      two pulses from each of its 18 nodes: 36 pulses. */
  lemma CycleInputEmission(act: seq<seq<real>>, conns: seq<Edge>, rand: nat -> real, speeds: nat -> real, gen: nat)
    requires Shaped(act) && Uniform(rand) && Uniform(speeds) && Connected(conns, LAYERS)
    ensures |Emission(CycleActivations(act, rand), conns, 0, speeds, gen)| == 2 * LAYERS[0]
  {
    var a := CycleActivations(act, rand);
    CycleActivationsRange(act, rand);
    AllActiveFrom(a[0], 0);
    EmissionCounts.InputEmissionCount(a, conns, speeds, gen);
  }

  /** The activations a frame sweeps: those of a new cycle when the frame
      starts one (`due`), otherwise the current ones. */
  function FrameActivations(act: seq<seq<real>>, rand: nat -> real, due: bool): seq<seq<real>>
    requires |act| > 0
  {
    if due then CycleActivations(act, rand) else act
  }

  /** The queue a frame sweeps: when the frame starts a cycle, the pulses
      the input layer emits from the new activations (speeds drawn after
      the 18 activation draws) join the end of the queue. */
  function FrameQueue(act: seq<seq<real>>, ps: seq<Pulse>, conns: seq<Edge>, rand: nat -> real, gen: nat, due: bool): seq<Pulse>
    requires Shaped(act) && Uniform(rand)
  {
    if due then ps + Emission(CycleActivations(act, rand), conns, 0, Skip(rand, LAYERS[0]), gen) else ps
  }

  /** A frame that starts a cycle queues the 36 input pulses behind those
      already in flight; any other frame queues nothing new. */
  lemma FrameQueueGrowth(act: seq<seq<real>>, ps: seq<Pulse>, conns: seq<Edge>, rand: nat -> real, gen: nat, due: bool)
    requires Shaped(act) && Uniform(rand) && Connected(conns, LAYERS)
    ensures |FrameQueue(act, ps, conns, rand, gen, due)| == |ps| + (if due then 2 * LAYERS[0] else 0)
    ensures FrameQueue(act, ps, conns, rand, gen, due)[..|ps|] == ps
  {
    if due {
      SkipUniform(rand, LAYERS[0]);
      CycleInputEmission(act, conns, rand, Skip(rand, LAYERS[0]), gen);
    }
  }

  /** The two loops of `startCycle` that set activations. */
  method FreshActivations(act: seq<seq<real>>, rand: nat -> real) returns (a: seq<seq<real>>)
    requires |act| > 0
    ensures a == CycleActivations(act, rand)
  {
    a := act;
    var l := 1;
    while l < |a|
      invariant 1 <= l <= |a| == |act|
      invariant a[0] == act[0]
      invariant forall m :: 0 <= m < |a| ==> |a[m]| == |act[m]|
      invariant forall m :: 0 < m < l ==> a[m] == CycleActivations(act, rand)[m]
    {
      var i := 0;
      while i < |a[l]|
        invariant |a| == |act| && l < |a|
        invariant 0 <= i <= |a[l]| == |act[l]|
        invariant a[0] == act[0]
        invariant forall m :: 0 <= m < |a| ==> |a[m]| == |act[m]|
        invariant forall m :: 0 < m < l ==> a[m] == CycleActivations(act, rand)[m]
        invariant forall k :: 0 <= k < i ==> a[l][k] == 0.0
      {
        a := a[l := a[l][i := 0.0]];
        i := i + 1;
      }
      assert a[l] == CycleActivations(act, rand)[l];
      l := l + 1;
    }
    var i := 0;
    while i < |a[0]|
      invariant |a| == |act|
      invariant 0 <= i <= |a[0]| == |act[0]|
      invariant forall m :: 0 < m < |a| ==> a[m] == CycleActivations(act, rand)[m]
      invariant forall k :: 0 <= k < i ==> a[0][k] == 0.3 + rand(k) * 0.4
    {
      a := a[0 := a[0][i := 0.3 + rand(i) * 0.4]];
      i := i + 1;
    }
    assert a[0] == CycleActivations(act, rand)[0];
  }

  /** `activation *= 0.94` on every node. */
  function Decayed(act: seq<seq<real>>): (r: seq<seq<real>>)
    ensures |r| == |act| && forall l :: 0 <= l < |r| ==> |r[l]| == |act[l]|
  {
    seq(|act|, l requires 0 <= l < |act| => seq(|act[l]|, i requires 0 <= i < |act[l]| => act[l][i] * DECAY))
  }

  /** Decay keeps activations in [0, 1] and never raises one. */
  lemma DecayedBounded(act: seq<seq<real>>)
    requires Bounded(act)
    ensures Bounded(Decayed(act))
    ensures forall l, i :: 0 <= l < |act| && 0 <= i < |act[l]| ==> Decayed(act)[l][i] <= act[l][i]
  {
  }

  /** What every queued pulse satisfies: it is on its way (progress in
      [0, 1)), runs between adjacent layers of the network, was emitted by
      an active node and is no newer than the current network. */
  ghost predicate Flowing(p: Pulse, gen: nat)
  {
    0.0 <= p.progress < 1.0 && OUTPUT_SPEED <= p.speed < 0.1 &&
    ACTIVE_THRESHOLD < p.intensity <= 1.0 &&
    IsNode(LAYERS, p.from) && IsNode(LAYERS, p.to) && p.to.layer == p.from.layer + 1 &&
    p.generation <= gen
  }

  lemma InFlightFlowing(ps: seq<Pulse>, gen: nat)
    requires forall p :: p in ps ==> Flowing(p, gen)
    ensures forall q :: q in InFlight(ps) ==> Flowing(q, gen)
  {
    InFlightMembers(ps);
  }

  lemma EmissionFlowing(act: seq<seq<real>>, conns: seq<Edge>, l: nat, rand: nat -> real, gen: nat)
    requires Shaped(act) && Bounded(act) && Uniform(rand)
    ensures forall p :: p in Emission(act, conns, l, rand, gen) ==> Flowing(p, gen)
  {
    EmissionFacts.EmissionShape(act, conns, l, rand, gen);
  }

  // ------------------------------------------------------------- wiring

  /** Edge number `k` carries weight `Math.random() - 0.5` from draw `k`. */
  ghost predicate Weighted(conns: seq<Edge>, rand: nat -> real)
  {
    forall k :: 0 <= k < |conns| ==> conns[k].weight == rand(k) - 0.5
  }

  lemma MatchesPush(conns: seq<Edge>, pairs: seq<(NodeRef, NodeRef)>, e: Edge)
    requires Matches(conns, pairs)
    ensures Matches(conns + [e], pairs + [(e.from, e.to)])
  {
  }

  /** The innermost loop of `initConnections`: node `i` of layer `l` joined
      to the `n` nodes of layer `l + 1`. */
  method WireRow(conns: seq<Edge>, ghost pairs: seq<(NodeRef, NodeRef)>, l: nat, i: nat, n: nat, rand: nat -> real)
    returns (out: seq<Edge>)
    requires Matches(conns, pairs) && Weighted(conns, rand)
    ensures Matches(out, pairs + Row(l, i, n)) && Weighted(out, rand)
  {
    out := conns;
    var j := 0;
    while j < n
      invariant 0 <= j <= n
      invariant Matches(out, pairs + Row(l, i, j)) && Weighted(out, rand)
    {
      var e := Edge(NodeRef(l, i), NodeRef(l + 1, j), rand(|out|) - 0.5);
      MatchesPush(out, pairs + Row(l, i, j), e);
      assert pairs + Row(l, i, j) + [(e.from, e.to)] == pairs + Row(l, i, j + 1);
      out := out + [e];
      j := j + 1;
    }
  }

  /** The middle loop: every node of layer `l` joined to all of layer `l + 1`. */
  method WireBlock(conns: seq<Edge>, ghost pairs: seq<(NodeRef, NodeRef)>, layers: seq<nat>, l: nat, rand: nat -> real)
    returns (out: seq<Edge>)
    requires l + 1 < |layers|
    requires Matches(conns, pairs) && Weighted(conns, rand)
    ensures Matches(out, pairs + Block(layers, l, layers[l])) && Weighted(out, rand)
  {
    out := conns;
    var i := 0;
    while i < layers[l]
      invariant 0 <= i <= layers[l]
      invariant Matches(out, pairs + Block(layers, l, i)) && Weighted(out, rand)
    {
      out := WireRow(out, pairs + Block(layers, l, i), l, i, layers[l + 1], rand);
      assert pairs + Block(layers, l, i) + Row(l, i, layers[l + 1]) == pairs + Block(layers, l, i + 1);
      i := i + 1;
    }
  }

  ghost predicate WeightsInRange(conns: seq<Edge>)
  {
    forall k :: 0 <= k < |conns| ==> -0.5 <= conns[k].weight < 0.5
  }

  /** The outer loop: the whole network, weights in [-0.5, 0.5). */
  method WireNetwork(rand: nat -> real) returns (conns: seq<Edge>)
    requires Uniform(rand)
    ensures Wired(conns, LAYERS) && Weighted(conns, rand) && |conns| == EDGES
    ensures Connected(conns, LAYERS) && WeightsInRange(conns)
  {
    conns := [];
    var l := 0;
    while l < |LAYERS| - 1
      invariant 0 <= l <= |LAYERS| - 1
      invariant Matches(conns, Wiring(LAYERS, l)) && Weighted(conns, rand)
    {
      conns := WireBlock(conns, Wiring(LAYERS, l), LAYERS, l, rand);
      l := l + 1;
    }
    assert FullWiring(LAYERS) == Wiring(LAYERS, l);
    forall k | 0 <= k < |conns| ensures -0.5 <= conns[k].weight < 0.5 {
      assert 0.0 <= rand(k) < 1.0;
    }
    WiredConnected(conns, LAYERS);
    FourLayerEdgeCount(LAYERS);
  }

  // ------------------------------------------------------ the invariant

  /** Activations sized like the network, each in [0, 1]. */
  ghost predicate Activations(act: seq<seq<real>>)
  {
    Shaped(act) && Bounded(act)
  }

  /** Edges join each node to every node of the next layer; weights in [-0.5, 0.5). */
  ghost predicate WiringOk(conns: seq<Edge>)
  {
    Connected(conns, LAYERS) && WeightsInRange(conns)
  }

  ghost predicate Queued(ps: seq<Pulse>, gen: nat)
  {
    forall p :: p in ps ==> Flowing(p, gen)
  }

  /** The detected text is the first `letter` letters of the name, and the
      caption shows a prefix of it. */
  ghost predicate Caption(name: string, letter: nat, text: string, shown: string)
  {
    letter <= |name| && text == name[..letter] && shown <= text
  }

  /** Only layers with a next layer wait for a delayed propagation. */
  ghost predicate PendingLayers(ls: seq<nat>)
  {
    forall l :: l in ls ==> l < |LAYERS| - 1
  }

  /** A sweep keeps the invariant's parts it touches: the queue stays well
      formed, activations stay in [0, 1], the text stays a prefix of the name
      and a cycle still reveals at most one letter. */
  lemma SweepKeeps(ps: seq<Pulse>, act: seq<seq<real>>, gen: nat, name: string,
                   activated0: bool, letter0: nat, start: nat, shown: string)
    requires Queued(ps, gen) && Activations(act) && letter0 <= |name| && Caption(name, letter0, name[..letter0], shown)
    requires letter0 == start || (activated0 && letter0 == start + 1)
    ensures Queued(InFlight(ps), gen) && Activations(ApplyArrivals(act, ps, gen))
    ensures Caption(name, Revealed(letter0, activated0, ps, |name|), name[..Revealed(letter0, activated0, ps, |name|)], shown)
    ensures Revealed(letter0, activated0, ps, |name|) == start ||
      ((activated0 || ReachesFinal(ps)) && Revealed(letter0, activated0, ps, |name|) == start + 1)
    ensures PendingLayers(Scheduled(ps, gen))
  {
    InFlightFlowing(ps, gen);
    ArrivalsBounded(act, ps, gen);
    var letter := Revealed(letter0, activated0, ps, |name|);
    assert name[..letter0] <= name[..letter];
    ScheduleMembers(CompletedLayers(ps), InFlight(ps), HitCounts(ps, gen));
  }

  // ------------------------------------------------- the loops of a frame

  /** The activations after pulse `p` is handled, given those before it. */
  function Landed(a: seq<seq<real>>, p: Pulse, act: seq<seq<real>>, gen: nat): seq<seq<real>>
    requires |a| == |act| && forall l :: 0 <= l < |act| ==> |a[l]| == |act[l]|
  {
    if Lands(p, act, gen) then a[p.to.layer := a[p.to.layer][p.to.index := Hit(a[p.to.layer][p.to.index], p.intensity)]]
    else a
  }

  /** What one more pulse adds to each quantity a sweep computes. */
  lemma SweepPrefix(ps: seq<Pulse>, act: seq<seq<real>>, gen: nat, k: nat)
    requires k < |ps|
    ensures InFlight(ps[..k + 1]) == InFlight(ps[..k]) + (if Arrives(ps[k]) then [] else [Advance(ps[k])])
    ensures ApplyArrivals(act, ps[..k + 1], gen) == Landed(ApplyArrivals(act, ps[..k], gen), ps[k], act, gen)
    ensures !Arrives(ps[k]) ==> ApplyArrivals(act, ps[..k + 1], gen) == ApplyArrivals(act, ps[..k], gen)
    ensures CompletedLayers(ps[..k + 1]) ==
      var prev := CompletedLayers(ps[..k]);
      if Arrives(ps[k]) && ps[k].to.layer !in prev then prev + [ps[k].to.layer] else prev
    ensures HitCounts(ps[..k + 1], gen) ==
      var m := HitCounts(ps[..k], gen);
      var key := HitKey(ps[k], gen);
      if Arrives(ps[k]) then m[key := (if key in m then m[key] else 0) + 1] else m
    ensures ReachesFinal(ps[..k + 1]) <==> ReachesFinal(ps[..k]) || (Arrives(ps[k]) && ps[k].to.layer == |LAYERS| - 1)
  {
    assert ps[..k + 1][..k] == ps[..k];
    assert ps[..k + 1][k] == ps[k];
    ReachesFinalStep(ps, k);
  }

  /** The `this.pulses.filter(...)` pass of `updatePulses`, with the letter
      state it updates. */
  method SweepQueue(ps: seq<Pulse>, act: seq<seq<real>>, gen: nat, name: string, activated0: bool, letter0: nat, text0: string)
    returns (kept: seq<Pulse>, a: seq<seq<real>>, completed: seq<nat>, hits: map<(int, int), nat>,
             activated: bool, letter: nat, text: string)
    requires letter0 <= |name| && text0 == name[..letter0]
    ensures kept == InFlight(ps) && a == ApplyArrivals(act, ps, gen)
    ensures completed == CompletedLayers(ps) && hits == HitCounts(ps, gen)
    ensures activated == (activated0 || ReachesFinal(ps))
    ensures letter == Revealed(letter0, activated0, ps, |name|)
    ensures letter <= |name| && text == name[..letter]
  {
    kept := [];
    a := act;
    completed := [];
    hits := map[];
    activated := activated0;
    letter := letter0;
    text := text0;
    var k := 0;
    while k < |ps|
      invariant 0 <= k <= |ps|
      invariant kept == InFlight(ps[..k])
      invariant a == ApplyArrivals(act, ps[..k], gen)
      invariant completed == CompletedLayers(ps[..k])
      invariant hits == HitCounts(ps[..k], gen)
      invariant activated == (activated0 || ReachesFinal(ps[..k]))
      invariant letter == if !activated0 && activated && letter0 < |name| then letter0 + 1 else letter0
      invariant letter <= |name| && text == name[..letter]
    {
      var p := ps[k];
      SweepPrefix(ps, act, gen, k);
      if p.progress + p.speed >= 1.0 {
        a, hits, completed, activated, letter, text := Arrive(p, act, a, hits, completed, activated, letter, text, gen, name);
      } else {
        kept := kept + [Advance(p)];
      }
      k := k + 1;
    }
    assert ps[..k] == ps;
  }

  /** The arrival branch of the filter callback: the hit, its count, the
      layer reached and, on the first arrival at the output layer, the next
      letter. */
  method Arrive(p: Pulse, act: seq<seq<real>>, a0: seq<seq<real>>, hits0: map<(int, int), nat>, completed0: seq<nat>,
                activated0: bool, letter0: nat, text0: string, gen: nat, name: string)
    returns (a: seq<seq<real>>, hits: map<(int, int), nat>, completed: seq<nat>, activated: bool, letter: nat, text: string)
    requires |a0| == |act| && forall l :: 0 <= l < |act| ==> |a0[l]| == |act[l]|
    requires Arrives(p) && letter0 <= |name| && text0 == name[..letter0]
    ensures a == Landed(a0, p, act, gen)
    ensures hits == hits0[HitKey(p, gen) := (if HitKey(p, gen) in hits0 then hits0[HitKey(p, gen)] else 0) + 1]
    ensures completed == if p.to.layer !in completed0 then completed0 + [p.to.layer] else completed0
    ensures activated == (activated0 || p.to.layer == |LAYERS| - 1)
    ensures letter == if !activated0 && p.to.layer == |LAYERS| - 1 && letter0 < |name| then letter0 + 1 else letter0
    ensures letter <= |name| && text == name[..letter]
  {
    a := a0;
    if p.generation == gen && p.to.layer < |a| && p.to.index < |a[p.to.layer]| {
      a := a[p.to.layer := a[p.to.layer][p.to.index := Hit(a[p.to.layer][p.to.index], p.intensity)]];
    }
    var key := HitKey(p, gen);
    hits := hits0[key := (if key in hits0 then hits0[key] else 0) + 1];
    completed := completed0;
    if p.to.layer !in completed {
      completed := completed + [p.to.layer];
    }
    activated, letter, text := activated0, letter0, text0;
    if p.to.layer == |LAYERS| - 1 && !activated {
      activated := true;
      if letter < |name| {
        text := text + [name[letter]];
        letter := letter + 1;
        assert text == name[..letter];
      }
    }
  }

  /** The `completedLayers.forEach(...)` pass of `updatePulses`: the layers
      given a delayed `propagateLayer` call. */
  method ScheduleLayers(completed: seq<nat>, kept: seq<Pulse>, hits: map<(int, int), nat>) returns (scheduled: seq<nat>)
    ensures scheduled == Schedule(completed, kept, hits)
  {
    scheduled := [];
    var j := 0;
    while j < |completed|
      invariant 0 <= j <= |completed|
      invariant scheduled == Schedule(completed[..j], kept, hits)
    {
      var l := completed[j];
      if l < |LAYERS| - 1 {
        var alreadyPropagating := Propagating(kept, l);
        if !alreadyPropagating {
          var shouldPropagate := ShouldPropagate(hits, l);
          if shouldPropagate || l == 0 {
            scheduled := scheduled + [l];
          }
        }
      }
      assert completed[..j + 1][..j] == completed[..j];
      j := j + 1;
    }
    assert completed[..j] == completed;
  }

  /** The decay loop of `drawNodes`. */
  method DecayAll(act: seq<seq<real>>) returns (a: seq<seq<real>>)
    ensures a == Decayed(act)
  {
    a := act;
    var l := 0;
    while l < |a|
      invariant 0 <= l <= |a| == |act|
      invariant forall m :: 0 <= m < |a| ==> |a[m]| == |act[m]|
      invariant forall m :: 0 <= m < l ==> a[m] == Decayed(act)[m]
      invariant forall m :: l <= m < |a| ==> a[m] == act[m]
    {
      var i := 0;
      while i < |a[l]|
        invariant |a| == |act| && l < |a|
        invariant 0 <= i <= |a[l]| == |act[l]|
        invariant forall m :: 0 <= m < |a| ==> |a[m]| == |act[m]|
        invariant forall m :: 0 <= m < l ==> a[m] == Decayed(act)[m]
        invariant forall m :: l < m < |a| ==> a[m] == act[m]
        invariant forall k :: 0 <= k < i ==> a[l][k] == act[l][k] * DECAY
        invariant forall k :: i <= k < |a[l]| ==> a[l][k] == act[l][k]
      {
        a := a[l := a[l][i := a[l][i] * DECAY]];
        i := i + 1;
      }
      assert a[l] == Decayed(act)[l];
      l := l + 1;
    }
    assert a == Decayed(act);
  }

  class NeuralLoader {
    /** The upper-cased name the animation reveals. */
    const name: string
    /** Node activations, layer by layer. */
    var act: seq<seq<real>>
    var connections: seq<Edge>
    var pulses: seq<Pulse>
    /** Which node objects are current: bumped by every `initNetwork`. */
    var generation: nat
    var currentLetter: nat
    var detectedText: string
    var isProcessing: bool
    var outputActivated: bool
    var lastCycleTime: real
    var isFading: bool
    var fadeAlpha: real
    var decryptedName: string
    var cursorVisible: bool
    var lastCursorBlink: real
    /** Layers passed to `setTimeout(() => this.propagateLayer(l), 30)` whose
        callback has not run yet, in scheduling order. */
    var pendingPropagations: seq<nat>
    /** `setTimeout(() => { this.isFading = true; }, 300)` calls not yet run. */
    var pendingFadeTimers: nat
    /** `finish` was called: no further frame is requested. */
    var finished: bool
    /** The letter count when the current cycle started. */
    ghost var cycleStart: nat

    /** Activations in [0, 1], a fully connected network, a well-formed
        queue, a detected text that is a prefix of the name shown up to the
        caption, at most one letter per cycle, pending propagations only for
        layers with a successor, and an opacity of at most 1. */
    ghost predicate Valid()
      reads this
    {
      Activations(act) && WiringOk(connections) && Queued(pulses, generation) &&
      Caption(name, currentLetter, detectedText, decryptedName) &&
      (currentLetter == cycleStart || (outputActivated && currentLetter == cycleStart + 1)) &&
      PendingLayers(pendingPropagations) && fadeAlpha <= 1.0
    }

    /** `new NeuralLoader(name)`: the network is built and wired with the
        draws of `rand`, one per edge in creation order. */
    constructor (rawName: string, rand: nat -> real)
      requires Uniform(rand)
      ensures Valid()
      ensures name == ToUpper(rawName) && act == ZeroNetwork() && generation == 1
      ensures Wired(connections, LAYERS) && Weighted(connections, rand) && |connections| == EDGES
      ensures pulses == [] && currentLetter == 0 && detectedText == [] && !isProcessing && !outputActivated
      ensures lastCycleTime == FIRST_CYCLE_TIME && !isFading && fadeAlpha == 1.0
      ensures decryptedName == [] && cursorVisible && lastCursorBlink == 0.0
      ensures pendingPropagations == [] && pendingFadeTimers == 0 && !finished
    {
      name := ToUpper(rawName);
      act := [];
      connections := [];
      pulses := [];
      generation := 0;
      currentLetter := 0;
      detectedText := [];
      isProcessing := false;
      outputActivated := false;
      lastCycleTime := FIRST_CYCLE_TIME;
      isFading := false;
      fadeAlpha := 1.0;
      decryptedName := [];
      cursorVisible := true;
      lastCursorBlink := 0.0;
      pendingPropagations := [];
      pendingFadeTimers := 0;
      finished := false;
      cycleStart := 0;
      new;
      InitNetwork();
      InitConnections(rand);
    }

    /** `initNetwork`: a new set of nodes, every activation 0. */
    method InitNetwork()
      modifies this`act, this`generation
      ensures act == ZeroNetwork() && generation == old(generation) + 1
      ensures unchanged(this`connections, this`pulses, this`currentLetter, this`detectedText,
        this`isProcessing, this`outputActivated, this`lastCycleTime, this`isFading, this`fadeAlpha,
        this`decryptedName, this`cursorVisible, this`lastCursorBlink, this`pendingPropagations,
        this`pendingFadeTimers, this`finished, this`cycleStart)
    {
      var network: seq<seq<real>> := [];
      var l := 0;
      while l < |LAYERS|
        invariant 0 <= l <= |LAYERS|
        invariant network == ZeroNetwork()[..l]
      {
        var layer: seq<real> := [];
        var i := 0;
        while i < LAYERS[l]
          invariant 0 <= i <= LAYERS[l]
          invariant layer == seq(i, _ => 0.0)
        {
          layer := layer + [0.0];
          i := i + 1;
        }
        network := network + [layer];
        l := l + 1;
      }
      act := network;
      generation := generation + 1;
    }

    /** `initConnections`: every node of each layer is joined to every node
        of the next, weights `Math.random() - 0.5` taken in creation order. */
    method InitConnections(rand: nat -> real)
      requires Uniform(rand)
      modifies this`connections
      ensures Wired(connections, LAYERS) && Weighted(connections, rand) && |connections| == EDGES
      ensures WiringOk(connections)
      ensures unchanged(this`act, this`pulses, this`generation, this`currentLetter, this`detectedText,
        this`isProcessing, this`outputActivated, this`lastCycleTime, this`isFading, this`fadeAlpha,
        this`decryptedName, this`cursorVisible, this`lastCursorBlink, this`pendingPropagations,
        this`pendingFadeTimers, this`finished, this`cycleStart)
    {
      connections := WireNetwork(rand);
    }

    /** `propagateLayer(l)`: appends the pulses `Emission` specifies. */
    method PropagateLayer(l: nat, rand: nat -> real)
      requires Valid() && Uniform(rand)
      modifies this`pulses
      ensures Valid()
      ensures pulses == old(pulses) + Emission(act, connections, l, rand, generation)
      ensures unchanged(this`act, this`connections, this`generation, this`currentLetter,
        this`detectedText, this`isProcessing, this`outputActivated, this`lastCycleTime, this`isFading,
        this`fadeAlpha, this`decryptedName, this`cursorVisible, this`lastCursorBlink,
        this`pendingPropagations, this`pendingFadeTimers, this`finished, this`cycleStart)
    {
      var added := EmitLayer(act, connections, l, rand, generation);
      EmissionFlowing(act, connections, l, rand, generation);
      pulses := pulses + added;
    }

    /** `startCycle`: with letters left, starts a cycle from fresh input
        activations (draws 0 to 17) and propagates from the input layer
        (the draws after those); with none left, does nothing. */
    method StartCycle(rand: nat -> real)
      requires Valid() && Uniform(rand)
      modifies this`isProcessing, this`outputActivated, this`cycleStart, this`act, this`pulses
      ensures Valid()
      ensures old(currentLetter) >= |name| ==>
        isProcessing == old(isProcessing) && outputActivated == old(outputActivated) &&
        cycleStart == old(cycleStart) && act == old(act) && pulses == old(pulses)
      ensures old(currentLetter) < |name| ==>
        isProcessing && !outputActivated && cycleStart == currentLetter &&
        act == CycleActivations(old(act), rand) &&
        pulses == old(pulses) + Emission(act, connections, 0, Skip(rand, LAYERS[0]), generation)
      ensures unchanged(this`connections, this`generation, this`currentLetter, this`detectedText,
        this`lastCycleTime, this`isFading, this`fadeAlpha, this`decryptedName, this`cursorVisible,
        this`lastCursorBlink, this`pendingPropagations, this`pendingFadeTimers, this`finished)
    {
      if currentLetter >= |name| {
        return;
      }
      var a := FreshActivations(act, rand);
      CycleActivationsRange(act, rand);
      BeginCycle(a);
      SkipUniform(rand, LAYERS[0]);
      PropagateLayer(0, Skip(rand, LAYERS[0]));
    }

    /** The field writes at the head of `startCycle`. */
    method BeginCycle(a: seq<seq<real>>)
      modifies this`isProcessing, this`outputActivated, this`cycleStart, this`act
      ensures isProcessing && !outputActivated && cycleStart == currentLetter && act == a
      ensures unchanged(this`connections, this`pulses, this`generation, this`currentLetter,
        this`detectedText, this`lastCycleTime, this`isFading, this`fadeAlpha, this`decryptedName,
        this`cursorVisible, this`lastCursorBlink, this`pendingPropagations, this`pendingFadeTimers,
        this`finished)
    {
      isProcessing := true;
      outputActivated := false;
      cycleStart := currentLetter;
      act := a;
    }

    /** `updatePulses`: one sweep of the queue, as `PulseSweep` specifies;
        processing ends once the queue is empty and the output layer fired. */
    method UpdatePulses()
      requires Valid()
      modifies this`pulses, this`act, this`outputActivated, this`currentLetter, this`detectedText,
        this`pendingPropagations, this`isProcessing
      ensures Valid()
      ensures pulses == InFlight(old(pulses))
      ensures act == ApplyArrivals(old(act), old(pulses), generation)
      ensures outputActivated == (old(outputActivated) || ReachesFinal(old(pulses)))
      ensures currentLetter == Revealed(old(currentLetter), old(outputActivated), old(pulses), |name|)
      ensures pendingPropagations == old(pendingPropagations) + Scheduled(old(pulses), generation)
      ensures isProcessing == (old(isProcessing) && !(pulses == [] && outputActivated))
      ensures unchanged(this`connections, this`generation, this`lastCycleTime, this`isFading,
        this`fadeAlpha, this`decryptedName, this`cursorVisible, this`lastCursorBlink,
        this`pendingFadeTimers, this`finished, this`cycleStart)
    {
      var ps := pulses;
      var kept, a, completed, hits, activated, letter, text :=
        SweepQueue(ps, act, generation, name, outputActivated, currentLetter, detectedText);
      var scheduled := ScheduleLayers(completed, kept, hits);
      SweepKeeps(ps, act, generation, name, outputActivated, currentLetter, cycleStart, decryptedName);
      EndSweep(kept, a, activated, letter, text, pendingPropagations + scheduled,
        isProcessing && !(kept == [] && activated));
    }

    /** The field writes that end `updatePulses`. */
    method EndSweep(ps: seq<Pulse>, a: seq<seq<real>>, activated: bool, letter: nat, text: string,
                    pending: seq<nat>, processing: bool)
      modifies this`pulses, this`act, this`outputActivated, this`currentLetter, this`detectedText,
        this`pendingPropagations, this`isProcessing
      ensures pulses == ps && act == a && outputActivated == activated && currentLetter == letter
      ensures detectedText == text && pendingPropagations == pending && isProcessing == processing
      ensures unchanged(this`connections, this`generation, this`lastCycleTime, this`isFading,
        this`fadeAlpha, this`decryptedName, this`cursorVisible, this`lastCursorBlink,
        this`pendingFadeTimers, this`finished, this`cycleStart)
    {
      pulses := ps;
      act := a;
      outputActivated := activated;
      currentLetter := letter;
      detectedText := text;
      pendingPropagations := pending;
      isProcessing := processing;
    }

    /** The decay of `drawNodes`: every activation times 0.94. */
    method Decay()
      requires Valid()
      modifies this`act
      ensures Valid()
      ensures act == Decayed(old(act))
      ensures unchanged(this`connections, this`pulses, this`generation, this`currentLetter,
        this`detectedText, this`isProcessing, this`outputActivated, this`lastCycleTime, this`isFading,
        this`fadeAlpha, this`decryptedName, this`cursorVisible, this`lastCursorBlink,
        this`pendingPropagations, this`pendingFadeTimers, this`finished, this`cycleStart)
    {
      var a := DecayAll(act);
      DecayedBounded(act);
      act := a;
    }

    /** `updateDecryption`: the caption catches up with the detected text;
        the cursor toggles once more than 500 ms have passed since its last
        toggle. */
    method UpdateDecryption(timestamp: real)
      requires Valid()
      modifies this`decryptedName, this`cursorVisible, this`lastCursorBlink
      ensures Valid()
      ensures decryptedName == detectedText
      ensures timestamp - old(lastCursorBlink) > BLINK_INTERVAL ==>
        cursorVisible == !old(cursorVisible) && lastCursorBlink == timestamp
      ensures timestamp - old(lastCursorBlink) <= BLINK_INTERVAL ==>
        cursorVisible == old(cursorVisible) && lastCursorBlink == old(lastCursorBlink)
      ensures unchanged(this`act, this`connections, this`pulses, this`generation, this`currentLetter,
        this`detectedText, this`isProcessing, this`outputActivated, this`lastCycleTime, this`isFading,
        this`fadeAlpha, this`pendingPropagations, this`pendingFadeTimers, this`finished,
        this`cycleStart)
    {
      decryptedName := detectedText;
      if timestamp - lastCursorBlink > BLINK_INTERVAL {
        cursorVisible := !cursorVisible;
        lastCursorBlink := timestamp;
      }
    }

    /** The second caption line's name part: the revealed letters, then the
        cursor while letters remain and the blink phase shows it. */
    function CaptionText(): (r: string)
      requires Valid()
      reads this
      ensures |decryptedName| <= |r| <= |name| + 1
      ensures r[..|decryptedName|] <= name
      ensures |r| == |decryptedName| + 1 <==> currentLetter < |name| && cursorVisible
    {
      decryptedName + (if currentLetter < |name| && cursorVisible then "_" else "")
    }

    /** The condition under which a frame starts a new letter cycle. */
    predicate CycleDue(timestamp: real)
      reads this
    {
      !isProcessing && currentLetter < |name| && timestamp - lastCycleTime > CYCLE_DELAY
    }

    /** The fading branch of `animate`: the opacity drops by 0.015 and the
        loader finishes once it reaches 0. */
    method FadeStep()
      requires Valid()
      modifies this`fadeAlpha, this`finished
      ensures Valid()
      ensures fadeAlpha == old(fadeAlpha) - FADE_STEP
      ensures finished == (old(finished) || fadeAlpha <= 0.0)
      ensures unchanged(this`act, this`connections, this`pulses, this`generation, this`currentLetter,
        this`detectedText, this`isProcessing, this`outputActivated, this`lastCycleTime, this`isFading,
        this`decryptedName, this`cursorVisible, this`lastCursorBlink, this`pendingPropagations,
        this`pendingFadeTimers, this`cycleStart)
    {
      fadeAlpha := fadeAlpha - FADE_STEP;
      if fadeAlpha <= 0.0 {
        finished := true;
      }
    }

    /** The head of the non-fading branch of `animate`: a due cycle starts
        and its timestamp is recorded. */
    method OpenFrame(timestamp: real, rand: nat -> real)
      requires Valid() && Uniform(rand)
      modifies this`isProcessing, this`outputActivated, this`cycleStart, this`act, this`pulses,
        this`lastCycleTime
      ensures Valid()
      ensures act == old(FrameActivations(act, rand, CycleDue(timestamp)))
      ensures pulses == old(FrameQueue(act, pulses, connections, rand, generation, CycleDue(timestamp)))
      ensures outputActivated == (old(outputActivated) && !old(CycleDue(timestamp)))
      ensures isProcessing == (old(isProcessing) || old(CycleDue(timestamp)))
      ensures lastCycleTime == (if old(CycleDue(timestamp)) then timestamp else old(lastCycleTime))
      ensures cycleStart == (if old(CycleDue(timestamp)) then old(currentLetter) else old(cycleStart))
      ensures unchanged(this`connections, this`generation, this`currentLetter, this`detectedText,
        this`isFading, this`fadeAlpha, this`decryptedName, this`cursorVisible, this`lastCursorBlink,
        this`pendingPropagations, this`pendingFadeTimers, this`finished)
    {
      if !isProcessing && currentLetter < |name| && timestamp - lastCycleTime > CYCLE_DELAY {
        StartCycle(rand);
        MarkCycle(timestamp);
      }
    }

    /** The non-fading branch of `animate`: a due cycle starts (its
        timestamp recorded), the queue with the cycle's first pulses is
        swept over the cycle's activations, and a completed run arms the
        fade-out timer. */
    method RunStep(timestamp: real, rand: nat -> real)
      requires Valid() && Uniform(rand)
      modifies this`isProcessing, this`outputActivated, this`cycleStart, this`act, this`pulses,
        this`currentLetter, this`detectedText, this`pendingPropagations, this`lastCycleTime,
        this`pendingFadeTimers
      ensures Valid()
      ensures lastCycleTime == (if old(CycleDue(timestamp)) then timestamp else old(lastCycleTime))
      ensures cycleStart == (if old(CycleDue(timestamp)) then old(currentLetter) else old(cycleStart))
      ensures pulses == InFlight(old(FrameQueue(act, pulses, connections, rand, generation, CycleDue(timestamp))))
      ensures act == ApplyArrivals(old(FrameActivations(act, rand, CycleDue(timestamp))),
        old(FrameQueue(act, pulses, connections, rand, generation, CycleDue(timestamp))), generation)
      ensures outputActivated == ((old(outputActivated) && !old(CycleDue(timestamp))) ||
        ReachesFinal(old(FrameQueue(act, pulses, connections, rand, generation, CycleDue(timestamp)))))
      ensures currentLetter == Revealed(old(currentLetter), old(outputActivated) && !old(CycleDue(timestamp)),
        old(FrameQueue(act, pulses, connections, rand, generation, CycleDue(timestamp))), |name|)
      ensures pendingPropagations == old(pendingPropagations) +
        Scheduled(old(FrameQueue(act, pulses, connections, rand, generation, CycleDue(timestamp))), generation)
      ensures isProcessing == ((old(isProcessing) || old(CycleDue(timestamp))) && !(pulses == [] && outputActivated))
      ensures pendingFadeTimers == old(pendingFadeTimers) +
        (if currentLetter >= |name| && pulses == [] && !isProcessing then 1 else 0)
      ensures unchanged(this`connections, this`generation, this`isFading, this`fadeAlpha,
        this`decryptedName, this`cursorVisible, this`lastCursorBlink, this`finished)
    {
      OpenFrame(timestamp, rand);
      UpdatePulses();
      if currentLetter >= |name| && pulses == [] && !isProcessing {
        ArmFadeTimer();
      }
    }

    /** `this.lastCycleTime = timestamp`. */
    method MarkCycle(timestamp: real)
      requires Valid()
      modifies this`lastCycleTime
      ensures Valid() && lastCycleTime == timestamp
      ensures unchanged(this`act, this`connections, this`pulses, this`generation, this`currentLetter,
        this`detectedText, this`isProcessing, this`outputActivated, this`isFading, this`fadeAlpha,
        this`decryptedName, this`cursorVisible, this`lastCursorBlink, this`pendingPropagations,
        this`pendingFadeTimers, this`finished, this`cycleStart)
    {
      lastCycleTime := timestamp;
    }

    /** `setTimeout(() => { this.isFading = true; }, 300)`: one more pending timer. */
    method ArmFadeTimer()
      requires Valid()
      modifies this`pendingFadeTimers
      ensures Valid() && pendingFadeTimers == old(pendingFadeTimers) + 1
      ensures unchanged(this`act, this`connections, this`pulses, this`generation, this`currentLetter,
        this`detectedText, this`isProcessing, this`outputActivated, this`lastCycleTime, this`isFading,
        this`fadeAlpha, this`decryptedName, this`cursorVisible, this`lastCursorBlink,
        this`pendingPropagations, this`finished, this`cycleStart)
    {
      pendingFadeTimers := pendingFadeTimers + 1;
    }

    /** One `animate(timestamp)` frame; `rand` supplies the draws of a cycle
        start. Canvas drawing is left out; the decay step of `drawNodes` is
        kept. The frame that finishes returns before drawing. */
    method Animate(timestamp: real, rand: nat -> real)
      requires Valid() && Uniform(rand) && !finished
      modifies this`decryptedName, this`cursorVisible, this`lastCursorBlink, this`fadeAlpha, this`finished,
        this`isProcessing, this`outputActivated, this`cycleStart, this`act, this`pulses,
        this`currentLetter, this`detectedText, this`pendingPropagations, this`lastCycleTime,
        this`pendingFadeTimers
      ensures Valid()
      ensures decryptedName == old(detectedText)
      ensures timestamp - old(lastCursorBlink) > BLINK_INTERVAL ==>
        cursorVisible == !old(cursorVisible) && lastCursorBlink == timestamp
      ensures timestamp - old(lastCursorBlink) <= BLINK_INTERVAL ==>
        cursorVisible == old(cursorVisible) && lastCursorBlink == old(lastCursorBlink)
      ensures old(isFading) ==>
        fadeAlpha == old(fadeAlpha) - FADE_STEP && finished == (fadeAlpha <= 0.0) &&
        pulses == old(pulses) && currentLetter == old(currentLetter) && isProcessing == old(isProcessing) &&
        act == (if finished then old(act) else Decayed(old(act))) &&
        outputActivated == old(outputActivated) && detectedText == old(detectedText) &&
        pendingPropagations == old(pendingPropagations) && pendingFadeTimers == old(pendingFadeTimers) &&
        lastCycleTime == old(lastCycleTime) && cycleStart == old(cycleStart)
      ensures !old(isFading) ==> !finished && fadeAlpha == old(fadeAlpha)
      ensures !old(isFading) ==>
        lastCycleTime == (if old(CycleDue(timestamp)) then timestamp else old(lastCycleTime)) &&
        cycleStart == (if old(CycleDue(timestamp)) then old(currentLetter) else old(cycleStart))
      ensures !old(isFading) ==>
        pulses == InFlight(old(FrameQueue(act, pulses, connections, rand, generation, CycleDue(timestamp)))) &&
        act == Decayed(ApplyArrivals(old(FrameActivations(act, rand, CycleDue(timestamp))),
          old(FrameQueue(act, pulses, connections, rand, generation, CycleDue(timestamp))), generation))
      ensures !old(isFading) ==>
        outputActivated == ((old(outputActivated) && !old(CycleDue(timestamp))) ||
          ReachesFinal(old(FrameQueue(act, pulses, connections, rand, generation, CycleDue(timestamp))))) &&
        currentLetter == Revealed(old(currentLetter), old(outputActivated) && !old(CycleDue(timestamp)),
          old(FrameQueue(act, pulses, connections, rand, generation, CycleDue(timestamp))), |name|)
      ensures !old(isFading) ==>
        pendingPropagations == old(pendingPropagations) +
          Scheduled(old(FrameQueue(act, pulses, connections, rand, generation, CycleDue(timestamp))), generation) &&
        isProcessing == ((old(isProcessing) || old(CycleDue(timestamp))) && !(pulses == [] && outputActivated)) &&
        pendingFadeTimers == old(pendingFadeTimers) +
          (if currentLetter >= |name| && pulses == [] && !isProcessing then 1 else 0)
      ensures old(isProcessing) && !isProcessing ==> pulses == [] && outputActivated
      ensures unchanged(this`connections, this`generation, this`isFading)
    {
      UpdateDecryption(timestamp);
      if isFading {
        FadeStep();
        if finished {
          return;
        }
      } else {
        RunStep(timestamp, rand);
      }
      Decay();
    }

    /** The callback of a pending `setTimeout(() => this.propagateLayer(l), 30)`. */
    method FirePropagationTimer(rand: nat -> real)
      requires Valid() && Uniform(rand) && pendingPropagations != []
      modifies this`pendingPropagations, this`pulses
      ensures Valid()
      ensures pendingPropagations == old(pendingPropagations[1..])
      ensures pulses == old(pulses) + Emission(act, connections, old(pendingPropagations[0]), rand, generation)
      ensures unchanged(this`act, this`connections, this`generation, this`currentLetter,
        this`detectedText, this`isProcessing, this`outputActivated, this`lastCycleTime, this`isFading,
        this`fadeAlpha, this`decryptedName, this`cursorVisible, this`lastCursorBlink,
        this`pendingFadeTimers, this`finished, this`cycleStart)
    {
      var l := pendingPropagations[0];
      assert forall m :: m in pendingPropagations[1..] ==> m in pendingPropagations;
      pendingPropagations := pendingPropagations[1..];
      PropagateLayer(l, rand);
    }

    /** The callback of a pending `setTimeout(() => { this.isFading = true; }, 300)`. */
    method FireFadeTimer()
      requires Valid() && pendingFadeTimers > 0
      modifies this`pendingFadeTimers, this`isFading
      ensures Valid()
      ensures isFading && pendingFadeTimers == old(pendingFadeTimers) - 1
      ensures unchanged(this`act, this`connections, this`pulses, this`generation, this`currentLetter,
        this`detectedText, this`isProcessing, this`outputActivated, this`lastCycleTime, this`fadeAlpha,
        this`decryptedName, this`cursorVisible, this`lastCursorBlink, this`pendingPropagations,
        this`finished, this`cycleStart)
    {
      pendingFadeTimers := pendingFadeTimers - 1;
      isFading := true;
    }

    /** `resize`: new nodes and new edges (weights from `rand`); the queue,
        the letters and the cycle state are kept. Pulses already in flight
        keep pointing at the old nodes, so their arrivals no longer land. */
    method Resize(rand: nat -> real)
      requires Valid() && Uniform(rand)
      modifies this`act, this`generation, this`connections
      ensures Valid()
      ensures act == ZeroNetwork() && generation == old(generation) + 1
      ensures Wired(connections, LAYERS) && Weighted(connections, rand)
      ensures forall p :: p in pulses ==> p.generation < generation
      ensures unchanged(this`pulses, this`currentLetter, this`detectedText, this`isProcessing,
        this`outputActivated, this`lastCycleTime, this`isFading, this`fadeAlpha, this`decryptedName,
        this`cursorVisible, this`lastCursorBlink, this`pendingPropagations, this`pendingFadeTimers,
        this`finished, this`cycleStart)
    {
      InitNetwork();
      InitConnections(rand);
    }
  }
}
