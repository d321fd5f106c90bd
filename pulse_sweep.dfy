/** One `updatePulses` sweep (loader.js), as functions of the pulse list it
    starts from: which pulses stay in flight, how the nodes they reach are
    activated, which layers were reached and which of them get a delayed
    `propagateLayer` call. The loader's method is proved to compute exactly
    these. */
module PulseSweep {
  import opened NeuralTopology
  import opened PulseFlow

  /** `pulse.progress += pulse.speed`. */
  function Advance(p: Pulse): Pulse
  {
    p.(progress := p.progress + p.speed)
  }

  /** The pulse reaches its destination during this sweep. */
  predicate Arrives(p: Pulse)
  {
    p.progress + p.speed >= 1.0
  }

  // ------------------------------------------------------------ the queue

  /** The pulses the filter keeps, advanced, in their original order. */
  function InFlight(ps: seq<Pulse>): seq<Pulse>
  {
    if ps == [] then []
    else
      var n := |ps| - 1;
      InFlight(ps[..n]) + (if Arrives(ps[n]) then [] else [Advance(ps[n])])
  }

  /** The filter works pulse by pulse: the kept pulses of a concatenation are
      the kept pulses of each part, in the same order. */
  lemma {:induction false} InFlightAppend(a: seq<Pulse>, b: seq<Pulse>)
    ensures InFlight(a + b) == InFlight(a) + InFlight(b)
  {
    if b == [] {
      assert a + b == a;
    } else {
      var n := |b| - 1;
      assert (a + b)[..|a + b| - 1] == a + b[..n];
      InFlightAppend(a, b[..n]);
    }
  }

  /** Exactly the pulses that do not arrive stay, each advanced by its speed. */
  lemma {:induction false} InFlightMembers(ps: seq<Pulse>)
    ensures forall q :: q in InFlight(ps) <==> exists p :: p in ps && !Arrives(p) && q == Advance(p)
  {
    if ps != [] {
      var n := |ps| - 1;
      InFlightMembers(ps[..n]);
      assert ps == ps[..n] + [ps[n]];
    }
  }

  /** The queue after `k` sweeps with no pulse added in between. */
  function Sweeps(ps: seq<Pulse>, k: nat): seq<Pulse>
  {
    if k == 0 then ps else InFlight(Sweeps(ps, k - 1))
  }

  /** Each sweep moves every pulse still queued on by at least the slowest speed. */
  lemma {:induction false} SweepsProgress(ps: seq<Pulse>, k: nat)
    requires forall p :: p in ps ==> 0.0 <= p.progress && OUTPUT_SPEED <= p.speed
    ensures forall q :: q in Sweeps(ps, k) ==> OUTPUT_SPEED * (k as real) <= q.progress && OUTPUT_SPEED <= q.speed
    ensures k > 0 ==> forall q :: q in Sweeps(ps, k) ==> q.progress < 1.0
  {
    if k > 0 {
      SweepsProgress(ps, k - 1);
      InFlightMembers(Sweeps(ps, k - 1));
    }
  }

  lemma {:induction false} InFlightAllArrive(ps: seq<Pulse>)
    requires forall p :: p in ps ==> Arrives(p)
    ensures InFlight(ps) == []
  {
    if ps != [] {
      var n := |ps| - 1;
      assert ps[n] in ps;
      assert forall p :: p in ps[..n] ==> p in ps;
      InFlightAllArrive(ps[..n]);
    }
  }

  /** No pulse emitted at progress 0 with speed at least 0.08 survives its
      13th sweep. */
  lemma PulseLifetime(ps: seq<Pulse>)
    requires forall p :: p in ps ==> 0.0 <= p.progress && OUTPUT_SPEED <= p.speed
    ensures Sweeps(ps, 13) == []
  {
    SweepsProgress(ps, 12);
    InFlightAllArrive(Sweeps(ps, 12));
  }

  // ----------------------------------------------------------- activation

  /** `Math.min(1, a + intensity * 0.8)`. */
  function Hit(a: real, intensity: real): (r: real)
    ensures r <= 1.0 && r <= a + HIT_GAIN * intensity
    ensures r == 1.0 || r == a + HIT_GAIN * intensity
  {
    if 1.0 <= a + HIT_GAIN * intensity then 1.0 else a + HIT_GAIN * intensity
  }

  /** The arriving pulse hits a node of the current network. A pulse from
      before a resize points at a node object that is no longer drawn: its
      hit changes nothing that is observed. */
  predicate Lands(p: Pulse, act: seq<seq<real>>, gen: nat)
  {
    Arrives(p) && p.generation == gen && p.to.layer < |act| && p.to.index < |act[p.to.layer]|
  }

  /** Activations after the arrivals of `ps`, applied in list order. */
  function ApplyArrivals(act: seq<seq<real>>, ps: seq<Pulse>, gen: nat): (r: seq<seq<real>>)
    ensures |r| == |act| && forall l :: 0 <= l < |r| ==> |r[l]| == |act[l]|
  {
    if ps == [] then act
    else
      var n := |ps| - 1;
      var a := ApplyArrivals(act, ps[..n], gen);
      var p := ps[n];
      if Lands(p, act, gen) then
        a[p.to.layer := a[p.to.layer][p.to.index := Hit(a[p.to.layer][p.to.index], p.intensity)]]
      else a
  }

  /** Hits keep every activation in [0, 1] when intensities are not negative. */
  lemma {:induction false} ArrivalsBounded(act: seq<seq<real>>, ps: seq<Pulse>, gen: nat)
    requires Bounded(act)
    requires forall p :: p in ps ==> 0.0 <= p.intensity
    ensures Bounded(ApplyArrivals(act, ps, gen))
  {
    if ps != [] {
      var n := |ps| - 1;
      assert ps[n] in ps;
      assert forall p :: p in ps[..n] ==> p in ps;
      ArrivalsBounded(act, ps[..n], gen);
    }
  }

  /** A node no arriving pulse lands on keeps its activation. */
  lemma {:induction false} ArrivalsUntouched(act: seq<seq<real>>, ps: seq<Pulse>, gen: nat, l: nat, i: nat)
    requires l < |act| && i < |act[l]|
    requires forall p :: p in ps && Lands(p, act, gen) ==> p.to != NodeRef(l, i)
    ensures ApplyArrivals(act, ps, gen)[l][i] == act[l][i]
  {
    if ps != [] {
      var n := |ps| - 1;
      assert ps[n] in ps;
      assert forall p :: p in ps[..n] ==> p in ps;
      ArrivalsUntouched(act, ps[..n], gen, l, i);
    }
  }

  /** A hit never lowers an activation. */
  lemma {:induction false} ArrivalsRaise(act: seq<seq<real>>, ps: seq<Pulse>, gen: nat, l: nat, i: nat)
    requires Bounded(act) && l < |act| && i < |act[l]|
    requires forall p :: p in ps ==> 0.0 <= p.intensity
    ensures act[l][i] <= ApplyArrivals(act, ps, gen)[l][i]
  {
    if ps != [] {
      var n := |ps| - 1;
      assert ps[n] in ps;
      assert forall p :: p in ps[..n] ==> p in ps;
      ArrivalsRaise(act, ps[..n], gen, l, i);
      ArrivalsBounded(act, ps[..n], gen);
    }
  }

  // --------------------------------------------------------------- letters

  /** Some pulse of `ps` reaches the output layer during the sweep. */
  ghost predicate ReachesFinal(ps: seq<Pulse>)
  {
    exists k :: 0 <= k < |ps| && Arrives(ps[k]) && ps[k].to.layer == |LAYERS| - 1
  }

  lemma ReachesFinalStep(ps: seq<Pulse>, k: nat)
    requires k < |ps|
    ensures ReachesFinal(ps[..k + 1]) <==> ReachesFinal(ps[..k]) || (Arrives(ps[k]) && ps[k].to.layer == |LAYERS| - 1)
  {
    if ReachesFinal(ps[..k + 1]) && !(Arrives(ps[k]) && ps[k].to.layer == |LAYERS| - 1) {
      var j :| 0 <= j < k + 1 && Arrives(ps[..k + 1][j]) && ps[..k + 1][j].to.layer == |LAYERS| - 1;
      assert ps[..k][j] == ps[j];
    }
    if ReachesFinal(ps[..k]) {
      var j :| 0 <= j < k && Arrives(ps[..k][j]) && ps[..k][j].to.layer == |LAYERS| - 1;
      assert ps[..k + 1][j] == ps[j];
    }
    if Arrives(ps[k]) && ps[k].to.layer == |LAYERS| - 1 {
      assert ps[..k + 1][k] == ps[k];
    }
  }

  /** The letter count after a sweep: the first arrival at the output layer
      of a cycle reveals the next letter, if one is left. */
  ghost function Revealed(letter: nat, activated: bool, ps: seq<Pulse>, n: nat): nat
  {
    if !activated && ReachesFinal(ps) && letter < n then letter + 1 else letter
  }

  // ------------------------------------------------------ layers reached

  /** `completedLayers`: the layers reached, each once, in order of first arrival. */
  function CompletedLayers(ps: seq<Pulse>): seq<nat>
  {
    if ps == [] then []
    else
      var n := |ps| - 1;
      var prev := CompletedLayers(ps[..n]);
      if Arrives(ps[n]) && ps[n].to.layer !in prev then prev + [ps[n].to.layer] else prev
  }

  /** A layer is listed exactly when some pulse arrives there, and only once. */
  lemma {:induction false} CompletedLayersExact(ps: seq<Pulse>)
    ensures forall l :: l in CompletedLayers(ps) <==> exists p :: p in ps && Arrives(p) && p.to.layer == l
    ensures forall i, j :: 0 <= i < j < |CompletedLayers(ps)| ==> CompletedLayers(ps)[i] != CompletedLayers(ps)[j]
  {
    if ps != [] {
      var n := |ps| - 1;
      CompletedLayersExact(ps[..n]);
      assert ps == ps[..n] + [ps[n]];
    }
  }

  /** The `nodeHitCounts` key of an arriving pulse: its layer and the
      position of its node in the current network, `indexOf`'s -1 for a
      node that is no longer part of it. */
  function HitKey(p: Pulse, gen: nat): (int, int)
  {
    (p.to.layer, if p.generation == gen then p.to.index else -1)
  }

  /** `nodeHitCounts` after the sweep. */
  function HitCounts(ps: seq<Pulse>, gen: nat): map<(int, int), nat>
  {
    if ps == [] then map[]
    else
      var n := |ps| - 1;
      var m := HitCounts(ps[..n], gen);
      if Arrives(ps[n]) then
        var key := HitKey(ps[n], gen);
        m[key := (if key in m then m[key] else 0) + 1]
      else m
  }

  /** The `shouldPropagate` test: some key of layer `l` counted at least one hit. */
  predicate ShouldPropagate(hits: map<(int, int), nat>, l: nat)
  {
    exists key :: key in hits && key.0 == l && hits[key] >= 1
  }

  /** Every key counts at least one hit, and a key exists for every layer reached. */
  lemma {:induction false} HitCountsKeys(ps: seq<Pulse>, gen: nat)
    ensures forall key :: key in HitCounts(ps, gen) ==> HitCounts(ps, gen)[key] >= 1
    ensures forall p :: p in ps && Arrives(p) ==> HitKey(p, gen) in HitCounts(ps, gen)
  {
    if ps != [] {
      var n := |ps| - 1;
      HitCountsKeys(ps[..n], gen);
      assert ps == ps[..n] + [ps[n]];
    }
  }

  /** The test is always passed by a layer that was reached: a reached layer
      has a key, and every key counts at least one hit. */
  lemma CompletedShouldPropagate(ps: seq<Pulse>, gen: nat, l: nat)
    requires l in CompletedLayers(ps)
    ensures ShouldPropagate(HitCounts(ps, gen), l)
  {
    CompletedLayersExact(ps);
    HitCountsKeys(ps, gen);
    var p :| p in ps && Arrives(p) && p.to.layer == l;
    assert HitKey(p, gen) in HitCounts(ps, gen);
  }

  /** `alreadyPropagating`: a pulse still in flight leaves layer `l`. */
  predicate Propagating(rest: seq<Pulse>, l: nat)
  {
    exists p :: p in rest && p.from.layer == l
  }

  /** The layers, in order, for which `setTimeout(() => propagateLayer(l), 30)` is called. */
  function Schedule(completed: seq<nat>, rest: seq<Pulse>, hits: map<(int, int), nat>): seq<nat>
  {
    if completed == [] then []
    else
      var n := |completed| - 1;
      var l := completed[n];
      Schedule(completed[..n], rest, hits) +
        (if l < |LAYERS| - 1 && !Propagating(rest, l) && (ShouldPropagate(hits, l) || l == 0) then [l] else [])
  }

  function Scheduled(ps: seq<Pulse>, gen: nat): seq<nat>
  {
    Schedule(CompletedLayers(ps), InFlight(ps), HitCounts(ps, gen))
  }

  lemma {:induction false} ScheduleMembers(completed: seq<nat>, rest: seq<Pulse>, hits: map<(int, int), nat>)
    ensures forall l :: l in Schedule(completed, rest, hits) <==>
      l in completed && l < |LAYERS| - 1 && !Propagating(rest, l) && (ShouldPropagate(hits, l) || l == 0)
  {
    if completed != [] {
      var n := |completed| - 1;
      ScheduleMembers(completed[..n], rest, hits);
      assert completed == completed[..n] + [completed[n]];
    }
  }

  /** Because the hit test always passes, a layer gets a delayed propagation
      exactly when a pulse arrived there, it is not the output layer, and no
      pulse still in flight leaves it. */
  lemma ScheduledExactly(ps: seq<Pulse>, gen: nat, l: nat)
    ensures l in Scheduled(ps, gen) <==>
      (exists p :: p in ps && Arrives(p) && p.to.layer == l) && l < |LAYERS| - 1 && !Propagating(InFlight(ps), l)
  {
    ScheduleMembers(CompletedLayers(ps), InFlight(ps), HitCounts(ps, gen));
    CompletedLayersExact(ps);
    if l in CompletedLayers(ps) {
      CompletedShouldPropagate(ps, gen, l);
    }
  }
}
