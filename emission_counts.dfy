/** How many pulses `propagateLayer` (loader.js) appends per branch, on a
    fully connected network. */
module EmissionCounts {
  import opened Draws
  import opened NeuralTopology
  import opened EdgeRanking
  import opened PulseFlow
  import opened EmissionFacts

  // The three lemmas below state each branch's count for a sequence `e`
  // known only through its equation, which keeps the branch definitions from
  // being unfolded next to `Emission`'s.

  lemma InputCountOf(e: seq<Pulse>, act: seq<seq<real>>, conns: seq<Edge>, rand: nat -> real, gen: nat)
    requires Shaped(act) && Uniform(rand) && Connected(conns, LAYERS)
    requires e == RankedBranch(act[0], 0, ActiveIndices(act[0]), 2, conns, rand, gen)
    ensures |e| == 2 * |ActiveIndices(act[0])|
  {
    RankedBranchCount(act[0], 0, ActiveIndices(act[0]), 2, conns, rand, gen);
  }

  lemma HiddenCountOf(e: seq<Pulse>, act: seq<seq<real>>, conns: seq<Edge>, rand: nat -> real, gen: nat)
    requires Shaped(act) && Uniform(rand) && Connected(conns, LAYERS)
    requires e == RankedBranch(act[1], 1, Senders(ActiveIndices(act[1])), 1, conns, rand, gen)
    ensures |e| == Min(HIDDEN_SENDERS, |ActiveIndices(act[1])|)
  {
    RankedBranchCount(act[1], 1, Senders(ActiveIndices(act[1])), 1, conns, rand, gen);
  }

  lemma OutputCountOf(e: seq<Pulse>, act: seq<seq<real>>, conns: seq<Edge>, rand: nat -> real, gen: nat)
    requires Shaped(act) && Uniform(rand) && Connected(conns, LAYERS)
    requires e == OutputBranch(act[2], 2, ActiveIndices(act[2]), OutputTargets(rand, |act[3]|), conns, gen)
    ensures |e| == 2 * |ActiveIndices(act[2])|
  {
    OutputBranchCount(act[2], 2, ActiveIndices(act[2]), OutputTargets(rand, |act[3]|), 2, conns, gen);
  }

  /** From the input layer: two pulses per active node, along its two strongest edges. */
  lemma InputEmissionCount(act: seq<seq<real>>, conns: seq<Edge>, rand: nat -> real, gen: nat)
    requires Shaped(act) && Uniform(rand) && Connected(conns, LAYERS)
    ensures |Emission(act, conns, 0, rand, gen)| == 2 * |ActiveIndices(act[0])|
  {
    EmissionInput(act, conns, rand, gen);
    InputCountOf(Emission(act, conns, 0, rand, gen), act, conns, rand, gen);
  }

  /** From a hidden layer: one pulse from each of the first ten active nodes. */
  lemma HiddenEmissionCount(act: seq<seq<real>>, conns: seq<Edge>, rand: nat -> real, gen: nat)
    requires Shaped(act) && Uniform(rand) && Connected(conns, LAYERS)
    ensures |Emission(act, conns, 1, rand, gen)| == Min(HIDDEN_SENDERS, |ActiveIndices(act[1])|)
  {
    EmissionHidden(act, conns, rand, gen);
    HiddenCountOf(Emission(act, conns, 1, rand, gen), act, conns, rand, gen);
  }

  /** From the output-adjacent layer: one pulse per active node and drawn
      target, two targets (possibly the same node). */
  lemma OutputEmissionCount(act: seq<seq<real>>, conns: seq<Edge>, rand: nat -> real, gen: nat)
    requires Shaped(act) && Uniform(rand) && Connected(conns, LAYERS)
    ensures |Emission(act, conns, 2, rand, gen)| == 2 * |ActiveIndices(act[2])|
  {
    EmissionOutput(act, conns, rand, gen);
    OutputCountOf(Emission(act, conns, 2, rand, gen), act, conns, rand, gen);
  }
}
