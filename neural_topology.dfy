/** Topology of the loader's network (loader.js: `LAYERS`, `initNetwork`,
    `initConnections` and the edge look-ups of `propagateLayer`).

    A node is named by its layer and its position in that layer. Edges are
    kept in one flat list, in the order the three nested loops of
    `initConnections` create them: by source layer, then by source node,
    then by target node. */
module NeuralTopology {

  /** Nodes per layer, input first. */
  const LAYERS: seq<nat> := [18, 15, 10, 5]

  datatype Option<T> = None | Some(value: T)

  datatype NodeRef = NodeRef(layer: nat, index: nat)

  datatype Edge = Edge(from: NodeRef, to: NodeRef, weight: real)

  predicate IsNode(layers: seq<nat>, n: NodeRef)
  {
    n.layer < |layers| && n.index < layers[n.layer]
  }

  /** Edges from node `i` of layer `l` to the first `n` nodes of layer `l + 1`. */
  function Row(l: nat, i: nat, n: nat): seq<(NodeRef, NodeRef)>
  {
    if n == 0 then [] else Row(l, i, n - 1) + [(NodeRef(l, i), NodeRef(l + 1, n - 1))]
  }

  /** Edges from the first `m` nodes of layer `l` to all of layer `l + 1`. */
  function Block(layers: seq<nat>, l: nat, m: nat): seq<(NodeRef, NodeRef)>
    requires l + 1 < |layers|
  {
    if m == 0 then [] else Block(layers, l, m - 1) + Row(l, m - 1, layers[l + 1])
  }

  /** Edges leaving the first `L` layers. */
  function Wiring(layers: seq<nat>, L: nat): seq<(NodeRef, NodeRef)>
    requires L < |layers|
  {
    if L == 0 then [] else Wiring(layers, L - 1) + Block(layers, L - 1, layers[L - 1])
  }

  /** Every edge of the fully connected network, in creation order. */
  function FullWiring(layers: seq<nat>): seq<(NodeRef, NodeRef)>
  {
    if |layers| == 0 then [] else Wiring(layers, |layers| - 1)
  }

  /** Number of edges leaving the first `L` layers: the sum of
      `layers[l] * layers[l + 1]`. */
  function EdgeCount(layers: seq<nat>, L: nat): nat
    requires L < |layers|
  {
    if L == 0 then 0 else EdgeCount(layers, L - 1) + layers[L - 1] * layers[L]
  }

  /** The edge list `conns` joins exactly the endpoints listed in `pairs`, position by position. */
  ghost predicate Matches(conns: seq<Edge>, pairs: seq<(NodeRef, NodeRef)>)
  {
    |conns| == |pairs| &&
    forall k :: 0 <= k < |conns| ==> conns[k].from == pairs[k].0 && conns[k].to == pairs[k].1
  }

  /** The state `initConnections` leaves: the full wiring, each weight in [-0.5, 0.5). */
  ghost predicate Wired(conns: seq<Edge>, layers: seq<nat>)
  {
    Matches(conns, FullWiring(layers)) &&
    forall k :: 0 <= k < |conns| ==> -0.5 <= conns[k].weight < 0.5
  }

  predicate Joins(e: Edge, from: NodeRef, to: NodeRef)
  {
    e.from == from && e.to == to
  }

  /** `connections.find(c => c.from === from && c.to === to)`: the first edge joining the two nodes. */
  function FindEdge(conns: seq<Edge>, from: NodeRef, to: NodeRef): (r: Option<Edge>)
    ensures r.Some? ==> Joins(r.value, from, to) && r.value in conns
  {
    if conns == [] then None
    else if Joins(conns[0], from, to) then Some(conns[0])
    else FindEdge(conns[1..], from, to)
  }

  /** The edge found is the first joining edge of the list. */
  lemma {:induction false} FindEdgeFirst(conns: seq<Edge>, from: NodeRef, to: NodeRef)
    requires FindEdge(conns, from, to).Some?
    ensures exists k :: 0 <= k < |conns| && conns[k] == FindEdge(conns, from, to).value && (forall m :: 0 <= m < k ==> !Joins(conns[m], from, to))
  {
    if !Joins(conns[0], from, to) {
      FindEdgeFirst(conns[1..], from, to);
      var k :| 0 <= k < |conns[1..]| && conns[1..][k] == FindEdge(conns[1..], from, to).value &&
        forall m :: 0 <= m < k ==> !Joins(conns[1..][m], from, to);
      assert conns[k + 1] == FindEdge(conns, from, to).value;
      forall m | 0 <= m < k + 1 ensures !Joins(conns[m], from, to) {
        if m > 0 { assert conns[m] == conns[1..][m - 1]; }
      }
    }
  }

  /** The look-up fails exactly when no edge joins the two nodes. */
  lemma {:induction false} FindEdgeNone(conns: seq<Edge>, from: NodeRef, to: NodeRef)
    ensures FindEdge(conns, from, to).None? <==> forall k :: 0 <= k < |conns| ==> !Joins(conns[k], from, to)
  {
    if conns != [] && !Joins(conns[0], from, to) {
      FindEdgeNone(conns[1..], from, to);
      assert forall k :: 1 <= k < |conns| ==> conns[k] == conns[1..][k - 1];
    }
  }

  /** The filter of `propagateLayer`: `c.from === src && toLayer.includes(c.to)`. */
  predicate Leaves(layers: seq<nat>, src: NodeRef, from: NodeRef, to: NodeRef)
    requires src.layer + 1 < |layers|
  {
    from == src && to.layer == src.layer + 1 && to.index < layers[src.layer + 1]
  }

  /** The edges out of `src` into the next layer, in list order. */
  function OutEdges(conns: seq<Edge>, layers: seq<nat>, src: NodeRef): (r: seq<Edge>)
    requires src.layer + 1 < |layers|
    ensures |r| <= |conns|
  {
    if conns == [] then []
    else
      var last := conns[|conns| - 1];
      OutEdges(conns[..|conns| - 1], layers, src) + (if Leaves(layers, src, last.from, last.to) then [last] else [])
  }

  /** The filter keeps exactly the edges that leave `src` for the next layer. */
  lemma {:induction false} OutEdgesMembers(conns: seq<Edge>, layers: seq<nat>, src: NodeRef)
    requires src.layer + 1 < |layers|
    ensures forall e :: e in OutEdges(conns, layers, src) <==> e in conns && Leaves(layers, src, e.from, e.to)
  {
    if conns != [] {
      var n := |conns| - 1;
      OutEdgesMembers(conns[..n], layers, src);
      assert conns == conns[..n] + [conns[n]];
    }
  }

  /** How many of `pairs` pass the same filter. */
  function CountFrom(pairs: seq<(NodeRef, NodeRef)>, layers: seq<nat>, src: NodeRef): nat
    requires src.layer + 1 < |layers|
  {
    if pairs == [] then 0
    else
      var last := pairs[|pairs| - 1];
      CountFrom(pairs[..|pairs| - 1], layers, src) + (if Leaves(layers, src, last.0, last.1) then 1 else 0)
  }

  // ---------------------------------------------------------------- sizes

  lemma {:induction false} RowSize(l: nat, i: nat, n: nat)
    ensures |Row(l, i, n)| == n
  {
    if n > 0 { RowSize(l, i, n - 1); }
  }

  lemma {:induction false} BlockSize(layers: seq<nat>, l: nat, m: nat)
    requires l + 1 < |layers|
    ensures |Block(layers, l, m)| == m * layers[l + 1]
  {
    if m > 0 {
      BlockSize(layers, l, m - 1);
      RowSize(l, m - 1, layers[l + 1]);
      assert (m - 1) * layers[l + 1] + layers[l + 1] == m * layers[l + 1];
    }
  }

  /** `initConnections` creates the sum over adjacent layer pairs of the product of their sizes. */
  lemma {:induction false} WiringSize(layers: seq<nat>, L: nat)
    requires L < |layers|
    ensures |Wiring(layers, L)| == EdgeCount(layers, L)
  {
    if L > 0 {
      WiringSize(layers, L - 1);
      BlockSize(layers, L - 1, layers[L - 1]);
    }
  }

  /** For four layers `[a, b, c, d]` there are `a*b + b*c + c*d` edges. */
  lemma FourLayerEdgeCount(layers: seq<nat>)
    requires |layers| == 4
    ensures |FullWiring(layers)| == layers[0] * layers[1] + layers[1] * layers[2] + layers[2] * layers[3]
  {
    WiringSize(layers, 3);
    assert EdgeCount(layers, 1) == layers[0] * layers[1];
    assert EdgeCount(layers, 2) == EdgeCount(layers, 1) + layers[1] * layers[2];
  }

  // ------------------------------------------------------- edge endpoints

  lemma {:induction false} RowAdjacent(l: nat, i: nat, n: nat)
    ensures forall k :: 0 <= k < |Row(l, i, n)| ==>
      Row(l, i, n)[k].0 == NodeRef(l, i) && Row(l, i, n)[k].1.layer == l + 1 && Row(l, i, n)[k].1.index < n
  {
    if n > 0 { RowAdjacent(l, i, n - 1); }
  }

  lemma {:induction false} BlockAdjacent(layers: seq<nat>, l: nat, m: nat)
    requires l + 1 < |layers| && m <= layers[l]
    ensures forall k :: 0 <= k < |Block(layers, l, m)| ==>
      var p := Block(layers, l, m)[k];
      p.0.layer == l && p.1.layer == l + 1 && IsNode(layers, p.0) && IsNode(layers, p.1)
  {
    if m > 0 {
      BlockAdjacent(layers, l, m - 1);
      RowAdjacent(l, m - 1, layers[l + 1]);
    }
  }

  lemma {:induction false} WiringAdjacent(layers: seq<nat>, L: nat)
    requires L < |layers|
    ensures forall k :: 0 <= k < |Wiring(layers, L)| ==>
      var p := Wiring(layers, L)[k];
      p.1.layer == p.0.layer + 1 && IsNode(layers, p.0) && IsNode(layers, p.1)
  {
    if L > 0 {
      WiringAdjacent(layers, L - 1);
      BlockAdjacent(layers, L - 1, layers[L - 1]);
    }
  }

  /** Every edge of a wired list goes from a node of layer `l` to a node of layer `l + 1`. */
  lemma WiredAdjacent(conns: seq<Edge>, layers: seq<nat>)
    requires Wired(conns, layers)
    ensures forall e :: e in conns ==>
      e.to.layer == e.from.layer + 1 && IsNode(layers, e.from) && IsNode(layers, e.to) && -0.5 <= e.weight < 0.5
  {
    if |layers| > 0 { WiringAdjacent(layers, |layers| - 1); }
  }

  // ---------------------------------------------------------- completeness

  lemma {:induction false} RowHas(l: nat, i: nat, n: nat, j: nat)
    requires j < n
    ensures (NodeRef(l, i), NodeRef(l + 1, j)) in Row(l, i, n)
  {
    if j < n - 1 { RowHas(l, i, n - 1, j); }
  }

  lemma {:induction false} BlockHas(layers: seq<nat>, l: nat, m: nat, i: nat, j: nat)
    requires l + 1 < |layers| && i < m && j < layers[l + 1]
    ensures (NodeRef(l, i), NodeRef(l + 1, j)) in Block(layers, l, m)
  {
    if i == m - 1 { RowHas(l, i, layers[l + 1], j); } else { BlockHas(layers, l, m - 1, i, j); }
  }

  lemma {:induction false} WiringHas(layers: seq<nat>, L: nat, l: nat, i: nat, j: nat)
    requires L < |layers| && l < L && i < layers[l] && j < layers[l + 1]
    ensures (NodeRef(l, i), NodeRef(l + 1, j)) in Wiring(layers, L)
  {
    if l == L - 1 { BlockHas(layers, l, layers[l], i, j); } else { WiringHas(layers, L - 1, l, i, j); }
  }

  /** The network is fully connected: a wired list has an edge between every
      node of layer `l` and every node of layer `l + 1`, so the look-up of
      `propagateLayer` never fails. */
  lemma FindEdgeSucceeds(conns: seq<Edge>, layers: seq<nat>, from: NodeRef, to: NodeRef)
    requires Wired(conns, layers)
    requires IsNode(layers, from) && IsNode(layers, to) && to.layer == from.layer + 1
    ensures FindEdge(conns, from, to).Some?
  {
    var pairs := FullWiring(layers);
    assert pairs == Wiring(layers, |layers| - 1);
    WiringHas(layers, |layers| - 1, from.layer, from.index, to.index);
    var k :| 0 <= k < |pairs| && pairs[k] == (from, to);
    assert Joins(conns[k], from, to);
    FindEdgeNone(conns, from, to);
  }

  // ------------------------------------------------------------ out-degree

  lemma {:induction false} CountFromAppend(a: seq<(NodeRef, NodeRef)>, b: seq<(NodeRef, NodeRef)>, layers: seq<nat>, src: NodeRef)
    requires src.layer + 1 < |layers|
    ensures CountFrom(a + b, layers, src) == CountFrom(a, layers, src) + CountFrom(b, layers, src)
  {
    if b != [] {
      assert (a + b)[..|a + b| - 1] == a + b[..|b| - 1];
      CountFromAppend(a, b[..|b| - 1], layers, src);
    } else {
      assert a + b == a;
    }
  }

  lemma {:induction false} MatchesOutEdges(conns: seq<Edge>, pairs: seq<(NodeRef, NodeRef)>, layers: seq<nat>, src: NodeRef)
    requires src.layer + 1 < |layers| && Matches(conns, pairs)
    ensures |OutEdges(conns, layers, src)| == CountFrom(pairs, layers, src)
  {
    if conns != [] {
      MatchesOutEdges(conns[..|conns| - 1], pairs[..|pairs| - 1], layers, src);
    }
  }

  lemma {:induction false} RowFrom(l: nat, i: nat, n: nat, layers: seq<nat>, src: NodeRef)
    requires src.layer + 1 < |layers| && n <= layers[src.layer + 1]
    ensures CountFrom(Row(l, i, n), layers, src) == if l == src.layer && i == src.index then n else 0
  {
    if n > 0 {
      var front := Row(l, i, n - 1);
      var p := (NodeRef(l, i), NodeRef(l + 1, n - 1));
      CountFromAppend(front, [p], layers, src);
      RowFrom(l, i, n - 1, layers, src);
      assert [p][..0] == [];
    }
  }

  lemma {:induction false} BlockFromSame(layers: seq<nat>, l: nat, m: nat, src: NodeRef)
    requires src.layer + 1 < |layers| && l == src.layer
    ensures CountFrom(Block(layers, l, m), layers, src) == if src.index < m then layers[l + 1] else 0
  {
    if m > 0 {
      var front, row := Block(layers, l, m - 1), Row(l, m - 1, layers[l + 1]);
      assert Block(layers, l, m) == front + row;
      CountFromAppend(front, row, layers, src);
      BlockFromSame(layers, l, m - 1, src);
      RowFrom(l, m - 1, layers[l + 1], layers, src);
      var c, d := CountFrom(front, layers, src), CountFrom(row, layers, src);
      if src.index < m - 1 {
        assert c == layers[l + 1] && d == 0;
      } else if src.index == m - 1 {
        assert c == 0 && d == layers[l + 1];
      } else {
        assert c == 0 && d == 0;
      }
    }
  }

  lemma {:induction false} BlockFromOther(layers: seq<nat>, l: nat, m: nat, src: NodeRef)
    requires src.layer + 1 < |layers| && l + 1 < |layers| && l != src.layer
    ensures CountFrom(Block(layers, l, m), layers, src) == 0
  {
    if m > 0 {
      var front, row := Block(layers, l, m - 1), Row(l, m - 1, layers[l + 1]);
      CountFromAppend(front, row, layers, src);
      BlockFromOther(layers, l, m - 1, src);
      RowFromOtherLayer(l, m - 1, layers[l + 1], layers, src);
    }
  }

  lemma {:induction false} RowFromOtherLayer(l: nat, i: nat, n: nat, layers: seq<nat>, src: NodeRef)
    requires src.layer + 1 < |layers| && l != src.layer
    ensures CountFrom(Row(l, i, n), layers, src) == 0
  {
    if n > 0 {
      var p := (NodeRef(l, i), NodeRef(l + 1, n - 1));
      CountFromAppend(Row(l, i, n - 1), [p], layers, src);
      RowFromOtherLayer(l, i, n - 1, layers, src);
      assert [p][..0] == [];
    }
  }

  lemma {:induction false} WiringFrom(layers: seq<nat>, L: nat, src: NodeRef)
    requires src.layer + 1 < |layers| && L < |layers|
    ensures CountFrom(Wiring(layers, L), layers, src) ==
      if src.layer < L && src.index < layers[src.layer] then layers[src.layer + 1] else 0
  {
    if L > 0 {
      var front, block := Wiring(layers, L - 1), Block(layers, L - 1, layers[L - 1]);
      assert Wiring(layers, L) == front + block;
      CountFromAppend(front, block, layers, src);
      WiringFrom(layers, L - 1, src);
      var c, d := CountFrom(front, layers, src), CountFrom(block, layers, src);
      if L - 1 == src.layer {
        BlockFromSame(layers, L - 1, layers[L - 1], src);
        assert c == 0;
      } else {
        BlockFromOther(layers, L - 1, layers[L - 1], src);
        assert d == 0;
      }
    }
  }

  /** In a wired list every node of a non-final layer has one edge to each
      node of the next layer: its out-degree is the next layer's size. */
  lemma OutDegree(conns: seq<Edge>, layers: seq<nat>, src: NodeRef)
    requires Wired(conns, layers) && src.layer + 1 < |layers| && IsNode(layers, src)
    ensures |OutEdges(conns, layers, src)| == layers[src.layer + 1]
  {
    MatchesOutEdges(conns, FullWiring(layers), layers, src);
    WiringFrom(layers, |layers| - 1, src);
  }

  /** What propagation relies on: from every node outside the last layer
      there is an edge to each node of the next layer, and exactly that many
      edges leave it. */
  ghost predicate Connected(conns: seq<Edge>, layers: seq<nat>)
  {
    (forall src {:trigger OutEdges(conns, layers, src)} :: IsNode(layers, src) && src.layer + 1 < |layers| ==>
      |OutEdges(conns, layers, src)| == layers[src.layer + 1]) &&
    (forall from, to {:trigger FindEdge(conns, from, to)} :: IsNode(layers, from) && IsNode(layers, to) && to.layer == from.layer + 1 ==>
      FindEdge(conns, from, to).Some?)
  }

  lemma WiredConnected(conns: seq<Edge>, layers: seq<nat>)
    requires Wired(conns, layers)
    ensures Connected(conns, layers)
  {
    forall src | IsNode(layers, src) && src.layer + 1 < |layers|
      ensures |OutEdges(conns, layers, src)| == layers[src.layer + 1]
    {
      OutDegree(conns, layers, src);
    }
    forall from, to | IsNode(layers, from) && IsNode(layers, to) && to.layer == from.layer + 1
      ensures FindEdge(conns, from, to).Some?
    {
      FindEdgeSucceeds(conns, layers, from, to);
    }
  }
}
