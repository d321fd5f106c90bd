/** Edge choice of `propagateLayer` (loader.js): a node's outgoing edges are
    sorted by `(a, b) => Math.abs(b.weight) - Math.abs(a.weight)` and the first
    one or two are kept. `Array.prototype.sort` is stable, so edges of equal
    strength keep their list order; `ByStrength` is that sort written as
    repeated selection of the first strongest edge. */
module EdgeRanking {
  import opened NeuralTopology

  function Abs(x: real): real
  {
    if x < 0.0 then -x else x
  }

  function Strength(e: Edge): real
  {
    Abs(e.weight)
  }

  /** Position of the first edge of greatest strength. */
  function StrongestIndex(es: seq<Edge>): (k: nat)
    requires |es| > 0
    ensures k < |es|
  {
    if |es| == 1 then 0
    else
      var k := StrongestIndex(es[..|es| - 1]);
      if Strength(es[|es| - 1]) > Strength(es[k]) then |es| - 1 else k
  }

  /** No edge is stronger than the one selected, and every edge before it is weaker. */
  lemma {:induction false} StrongestIndexMax(es: seq<Edge>)
    requires |es| > 0
    ensures forall m :: 0 <= m < |es| ==> Strength(es[m]) <= Strength(es[StrongestIndex(es)])
    ensures forall m :: 0 <= m < StrongestIndex(es) ==> Strength(es[m]) < Strength(es[StrongestIndex(es)])
  {
    if |es| > 1 {
      var front := es[..|es| - 1];
      StrongestIndexMax(front);
      assert forall m :: 0 <= m < |front| ==> front[m] == es[m];
    }
  }

  /** The edges, strongest first, ties in list order. */
  function ByStrength(es: seq<Edge>): seq<Edge>
    decreases |es|
  {
    if es == [] then []
    else
      var k := StrongestIndex(es);
      [es[k]] + ByStrength(es[..k] + es[k + 1..])
  }

  /** Taking out the edge at `k` leaves the others, with their multiplicities. */
  lemma RemoveAt(es: seq<Edge>, k: nat)
    requires k < |es|
    ensures |es[..k] + es[k + 1..]| == |es| - 1
    ensures multiset(es) == multiset(es[..k] + es[k + 1..]) + multiset{es[k]}
  {
    assert es == es[..k] + [es[k]] + es[k + 1..];
  }

  /** The sort only reorders: same edges, same multiplicities. */
  lemma {:induction false} ByStrengthPermutes(es: seq<Edge>)
    ensures |ByStrength(es)| == |es|
    ensures multiset(ByStrength(es)) == multiset(es)
    decreases |es|
  {
    if es != [] {
      var k := StrongestIndex(es);
      RemoveAt(es, k);
      ByStrengthPermutes(es[..k] + es[k + 1..]);
    }
  }

  lemma ByStrengthMembers(es: seq<Edge>, x: Edge)
    requires x in ByStrength(es)
    ensures x in es
  {
    ByStrengthPermutes(es);
    assert x in multiset(ByStrength(es));
  }

  /** The sort orders by strength, strongest first. */
  lemma {:induction false} ByStrengthSorted(es: seq<Edge>)
    ensures forall i, j :: 0 <= i < j < |ByStrength(es)| ==>
      Strength(ByStrength(es)[i]) >= Strength(ByStrength(es)[j])
    decreases |es|
  {
    if es != [] {
      var k := StrongestIndex(es);
      var rest := es[..k] + es[k + 1..];
      var tail := ByStrength(rest);
      var r := ByStrength(es);
      assert r == [es[k]] + tail;
      ByStrengthSorted(rest);
      StrongestIndexMax(es);
      forall j | 0 <= j < |tail| ensures Strength(tail[j]) <= Strength(es[k]) {
        ByStrengthMembers(rest, tail[j]);
        assert tail[j] in es[..k] || tail[j] in es[k + 1..];
      }
      forall i, j | 0 <= i < j < |r| ensures Strength(r[i]) >= Strength(r[j]) {
        assert r[j] == tail[j - 1];
        if i > 0 { assert r[i] == tail[i - 1]; }
      }
    }
  }

  /** The edges of strength `w`, in list order. */
  function OfStrength(es: seq<Edge>, w: real): seq<Edge>
  {
    if es == [] then []
    else (if Strength(es[0]) == w then [es[0]] else []) + OfStrength(es[1..], w)
  }

  lemma {:induction false} OfStrengthAppend(a: seq<Edge>, b: seq<Edge>, w: real)
    ensures OfStrength(a + b, w) == OfStrength(a, w) + OfStrength(b, w)
  {
    if a == [] {
      assert a + b == b;
    } else {
      assert (a + b)[0] == a[0] && (a + b)[1..] == a[1..] + b;
      OfStrengthAppend(a[1..], b, w);
    }
  }

  lemma {:induction false} OfStrengthNone(es: seq<Edge>, w: real)
    requires forall m :: 0 <= m < |es| ==> Strength(es[m]) != w
    ensures OfStrength(es, w) == []
  {
    if es != [] {
      OfStrengthNone(es[1..], w);
    }
  }

  /** The sort is stable: for every strength, the edges of that strength
      appear in the result in the same order as in the input. */
  lemma OfStrengthOne(e: Edge, w: real)
    ensures OfStrength([e], w) == if Strength(e) == w then [e] else []
  {
    assert [e][1..] == [];
  }

  /** The sort is stable: for every strength, the edges of that strength
      appear in the result in the same order as in the input. */
  lemma {:induction false} ByStrengthStable(es: seq<Edge>, w: real)
    ensures OfStrength(ByStrength(es), w) == OfStrength(es, w)
    decreases |es|
  {
    if es != [] {
      var k := StrongestIndex(es);
      var front, back := es[..k], es[k + 1..];
      var rest := front + back;
      assert ByStrength(es) == [es[k]] + ByStrength(rest);
      ByStrengthStable(rest, w);
      var h := OfStrength([es[k]], w);
      var a, b := OfStrength(front, w), OfStrength(back, w);
      OfStrengthOne(es[k], w);
      OfStrengthAppend([es[k]], ByStrength(rest), w);
      OfStrengthAppend(front, back, w);
      assert OfStrength(ByStrength(es), w) == h + (a + b);
      assert es == front + ([es[k]] + back);
      OfStrengthAppend(front, [es[k]] + back, w);
      OfStrengthAppend([es[k]], back, w);
      assert OfStrength(es, w) == a + (h + b);
      if Strength(es[k]) == w {
        StrongestIndexMax(es);
        assert forall m :: 0 <= m < |front| ==> front[m] == es[m];
        OfStrengthNone(front, w);
      }
    }
  }

  function Min(a: nat, b: nat): nat
  {
    if a < b then a else b
  }

  /** `.sort(...).slice(0, count)`: the `count` strongest edges, or all of
      them when there are fewer. */
  function Strongest(es: seq<Edge>, count: nat): (r: seq<Edge>)
    ensures |r| == Min(count, |es|)
  {
    ByStrengthPermutes(es);
    ByStrength(es)[..Min(count, |es|)]
  }

  lemma SplitMultiset(s: seq<Edge>, n: nat)
    requires n <= |s|
    ensures multiset(s[..n]) <= multiset(s)
    ensures multiset(s) - multiset(s[..n]) == multiset(s[n..])
  {
    assert s == s[..n] + s[n..];
  }

  lemma SortedSplit(s: seq<Edge>, n: nat, x: Edge, y: Edge)
    requires n <= |s|
    requires forall i, j :: 0 <= i < j < |s| ==> Strength(s[i]) >= Strength(s[j])
    requires x in s[..n] && y in s[n..]
    ensures Strength(y) <= Strength(x)
  {
    var i :| 0 <= i < n && s[..n][i] == x;
    var j :| 0 <= j < |s| - n && s[n..][j] == y;
    assert s[i] == x && s[n + j] == y;
  }

  /** What the sort-and-slice selects: a part of the node's edges, and no edge
      left out is stronger than an edge kept. */
  lemma StrongestSelects(es: seq<Edge>, count: nat)
    ensures multiset(Strongest(es, count)) <= multiset(es)
    ensures forall x, y :: x in Strongest(es, count) && y in multiset(es) - multiset(Strongest(es, count)) ==>
      Strength(y) <= Strength(x)
  {
    ByStrengthPermutes(es);
    ByStrengthSorted(es);
    var sorted := ByStrength(es);
    var n := Min(count, |es|);
    SplitMultiset(sorted, n);
    forall x, y | x in sorted[..n] && y in multiset(sorted[n..]) ensures Strength(y) <= Strength(x) {
      SortedSplit(sorted, n, x, y);
    }
  }
}
