/** Random draws. Every `Math.random()` call of the animations is taken from a
    stream of draws that the caller supplies; `Uniform` says that each draw
    lies in [0, 1), which is all the source assumes of `Math.random()`. */
module Draws {

  /** Every draw of the stream lies in [0, 1). */
  ghost predicate Uniform(rand: nat -> real)
  {
    forall k: nat :: 0.0 <= rand(k) < 1.0
  }

  /** The stream with its first `d` draws already used. */
  function Skip(rand: nat -> real, d: nat): (r: nat -> real)
    ensures forall k: nat :: r(k) == rand(d + k)
  {
    (k: nat) => rand(d + k)
  }

  lemma SkipUniform(rand: nat -> real, d: nat)
    requires Uniform(rand)
    ensures Uniform(Skip(rand, d))
  {
    forall k: nat ensures 0.0 <= Skip(rand, d)(k) < 1.0 {
      assert Skip(rand, d)(k) == rand(d + k);
    }
  }

  lemma ScaleBelow(r: real, x: real)
    requires 0.0 <= r < 1.0 && x > 0.0
    ensures 0.0 <= r * x < x
  {
    var g := 1.0 - r;
    assert g * x > 0.0;
    assert x - r * x == g * x;
  }

  /** `Math.floor(r * n)`: a uniform index below `n`. */
  function FloorIndex(r: real, n: nat): (k: nat)
    requires 0.0 <= r < 1.0 && n > 0
    ensures k < n
  {
    var x := r * n as real;
    ScaleBelow(r, n as real);
    assert 0.0 <= x < n as real;
    var k := x.Floor;
    assert 0 <= k;
    assert k as real <= x;
    assert k < n;
    k
  }
}
