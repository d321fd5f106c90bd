/** The `SpaceBackground` starfield of space-background.js: a fixed pool of
    twinkling stars and a list of shooting stars that fly in from the edges,
    fade, and are dropped once faded or far outside the viewport. Canvas
    drawing is not modelled; the state it reads and writes is. */
module Starfield {
  import opened Draws

  /** `starCount`. */
  const STAR_COUNT: nat := 300
  /** Draws taken per star. */
  const STAR_DRAWS: nat := 6
  /** `Math.PI * 2`, as the double the source multiplies by. */
  const TAU: real := 6.283185307179586
  /** `Math.PI`, as a double. */
  const PI: real := 3.141592653589793
  /** Life a shooting star loses per frame. */
  const LIFE_STEP: real := 0.008
  /** How far outside the viewport a shooting star may be before it is dropped. */
  const MARGIN: real := 150.0
  /** Stars larger than this get a halo. */
  const HALO_SIZE: real := 1.5

  datatype Star = Star(x: real, y: real, size: real, opacity: real, twinkleSpeed: real, twinklePhase: real)

  datatype ShootingStar = ShootingStar(x: real, y: real, angle: real, speed: real, length: real, opacity: real, life: real)

  // ----------------------------------------------------------------- stars

  /** One star of `createStars`, from six draws in property order. */
  function NewStar(rand: nat -> real, width: nat, height: nat): Star
  {
    Star(rand(0) * width as real, rand(1) * height as real, rand(2) * 2.0 + 0.5,
         rand(3) * 0.5 + 0.5, rand(4) * 0.02 + 0.01, rand(5) * TAU)
  }

  /** The star pool `createStars` builds: star `i` takes draws `6i` to `6i + 5`. */
  function FreshStars(rand: nat -> real, width: nat, height: nat): (r: seq<Star>)
    ensures |r| == STAR_COUNT
  {
    seq(STAR_COUNT, i requires 0 <= i => NewStar(Skip(rand, STAR_DRAWS * i), width, height))
  }

  /** A star as `createStars` makes it, up to the phase it has advanced by. */
  ghost predicate StarFits(s: Star, width: nat, height: nat)
  {
    0.0 <= s.x && (s.x < width as real || width == 0) &&
    0.0 <= s.y && (s.y < height as real || height == 0) &&
    0.5 <= s.size < 2.5 && 0.5 <= s.opacity < 1.0 &&
    0.01 <= s.twinkleSpeed < 0.03 && 0.0 <= s.twinklePhase
  }

  lemma ScaleWithin(r: real, n: nat)
    requires 0.0 <= r < 1.0
    ensures 0.0 <= r * n as real && (r * n as real < n as real || n == 0)
  {
    if n > 0 {
      ScaleBelow(r, n as real);
    }
  }

  lemma NewStarFits(rand: nat -> real, width: nat, height: nat)
    requires Uniform(rand)
    ensures StarFits(NewStar(rand, width, height), width, height)
  {
    assert 0.0 <= rand(0) < 1.0 && 0.0 <= rand(1) < 1.0 && 0.0 <= rand(2) < 1.0;
    assert 0.0 <= rand(3) < 1.0 && 0.0 <= rand(4) < 1.0 && 0.0 <= rand(5) < 1.0;
    ScaleWithin(rand(0), width);
    ScaleWithin(rand(1), height);
  }

  /** `createStars` makes exactly 300 stars, each inside the viewport, of size
      [0.5, 2.5), opacity [0.5, 1), twinkle speed [0.01, 0.03). */
  lemma FreshStarsFit(rand: nat -> real, width: nat, height: nat)
    requires Uniform(rand)
    ensures |FreshStars(rand, width, height)| == STAR_COUNT
    ensures forall s :: s in FreshStars(rand, width, height) ==> StarFits(s, width, height)
  {
    var r := FreshStars(rand, width, height);
    forall s | s in r ensures StarFits(s, width, height) {
      var i :| 0 <= i < |r| && r[i] == s;
      SkipUniform(rand, STAR_DRAWS * i);
      NewStarFits(Skip(rand, STAR_DRAWS * i), width, height);
    }
  }

  /** The loop of `createStars`. */
  method MakeStars(rand: nat -> real, width: nat, height: nat) returns (stars: seq<Star>)
    ensures stars == FreshStars(rand, width, height)
  {
    stars := [];
    var i := 0;
    while i < STAR_COUNT
      invariant 0 <= i <= STAR_COUNT
      invariant stars == FreshStars(rand, width, height)[..i]
    {
      stars := stars + [NewStar(Skip(rand, STAR_DRAWS * i), width, height)];
      i := i + 1;
    }
  }

  /** `star.twinklePhase += star.twinkleSpeed`. */
  function Twinkle(s: Star): Star
  {
    s.(twinklePhase := s.twinklePhase + s.twinkleSpeed)
  }

  /** A frame of `drawStars` moves only the phase, forward by the star's own
      speed, and the star still fits. */
  lemma TwinkleFits(s: Star, width: nat, height: nat)
    requires StarFits(s, width, height)
    ensures StarFits(Twinkle(s), width, height)
    ensures Twinkle(s).twinklePhase > s.twinklePhase
    ensures Twinkle(s).(twinklePhase := s.twinklePhase) == s
  {
  }

  /** The loop of `drawStars`: every star twinkles; the positions given a
      halo (the stars larger than 1.5) are returned in drawing order. */
  method TwinkleAll(stars: seq<Star>) returns (next: seq<Star>, halos: seq<nat>)
    ensures |next| == |stars| && forall i :: 0 <= i < |stars| ==> next[i] == Twinkle(stars[i])
    ensures forall i: nat :: i in halos <==> i < |stars| && stars[i].size > HALO_SIZE
    ensures forall j, k :: 0 <= j < k < |halos| ==> halos[j] < halos[k]
  {
    next := [];
    halos := [];
    var i := 0;
    while i < |stars|
      invariant 0 <= i <= |stars|
      invariant |next| == i && forall j :: 0 <= j < i ==> next[j] == Twinkle(stars[j])
      invariant forall j: nat :: j in halos <==> j < i && stars[j].size > HALO_SIZE
      invariant forall j :: 0 <= j < |halos| ==> halos[j] < i
      invariant forall j, k :: 0 <= j < k < |halos| ==> halos[j] < halos[k]
    {
      var star := Twinkle(stars[i]);
      next := next + [star];
      if star.size > HALO_SIZE {
        halos := halos + [i];
      }
      i := i + 1;
    }
  }

  // ------------------------------------------------------- shooting stars

  /** The spawn side of `createShootingStar`: 0 top, 1 right, 2 bottom, 3 left. */
  function Side(rand: nat -> real): (side: nat)
    requires Uniform(rand)
    ensures side < 4
  {
    FloorIndex(rand(0), 4)
  }

  /** `Math.random() * n`: a point along a side of length `n`. */
  function Along(r: real, n: nat): (p: real)
    requires 0.0 <= r < 1.0
    ensures 0.0 <= p && (p < n as real || n == 0)
  {
    ScaleWithin(r, n);
    r * n as real
  }

  /** `Math.random() * span + low`: a value in [low, low + span). */
  function Spread(r: real, span: real, low: real): (v: real)
    requires 0.0 <= r < 1.0 && span > 0.0
    ensures low <= v < low + span
  {
    ScaleBelow(r, span);
    r * span + low
  }

  /** The star `createShootingStar` pushes: draw 0 picks the side, draw 1 the
      position along it, draw 2 the angle, draws 3 and 4 speed and length. */
  function NewShootingStar(rand: nat -> real, width: nat, height: nat): ShootingStar
    requires Uniform(rand)
  {
    var speed := Spread(rand(3), 3.0, 5.0);
    var length := Spread(rand(4), 100.0, 80.0);
    match Side(rand)
    case 0 => ShootingStar(Along(rand(1), width), -10.0, Spread(rand(2), 60.0, 60.0), speed, length, 1.0, 1.0)
    case 1 => ShootingStar(width as real + 10.0, Along(rand(1), height), Spread(rand(2), 60.0, 150.0), speed, length, 1.0, 1.0)
    case 2 => ShootingStar(Along(rand(1), width), height as real + 10.0, Spread(rand(2), 60.0, 240.0), speed, length, 1.0, 1.0)
    case _ => ShootingStar(-10.0, Along(rand(1), height), Spread(rand(2), 60.0, 330.0), speed, length, 1.0, 1.0)
  }

  /** A new shooting star starts at full life and opacity, with speed in
      [5, 8) and length in [80, 180), just outside the side it comes from,
      at a point along that side, and heading into the viewport: top at
      y = -10 with an angle in [60, 120), right at x = width + 10 with
      [150, 210), bottom at y = height + 10 with [240, 300), left at
      x = -10 with [330, 390). */
  lemma NewShootingStarSpec(rand: nat -> real, width: nat, height: nat)
    requires Uniform(rand)
    ensures var s := NewShootingStar(rand, width, height);
      s.life == 1.0 && s.opacity == 1.0 && 5.0 <= s.speed < 8.0 && 80.0 <= s.length < 180.0 &&
      (Side(rand) == 0 ==> (s.y == -10.0 && 0.0 <= s.x && (s.x < width as real || width == 0) &&
        60.0 <= s.angle < 120.0)) &&
      (Side(rand) == 1 ==> (s.x == width as real + 10.0 && 0.0 <= s.y && (s.y < height as real || height == 0) &&
        150.0 <= s.angle < 210.0)) &&
      (Side(rand) == 2 ==> (s.y == height as real + 10.0 && 0.0 <= s.x && (s.x < width as real || width == 0) &&
        240.0 <= s.angle < 300.0)) &&
      (Side(rand) == 3 ==> (s.x == -10.0 && 0.0 <= s.y && (s.y < height as real || height == 0) &&
        330.0 <= s.angle < 390.0))
  {
  }

  /** `(star.angle * Math.PI) / 180`. */
  function Radians(angle: real): real
  {
    angle * PI / 180.0
  }

  /** One frame of a shooting star: it moves along its heading (`cos` and
      `sin` stand for `Math.cos` and `Math.sin`), loses 0.008 of its life,
      and its opacity becomes its life. */
  function Fly(s: ShootingStar, cos: real -> real, sin: real -> real): ShootingStar
  {
    s.(x := s.x + cos(Radians(s.angle)) * s.speed,
       y := s.y + sin(Radians(s.angle)) * s.speed,
       life := s.life - LIFE_STEP,
       opacity := s.life - LIFE_STEP)
  }

  /** The filter drops a star whose life ran out or that is more than 150
      pixels outside the viewport. */
  predicate Gone(s: ShootingStar, width: nat, height: nat)
  {
    s.life <= 0.0 ||
    s.x < -MARGIN || s.x > width as real + MARGIN ||
    s.y < -MARGIN || s.y > height as real + MARGIN
  }

  /** The shooting stars after one `drawShootingStars` frame. */
  function Flown(ss: seq<ShootingStar>, width: nat, height: nat, cos: real -> real, sin: real -> real): seq<ShootingStar>
  {
    if ss == [] then []
    else
      var n := |ss| - 1;
      var t := Fly(ss[n], cos, sin);
      Flown(ss[..n], width, height, cos, sin) + (if Gone(t, width, height) then [] else [t])
  }

  /** The filter works star by star: the survivors of a concatenation are the
      survivors of each part, so survivors keep their relative order. */
  lemma {:induction false} FlownAppend(a: seq<ShootingStar>, b: seq<ShootingStar>, width: nat, height: nat,
                                       cos: real -> real, sin: real -> real)
    ensures Flown(a + b, width, height, cos, sin) == Flown(a, width, height, cos, sin) + Flown(b, width, height, cos, sin)
  {
    if b == [] {
      assert a + b == a;
    } else {
      var n := |b| - 1;
      assert (a + b)[..|a + b| - 1] == a + b[..n];
      FlownAppend(a, b[..n], width, height, cos, sin);
    }
  }

  /** A star stays exactly when, after its frame, it still has life and is
      within 150 pixels of the viewport. */
  lemma {:induction false} FlownMembers(ss: seq<ShootingStar>, width: nat, height: nat, cos: real -> real, sin: real -> real)
    ensures forall t :: t in Flown(ss, width, height, cos, sin) <==>
      exists s :: s in ss && t == Fly(s, cos, sin) && !Gone(t, width, height)
  {
    if ss != [] {
      var n := |ss| - 1;
      FlownMembers(ss[..n], width, height, cos, sin);
      assert ss == ss[..n] + [ss[n]];
    }
  }

  /** What the class keeps of every shooting star: some life left, at most
      the initial 1, and an opacity equal to it. */
  ghost predicate Lit(s: ShootingStar)
  {
    0.0 < s.life <= 1.0 && s.opacity == s.life
  }

  lemma FlownLit(ss: seq<ShootingStar>, width: nat, height: nat, cos: real -> real, sin: real -> real)
    requires forall s :: s in ss ==> s.life <= 1.0
    ensures forall t :: t in Flown(ss, width, height, cos, sin) ==> Lit(t)
  {
    FlownMembers(ss, width, height, cos, sin);
  }

  /** The list after `k` frames with no star added in between. */
  function Flights(ss: seq<ShootingStar>, width: nat, height: nat, cos: real -> real, sin: real -> real, k: nat): seq<ShootingStar>
  {
    if k == 0 then ss else Flown(Flights(ss, width, height, cos, sin, k - 1), width, height, cos, sin)
  }

  lemma {:induction false} FlightsLife(ss: seq<ShootingStar>, width: nat, height: nat, cos: real -> real, sin: real -> real, k: nat)
    requires forall s :: s in ss ==> s.life <= 1.0
    ensures forall t :: t in Flights(ss, width, height, cos, sin, k) ==> t.life <= 1.0 - LIFE_STEP * k as real
  {
    if k > 0 {
      FlightsLife(ss, width, height, cos, sin, k - 1);
      FlownMembers(Flights(ss, width, height, cos, sin, k - 1), width, height, cos, sin);
    }
  }

  lemma {:induction false} FlownAllGone(ss: seq<ShootingStar>, width: nat, height: nat, cos: real -> real, sin: real -> real)
    requires forall s :: s in ss ==> s.life <= LIFE_STEP
    ensures Flown(ss, width, height, cos, sin) == []
  {
    if ss != [] {
      var n := |ss| - 1;
      assert ss[n] in ss;
      assert forall s :: s in ss[..n] ==> s in ss;
      FlownAllGone(ss[..n], width, height, cos, sin);
    }
  }

  /** Life starts at 1 and drops by 0.008 a frame, so no shooting star is
      still listed after 125 frames, wherever it flies. */
  lemma ShootingStarLifetime(ss: seq<ShootingStar>, width: nat, height: nat, cos: real -> real, sin: real -> real)
    requires forall s :: s in ss ==> s.life <= 1.0
    ensures Flights(ss, width, height, cos, sin, 125) == []
  {
    FlightsLife(ss, width, height, cos, sin, 124);
    FlownAllGone(Flights(ss, width, height, cos, sin, 124), width, height, cos, sin);
  }

  /** The filter loop of `drawShootingStars`. */
  method FlyAll(ss: seq<ShootingStar>, width: nat, height: nat, cos: real -> real, sin: real -> real)
    returns (kept: seq<ShootingStar>)
    ensures kept == Flown(ss, width, height, cos, sin)
  {
    kept := [];
    var k := 0;
    while k < |ss|
      invariant 0 <= k <= |ss|
      invariant kept == Flown(ss[..k], width, height, cos, sin)
    {
      var star := Fly(ss[k], cos, sin);
      if !(star.life <= 0.0 ||
           star.x < -MARGIN || star.x > width as real + MARGIN ||
           star.y < -MARGIN || star.y > height as real + MARGIN) {
        kept := kept + [star];
      }
      assert ss[..k + 1][..k] == ss[..k];
      k := k + 1;
    }
    assert ss[..k] == ss;
  }

  class SpaceBackground {
    /** `window.innerWidth` and `window.innerHeight` at the last resize. */
    var width: nat
    var height: nat
    var stars: seq<Star>
    var shootingStars: seq<ShootingStar>

    /** The pool holds 300 stars that fit the viewport; every shooting star
        is still lit. */
    ghost predicate Valid()
      reads this
    {
      |stars| == STAR_COUNT && (forall s :: s in stars ==> StarFits(s, width, height)) &&
      forall s :: s in shootingStars ==> Lit(s)
    }

    /** `new SpaceBackground()`: a resize (which fills the pool), a second
        `createStars`, the shooting star `startShootingStars` creates at
        once, and the first `animate` frame. Draws: 1800 per pool, then 5
        for the shooting star. */
    constructor (w: nat, h: nat, rand: nat -> real, cos: real -> real, sin: real -> real)
      requires Uniform(rand)
      ensures Valid()
      ensures width == w && height == h
      ensures var pool := FreshStars(Skip(rand, STAR_COUNT * STAR_DRAWS), w, h);
        |stars| == STAR_COUNT && forall i :: 0 <= i < STAR_COUNT ==> stars[i] == Twinkle(pool[i])
      ensures Uniform(Skip(rand, 2 * STAR_COUNT * STAR_DRAWS)) &&
        shootingStars == Flown([NewShootingStar(Skip(rand, 2 * STAR_COUNT * STAR_DRAWS), w, h)], w, h, cos, sin)
    {
      width := w;
      height := h;
      stars := [];
      shootingStars := [];
      new;
      Resize(w, h, rand);
      SkipUniform(rand, STAR_COUNT * STAR_DRAWS);
      CreateStars(Skip(rand, STAR_COUNT * STAR_DRAWS));
      SkipUniform(rand, 2 * STAR_COUNT * STAR_DRAWS);
      CreateShootingStar(Skip(rand, 2 * STAR_COUNT * STAR_DRAWS));
      var _ := Animate(cos, sin);
    }

    /** `resize`: the new viewport and a new star pool; the shooting stars
        are kept as they are. */
    method Resize(w: nat, h: nat, rand: nat -> real)
      requires forall s :: s in shootingStars ==> Lit(s)
      requires Uniform(rand)
      modifies this`width, this`height, this`stars
      ensures Valid()
      ensures width == w && height == h && stars == FreshStars(rand, w, h)
      ensures unchanged(this`shootingStars)
    {
      width := w;
      height := h;
      CreateStars(rand);
    }

    /** `createStars`: the pool is replaced by 300 fresh stars. */
    method CreateStars(rand: nat -> real)
      requires Uniform(rand)
      modifies this`stars
      ensures stars == FreshStars(rand, width, height)
      ensures |stars| == STAR_COUNT && forall s :: s in stars ==> StarFits(s, width, height)
      ensures unchanged(this`width, this`height, this`shootingStars)
    {
      var pool := MakeStars(rand, width, height);
      FreshStarsFit(rand, width, height);
      stars := pool;
    }

    /** `createShootingStar`: one star appended. */
    method CreateShootingStar(rand: nat -> real)
      requires Valid() && Uniform(rand)
      modifies this`shootingStars
      ensures Valid()
      ensures shootingStars == old(shootingStars) + [NewShootingStar(rand, width, height)]
      ensures unchanged(this`width, this`height, this`stars)
    {
      NewShootingStarSpec(rand, width, height);
      shootingStars := shootingStars + [NewShootingStar(rand, width, height)];
    }

    /** The state part of `drawStars`: returns the positions drawn with a halo. */
    method DrawStars() returns (halos: seq<nat>)
      requires Valid()
      modifies this`stars
      ensures Valid()
      ensures |stars| == |old(stars)| && forall i :: 0 <= i < |stars| ==> stars[i] == Twinkle(old(stars[i]))
      ensures forall i: nat :: i in halos <==> i < |stars| && stars[i].size > HALO_SIZE
      ensures unchanged(this`width, this`height, this`shootingStars)
    {
      var next;
      next, halos := TwinkleAll(stars);
      forall s | s in next ensures StarFits(s, width, height) {
        var i :| 0 <= i < |next| && next[i] == s;
        assert stars[i] in stars;
        TwinkleFits(stars[i], width, height);
      }
      stars := next;
    }

    /** The state part of `drawShootingStars`. */
    method DrawShootingStars(cos: real -> real, sin: real -> real)
      requires Valid()
      modifies this`shootingStars
      ensures Valid()
      ensures shootingStars == Flown(old(shootingStars), width, height, cos, sin)
      ensures unchanged(this`width, this`height, this`stars)
    {
      var kept := FlyAll(shootingStars, width, height, cos, sin);
      FlownLit(shootingStars, width, height, cos, sin);
      shootingStars := kept;
    }

    /** One `animate` frame: the stars, then the shooting stars. */
    method Animate(cos: real -> real, sin: real -> real) returns (halos: seq<nat>)
      requires Valid()
      modifies this`stars, this`shootingStars
      ensures Valid()
      ensures |stars| == |old(stars)| && forall i :: 0 <= i < |stars| ==> stars[i] == Twinkle(old(stars[i]))
      ensures shootingStars == Flown(old(shootingStars), width, height, cos, sin)
      ensures unchanged(this`width, this`height)
    {
      halos := DrawStars();
      DrawShootingStars(cos, sin);
    }
  }
}
