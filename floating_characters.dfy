/** The `FloatingCharacters` backdrop of src/floating-characters.js: a grid of
    glyphs, one per 80-pixel cell, jittered off the grid, each swapping its
    character for a fresh random one once its counter passes its interval.
    The wave offsets and the drawing itself are not modelled. */
module Glyphs {
  import opened Draws

  /** `gridSize`. */
  const GRID: nat := 80
  /** `chars`: the alphabet glyphs are drawn from. */
  const CHARS: string := "ABCDEFGHIJKLMNOPQRSTUVWXYZabcdefghijklmnopqrstuvwxyz0123456789@#$%&*+=<>[]{}()"
  /** `waveSpeed`: how far `time` advances per frame. */
  const WAVE_SPEED: real := 0.05
  /** Draws taken per glyph by `createCharacters`. */
  const GLYPH_DRAWS: nat := 7
  /** `Math.PI * 2`, as a double. */
  const TAU: real := 6.283185307179586

  datatype Glyph = Glyph(x: real, y: real, baseY: real, ch: char, changeInterval: real, changeCounter: nat,
                         gridX: nat, gridY: nat, opacity: real, size: real, phaseOffset: real)

  /** `Math.ceil(n / gridSize)` for a whole number of pixels. */
  function Cells(n: nat): (c: nat)
    ensures c * GRID >= n && (c == 0 || (c - 1) * GRID < n)
  {
    (n + GRID - 1) / GRID
  }

  /** `this.chars[Math.floor(Math.random() * this.chars.length)]`. */
  function PickChar(r: real): (c: char)
    requires 0.0 <= r < 1.0
    ensures c in CHARS
  {
    CHARS[FloorIndex(r, |CHARS|)]
  }

  /** `Math.random() * 100 + 50`. */
  function Interval(r: real): real
  {
    r * 100.0 + 50.0
  }

  /** The glyph `createCharacters` pushes for cell (`gx`, `gy`): draws 0 and 1
      jitter it, then the character, interval, opacity, size and phase. */
  function NewGlyph(rand: nat -> real, gx: nat, gy: nat): Glyph
    requires Uniform(rand)
  {
    var offX := (rand(0) - 0.5) * 30.0;
    var offY := (rand(1) - 0.5) * 30.0;
    Glyph((gx * GRID) as real + offX, (gy * GRID) as real + offY, (gy * GRID) as real + offY,
          PickChar(rand(2)), Interval(rand(3)), 0, gx, gy,
          rand(4) * 0.6 + 0.3, rand(5) * 4.0 + 12.0, rand(6) * TAU)
  }

  /** Where glyph (`gx`, `gy`) sits in the list when columns hold `rows`
      glyphs each. */
  function Slot(gx: nat, gy: nat, rows: nat): nat
  {
    gx * rows + gy
  }

  /** Column `gx` of the grid: the inner loop of `createCharacters`. Glyph
      (`gx`, `gy`) takes the seven draws from `7 * Slot(gx, gy, rows)` on. */
  function Column(rand: nat -> real, gx: nat, rows: nat): (r: seq<Glyph>)
    requires Uniform(rand)
    ensures |r| == rows
  {
    seq(rows, gy requires 0 <= gy < rows =>
      SkipUniform(rand, GLYPH_DRAWS * Slot(gx, gy, rows));
      NewGlyph(Skip(rand, GLYPH_DRAWS * Slot(gx, gy, rows)), gx, gy))
  }

  /** The first `cols` columns, left to right. */
  function Grid(rand: nat -> real, cols: nat, rows: nat): seq<Glyph>
    requires Uniform(rand)
  {
    if cols == 0 then [] else Grid(rand, cols - 1, rows) + Column(rand, cols - 1, rows)
  }

  /** The glyphs `createCharacters` makes for a `width` by `height` viewport. */
  function FreshGlyphs(rand: nat -> real, width: nat, height: nat): seq<Glyph>
    requires Uniform(rand)
  {
    Grid(rand, Cells(width), Cells(height))
  }

  /** What every glyph keeps: its counter never passes its interval, which
      lies in [50, 150), and its character is one of the alphabet. */
  ghost predicate Steady(g: Glyph)
  {
    g.changeCounter as real <= g.changeInterval && 50.0 <= g.changeInterval < 150.0 && g.ch in CHARS
  }

  /** A glyph as `createCharacters` leaves it: within 15 pixels of its cell
      corner, `y` equal to `baseY`, counter 0, opacity [0.3, 0.9), size
      [12, 16), a non-negative phase. */
  ghost predicate Placed(g: Glyph)
  {
    Steady(g) && g.changeCounter == 0 && g.y == g.baseY &&
    (g.gridX * GRID) as real - 15.0 <= g.x < (g.gridX * GRID) as real + 15.0 &&
    (g.gridY * GRID) as real - 15.0 <= g.y < (g.gridY * GRID) as real + 15.0 &&
    0.3 <= g.opacity < 0.9 && 12.0 <= g.size < 16.0 && 0.0 <= g.phaseOffset
  }

  lemma NewGlyphPlaced(rand: nat -> real, gx: nat, gy: nat)
    requires Uniform(rand)
    ensures Placed(NewGlyph(rand, gx, gy))
    ensures NewGlyph(rand, gx, gy).gridX == gx && NewGlyph(rand, gx, gy).gridY == gy
  {
    assert 0.0 <= rand(0) < 1.0 && 0.0 <= rand(1) < 1.0 && 0.0 <= rand(3) < 1.0;
    assert 0.0 <= rand(4) < 1.0 && 0.0 <= rand(5) < 1.0 && 0.0 <= rand(6) < 1.0;
  }

  lemma {:induction false} GridLength(rand: nat -> real, cols: nat, rows: nat)
    requires Uniform(rand)
    ensures |Grid(rand, cols, rows)| == cols * rows
  {
    if cols > 0 {
      GridLength(rand, cols - 1, rows);
      assert (cols - 1) * rows + rows == cols * rows;
    }
  }

  /** The grid is laid out column by column: glyph (`gx`, `gy`) is at
      `Slot(gx, gy, rows)`. */
  lemma {:induction false} GridAt(rand: nat -> real, cols: nat, rows: nat, gx: nat, gy: nat)
    requires Uniform(rand) && gx < cols && gy < rows
    ensures Slot(gx, gy, rows) < |Grid(rand, cols, rows)|
    ensures Grid(rand, cols, rows)[Slot(gx, gy, rows)] == Column(rand, gx, rows)[gy]
  {
    GridLength(rand, cols - 1, rows);
    assert |Grid(rand, cols, rows)| == (cols - 1) * rows + rows;
    if gx < cols - 1 {
      GridAt(rand, cols - 1, rows, gx, gy);
      assert Slot(gx, gy, rows) < (gx + 1) * rows <= (cols - 1) * rows;
    } else {
      assert Slot(gx, gy, rows) == (cols - 1) * rows + gy;
    }
  }

  /** `createCharacters` lays `ceil(width / 80) * ceil(height / 80)` glyphs,
      one in every cell of the grid, column by column, each placed as
      `Placed` says. */
  lemma FreshGlyphsGrid(rand: nat -> real, width: nat, height: nat)
    requires Uniform(rand)
    ensures var r, rows := FreshGlyphs(rand, width, height), Cells(height);
      |r| == Cells(width) * rows &&
      forall gx: nat, gy: nat :: gx < Cells(width) && gy < rows ==>
        Slot(gx, gy, rows) < |r| && r[Slot(gx, gy, rows)].gridX == gx && r[Slot(gx, gy, rows)].gridY == gy &&
        Placed(r[Slot(gx, gy, rows)])
  {
    var cols, rows := Cells(width), Cells(height);
    GridLength(rand, cols, rows);
    forall gx: nat, gy: nat | gx < cols && gy < rows
      ensures Slot(gx, gy, rows) < |Grid(rand, cols, rows)| &&
        Grid(rand, cols, rows)[Slot(gx, gy, rows)].gridX == gx && Grid(rand, cols, rows)[Slot(gx, gy, rows)].gridY == gy &&
        Placed(Grid(rand, cols, rows)[Slot(gx, gy, rows)])
    {
      GridAt(rand, cols, rows, gx, gy);
      SkipUniform(rand, GLYPH_DRAWS * Slot(gx, gy, rows));
      NewGlyphPlaced(Skip(rand, GLYPH_DRAWS * Slot(gx, gy, rows)), gx, gy);
    }
  }

  /** Every glyph of a fresh grid is placed. */
  lemma {:induction false} GridPlaced(rand: nat -> real, cols: nat, rows: nat)
    requires Uniform(rand)
    ensures forall g :: g in Grid(rand, cols, rows) ==> Placed(g)
  {
    if cols > 0 {
      GridPlaced(rand, cols - 1, rows);
      var c := Column(rand, cols - 1, rows);
      forall g | g in c ensures Placed(g) {
        var gy :| 0 <= gy < rows && c[gy] == g;
        SkipUniform(rand, GLYPH_DRAWS * Slot(cols - 1, gy, rows));
        NewGlyphPlaced(Skip(rand, GLYPH_DRAWS * Slot(cols - 1, gy, rows)), cols - 1, gy);
      }
    }
  }

  lemma ColumnStep(rand: nat -> real, gx: nat, rows: nat, gy: nat)
    requires Uniform(rand) && gy < rows
    ensures Uniform(Skip(rand, GLYPH_DRAWS * Slot(gx, gy, rows)))
    ensures Column(rand, gx, rows)[..gy + 1] ==
      Column(rand, gx, rows)[..gy] + [NewGlyph(Skip(rand, GLYPH_DRAWS * Slot(gx, gy, rows)), gx, gy)]
  {
    SkipUniform(rand, GLYPH_DRAWS * Slot(gx, gy, rows));
    assert Column(rand, gx, rows)[..gy + 1] == Column(rand, gx, rows)[..gy] + [Column(rand, gx, rows)[gy]];
  }

  lemma GridStep(rand: nat -> real, gx: nat, rows: nat)
    requires Uniform(rand)
    ensures Grid(rand, gx + 1, rows) == Grid(rand, gx, rows) + Column(rand, gx, rows)[..rows]
  {
    assert Column(rand, gx, rows)[..rows] == Column(rand, gx, rows);
  }

  /** The nested loops of `createCharacters`. */
  method MakeGlyphs(rand: nat -> real, width: nat, height: nat) returns (glyphs: seq<Glyph>)
    requires Uniform(rand)
    ensures glyphs == FreshGlyphs(rand, width, height)
  {
    var cols, rows := Cells(width), Cells(height);
    glyphs := [];
    var gx := 0;
    while gx < cols
      invariant 0 <= gx <= cols
      invariant glyphs == Grid(rand, gx, rows)
    {
      var gy := 0;
      while gy < rows
        invariant 0 <= gy <= rows
        invariant glyphs == Grid(rand, gx, rows) + Column(rand, gx, rows)[..gy]
      {
        ColumnStep(rand, gx, rows, gy);
        glyphs := glyphs + [NewGlyph(Skip(rand, GLYPH_DRAWS * Slot(gx, gy, rows)), gx, gy)];
        gy := gy + 1;
      }
      GridStep(rand, gx, rows);
      gx := gx + 1;
    }
  }

  /** One frame of a glyph in `drawCharacters`: the counter goes up; once it
      passes the interval, draw 0 picks a new character, draw 1 a new
      interval, and the counter restarts at 0. */
  function Tick(g: Glyph, rand: nat -> real): Glyph
    requires Uniform(rand)
  {
    var c := g.changeCounter + 1;
    if c as real > g.changeInterval then g.(ch := PickChar(rand(0)), changeCounter := 0, changeInterval := Interval(rand(1)))
    else g.(changeCounter := c)
  }

  /** Draws one glyph's frame takes: two when it changes, none otherwise. */
  function TickDraws(g: Glyph): nat
  {
    if (g.changeCounter + 1) as real > g.changeInterval then 2 else 0
  }

  /** A frame keeps a glyph steady, moves only its character, counter and
      interval, and changes the character exactly when the counter passes
      the interval; otherwise the counter goes up by one. */
  lemma TickSteady(g: Glyph, rand: nat -> real)
    requires Uniform(rand) && Steady(g)
    ensures Steady(Tick(g, rand))
    ensures Tick(g, rand).(ch := g.ch, changeCounter := g.changeCounter, changeInterval := g.changeInterval) == g
    ensures TickDraws(g) == 2 <==> Tick(g, rand).changeCounter == 0
    ensures TickDraws(g) == 0 ==> Tick(g, rand).changeCounter == g.changeCounter + 1 && Tick(g, rand).ch == g.ch
  {
    assert 0.0 <= rand(1) < 1.0;
  }

  /** A frame of `drawCharacters` over all glyphs, with the number of draws
      it took: glyphs tick in order, each from the draws left by those
      before it. */
  function Ticks(gs: seq<Glyph>, rand: nat -> real): (seq<Glyph>, nat)
    requires Uniform(rand)
  {
    if gs == [] then ([], 0)
    else
      var n := |gs| - 1;
      var (front, used) := Ticks(gs[..n], rand);
      SkipUniform(rand, used);
      (front + [Tick(gs[n], Skip(rand, used))], used + TickDraws(gs[n]))
  }

  /** A frame keeps the glyph list's length and positions, ticks glyph `i`
      with whatever draws it starts at, and keeps every glyph steady. */
  lemma {:induction false} TicksSteady(gs: seq<Glyph>, rand: nat -> real)
    requires Uniform(rand)
    requires forall g :: g in gs ==> Steady(g)
    ensures |Ticks(gs, rand).0| == |gs|
    ensures forall i :: 0 <= i < |gs| ==> exists d: nat :: Ticks(gs, rand).0[i] == Tick(gs[i], Skip(rand, d))
    ensures forall g :: g in Ticks(gs, rand).0 ==> Steady(g)
  {
    if gs != [] {
      var n := |gs| - 1;
      assert forall g :: g in gs[..n] ==> g in gs;
      TicksSteady(gs[..n], rand);
      var (front, used) := Ticks(gs[..n], rand);
      SkipUniform(rand, used);
      assert gs[n] in gs;
      TickSteady(gs[n], Skip(rand, used));
      var r := Ticks(gs, rand).0;
      assert r == front + [Tick(gs[n], Skip(rand, used))];
      forall i | 0 <= i < |gs| ensures exists d: nat :: r[i] == Tick(gs[i], Skip(rand, d)) {
        if i == n {
          assert r[i] == Tick(gs[i], Skip(rand, used));
        } else {
          assert r[i] == front[i] && gs[i] == gs[..n][i];
        }
      }
    }
  }

  lemma TicksStep(gs: seq<Glyph>, rand: nat -> real, k: nat)
    requires Uniform(rand) && k < |gs|
    ensures var (front, used) := Ticks(gs[..k], rand);
      Uniform(Skip(rand, used)) &&
      Ticks(gs[..k + 1], rand) == (front + [Tick(gs[k], Skip(rand, used))], used + TickDraws(gs[k]))
  {
    assert gs[..k + 1][..k] == gs[..k];
    SkipUniform(rand, Ticks(gs[..k], rand).1);
  }

  /** The body of the `drawCharacters` loop for one glyph; returns the
      draws it took. */
  method TickGlyph(g0: Glyph, rand: nat -> real) returns (g: Glyph, used: nat)
    requires Uniform(rand)
    ensures g == Tick(g0, rand) && used == TickDraws(g0)
  {
    g := g0.(changeCounter := g0.changeCounter + 1);
    used := 0;
    if g.changeCounter as real > g.changeInterval {
      g := g.(ch := PickChar(rand(0)), changeCounter := 0, changeInterval := Interval(rand(1)));
      used := 2;
    }
  }

  /** The loop of `drawCharacters`. */
  method TickAll(gs: seq<Glyph>, rand: nat -> real) returns (next: seq<Glyph>, used: nat)
    requires Uniform(rand)
    ensures (next, used) == Ticks(gs, rand)
  {
    next, used := [], 0;
    var k := 0;
    while k < |gs|
      invariant 0 <= k <= |gs|
      invariant next == Ticks(gs[..k], rand).0 && used == Ticks(gs[..k], rand).1
    {
      TicksStep(gs, rand, k);
      SkipUniform(rand, used);
      var g, d := TickGlyph(gs[k], Skip(rand, used));
      next, used := next + [g], used + d;
      k := k + 1;
    }
    assert gs[..k] == gs;
  }

  class FloatingCharacters {
    /** `window.innerWidth` and `window.innerHeight` at the last resize. */
    var width: nat
    var height: nat
    var characters: seq<Glyph>
    /** The wave clock. */
    var time: real

    ghost predicate Valid()
      reads this
    {
      forall g :: g in characters ==> Steady(g)
    }

    /** `new FloatingCharacters()`: a resize (which lays out the grid), a
        second `createCharacters`, and the first `animate` frame. Draws: one
        grid's worth per layout, then the frame's. */
    constructor (w: nat, h: nat, rand: nat -> real)
      requires Uniform(rand)
      ensures Valid()
      ensures width == w && height == h && time == WAVE_SPEED
      ensures var n := GLYPH_DRAWS * Cells(w) * Cells(h);
        Uniform(Skip(rand, n)) && Uniform(Skip(rand, 2 * n)) &&
        characters == Ticks(FreshGlyphs(Skip(rand, n), w, h), Skip(rand, 2 * n)).0
    {
      width := w;
      height := h;
      characters := [];
      time := 0.0;
      new;
      Resize(w, h, rand);
      var n := GLYPH_DRAWS * Cells(w) * Cells(h);
      SkipUniform(rand, n);
      CreateCharacters(Skip(rand, n));
      SkipUniform(rand, 2 * n);
      var _ := Animate(Skip(rand, 2 * n));
    }

    /** `resize`: the new viewport and a new grid; the clock keeps running. */
    method Resize(w: nat, h: nat, rand: nat -> real)
      requires Uniform(rand)
      modifies this`width, this`height, this`characters
      ensures Valid()
      ensures width == w && height == h && characters == FreshGlyphs(rand, w, h)
      ensures unchanged(this`time)
    {
      width := w;
      height := h;
      CreateCharacters(rand);
    }

    /** `createCharacters`: the glyphs are replaced by a fresh grid. */
    method CreateCharacters(rand: nat -> real)
      requires Uniform(rand)
      modifies this`characters
      ensures Valid() && forall g :: g in characters ==> Placed(g)
      ensures characters == FreshGlyphs(rand, width, height)
      ensures unchanged(this`width, this`height, this`time)
    {
      var grid := MakeGlyphs(rand, width, height);
      GridPlaced(rand, Cells(width), Cells(height));
      characters := grid;
    }

    /** The state part of `drawCharacters`; returns the draws it took. */
    method DrawCharacters(rand: nat -> real) returns (used: nat)
      requires Valid() && Uniform(rand)
      modifies this`characters
      ensures Valid()
      ensures (characters, used) == Ticks(old(characters), rand)
      ensures unchanged(this`width, this`height, this`time)
    {
      var next;
      next, used := TickAll(characters, rand);
      TicksSteady(characters, rand);
      characters := next;
    }

    /** One `animate` frame: the clock advances by `waveSpeed`, then the
        glyphs tick. */
    method Animate(rand: nat -> real) returns (used: nat)
      requires Valid() && Uniform(rand)
      modifies this`time, this`characters
      ensures Valid()
      ensures time == old(time) + WAVE_SPEED
      ensures (characters, used) == Ticks(old(characters), rand)
      ensures unchanged(this`width, this`height)
    {
      time := time + WAVE_SPEED;
      used := DrawCharacters(rand);
    }
  }
}
