/** The falling-character background: a pool of glyph objects that a resize
    rebuilds and that every animation frame advances in place. Drawing is
    not modelled; only the positions, speeds, opacities and characters. */
module MatrixRain {
  import opened Oracle

  /** The alphabet the glyphs are drawn from. */
  const Chars: string := "ABCDEFGHIJKLMNOPQRSTUVWXYZ0123456789@#$%^&*()_+-=[]{}|;:,.<>?/~`"

  /** Pixels of canvas width per pair of glyphs. */
  const ColumnWidth: nat := 20

  /** Where a glyph re-enters after falling past the bottom edge. */
  const ResetY: real := -20.0

  /** A glyph changes its character at random in this share of frames. */
  const FlipChance: real := 0.02

  /** `chars[Math.floor(Math.random() * chars.length)]`. */
  function RandomChar(r: real): (c: char)
    requires Unit(r)
    ensures c in Chars
  {
    Chars[Pick(r, |Chars|)]
  }

  /** The number of glyphs a resize creates: two per 20-pixel column, with a
      partial column ignored. */
  function NumGlyphs(width: nat): (n: nat)
    ensures n % 2 == 0
    ensures n / 2 * ColumnWidth <= width < (n / 2 + 1) * ColumnWidth
  {
    width / ColumnWidth * 2
  }

  /** A glyph's fields, as a value. */
  datatype GlyphState = GlyphState(ch: char, x: real, y: real, speed: real, opacity: real)

  /** The five draws that create one glyph, in the order the code makes them:
      character, x, y, speed, opacity. */
  datatype SpawnDraw = SpawnDraw(rChar: real, rX: real, rY: real, rSpeed: real, rOpacity: real)

  predicate SpawnDrawOk(d: SpawnDraw) {
    Unit(d.rChar) && Unit(d.rX) && Unit(d.rY) && Unit(d.rSpeed) && Unit(d.rOpacity)
  }

  /** The draws one frame makes for one glyph: a new x and character if it
      wraps, then the 2% test and the character it may flip to. */
  datatype FrameDraw = FrameDraw(rX: real, rChar: real, rFlip: real, rFlipChar: real)

  predicate FrameDrawOk(d: FrameDraw) {
    Unit(d.rX) && Unit(d.rChar) && Unit(d.rFlip) && Unit(d.rFlipChar)
  }

  /** What holds of every glyph of a pool on a `width` by `height` canvas:
      its character is from the alphabet, its x is on the canvas, its y is
      between the re-entry line and the bottom edge, its speed is in [1, 4)
      and its opacity in [0.1, 0.6). */
  predicate InPool(g: GlyphState, width: nat, height: nat) {
    && g.ch in Chars
    && 0.0 <= g.x < width as real
    && ResetY <= g.y <= height as real
    && 1.0 <= g.speed < 4.0
    && 0.1 <= g.opacity < 0.6
  }

  /** A freshly created glyph on a `width` by `height` canvas. */
  function Spawned(d: SpawnDraw, width: nat, height: nat): (g: GlyphState)
    requires SpawnDrawOk(d)
    ensures 0.0 <= g.x <= width as real && 0.0 <= g.y <= height as real
    ensures width > 0 ==> InPool(g, width, height)
  {
    GlyphState(RandomChar(d.rChar), Scale(d.rX, width), Scale(d.rY, height),
               d.rSpeed * 3.0 + 1.0, d.rOpacity * 0.5 + 0.1)
  }

  /** One frame of one glyph: it falls by its speed; past the bottom edge it
      re-enters at `ResetY` with a new x and character; and it may flip its
      character. */
  function Step(g: GlyphState, d: FrameDraw, width: nat, height: nat): (r: GlyphState)
    requires FrameDrawOk(d)
    ensures r.speed == g.speed && r.opacity == g.opacity
    ensures g.y + g.speed > height as real ==> r.y == ResetY && r.x == Scale(d.rX, width)
    ensures g.y + g.speed <= height as real ==> r.y == g.y + g.speed && r.x == g.x
    ensures r.ch == g.ch || r.ch in Chars
  {
    var y := g.y + g.speed;
    var wraps := y > height as real;
    var fallen := if wraps then GlyphState(RandomChar(d.rChar), Scale(d.rX, width), ResetY, g.speed, g.opacity)
                  else g.(y := y);
    if d.rFlip < FlipChance then fallen.(ch := RandomChar(d.rFlipChar)) else fallen
  }

  /** A frame keeps every glyph of the pool inside the pool's bounds: in
      particular a glyph never falls below the bottom edge, and its character
      stays in the alphabet. */
  lemma StepStaysInPool(g: GlyphState, d: FrameDraw, width: nat, height: nat)
    requires FrameDrawOk(d)
    requires InPool(g, width, height)
    ensures InPool(Step(g, d, width, height), width, height)
  {
  }

  /** One glyph object, updated in place by the animation loop. */
  class Glyph {
    var ch: char
    var x: real
    var y: real
    var speed: real
    var opacity: real

    constructor (s: GlyphState)
      ensures State() == s
    {
      ch, x, y, speed, opacity := s.ch, s.x, s.y, s.speed, s.opacity;
    }

    function State(): GlyphState
      reads this
    {
      GlyphState(ch, x, y, speed, opacity)
    }

    /** The body of the animation loop for this glyph (drawing left out). */
    method Fall(d: FrameDraw, width: nat, height: nat)
      requires FrameDrawOk(d)
      modifies this
      ensures State() == Step(old(State()), d, width, height)
    {
      y := y + speed;
      if y > height as real {
        y := ResetY;
        x := Scale(d.rX, width);
        ch := RandomChar(d.rChar);
      }
      if d.rFlip < FlipChance {
        ch := RandomChar(d.rFlipChar);
      }
    }
  }

  /** The canvas size and the glyph pool (the component's `matrixChars` ref). */
  class Rain {
    var width: nat
    var height: nat
    var glyphs: seq<Glyph>

    /** The glyphs are distinct objects, and each one satisfies `InPool`. */
    ghost predicate Valid()
      reads this, glyphs
    {
      && (forall i, j :: 0 <= i < j < |glyphs| ==> glyphs[i] != glyphs[j])
      && (forall i :: 0 <= i < |glyphs| ==> InPool(glyphs[i].State(), width, height))
    }

    constructor ()
      ensures Valid() && width == 0 && height == 0 && glyphs == []
    {
      width, height, glyphs := 0, 0, [];
    }

    /** `resizeCanvas`: take the new window size and rebuild the pool from
        scratch, one glyph per draw. */
    method Resize(w: nat, h: nat, draws: seq<SpawnDraw>)
      requires |draws| >= NumGlyphs(w)
      requires forall i :: 0 <= i < |draws| ==> SpawnDrawOk(draws[i])
      modifies this
      ensures Valid()
      ensures width == w && height == h
      ensures |glyphs| == NumGlyphs(w)
      ensures forall i :: 0 <= i < |glyphs| ==> fresh(glyphs[i]) && glyphs[i].State() == Spawned(draws[i], w, h)
    {
      width, height := w, h;
      glyphs := [];
      var n := NumGlyphs(w);
      for i := 0 to n
        invariant width == w && height == h
        invariant |glyphs| == i
        invariant forall k :: 0 <= k < i ==> fresh(glyphs[k]) && glyphs[k].State() == Spawned(draws[k], w, h)
        invariant forall j, k :: 0 <= j < k < i ==> glyphs[j] != glyphs[k]
      {
        var g := new Glyph(Spawned(draws[i], w, h));
        glyphs := glyphs + [g];
      }
    }

    /** One frame of `animate`: every glyph takes its `Step`, in place. */
    method Animate(frame: seq<FrameDraw>)
      requires Valid()
      requires |frame| >= |glyphs|
      requires forall i :: 0 <= i < |frame| ==> FrameDrawOk(frame[i])
      modifies glyphs
      ensures Valid()
      ensures forall i :: 0 <= i < |glyphs| ==> glyphs[i].State() == Step(old(glyphs[i].State()), frame[i], width, height)
    {
      for i := 0 to |glyphs|
        invariant forall j, k :: 0 <= j < k < |glyphs| ==> glyphs[j] != glyphs[k]
        invariant forall k :: 0 <= k < i ==> glyphs[k].State() == Step(old(glyphs[k].State()), frame[k], width, height)
        invariant forall k :: 0 <= k < i ==> InPool(glyphs[k].State(), width, height)
        invariant forall k :: i <= k < |glyphs| ==> glyphs[k].State() == old(glyphs[k].State())
      {
        StepStaysInPool(glyphs[i].State(), frame[i], width, height);
        glyphs[i].Fall(frame[i], width, height);
      }
    }
  }
}
