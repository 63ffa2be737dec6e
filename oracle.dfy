/** Stand-ins for the browser's random source: every `Math.random()` draw the
    code makes is passed in as a real number in [0, 1). */
module Oracle {

  /** A value `Math.random()` can return. */
  predicate Unit(r: real) {
    0.0 <= r < 1.0
  }

  /** Scaling a draw by a width stays inside [0, width), or is 0 when the
      width is 0. */
  lemma ScaleBounds(r: real, w: real)
    requires Unit(r) && w >= 0.0
    ensures 0.0 <= r * w <= w
    ensures w > 0.0 ==> r * w < w
  {
    if w > 0.0 {
      assert r * w < 1.0 * w;
    }
  }

  /** `r * w`: a draw scaled to a canvas dimension of `w` pixels. */
  function Scale(r: real, w: nat): (v: real)
    requires Unit(r)
    ensures 0.0 <= v <= w as real
    ensures w > 0 ==> v < w as real
  {
    ScaleBounds(r, w as real);
    r * w as real
  }

  /** `Math.floor(r * n)`: the index that a draw `r` selects in a string of
      length `n`. */
  function Pick(r: real, n: nat): (i: nat)
    requires Unit(r) && n > 0
    ensures i < n
  {
    ScaleBounds(r, n as real);
    (r * n as real).Floor
  }
}
