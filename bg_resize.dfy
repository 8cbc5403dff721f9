/** The pre-resize policy applied before an image is handed to background removal
    (`resizeForBgRemoval` in src/components/PhotoEditor.tsx): the longest side is capped at
    1024 pixels, both sides scaled by the same factor, and the canvas is never zero-sized. */
module BgResize {

  const MAX_BG_DIMENSION: int := 1024

  datatype Dimensions = Dimensions(width: int, height: int)

  /** `Math.round`: the nearest integer, halves rounded up. */
  function Round(x: real): (r: int)
    ensures r as real - 0.5 <= x < r as real + 0.5
  {
    (x + 0.5).Floor
  }

  /** `a || b` on numbers: `a` unless it is 0. */
  function OrElse(a: int, b: int): int { if a != 0 then a else b }

  /** The canvas size `resizeForBgRemoval` draws into, from the image element's natural and
      rendered sizes. */
  function ResizeForBgRemoval(naturalWidth: nat, naturalHeight: nat, width: nat, height: nat): (r: Dimensions)
    ensures 1 <= r.width <= MAX_BG_DIMENSION && 1 <= r.height <= MAX_BG_DIMENSION
    ensures var w, h := OrElse(naturalWidth, width), OrElse(naturalHeight, height);
      var maxSide := if w >= h then w else h;
      && (maxSide <= MAX_BG_DIMENSION ==> r == Dimensions(OrElse(w, 1), OrElse(h, 1)))
      && (maxSide > MAX_BG_DIMENSION ==>
            (if w >= h then r.width else r.height) == MAX_BG_DIMENSION
            && r.width == OrElse(Round((w * MAX_BG_DIMENSION) as real / maxSide as real), 1)
            && r.height == OrElse(Round((h * MAX_BG_DIMENSION) as real / maxSide as real), 1))
  {
    var w, h := OrElse(naturalWidth, width), OrElse(naturalHeight, height);
    var maxSide := if w >= h then w else h;
    var target :=
      if maxSide > MAX_BG_DIMENSION then
        var scale := MAX_BG_DIMENSION as real / maxSide as real;
        ScaledSide(w, maxSide, scale);
        ScaledSide(h, maxSide, scale);
        Dimensions(Round(w as real * scale), Round(h as real * scale))
      else Dimensions(w, h);
    Dimensions(OrElse(target.width, 1), OrElse(target.height, 1))
  }

  /** A side scaled by `1024 / maxSide` is the side's share of 1024, never above 1024, and
      exactly 1024 for the longest side. */
  lemma ScaledSide(side: nat, maxSide: int, scale: real)
    requires MAX_BG_DIMENSION < maxSide && side <= maxSide
    requires scale == MAX_BG_DIMENSION as real / maxSide as real
    ensures side as real * scale == (side * MAX_BG_DIMENSION) as real / maxSide as real
    ensures 0 <= Round(side as real * scale) <= MAX_BG_DIMENSION
    ensures side == maxSide ==> Round(side as real * scale) == MAX_BG_DIMENSION
  {
    assert side as real * scale <= MAX_BG_DIMENSION as real by {
      assert side as real * scale <= maxSide as real * scale;
    }
  }
}
