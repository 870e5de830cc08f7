/** Integer geometry of the face crop: clamping, rounding to the nearest
    integer, pixel rectangles, and the choice between the expanded and the
    detected rectangle. Real numbers stand for the source's floating-point
    values. */
module Geometry {
  import opened Results

  /** The value nearest to `v` within [lo, hi]. */
  function Clamp(v: int, lo: int, hi: int): (r: int)
    ensures lo <= hi ==> lo <= r <= hi
    ensures lo <= v <= hi ==> r == v
    ensures v < lo ==> r == lo
    ensures lo <= hi && hi < v ==> r == hi
  {
    if v < lo then lo
    else if v > hi then hi
    else v
  }

  /** Rounding to the nearest integer, halves away from zero. */
  function RoundHalfAway(x: real): (n: int)
    ensures n as real - 1.0 / 2.0 <= x <= n as real + 1.0 / 2.0
    ensures x == n as real + 1.0 / 2.0 ==> x < 0.0
    ensures x == n as real - 1.0 / 2.0 ==> x > 0.0
  {
    if x >= 0.0 then (x + 1.0 / 2.0).Floor
    else -((-x + 1.0 / 2.0).Floor)
  }

  /** Larger reals never round to smaller integers. */
  lemma RoundMonotone(a: real, b: real)
    requires a <= b
    ensures RoundHalfAway(a) <= RoundHalfAway(b)
  {
    if a >= 0.0 {
      assert (a + 1.0 / 2.0).Floor <= (b + 1.0 / 2.0).Floor;
    } else if b < 0.0 {
      assert (-b + 1.0 / 2.0).Floor <= (-a + 1.0 / 2.0).Floor;
    }
  }

  /** Larger values never clamp to smaller ones. */
  lemma ClampMonotone(u: int, v: int, lo: int, hi: int)
    requires u <= v && lo <= hi
    ensures Clamp(u, lo, hi) <= Clamp(v, lo, hi)
  {
  }

  /** An integer pixel rectangle: columns x0 .. x1-1, rows y0 .. y1-1. */
  datatype Rect = Rect(x0: int, y0: int, x1: int, y1: int) {

    /** No pixel inside: zero or negative width or height. */
    predicate Degenerate() {
      x1 <= x0 || y1 <= y0
    }

    /** A non-empty rectangle inside a `w` x `h` image. */
    predicate ValidIn(w: int, h: int) {
      0 <= x0 < x1 <= w && 0 <= y0 < y1 <= h
    }

    /** Lies within a `w` x `h` image (possibly with no pixels). */
    predicate Within(w: int, h: int) {
      0 <= x0 <= x1 <= w && 0 <= y0 <= y1 <= h
    }

    /** Every pixel of `inner` is a pixel of this rectangle. */
    predicate Contains(inner: Rect) {
      x0 <= inner.x0 && inner.x1 <= x1 && y0 <= inner.y0 && inner.y1 <= y1
    }
  }

  /** The detector's bounding box: each field may be missing. Values are
      fractions of the image's width (left, width) and height (top, height). */
  datatype BoundingBox = BoundingBox(left: Option<real>, top: Option<real>,
                                     width: Option<real>, height: Option<real>) {

    predicate Complete() {
      left.Some? && top.Some? && width.Some? && height.Some?
    }
  }

  /** The bounding box in pixels of a `w` x `h` image. */
  datatype PixelBox = PixelBox(left: real, top: real, width: real, height: real)

  /** The box in pixels: each fraction times the image's width or height. */
  function ToPixels(b: BoundingBox, w: nat, h: nat): PixelBox
    requires b.Complete()
  {
    PixelBox(b.left.value * w as real, b.top.value * h as real,
             b.width.value * w as real, b.height.value * h as real)
  }

  /** A box inside the unit square lands inside the image: fractions that
      start at or after 0 and end at or before 1 give pixel edges within
      [0, w] and [0, h]. */
  lemma ToPixelsInImage(b: BoundingBox, w: nat, h: nat)
    requires b.Complete()
    ensures var p := ToPixels(b, w, h);
            0.0 <= b.left.value && 0.0 <= b.width.value && b.left.value + b.width.value <= 1.0 ==>
              0.0 <= p.left && 0.0 <= p.width && p.left + p.width <= w as real
    ensures var p := ToPixels(b, w, h);
            0.0 <= b.top.value && 0.0 <= b.height.value && b.top.value + b.height.value <= 1.0 ==>
              0.0 <= p.top && 0.0 <= p.height && p.top + p.height <= h as real
  {
    var p := ToPixels(b, w, h);
    FractionSpan(b.left.value, b.width.value, w as real, p.left, p.width);
    FractionSpan(b.top.value, b.height.value, h as real, p.top, p.height);
  }

  /** A span [s, s + d] of the unit interval, scaled by a size n >= 0, is a
      span [a, a + e] of [0, n]. */
  lemma FractionSpan(s: real, d: real, n: real, a: real, e: real)
    requires n >= 0.0 && a == s * n && e == d * n
    ensures 0.0 <= s && 0.0 <= d && s + d <= 1.0 ==> 0.0 <= a && 0.0 <= e && a + e <= n
  {
    if 0.0 <= s && 0.0 <= d && s + d <= 1.0 {
      NonNegativeProduct(s, n);
      NonNegativeProduct(d, n);
      NonNegativeProduct(1.0 - (s + d), n);
      assert a + e + (1.0 - (s + d)) * n == n;
    }
  }

  /** The product of two non-negative reals is non-negative. */
  lemma NonNegativeProduct(x: real, y: real)
    requires x >= 0.0 && y >= 0.0
    ensures x * y >= 0.0
  {
  }

  /** The scale actually applied: a non-positive scale means "no scaling". */
  function EffectiveScale(scale: real): (s: real)
    ensures s > 0.0
    ensures scale > 0.0 ==> s == scale
    ensures scale <= 0.0 ==> s == 1.0
  {
    if scale <= 0.0 then 1.0 else scale
  }

  /** A rectangle with real edges, in pixel coordinates, before rounding. */
  datatype Edges = Edges(x0: real, y0: real, x1: real, y1: real) {

    /** Every point of `inner` lies within these edges. */
    predicate Encloses(inner: Edges) {
      x0 <= inner.x0 && inner.x1 <= x1 && y0 <= inner.y0 && inner.y1 <= y1
    }
  }

  /** The edges of the box grown by `scale` about its centre. */
  function GrownEdges(p: PixelBox, scale: real): (e: Edges)
    ensures e.x1 - e.x0 == p.width * scale && e.y1 - e.y0 == p.height * scale
    ensures e.x0 + e.x1 == 2.0 * p.left + p.width && e.y0 + e.y1 == 2.0 * p.top + p.height
  {
    Edges(p.left + p.width / 2.0 - p.width * scale / 2.0, p.top + p.height / 2.0 - p.height * scale / 2.0,
          p.left + p.width / 2.0 + p.width * scale / 2.0, p.top + p.height / 2.0 + p.height * scale / 2.0)
  }

  /** The edges of the box itself, as the fallback computes them: no
      growth at all, the box grown by a factor of one. */
  function BoxEdges(p: PixelBox): (e: Edges)
    ensures e == GrownEdges(p, 1.0)
  {
    Edges(p.left, p.top, p.left + p.width, p.top + p.height)
  }

  /** Rounds each edge to the nearest integer and clamps it, independently
      of the others, to the image: columns to [0, w], rows to [0, h]. */
  function Snap(e: Edges, w: nat, h: nat): (r: Rect)
    ensures 0 <= r.x0 <= w && 0 <= r.x1 <= w && 0 <= r.y0 <= h && 0 <= r.y1 <= h
  {
    Rect(Clamp(RoundHalfAway(e.x0), 0, w), Clamp(RoundHalfAway(e.y0), 0, h),
         Clamp(RoundHalfAway(e.x1), 0, w), Clamp(RoundHalfAway(e.y1), 0, h))
  }

  /** Snapping wider edges gives a pixel rectangle at least as large. */
  lemma SnapMonotone(inner: Edges, outer: Edges, w: nat, h: nat)
    requires outer.Encloses(inner)
    ensures Snap(outer, w, h).Contains(Snap(inner, w, h))
  {
    RoundMonotone(outer.x0, inner.x0);
    RoundMonotone(outer.y0, inner.y0);
    RoundMonotone(inner.x1, outer.x1);
    RoundMonotone(inner.y1, outer.y1);
  }

  datatype CropError = IncompleteBoundingBox | InvalidCropRect

  /** The choice between the two snapped rectangles: the expanded one when
      it has pixels, otherwise the detected one when that has pixels,
      otherwise an error. */
  function SelectRect(grown: Rect, fallback: Rect): (res: Result<Rect, CropError>)
    ensures !grown.Degenerate() ==> res == Ok(grown)
    ensures grown.Degenerate() && !fallback.Degenerate() ==> res == Ok(fallback)
    ensures res.Err? <==> grown.Degenerate() && fallback.Degenerate()
    ensures res.Err? ==> res.error == InvalidCropRect
    ensures res.Ok? ==> !res.value.Degenerate()
  {
    if !grown.Degenerate() then Ok(grown)
    else if fallback.Degenerate() then Err(InvalidCropRect)
    else Ok(fallback)
  }

  /** The rectangle to crop: the expanded one when it has pixels, otherwise
      the detected one when that has pixels, otherwise an error. */
  function ChooseRect(b: BoundingBox, scale: real, w: nat, h: nat): (res: Result<Rect, CropError>)
    ensures !b.Complete() ==> res == Err(IncompleteBoundingBox)
    ensures res.Ok? ==> res.value.ValidIn(w, h)
    ensures b.Complete() ==>
              var p := ToPixels(b, w, h);
              var grown := Snap(GrownEdges(p, EffectiveScale(scale)), w, h);
              var fallback := Snap(BoxEdges(p), w, h);
              && (!grown.Degenerate() ==> res == Ok(grown))
              && (grown.Degenerate() && !fallback.Degenerate() ==> res == Ok(fallback))
              && (res.Err? <==> grown.Degenerate() && fallback.Degenerate())
              && (res.Err? ==> res.error == InvalidCropRect)
  {
    if !b.Complete() then Err(IncompleteBoundingBox)
    else
      var s := EffectiveScale(scale);
      var p := ToPixels(b, w, h);
      SelectRect(Snap(GrownEdges(p, s), w, h), Snap(BoxEdges(p), w, h))
  }
}
