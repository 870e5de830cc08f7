/** Properties of the face crop: how the scale behaves, when the fallback
    rectangle can be used at all, that nothing outside the rectangle reaches
    the crop, and worked examples on a 100 x 100 image. */
module CropLaws {
  import opened Results
  import opened Raster
  import opened Geometry
  import opened Crop

  /** A non-negative size grows under a factor of at least one. */
  lemma GrowsByFactor(size: real, scale: real)
    requires size >= 0.0 && scale >= 1.0
    ensures size * scale >= size
  {
    assert size * scale - size == size * (scale - 1.0);
  }

  /** A box of non-negative size grown by a factor of at least one encloses
      the box. */
  lemma {:induction false} GrownEnclosesBox(p: PixelBox, scale: real)
    requires scale >= 1.0 && p.width >= 0.0 && p.height >= 0.0
    ensures GrownEdges(p, scale).Encloses(BoxEdges(p))
  {
    GrowsByFactor(p.width, scale);
    GrowsByFactor(p.height, scale);
  }

  /** When the expanded edges enclose the detected ones the fallback is never
      taken: the choice succeeds exactly when the expanded rectangle has
      pixels, and then it is that rectangle, holding the detected one. */
  lemma SelectFromEnclosing(grown: Edges, box: Edges, w: nat, h: nat)
    requires grown.Encloses(box)
    ensures var outer, inner := Snap(grown, w, h), Snap(box, w, h);
            && (SelectRect(outer, inner).Ok? <==> !outer.Degenerate())
            && (SelectRect(outer, inner).Ok? ==> SelectRect(outer, inner).value == outer && outer.Contains(inner))
  {
    SnapMonotone(box, grown, w, h);
  }

  /** With a scale of at least one and a box of non-negative size, the
      fallback never applies: the crop is the expanded rectangle, which
      contains the whole detected box, or an error when even the detected
      box has no pixels. */
  lemma NoFallbackFromScaleAtLeastOne(b: BoundingBox, scale: real, w: nat, h: nat)
    requires b.Complete() && scale >= 1.0
    requires b.width.value >= 0.0 && b.height.value >= 0.0
    ensures var p := ToPixels(b, w, h);
            var grown := Snap(GrownEdges(p, scale), w, h);
            && (ChooseRect(b, scale, w, h).Ok? <==> !grown.Degenerate())
            && (ChooseRect(b, scale, w, h).Ok? ==>
                  && ChooseRect(b, scale, w, h).value == grown
                  && grown.Contains(Snap(BoxEdges(p), w, h)))
  {
    var p := ToPixels(b, w, h);
    NonNegativeProduct(b.width.value, w as real);
    NonNegativeProduct(b.height.value, h as real);
    GrownEnclosesBox(p, scale);
    SelectFromEnclosing(GrownEdges(p, scale), BoxEdges(p), w, h);
  }

  /** A scale of zero or below crops exactly as a scale of one does. */
  lemma NonPositiveScaleIsUnit<P>(img: Image<P>, b: BoundingBox, scale: real)
    requires scale <= 0.0
    ensures CropScaled(img, b, scale) == CropScaled(img, b, 1.0)
  {
  }

  /** A box with a missing field fails, whatever the scale. */
  lemma IncompleteBoxFails<P>(img: Image<P>, b: BoundingBox, scale: real)
    requires !b.Complete()
    ensures CropScaled(img, b, scale) == Err(IncompleteBoundingBox)
  {
  }

  /** Copying a rectangle reads nothing outside it: two images of one size
      that agree inside `r` give the same copy. */
  lemma CopyReadsOnlyRect<P>(a: Image<P>, c: Image<P>, r: Rect)
    requires a.width == c.width && a.height == c.height && r.Within(a.width, a.height)
    requires forall x, y :: r.x0 <= x < r.x1 && r.y0 <= y < r.y1 ==> At(a, x, y) == At(c, x, y)
    ensures CopyRect(a, r) == CopyRect(c, r)
  {
    var ea, ec := CopyRect(a, r), CopyRect(c, r);
    forall i, j | InBounds(i, j, ea.width, ea.height)
      ensures At(ea, i, j) == At(ec, i, j)
    {
      assert At(a, r.x0 + i, r.y0 + j) == At(c, r.x0 + i, r.y0 + j);
    }
    Extensionality(ea, ec);
  }

  /** Nothing outside the chosen rectangle is read: two images of one size
      that agree inside the rectangle give the same crop. */
  lemma CropReadsOnlyRect<P>(a: Image<P>, c: Image<P>, b: BoundingBox, scale: real)
    requires a.width == c.width && a.height == c.height
    requires var choice := ChooseRect(b, scale, a.width, a.height);
             choice.Ok? ==>
               forall x, y :: choice.value.x0 <= x < choice.value.x1 && choice.value.y0 <= y < choice.value.y1 ==>
                 At(a, x, y) == At(c, x, y)
    ensures CropScaled(a, b, scale) == CropScaled(c, b, scale)
  {
    var choice := ChooseRect(b, scale, a.width, a.height);
    if choice.Ok? {
      CopyReadsOnlyRect(a, c, choice.value);
    }
  }

  /** The box covering the middle quarter of the image, as fractions. */
  function MiddleBox(): BoundingBox {
    BoundingBox(Some(0.25), Some(0.25), Some(0.5), Some(0.5))
  }

  /** On a 100 x 100 image the middle box, grown by 1.8 about its centre 50,
      is 90 pixels wide: (5, 5) to (95, 95). */
  lemma MiddleBoxScaled()
    ensures ChooseRect(MiddleBox(), 1.8, 100, 100) == Ok(Rect(5, 5, 95, 95))
  {
    assert ToPixels(MiddleBox(), 100, 100) == PixelBox(25.0, 25.0, 50.0, 50.0);
    assert GrownEdges(PixelBox(25.0, 25.0, 50.0, 50.0), 1.8) == Edges(5.0, 5.0, 95.0, 95.0);
  }

  /** With scale 1.0 the middle box is cropped as detected: (25, 25) to (75, 75). */
  lemma MiddleBoxUnscaled()
    ensures ChooseRect(MiddleBox(), 1.0, 100, 100) == Ok(Rect(25, 25, 75, 75))
  {
    assert ToPixels(MiddleBox(), 100, 100) == PixelBox(25.0, 25.0, 50.0, 50.0);
    assert GrownEdges(PixelBox(25.0, 25.0, 50.0, 50.0), 1.0) == Edges(25.0, 25.0, 75.0, 75.0);
  }

  /** A box in the top-left corner grown threefold reaches past the image;
      its negative edges clamp to 0 and the crop is (0, 0) to (20, 20). */
  lemma CornerBoxClamped()
    ensures ChooseRect(BoundingBox(Some(0.0), Some(0.0), Some(0.1), Some(0.1)), 3.0, 100, 100)
            == Ok(Rect(0, 0, 20, 20))
  {
    var b := BoundingBox(Some(0.0), Some(0.0), Some(0.1), Some(0.1));
    assert ToPixels(b, 100, 100) == PixelBox(0.0, 0.0, 10.0, 10.0);
    assert GrownEdges(PixelBox(0.0, 0.0, 10.0, 10.0), 3.0) == Edges(-10.0, -10.0, 20.0, 20.0);
  }

  /** Shrinking a 2-pixel box to a fifth of a pixel leaves no pixel; the
      detected box (50, 50) to (52, 52) is used instead. */
  lemma ShrunkBoxFallsBack()
    ensures ChooseRect(BoundingBox(Some(0.5), Some(0.5), Some(0.02), Some(0.02)), 0.1, 100, 100)
            == Ok(Rect(50, 50, 52, 52))
  {
    var b := BoundingBox(Some(0.5), Some(0.5), Some(0.02), Some(0.02));
    assert ToPixels(b, 100, 100) == PixelBox(50.0, 50.0, 2.0, 2.0);
    assert GrownEdges(PixelBox(50.0, 50.0, 2.0, 2.0), 0.1) == Edges(50.9, 50.9, 51.1, 51.1);
    assert Snap(Edges(50.9, 50.9, 51.1, 51.1), 100, 100) == Rect(51, 51, 51, 51);
  }

  /** A box of no width has no pixels at any scale and in any image: its
      grown and its detected rectangle both have equal left and right
      edges, so the crop fails. */
  lemma ZeroWidthBoxFails(left: real, top: real, height: real, scale: real, w: nat, h: nat)
    ensures ChooseRect(BoundingBox(Some(left), Some(top), Some(0.0), Some(height)), scale, w, h)
            == Err(InvalidCropRect)
  {
    var b := BoundingBox(Some(left), Some(top), Some(0.0), Some(height));
    var p := ToPixels(b, w, h);
    assert p.width == 0.0;
    var grown := GrownEdges(p, EffectiveScale(scale));
    assert grown.x1 - grown.x0 == 0.0 * EffectiveScale(scale);
    assert grown.x0 == grown.x1;
    assert BoxEdges(p).x0 == BoxEdges(p).x1;
  }
}
