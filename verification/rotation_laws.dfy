/** Laws relating the orientation corrections to each other: the half turn
    is its own inverse, the quarter and three-quarter turns undo each other,
    and four quarter turns give back the original image. */
module RotationLaws {
  import opened Raster
  import opened Orientation

  /** Pixel (x, y) of two successive remaps comes from the source pixel
      reached by following both inverse maps back. */
  lemma TwiceAt<P>(img: Image<P>, t1: Turn, t2: Turn, x: int, y: int)
    requires t1 != Keep && t2 != Keep
    requires InBounds(x, y, Remap(Remap(img, t1), t2).width, Remap(Remap(img, t1), t2).height)
    ensures var mid := Remap(img, t1);
            var p := SourceOf(t1, img.width, img.height, SourceOf(t2, mid.width, mid.height, Point(x, y)));
            InGrid(p, img.width, img.height) && At(Remap(mid, t2), x, y) == At(img, p.x, p.y)
  {
    var mid := Remap(img, t1);
    var q := SourceOf(t2, mid.width, mid.height, Point(x, y));
    RemapAt(mid, t2, Point(x, y));
    RemapAt(img, t1, q);
  }

  /** Remapping by `t1` and then by `t2` is the identity whenever `t2` turns
      the image back by as much as `t1` turned it. */
  lemma {:induction false} RemapUndone<P>(img: Image<P>, t1: Turn, t2: Turn)
    requires (t1, t2) == (Half, Half) || (t1, t2) == (Quarter, ThreeQuarter) || (t1, t2) == (ThreeQuarter, Quarter)
    ensures Remap(Remap(img, t1), t2) == img
  {
    var back := Remap(Remap(img, t1), t2);
    forall x, y | InBounds(x, y, back.width, back.height)
      ensures At(back, x, y) == At(img, x, y)
    {
      TwiceAt(img, t1, t2, x, y);
    }
    Extensionality(back, img);
  }

  /** Two quarter turns are one half turn. */
  lemma {:induction false} QuarterTwiceIsHalf<P>(img: Image<P>)
    ensures Remap(Remap(img, Quarter), Quarter) == Remap(img, Half)
  {
    var twice := Remap(Remap(img, Quarter), Quarter);
    var half := Remap(img, Half);
    forall x, y | InBounds(x, y, twice.width, twice.height)
      ensures At(twice, x, y) == At(half, x, y)
    {
      TwiceAt(img, Quarter, Quarter, x, y);
      RemapAt(img, Half, Point(x, y));
    }
    Extensionality(twice, half);
  }

  /** Correcting by ROTATE_180 twice gives back the original image. */
  lemma HalfTurnTwice<P>(img: Image<P>)
    ensures Rotate(Rotate(img, "ROTATE_180"), "ROTATE_180") == img
  {
    RemapUndone(img, Half, Half);
  }

  /** Correcting by ROTATE_90 and then by ROTATE_270 gives back the original. */
  lemma QuarterThenThreeQuarter<P>(img: Image<P>)
    ensures Rotate(Rotate(img, "ROTATE_90"), "ROTATE_270") == img
  {
    RemapUndone(img, Quarter, ThreeQuarter);
  }

  /** Correcting by ROTATE_270 and then by ROTATE_90 gives back the original. */
  lemma ThreeQuarterThenQuarter<P>(img: Image<P>)
    ensures Rotate(Rotate(img, "ROTATE_270"), "ROTATE_90") == img
  {
    RemapUndone(img, ThreeQuarter, Quarter);
  }

  /** Four successive ROTATE_90 corrections give back the original image. */
  lemma QuarterFourTimes<P>(img: Image<P>)
    ensures Rotate(Rotate(Rotate(Rotate(img, "ROTATE_90"), "ROTATE_90"), "ROTATE_90"), "ROTATE_90") == img
  {
    var half := Remap(img, Half);
    QuarterTwiceIsHalf(img);
    QuarterTwiceIsHalf(half);
    RemapUndone(img, Half, Half);
  }
}
