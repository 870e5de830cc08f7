/** Cropping the corrected image to the face: the chosen rectangle's pixels
    are copied, unchanged, into a buffer of exactly the rectangle's size. */
module Crop {
  import opened Results
  import opened Raster
  import opened Geometry

  /** The pixels of `r`, as an image of its own whose origin is r's corner. */
  function CopyRect<P>(img: Image<P>, r: Rect): (out: Image<P>)
    requires r.Within(img.width, img.height)
    ensures out.width == r.x1 - r.x0 && out.height == r.y1 - r.y0
    ensures forall i, j :: InBounds(i, j, out.width, out.height) ==>
              At(out, i, j) == At(img, r.x0 + i, r.y0 + j)
  {
    Grid(r.x1 - r.x0, r.y1 - r.y0,
         seq(r.y1 - r.y0, j requires 0 <= j < r.y1 - r.y0 => img.rows[r.y0 + j][r.x0 .. r.x1]))
  }

  /** The face crop: the rectangle `ChooseRect` picks, copied out of the
      image; the rectangle's error when there is none. */
  function CropScaled<P>(img: Image<P>, b: BoundingBox, scale: real): (res: Result<Image<P>, CropError>)
    ensures var choice := ChooseRect(b, scale, img.width, img.height);
            && (res.Ok? <==> choice.Ok?)
            && (res.Err? ==> res.error == choice.error)
            && (res.Ok? ==>
                  var r := choice.value;
                  && res.value.width == r.x1 - r.x0 > 0
                  && res.value.height == r.y1 - r.y0 > 0
                  && forall i, j :: InBounds(i, j, res.value.width, res.value.height) ==>
                       At(res.value, i, j) == At(img, r.x0 + i, r.y0 + j))
  {
    var r :- ChooseRect(b, scale, img.width, img.height);
    Ok(CopyRect(img, r))
  }
}
