/** The selfie's face crop, in the order the selfie search performs it:
    pick the detector's bounding box, correct the orientation of the decoded
    image, then crop with the fixed scale 1.8. Decoding the upload and
    encoding the crop are not part of this model. */
module Pipeline {
  import opened Results
  import opened Raster
  import opened Orientation
  import opened Geometry
  import opened Crop
  import CropLaws

  /** The fixed factor the selfie's box is grown by. */
  const SelfieCropScale: real := 1.8

  datatype FaceCropError = NoBoundingBox | CropFailed(reason: CropError)

  /** The box of the first indexed face, if it has one, else the box of its
      face detail, else an error. `face` is the box of the indexed face,
      `None` when that face has no box; the face itself is always present
      here. `detail` is `None` when there is no face detail or it has no box. */
  function PickBoundingBox(face: Option<BoundingBox>, detail: Option<BoundingBox>): (res: Result<BoundingBox, FaceCropError>)
    ensures face.Some? ==> res == Ok(face.value)
    ensures face.None? && detail.Some? ==> res == Ok(detail.value)
    ensures res.Err? <==> face.None? && detail.None?
    ensures res.Err? ==> res.error == NoBoundingBox
  {
    match face
    case Some(box) => Ok(box)
    case None =>
      match detail
      case Some(box) => Ok(box)
      case None => Err(NoBoundingBox)
  }

  /** The crop of the corrected image with the fixed scale: an error
      exactly when no rectangle can be chosen in the corrected image, else
      the corrected image's pixels inside the chosen rectangle. */
  function CropCorrected<P>(src: Image<P>, oc: string, box: BoundingBox): (res: Result<Image<P>, FaceCropError>)
    ensures var corrected := Rotate(src, oc);
            var choice := ChooseRect(box, SelfieCropScale, corrected.width, corrected.height);
            && (res.Err? <==> choice.Err?)
            && (res.Err? ==> res.error == CropFailed(choice.error))
            && (res.Ok? ==> res.value == CopyRect(corrected, choice.value))
  {
    var corrected := Rotate(src, oc);
    var cropped := CropScaled(corrected, box, SelfieCropScale);
    if cropped.Err? then
      Err(CropFailed(cropped.error))
    else
      var r := ChooseRect(box, SelfieCropScale, corrected.width, corrected.height).value;
      Extensionality(cropped.value, CopyRect(corrected, r));
      Ok(cropped.value)
  }

  /** Every pixel cut out of a branch's image is a pixel of the upload:
      pixel (i, j) of the cut-out is the branch image's pixel at the
      rectangle's corner plus (i, j), and that comes from the upload at the
      position the branch moved it from. */
  lemma CopyTurnedAt<P>(src: Image<P>, t: Turn, r: Rect, i: int, j: int)
    requires r.Within(DestWidth(t, src.width, src.height), DestHeight(t, src.width, src.height))
    requires InBounds(i, j, r.x1 - r.x0, r.y1 - r.y0)
    ensures var q := SourceOf(t, src.width, src.height, Point(r.x0 + i, r.y0 + j));
            && InGrid(q, src.width, src.height)
            && At(CopyRect(Turned(src, t), r), i, j) == At(src, q.x, q.y)
  {
    TurnedAt(src, t, Point(r.x0 + i, r.y0 + j));
  }

  /** Every pixel cut out of the corrected image is a pixel of the upload,
      from the position the correction moved it from. */
  lemma CopyTraced<P>(src: Image<P>, oc: string, r: Rect, i: int, j: int)
    requires r.Within(Rotate(src, oc).width, Rotate(src, oc).height)
    requires InBounds(i, j, r.x1 - r.x0, r.y1 - r.y0)
    ensures var q := SourceOf(Classify(oc), src.width, src.height, Point(r.x0 + i, r.y0 + j));
            && InGrid(q, src.width, src.height)
            && At(CopyRect(Rotate(src, oc), r), i, j) == At(src, q.x, q.y)
  {
    RotateIsTurned(src, oc);
    CopyTurnedAt(src, Classify(oc), r, i, j);
  }

  /** The selfie's face crop: the face record's box is preferred to the face
      detail's, and without either there is no crop. */
  function CropSelfie<P>(src: Image<P>, oc: string, face: Option<BoundingBox>, detail: Option<BoundingBox>)
    : (res: Result<Image<P>, FaceCropError>)
    ensures face.None? && detail.None? ==> res == Err(NoBoundingBox)
    ensures face.Some? ==> res == CropCorrected(src, oc, face.value)
    ensures face.None? && detail.Some? ==> res == CropCorrected(src, oc, detail.value)
  {
    var box :- PickBoundingBox(face, detail);
    CropCorrected(src, oc, box)
  }

  /** With the fixed scale the selfie crop never falls back: when the box
      has non-negative size, a successful crop is the grown rectangle, and
      it holds the whole detected box. */
  lemma SelfieCropHoldsFace<P>(src: Image<P>, oc: string, box: BoundingBox)
    requires box.Complete() && box.width.value >= 0.0 && box.height.value >= 0.0
    ensures var corrected := Rotate(src, oc);
            var choice := ChooseRect(box, SelfieCropScale, corrected.width, corrected.height);
            var p := ToPixels(box, corrected.width, corrected.height);
            choice.Ok? ==>
              && choice.value == Snap(GrownEdges(p, SelfieCropScale), corrected.width, corrected.height)
              && choice.value.Contains(Snap(BoxEdges(p), corrected.width, corrected.height))
  {
    var corrected := Rotate(src, oc);
    CropLaws.NoFallbackFromScaleAtLeastOne(box, SelfieCropScale, corrected.width, corrected.height);
  }
}
