# Face-crop geometry of the selfie search

After the face service indexes an uploaded selfie, it cuts the detected face
out of the upload so the face can be returned to the caller. This project
models that step in Dafny and proves properties about it. The step has three
parts:

- **Orientation correction** (`rotateAccordingToOrientation`). The detector
  reports a correction string. `ROTATE_90`, `ROTATE_180` and `ROTATE_270`
  make nested loops copy every source pixel into a freshly allocated buffer
  at its rotated position. Any other string, including `ROTATE_0` and the
  empty string, returns the image unchanged.
- **Scaled crop** (`cropWithBoundingBoxScaled`, using `clamp`). The
  detector's bounding box is given as fractions of the image size, and any
  of its fields may be missing. The box is converted to pixels and grown by
  a scale factor about its centre. A scale of zero or less means 1.0. Each
  edge is rounded half away from zero and clamped to the image. If the
  grown rectangle has no pixels, the box as detected is used instead, also
  rounded and clamped. If that has no pixels either, the crop fails.
- **The selfie pipeline** (`SearchAndIndexSelfieFace`). It corrects the
  orientation of the decoded upload, then picks the face record's box in
  preference to the face detail's box, then crops with the fixed scale 1.8.

Images are immutable grids with origin (0, 0), of an abstract pixel type.
Bounding-box values and scales are exact reals. `int(math.Round(x))` is
modelled exactly as rounding half away from zero (`Geometry.RoundHalfAway`).
It is not modelled as `floor(x + 0.5)`, because the two differ on negative
halves.

Files:

- `results.dfy`: `Option` and `Result`.
- `raster.dfy`: images and pixel access.
- `orientation.dfy`: the correction switch and its pixel maps.
- `rotation_scan.dfy`: the loop form of the correction.
- `rotation_laws.dfy`: compositions of corrections.
- `geometry.dfy`: clamping, rounding and the rectangle choice.
- `crop.dfy`: copying the rectangle out.
- `crop_laws.dfy`: properties of the crop and worked examples.
- `pipeline.dfy`: the selfie composition.

## Model

| member | source | states |
|---|---|---|
| Geometry.Clamp | face/engine.go:139-147 | The result lies in [lo, hi] whenever lo <= hi. A value already inside is returned unchanged. A value below lo gives lo. When lo <= hi, a value above hi gives hi. The inverted range lo > hi is not constrained further; the source tests v against lo first. |
| Geometry.ClampMonotone | face/engine.go:139-147 | Clamping never reverses order: u <= v implies clamp(u) <= clamp(v). |
| Geometry.RoundHalfAway | face/engine.go:183-186 | The rounded integer is within one half of x. A tie at n + 1/2 happens only for negative x, and a tie at n - 1/2 only for positive x, so halves round away from zero. |
| Geometry.RoundMonotone | face/engine.go:183-186 | Rounding never reverses order: a <= b implies round(a) <= round(b). |
| Geometry.ToPixelsInImage | face/engine.go:162-166 | A box whose fractions start at or after 0 and end at or before 1 is converted to pixel edges inside [0, W] and [0, H], with non-negative width and height. |
| Geometry.EffectiveScale | face/engine.go:155-157 | The scale used is always positive. A positive scale is kept, and a scale of zero or less becomes 1.0. |
| Geometry.BoxEdges | face/engine.go:191-194 | The fallback's real edges are the edges the growth of lines 168-180 gives at scale 1.0: the fallback is the box left ungrown. |
| Geometry.GrownEdges | face/engine.go:168-180 | The grown edges are scale times the box's width and height apart, and share the box's centre. |
| Geometry.Snap | face/engine.go:182-186 | Every rounded and clamped column edge lies in [0, W], and every row edge in [0, H]. |
| Geometry.SnapMonotone | face/engine.go:182-194 | Rounding and clamping wider real edges gives a pixel rectangle that contains the narrower one's. |
| Geometry.ChooseRect | face/engine.go:151-197 | An incomplete box gives the "incomplete bounding box" error. A chosen rectangle satisfies 0 <= x0 < x1 <= W and 0 <= y0 < y1 <= H. The grown rectangle is used when it has pixels, otherwise the detected one. The result is the "invalid crop rectangle" error exactly when both rectangles have no pixels. |
| Geometry.SelectRect | face/engine.go:188-201 | The grown rectangle is kept whenever it has pixels. Otherwise the detected one is used if it has pixels. The "invalid crop rectangle" error comes exactly when neither has pixels. A kept rectangle always has pixels. |
| Crop.CopyRect | face/engine.go:198-207 | The copy is (x1-x0) x (y1-y0) pixels, and its pixel (i, j) is the image's pixel (x0+i, y0+j). |
| Crop.CropScaled | face/engine.go:151-209 | The crop succeeds exactly when a rectangle is chosen, and fails with that choice's error. On success it has the rectangle's positive size, and each of its pixels comes from the rectangle at the same offset. |
| CropLaws.GrownEnclosesBox | face/engine.go:168-180 | For a box of non-negative size and a scale of at least 1, the grown edges enclose the box. |
| CropLaws.SelectFromEnclosing | face/engine.go:182-201 | When the grown real edges enclose the detected ones, the fallback is never taken. The choice succeeds exactly when the grown rectangle has pixels, and the result is then that rectangle, which contains the detected one. |
| CropLaws.NoFallbackFromScaleAtLeastOne | face/engine.go:188-208 | With a scale of at least 1 and a box of non-negative size, the crop succeeds exactly when the grown rectangle has pixels. It is then the grown rectangle, which contains the detected box's rectangle. |
| CropLaws.NonPositiveScaleIsUnit | face/engine.go:155-157 | Any scale of zero or less crops exactly as scale 1.0 does. |
| CropLaws.IncompleteBoxFails | face/engine.go:152-154 | A box missing any of its four fields fails with the incomplete-box error, whatever the scale. |
| CropLaws.CopyReadsOnlyRect | face/engine.go:198-207 | Two images of the same size that agree inside a rectangle give identical copies of it. |
| CropLaws.CropReadsOnlyRect | face/engine.go:198-207 | Two images of the same size that agree inside the chosen rectangle give identical crops, so no pixel outside the rectangle is read. |
| CropLaws.MiddleBoxScaled | face/engine.go:162-186 | On a 100 x 100 image, the box {0.25, 0.25, 0.5, 0.5} at scale 1.8 gives the rectangle (5, 5)-(95, 95). |
| CropLaws.MiddleBoxUnscaled | face/engine.go:162-186 | The same box at scale 1.0 gives (25, 25)-(75, 75). |
| CropLaws.CornerBoxClamped | face/engine.go:176-186 | The corner box {0, 0, 0.1, 0.1} at scale 3 reaches (-10, -10). It is clamped to (0, 0)-(20, 20) without an error. |
| CropLaws.ShrunkBoxFallsBack | face/engine.go:188-201 | A box of 2 x 2 pixels at scale 0.1 rounds to an empty rectangle, so the detected rectangle (50, 50)-(52, 52) is used. |
| CropLaws.ZeroWidthBoxFails | face/engine.go:162-197 | A box of width 0 fails with the "invalid crop rectangle" error for every left, top, height, scale and image size: both its grown and its detected rectangle have no pixels. |
| Orientation.Classify | face/engine.go:105-133 | Each of the three rotating branches is selected by exactly its own string. Every other string, `ROTATE_0` and the empty string included, selects the branch that keeps the image. |
| Orientation.WritesExactlyOnce | face/engine.go:107-132 | Over a W x H source, each branch's write position stays inside the allocated buffer. Distinct source pixels are written to distinct cells. Every cell of the buffer is written. |
| Orientation.DestOfInverse | face/engine.go:107-132 | Every write position lies in the buffer, and the inverse map takes it back to the source pixel. |
| Orientation.Remap | face/engine.go:108-126 | The buffer is H x W for quarter turns and W x H for the half turn. |
| Orientation.RemapAt | face/engine.go:109-131 | Each buffer cell holds the source pixel that the branch's loop writes there. |
| Orientation.QuarterPlacement | face/engine.go:106-114 | `ROTATE_90` writes source (x, y) to (H-1-y, x) of an H x W image. |
| Orientation.HalfPlacement | face/engine.go:115-123 | `ROTATE_180` writes source (x, y) to (W-1-x, H-1-y) of a W x H image. |
| Orientation.ThreeQuarterPlacement | face/engine.go:124-132 | `ROTATE_270` writes source (x, y) to (y, W-1-x) of an H x W image. |
| Orientation.Rotate | face/engine.go:104-136 | For each of the three rotation strings, the result has the swapped or kept dimensions and receives every source pixel at that branch's position. Every other string returns the image itself. |
| Orientation.Turned | face/engine.go:104-136 | The image each branch returns, whether the remapped buffer or the unchanged source, is H x W for the quarter turns and W x H otherwise. |
| Orientation.TurnedAt | face/engine.go:104-136 | Each pixel of the corrected image is a source pixel, taken from the position the branch moved it from. |
| RotationScan.BlankCanvas | face/engine.go:108 | The newly allocated buffer has the destination's shape, and no cell is written yet. |
| RotationScan.Step | face/engine.go:111 | Each write of the loops lands on a cell not written before, and the buffer keeps its invariant for the next pixel. |
| RotationScan.ScanRow | face/engine.go:110-112 | The inner loop writes the whole of row y to its destination cells. |
| RotationScan.Finished | face/engine.go:109-113 | After the last row, every cell holds the pixel of the remapped image. |
| RotationScan.Develop | face/engine.go:114 | The finished buffer is the remapped image. |
| RotationScan.Scan | face/engine.go:107-114 | A rotating branch's two nested loops, rows outermost, produce exactly the remapped image. |
| RotationScan.Paint | face/engine.go:104-136 | The switch with its loops produces exactly the corrected image that `Rotate` describes. |
| RotationLaws.TwiceAt | face/engine.go:104-136 | A pixel after two corrections comes from the source pixel reached by undoing both. |
| RotationLaws.RemapUndone | face/engine.go:104-136 | The half turn undoes itself, and each quarter turn undoes the other. |
| RotationLaws.QuarterTwiceIsHalf | face/engine.go:104-123 | Two quarter-turn remaps equal one half-turn remap. |
| RotationLaws.HalfTurnTwice | face/engine.go:115-123 | Correcting by `ROTATE_180` twice gives back the original image. |
| RotationLaws.QuarterThenThreeQuarter | face/engine.go:106-132 | Correcting by `ROTATE_90` and then `ROTATE_270` gives back the original image. |
| RotationLaws.ThreeQuarterThenQuarter | face/engine.go:106-132 | Correcting by `ROTATE_270` and then `ROTATE_90` gives back the original image. |
| RotationLaws.QuarterFourTimes | face/engine.go:106-114 | Four `ROTATE_90` corrections give back the original image. |
| Pipeline.PickBoundingBox | face/engine.go:265-273 | The face record's box wins whenever there is one. Otherwise the face detail's box is used. The result is the "no bounding box" error exactly when neither exists. |
| Pipeline.CropCorrected | face/engine.go:262-278 | The crop is taken from the orientation-corrected image with scale 1.8. It fails exactly when no rectangle can be chosen in the corrected image, wrapping that error. Otherwise it is the corrected image's pixels inside the chosen rectangle. |
| Pipeline.CopyTurnedAt | face/engine.go:262-278 | Each pixel cut out of a branch's image is the upload's pixel at the position the branch moved it from. |
| Pipeline.CopyTraced | face/engine.go:262-278 | Each pixel of the selfie crop is traced back to one pixel of the decoded upload, through the rectangle offset and the inverse of the orientation correction. |
| Pipeline.CropSelfie | face/engine.go:262-278 | Without a box the result is the no-box error. With one, it is the corrected crop of the face record's box if there is one, and otherwise of the face detail's box. |
| Pipeline.SelfieCropHoldsFace | face/engine.go:274-278 | At the fixed scale 1.8, a box of non-negative size never falls back: a successful selfie crop is the grown rectangle and contains the whole detected box. |

## Left out

- AWS calls: creating the collection, indexing the face, and the search by face id with its de-duplication. They are network I/O. The face record and the orientation string become parameters.
- The half-second delay, the random external image id and logging. These are clock, randomness and output only.
- Decoding the upload and the decode error path. A decoded image is a parameter of the model.
- JPEG encoding of the crop at quality 90, with its error path. The encoder is not part of this model.
- The colour-model conversion of `image.NewRGBA`, `Set` and `draw.Draw`. Pixels are abstract and copied verbatim.
- Images whose bounds do not start at (0, 0). The decoder's images always start there, and the source's index arithmetic assumes it.
- Geometry.ChooseRect: box values are exact reals. It does not model float32 box fields, float64 rounding error, NaN or infinite values, or the implementation-defined `int(...)` of values out of range.
- Pipeline.PickBoundingBox: its `face` argument stands only for the box of a face that is present. A missing face, or a face without an id, makes the program fail earlier, when it reads the face id (face/engine.go:253), before any modelled line runs; that failure is not modelled. A missing face detail and a face detail without a box are both `None`, because the source treats them alike (face/engine.go:269).
- `image.Rect`'s swapping of reversed corners. It is never reached, because both rectangles are checked to be non-degenerate first.
- The error message strings. They are modelled as the constructors `IncompleteBoundingBox`, `InvalidCropRect`, `NoBoundingBox` and `CropFailed`.
