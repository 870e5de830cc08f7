/** Raster images as immutable grids of abstract pixels.

    An image is `width` pixels wide and `height` pixels high; its origin is
    (0, 0), as for every image the decoder produces. Pixel (x, y) is
    `rows[y][x]`. The pixel type is left abstract: colour-model conversion is
    not part of this model, pixels are copied verbatim. */
module Raster {

  datatype Grid<P> = Grid(width: nat, height: nat, rows: seq<seq<P>>) {

    /** `rows` holds exactly `height` rows of exactly `width` pixels each. */
    predicate Valid() {
      && |rows| == height
      && forall y :: 0 <= y < |rows| ==> |rows[y]| == width
    }
  }

  /** A well-formed image. The empty image is a legal (0 x 0) image. */
  type Image<P> = g: Grid<P> | g.Valid() witness Grid(0, 0, [])

  /** Whether (x, y) addresses a pixel of a `width` x `height` image. */
  predicate InBounds(x: int, y: int, width: int, height: int) {
    0 <= x < width && 0 <= y < height
  }

  /** The colour of pixel (x, y). */
  function At<P>(img: Image<P>, x: int, y: int): P
    requires InBounds(x, y, img.width, img.height)
  {
    img.rows[y][x]
  }

  /** Two images are equal exactly when they have the same size and agree
      on every pixel. */
  lemma Extensionality<P>(a: Image<P>, b: Image<P>)
    requires a.width == b.width && a.height == b.height
    requires forall x, y :: InBounds(x, y, a.width, a.height) ==> At(a, x, y) == At(b, x, y)
    ensures a == b
  {
    forall y | 0 <= y < a.height
      ensures a.rows[y] == b.rows[y]
    {
      forall x | 0 <= x < a.width
        ensures a.rows[y][x] == b.rows[y][x]
      {
        assert At(a, x, y) == At(b, x, y);
      }
    }
  }
}
