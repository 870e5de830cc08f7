/** Orientation correction: the detector reports the rotation that makes the
    image upright, as a string, and the image is remapped into a fresh buffer
    before any bounding-box arithmetic is done on it. */
module Orientation {
  import opened Raster

  /** The four behaviours of the correction switch. */
  datatype Turn = Quarter | Half | ThreeQuarter | Keep

  /** Which branch of the switch a correction string selects. Only the
      three exact strings rotate; "ROTATE_0", the empty string and every
      other value keep the image as it is. */
  function Classify(oc: string): (t: Turn)
    ensures t == Quarter <==> oc == "ROTATE_90"
    ensures t == Half <==> oc == "ROTATE_180"
    ensures t == ThreeQuarter <==> oc == "ROTATE_270"
  {
    if oc == "ROTATE_90" then Quarter
    else if oc == "ROTATE_180" then Half
    else if oc == "ROTATE_270" then ThreeQuarter
    else Keep
  }

  datatype Point = Point(x: int, y: int)

  /** Whether `p` addresses a pixel of a `w` x `h` image. */
  predicate InGrid(p: Point, w: int, h: int) {
    InBounds(p.x, p.y, w, h)
  }

  /** Size of the corrected image: quarter turns swap width and height. */
  function DestWidth(t: Turn, w: nat, h: nat): nat {
    if t == Quarter || t == ThreeQuarter then h else w
  }

  function DestHeight(t: Turn, w: nat, h: nat): nat {
    if t == Quarter || t == ThreeQuarter then w else h
  }

  /** Where the loop over a `w` x `h` source writes source pixel `p`. */
  function DestOf(t: Turn, w: nat, h: nat, p: Point): Point {
    match t
    case Quarter => Point(h - 1 - p.y, p.x)
    case Half => Point(w - 1 - p.x, h - 1 - p.y)
    case ThreeQuarter => Point(p.y, w - 1 - p.x)
    case Keep => p
  }

  /** Which source pixel ends up at destination pixel `q`. */
  function SourceOf(t: Turn, w: nat, h: nat, q: Point): Point {
    match t
    case Quarter => Point(q.y, h - 1 - q.x)
    case Half => Point(w - 1 - q.x, h - 1 - q.y)
    case ThreeQuarter => Point(w - 1 - q.y, q.x)
    case Keep => q
  }

  /** The source-to-destination map of each turn is a bijection between the
      source grid and the destination grid, with `SourceOf` as its inverse:
      as the nested loops visit every source pixel once, every destination
      pixel is written exactly once. */
  lemma {:induction false} WritesExactlyOnce(t: Turn, w: nat, h: nat)
    ensures forall p: Point :: InGrid(p, w, h) ==>
              InGrid(DestOf(t, w, h, p), DestWidth(t, w, h), DestHeight(t, w, h))
    ensures forall p1: Point, p2: Point ::
              InGrid(p1, w, h) && InGrid(p2, w, h) && DestOf(t, w, h, p1) == DestOf(t, w, h, p2)
              ==> p1 == p2
    ensures forall q: Point :: InGrid(q, DestWidth(t, w, h), DestHeight(t, w, h)) ==>
              exists p: Point :: InGrid(p, w, h) && DestOf(t, w, h, p) == q
  {
    forall p: Point | InGrid(p, w, h)
      ensures InGrid(DestOf(t, w, h, p), DestWidth(t, w, h), DestHeight(t, w, h))
    {
      DestOfInverse(t, w, h, p);
    }
    forall p1: Point, p2: Point | InGrid(p1, w, h) && InGrid(p2, w, h) && DestOf(t, w, h, p1) == DestOf(t, w, h, p2)
      ensures p1 == p2
    {
      DestOfInverse(t, w, h, p1);
      DestOfInverse(t, w, h, p2);
    }
    forall q: Point | InGrid(q, DestWidth(t, w, h), DestHeight(t, w, h))
      ensures exists p: Point :: InGrid(p, w, h) && DestOf(t, w, h, p) == q
    {
      SourceOfInverse(t, w, h, q);
      var p := SourceOf(t, w, h, q);
      assert InGrid(p, w, h) && DestOf(t, w, h, p) == q;
    }
  }

  /** `SourceOf` undoes `DestOf` and maps the destination grid into the
      source grid. */
  lemma SourceOfInverse(t: Turn, w: nat, h: nat, q: Point)
    requires InGrid(q, DestWidth(t, w, h), DestHeight(t, w, h))
    ensures InGrid(SourceOf(t, w, h, q), w, h)
    ensures DestOf(t, w, h, SourceOf(t, w, h, q)) == q
  {
  }

  /** `DestOf` maps the source grid into the destination grid and
      `SourceOf` takes every written pixel back to where it came from. */
  lemma DestOfInverse(t: Turn, w: nat, h: nat, p: Point)
    requires InGrid(p, w, h)
    ensures InGrid(DestOf(t, w, h, p), DestWidth(t, w, h), DestHeight(t, w, h))
    ensures SourceOf(t, w, h, DestOf(t, w, h, p)) == p
  {
  }

  /** The freshly allocated buffer of a rotating branch: each destination
      pixel takes the colour of the source pixel the loop writes there. */
  function Remap<P>(src: Image<P>, t: Turn): (dst: Image<P>)
    ensures dst.width == DestWidth(t, src.width, src.height)
    ensures dst.height == DestHeight(t, src.width, src.height)
  {
    var w', h' := DestWidth(t, src.width, src.height), DestHeight(t, src.width, src.height);
    Grid(w', h', seq(h', j requires 0 <= j < h' =>
                   seq(w', i requires 0 <= i < w' =>
                     SourceOfInverse(t, src.width, src.height, Point(i, j));
                     var p := SourceOf(t, src.width, src.height, Point(i, j));
                     src.rows[p.y][p.x])))
  }

  /** Destination pixel q of the remapped buffer holds source pixel
      `SourceOf(q)`. */
  lemma RemapAt<P>(src: Image<P>, t: Turn, q: Point)
    requires InGrid(q, DestWidth(t, src.width, src.height), DestHeight(t, src.width, src.height))
    ensures InGrid(SourceOf(t, src.width, src.height, q), src.width, src.height)
    ensures At(Remap(src, t), q.x, q.y)
            == At(src, SourceOf(t, src.width, src.height, q).x, SourceOf(t, src.width, src.height, q).y)
  {
    SourceOfInverse(t, src.width, src.height, q);
  }

  /** A quarter turn writes source (x, y) to (h-1-y, x) of an h x w image. */
  lemma QuarterPlacement<P>(src: Image<P>)
    ensures var dst := Remap(src, Quarter);
            && dst.width == src.height && dst.height == src.width
            && forall x, y :: InBounds(x, y, src.width, src.height) ==>
                 At(dst, src.height - 1 - y, x) == At(src, x, y)
  {
    var dst := Remap(src, Quarter);
    forall x, y | InBounds(x, y, src.width, src.height)
      ensures At(dst, src.height - 1 - y, x) == At(src, x, y)
    {
      DestOfInverse(Quarter, src.width, src.height, Point(x, y));
      RemapAt(src, Quarter, DestOf(Quarter, src.width, src.height, Point(x, y)));
    }
  }

  /** A half turn writes source (x, y) to (w-1-x, h-1-y) of a w x h image. */
  lemma HalfPlacement<P>(src: Image<P>)
    ensures var dst := Remap(src, Half);
            && dst.width == src.width && dst.height == src.height
            && forall x, y :: InBounds(x, y, src.width, src.height) ==>
                 At(dst, src.width - 1 - x, src.height - 1 - y) == At(src, x, y)
  {
    var dst := Remap(src, Half);
    forall x, y | InBounds(x, y, src.width, src.height)
      ensures At(dst, src.width - 1 - x, src.height - 1 - y) == At(src, x, y)
    {
      DestOfInverse(Half, src.width, src.height, Point(x, y));
      RemapAt(src, Half, DestOf(Half, src.width, src.height, Point(x, y)));
    }
  }

  /** A three-quarter turn writes source (x, y) to (y, w-1-x) of an h x w image. */
  lemma ThreeQuarterPlacement<P>(src: Image<P>)
    ensures var dst := Remap(src, ThreeQuarter);
            && dst.width == src.height && dst.height == src.width
            && forall x, y :: InBounds(x, y, src.width, src.height) ==>
                 At(dst, y, src.width - 1 - x) == At(src, x, y)
  {
    var dst := Remap(src, ThreeQuarter);
    forall x, y | InBounds(x, y, src.width, src.height)
      ensures At(dst, y, src.width - 1 - x) == At(src, x, y)
    {
      DestOfInverse(ThreeQuarter, src.width, src.height, Point(x, y));
      RemapAt(src, ThreeQuarter, DestOf(ThreeQuarter, src.width, src.height, Point(x, y)));
    }
  }

  /** The orientation correction of the source, by correction string. */
  function Rotate<P>(src: Image<P>, oc: string): (dst: Image<P>)
    ensures oc == "ROTATE_90" ==>
              && dst.width == src.height && dst.height == src.width
              && forall x, y :: InBounds(x, y, src.width, src.height) ==>
                   At(dst, src.height - 1 - y, x) == At(src, x, y)
    ensures oc == "ROTATE_180" ==>
              && dst.width == src.width && dst.height == src.height
              && forall x, y :: InBounds(x, y, src.width, src.height) ==>
                   At(dst, src.width - 1 - x, src.height - 1 - y) == At(src, x, y)
    ensures oc == "ROTATE_270" ==>
              && dst.width == src.height && dst.height == src.width
              && forall x, y :: InBounds(x, y, src.width, src.height) ==>
                   At(dst, y, src.width - 1 - x) == At(src, x, y)
    ensures oc != "ROTATE_90" && oc != "ROTATE_180" && oc != "ROTATE_270" ==> dst == src
  {
    match Classify(oc)
    case Quarter => QuarterPlacement(src); Remap(src, Quarter)
    case Half => HalfPlacement(src); Remap(src, Half)
    case ThreeQuarter => ThreeQuarterPlacement(src); Remap(src, ThreeQuarter)
    case Keep => src
  }

  /** The image a branch of the switch returns: the source itself, or its
      remap. */
  function Turned<P>(src: Image<P>, t: Turn): (dst: Image<P>)
    ensures dst.width == DestWidth(t, src.width, src.height)
    ensures dst.height == DestHeight(t, src.width, src.height)
  {
    if t == Keep then src else Remap(src, t)
  }

  /** The correction is the branch `Classify` selects. */
  lemma RotateIsTurned<P>(src: Image<P>, oc: string)
    ensures Rotate(src, oc) == Turned(src, Classify(oc))
  {
  }

  /** Pixel q of a branch's image is the source pixel `SourceOf(q)`. */
  lemma TurnedAt<P>(src: Image<P>, t: Turn, q: Point)
    requires InGrid(q, DestWidth(t, src.width, src.height), DestHeight(t, src.width, src.height))
    ensures var p := SourceOf(t, src.width, src.height, q);
            InGrid(p, src.width, src.height) && At(Turned(src, t), q.x, q.y) == At(src, p.x, p.y)
  {
    if t != Keep {
      RemapAt(src, t, q);
    }
  }
}
