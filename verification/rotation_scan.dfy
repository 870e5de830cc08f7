/** The orientation correction as the source performs it: a freshly
    allocated canvas, and two nested loops over the source, rows outermost,
    that write every source pixel to its destination. */
module RotationScan {
  import opened Results
  import opened Raster
  import opened Orientation

  /** Whether the scan, about to visit source pixel (x, y), has already
      visited source pixel `p`. */
  predicate Visited(p: Point, x: int, y: int) {
    p.y < y || (p.y == y && p.x < x)
  }

  /** Cell (i, j) of the canvas, with the scan about to visit (x, y), holds
      the colour of the source pixel that maps to it if that pixel has been
      visited, and is still blank (`None`) otherwise. */
  ghost predicate CellPainted<P>(canvas: seq<seq<Option<P>>>, src: Image<P>, t: Turn, x: int, y: int, i: int, j: int)
    requires 0 <= j < |canvas| && 0 <= i < |canvas[j]|
  {
    var p := SourceOf(t, src.width, src.height, Point(i, j));
    && InGrid(p, src.width, src.height)
    && canvas[j][i] == if Visited(p, x, y) then Some(src.rows[p.y][p.x]) else None
  }

  /** The canvas of a `t` remap of `src` with the scan about to visit
      (x, y): the destination's shape, every cell as `CellPainted` says. */
  ghost predicate Painted<P>(canvas: seq<seq<Option<P>>>, src: Image<P>, t: Turn, x: int, y: int) {
    var w', h' := DestWidth(t, src.width, src.height), DestHeight(t, src.width, src.height);
    && |canvas| == h'
    && (forall j :: 0 <= j < h' ==> |canvas[j]| == w')
    && forall i, j :: InBounds(i, j, w', h') ==> CellPainted(canvas, src, t, x, y, i, j)
  }

  /** The freshly allocated canvas: every cell blank, which is the canvas
      before the first visit. */
  function BlankCanvas<P>(src: Image<P>, t: Turn): (canvas: seq<seq<Option<P>>>)
    ensures Painted(canvas, src, t, 0, 0)
  {
    var w', h' := DestWidth(t, src.width, src.height), DestHeight(t, src.width, src.height);
    var canvas: seq<seq<Option<P>>> := seq(h', _ => seq(w', _ => None));
    forall i, j | InBounds(i, j, w', h')
      ensures CellPainted(canvas, src, t, 0, 0, i, j)
    {
      SourceOfInverse(t, src.width, src.height, Point(i, j));
      assert canvas[j][i] == None;
    }
    canvas
  }

  /** Visiting (x, y) writes a cell that was still blank, and leaves the
      canvas as it must be before the next visit. */
  lemma Step<P>(canvas: seq<seq<Option<P>>>, src: Image<P>, t: Turn, x: int, y: int)
    requires t != Keep
    requires InBounds(x, y, src.width, src.height)
    requires Painted(canvas, src, t, x, y)
    ensures var q := DestOf(t, src.width, src.height, Point(x, y));
            && InBounds(q.x, q.y, DestWidth(t, src.width, src.height), DestHeight(t, src.width, src.height))
            && canvas[q.y][q.x] == None
            && Painted(canvas[q.y := canvas[q.y][q.x := Some(src.rows[y][x])]], src, t, x + 1, y)
  {
    var q := DestOf(t, src.width, src.height, Point(x, y));
    DestOfInverse(t, src.width, src.height, Point(x, y));
    var next := canvas[q.y := canvas[q.y][q.x := Some(src.rows[y][x])]];
    forall i, j | InBounds(i, j, DestWidth(t, src.width, src.height), DestHeight(t, src.width, src.height))
      ensures CellPainted(next, src, t, x + 1, y, i, j)
    {
      var p := SourceOf(t, src.width, src.height, Point(i, j));
      SourceOfInverse(t, src.width, src.height, Point(i, j));
      assert CellPainted(canvas, src, t, x, y, i, j);
      if i == q.x && j == q.y {
        assert p == Point(x, y);
      } else {
        assert p != Point(x, y);
        assert next[j][i] == canvas[j][i];
      }
    }
  }

  /** Once a row is finished the scan moves to the start of the next one. */
  lemma NextRow<P>(canvas: seq<seq<Option<P>>>, src: Image<P>, t: Turn, y: int)
    requires Painted(canvas, src, t, src.width, y)
    ensures Painted(canvas, src, t, 0, y + 1)
  {
  }

  /** When the scan has passed the last row every cell holds the colour
      `Remap` gives it. */
  lemma Finished<P>(canvas: seq<seq<Option<P>>>, src: Image<P>, t: Turn, i: int, j: int)
    requires t != Keep
    requires Painted(canvas, src, t, 0, src.height)
    requires InBounds(i, j, DestWidth(t, src.width, src.height), DestHeight(t, src.width, src.height))
    ensures canvas[j][i] == Some(At(Remap(src, t), i, j))
  {
    RemapAt(src, t, Point(i, j));
  }

  /** The finished canvas with its cells unwrapped: the remapped image. */
  function Develop<P>(canvas: seq<seq<Option<P>>>, src: Image<P>, t: Turn): (dst: Image<P>)
    requires t != Keep
    requires Painted(canvas, src, t, 0, src.height)
    ensures dst == Remap(src, t)
  {
    var w', h' := DestWidth(t, src.width, src.height), DestHeight(t, src.width, src.height);
    var rows := seq(h', j requires 0 <= j < h' =>
                  seq(w', i requires 0 <= i < w' => Finished(canvas, src, t, i, j); canvas[j][i].value));
    assert forall j :: 0 <= j < h' ==> |rows[j]| == w';
    var dst: Image<P> := Grid(w', h', rows);
    forall i, j | InBounds(i, j, w', h')
      ensures At(dst, i, j) == At(Remap(src, t), i, j)
    {
      Finished(canvas, src, t, i, j);
    }
    Extensionality(dst, Remap(src, t));
    dst
  }

  /** The inner loop of a rotating branch: visits row `y` of the source
      from left to right, writing each pixel to its destination cell. */
  method ScanRow<P>(canvas: seq<seq<Option<P>>>, src: Image<P>, t: Turn, y: int)
    returns (next: seq<seq<Option<P>>>)
    requires t != Keep
    requires 0 <= y < src.height
    requires Painted(canvas, src, t, 0, y)
    ensures Painted(next, src, t, 0, y + 1)
  {
    next := canvas;
    var x := 0;
    while x < src.width
      invariant 0 <= x <= src.width
      invariant Painted(next, src, t, x, y)
    {
      var q := DestOf(t, src.width, src.height, Point(x, y));
      Step(next, src, t, x, y);
      next := next[q.y := next[q.y][q.x := Some(src.rows[y][x])]];
      x := x + 1;
    }
    NextRow(next, src, t, y);
  }

  /** The loops of a rotating branch over a fresh blank canvas. Every write
      lands on a cell no earlier write touched, and when the loops end every
      cell has been written: the result is the remapped image. */
  method Scan<P>(src: Image<P>, t: Turn) returns (dst: Image<P>)
    requires t != Keep
    ensures dst == Remap(src, t)
  {
    var canvas := BlankCanvas(src, t);
    var y := 0;
    while y < src.height
      invariant 0 <= y <= src.height
      invariant Painted(canvas, src, t, 0, y)
    {
      canvas := ScanRow(canvas, src, t, y);
      y := y + 1;
    }
    dst := Develop(canvas, src, t);
  }

  /** Runs the correction switch: the image itself for any string but the
      three rotations, otherwise the loops of the selected branch. The
      result is the orientation-corrected image. */
  method Paint<P>(src: Image<P>, oc: string) returns (dst: Image<P>)
    ensures dst == Rotate(src, oc)
  {
    RotateIsTurned(src, oc);
    var t := Classify(oc);
    if t == Keep {
      dst := src;
    } else {
      dst := Scan(src, t);
    }
  }
}
