/**
 * From the detector's pixel-space output to the published `SegmentList`: the crop
 * offset is added back to the y coordinates, x is scaled by 1/width and y by 1/height
 * of the working size, each row is zipped with its normal into a `Segment` carrying its
 * colour, and the colours are appended white, yellow, red.
 */
module Segments {
  import opened Wrappers
  import opened Images

  /** `Segment.WHITE`, `Segment.YELLOW`, `Segment.RED`. */
  datatype Color = White | Yellow | Red

  /** One row `(x1, y1, x2, y2)` of the detector's lines, in pixels of the cropped image. */
  datatype PixelLine = PixelLine(x1: int, y1: int, x2: int, y2: int)

  /** A row of four reals: a normalized line, or a line mapped back to pixels. */
  datatype Quad = Quad(x1: real, y1: real, x2: real, y2: real)

  datatype Vector = Vector(x: real, y: real)

  datatype Point = Point(x: real, y: real)

  /** `pixels_normalized[0]`, `pixels_normalized[1]`, `normal` and `color` of a Segment message. */
  datatype Segment = Segment(color: Color, p0: Point, p1: Point, normal: Vector)

  /** The published message: the frame's stamp and the segments. */
  datatype SegmentList = SegmentList(stamp: real, segments: seq<Segment>)

  /** What `detectLines(color)` returns: lines, their normals and the mask area. */
  datatype Detection = Detection(lines: seq<PixelLine>, normals: seq<Vector>, area: int)

  /**
   * `(line + (0, c, 0, c)) * (1/w, 1/h, 1/w, 1/h)` for one row; no clamping.
   * Scaling the result back by the working size gives the crop-compensated pixels.
   */
  function NormalizeLine(l: PixelLine, cutoff: int, size: Size): (q: Quad)
    requires size.h != 0 && size.w != 0
    ensures q.x1 * size.w as real == l.x1 as real
    ensures q.y1 * size.h as real == (l.y1 + cutoff) as real
    ensures q.x2 * size.w as real == l.x2 as real
    ensures q.y2 * size.h as real == (l.y2 + cutoff) as real
  {
    var rx, ry := 1.0 / size.w as real, 1.0 / size.h as real;
    Quad((l.x1 + 0) as real * rx, (l.y1 + cutoff) as real * ry,
         (l.x2 + 0) as real * rx, (l.y2 + cutoff) as real * ry)
  }

  /** The inverse map: normalized coordinates back to pixels of the cropped image. */
  function Denormalize(q: Quad, cutoff: int, size: Size): Quad
  {
    var w, h := size.w as real, size.h as real;
    Quad(q.x1 * w, q.y1 * h - cutoff as real, q.x2 * w, q.y2 * h - cutoff as real)
  }

  /** Normalizing loses nothing: mapping back gives the detector's pixels. */
  lemma DenormalizeNormalize(l: PixelLine, cutoff: int, size: Size)
    requires size.h != 0 && size.w != 0
    ensures Denormalize(NormalizeLine(l, cutoff, size), cutoff, size)
         == Quad(l.x1 as real, l.y1 as real, l.x2 as real, l.y2 as real)
  {
  }

  /** Two pixel lines with the same normalized form are the same line. */
  lemma NormalizeInjective(a: PixelLine, b: PixelLine, cutoff: int, size: Size)
    requires size.h != 0 && size.w != 0
    requires NormalizeLine(a, cutoff, size) == NormalizeLine(b, cutoff, size)
    ensures a == b
  {
    DenormalizeNormalize(a, cutoff, size);
    DenormalizeNormalize(b, cutoff, size);
  }

  /**
   * A line inside the cropped working image (`0 <= x <= w`, `0 <= y <= h - c`) with a
   * crop `0 <= c` lands in the unit square.
   */
  lemma NormalizedInUnitSquare(l: PixelLine, cutoff: int, size: Size)
    requires 0 < size.h && 0 < size.w && 0 <= cutoff
    requires 0 <= l.x1 <= size.w && 0 <= l.x2 <= size.w
    requires 0 <= l.y1 && l.y1 + cutoff <= size.h && 0 <= l.y2 && l.y2 + cutoff <= size.h
    ensures var q := NormalizeLine(l, cutoff, size);
      0.0 <= q.x1 <= 1.0 && 0.0 <= q.y1 <= 1.0 && 0.0 <= q.x2 <= 1.0 && 0.0 <= q.y2 <= 1.0
  {
    var w, h := size.w as real, size.h as real;
    ScaledIntoUnit(l.x1 as real, w);
    ScaledIntoUnit(l.x2 as real, w);
    ScaledIntoUnit((l.y1 + cutoff) as real, h);
    ScaledIntoUnit((l.y2 + cutoff) as real, h);
  }

  /** A coordinate between 0 and the side, times the side's reciprocal, is between 0 and 1. */
  lemma ScaledIntoUnit(p: real, d: real)
    requires 0.0 <= p <= d && 0.0 < d
    ensures 0.0 <= p * (1.0 / d) <= 1.0
  {
    var r := 1.0 / d;
    assert 0.0 < r;
    assert d * r == 1.0;
    assert p * r <= d * r;
  }

  /** The normalization applied to every row of the detector's lines, in order. */
  function NormalizeAll(lines: seq<PixelLine>, cutoff: int, size: Size): (r: seq<Quad>)
    requires size.h != 0 && size.w != 0
    ensures |r| == |lines|
    ensures forall i :: 0 <= i < |lines| ==> r[i] == NormalizeLine(lines[i], cutoff, size)
  {
    seq(|lines|, i requires 0 <= i < |lines| => NormalizeLine(lines[i], cutoff, size))
  }

  /** One row of `np.hstack((lines, normals))` turned into a Segment of the given colour. */
  function MakeSegment(color: Color, q: Quad, n: Vector): Segment
  {
    Segment(color, Point(q.x1, q.y1), Point(q.x2, q.y2), n)
  }

  /** The rows of `lines` zipped with those of `normals`, in order. */
  function SegmentsOf(lines: seq<Quad>, normals: seq<Vector>, color: Color): seq<Segment>
    requires |lines| == |normals|
  {
    seq(|lines|, i requires 0 <= i < |lines| => MakeSegment(color, lines[i], normals[i]))
  }

  /**
   * `toSegmentMsg`: one Segment per row, in row order, each carrying `color`; None where
   * `np.hstack` raises because the two arrays have different row counts.
   */
  method ToSegmentMsg(lines: seq<Quad>, normals: seq<Vector>, color: Color)
    returns (r: Option<seq<Segment>>)
    ensures r.Some? <==> |lines| == |normals|
    ensures r.Some? ==> |r.value| == |lines|
    ensures r.Some? ==> forall i :: 0 <= i < |lines| ==>
      r.value[i].color == color &&
      r.value[i].p0 == Point(lines[i].x1, lines[i].y1) &&
      r.value[i].p1 == Point(lines[i].x2, lines[i].y2) &&
      r.value[i].normal == normals[i]
    ensures r.Some? ==> r.value == SegmentsOf(lines, normals, color)
  {
    if |lines| != |normals| {
      return None;
    }
    var list: seq<Segment> := [];
    for i := 0 to |lines|
      invariant |list| == i
      invariant forall k :: 0 <= k < i ==> list[k] == MakeSegment(color, lines[k], normals[k])
    {
      list := list + [MakeSegment(color, lines[i], normals[i])];
    }
    r := Some(list);
  }

  /** A colour's detection can be turned into segments: no lines, or one normal per line. */
  predicate Consistent(d: Detection)
  {
    |d.lines| == 0 || |d.lines| == |d.normals|
  }

  /**
   * The segments one colour contributes (lines 217-225 of `line_detector_node.py`):
   * nothing when it has no lines, otherwise its normalized rows zipped with its normals;
   * None where `np.hstack` raises.
   */
  function ColorSegments(d: Detection, color: Color, cutoff: int, size: Size): (r: Option<seq<Segment>>)
    requires size.h != 0 && size.w != 0
    ensures r.Some? <==> Consistent(d)
    ensures r.Some? ==> |r.value| == |d.lines|
    ensures r.Some? ==> forall k :: 0 <= k < |r.value| ==> r.value[k].color == color
  {
    if |d.lines| == 0 then Some([])
    else if |d.lines| != |d.normals| then None
    else Some(SegmentsOf(NormalizeAll(d.lines, cutoff, size), d.normals, color))
  }

  /** The SegmentList of a frame: stamped with the frame's stamp, white, then yellow, then red. */
  function Assemble(stamp: real, white: Detection, yellow: Detection, red: Detection,
                    cutoff: int, size: Size): (r: Option<SegmentList>)
    requires size.h != 0 && size.w != 0
    ensures r.Some? ==> r.value.stamp == stamp
    ensures r.Some? ==> |r.value.segments| == |white.lines| + |yellow.lines| + |red.lines|
  {
    match (ColorSegments(white, White, cutoff, size),
           ColorSegments(yellow, Yellow, cutoff, size),
           ColorSegments(red, Red, cutoff, size))
    case (Some(w), Some(y), Some(r)) => Some(SegmentList(stamp, w + y + r))
    case _ => None
  }

  /** Assembly fails exactly when some colour has lines but a different number of normals. */
  lemma AssembleDefined(stamp: real, white: Detection, yellow: Detection, red: Detection,
                        cutoff: int, size: Size)
    requires size.h != 0 && size.w != 0
    ensures Assemble(stamp, white, yellow, red, cutoff, size).Some? <==>
      Consistent(white) && Consistent(yellow) && Consistent(red)
  {
  }

  /** The segment the `k`-th row of a colour's detection becomes. */
  function SegmentFor(color: Color, d: Detection, k: int, cutoff: int, size: Size): Segment
    requires size.h != 0 && size.w != 0
    requires 0 <= k < |d.lines| && k < |d.normals|
  {
    MakeSegment(color, NormalizeLine(d.lines[k], cutoff, size), d.normals[k])
  }

  /**
   * The assembled list carries the frame's stamp and one segment per detected line:
   * the white rows first, then the yellow, then the red, each in detector order.
   */
  lemma AssembleLayout(stamp: real, white: Detection, yellow: Detection, red: Detection,
                       cutoff: int, size: Size)
    requires size.h != 0 && size.w != 0
    requires Assemble(stamp, white, yellow, red, cutoff, size).Some?
    ensures var l := Assemble(stamp, white, yellow, red, cutoff, size).value;
      var nw, ny, nr := |white.lines|, |yellow.lines|, |red.lines|;
      && l.stamp == stamp
      && |l.segments| == nw + ny + nr
      && (forall k :: 0 <= k < nw ==>
            k < |white.normals| && l.segments[k] == SegmentFor(White, white, k, cutoff, size))
      && (forall k :: 0 <= k < ny ==>
            k < |yellow.normals| && l.segments[nw + k] == SegmentFor(Yellow, yellow, k, cutoff, size))
      && (forall k :: 0 <= k < nr ==>
            k < |red.normals| && l.segments[nw + ny + k] == SegmentFor(Red, red, k, cutoff, size))
  {
    var l := Assemble(stamp, white, yellow, red, cutoff, size).value;
    var w := ColorSegments(white, White, cutoff, size).value;
    var y := ColorSegments(yellow, Yellow, cutoff, size).value;
    var r := ColorSegments(red, Red, cutoff, size).value;
    assert l.segments == w + y + r;
    ColorSegmentsAt(white, White, cutoff, size);
    ColorSegmentsAt(yellow, Yellow, cutoff, size);
    ColorSegmentsAt(red, Red, cutoff, size);
    var nw, ny := |w|, |y|;
    forall k | 0 <= k < |r|
      ensures l.segments[nw + ny + k] == r[k]
    {
      assert (w + y + r)[nw + ny + k] == r[k];
    }
    forall k | 0 <= k < ny
      ensures l.segments[nw + k] == y[k]
    {
      assert (w + y + r)[nw + k] == y[k];
    }
  }

  lemma ColorSegmentsAt(d: Detection, color: Color, cutoff: int, size: Size)
    requires size.h != 0 && size.w != 0
    requires ColorSegments(d, color, cutoff, size).Some?
    ensures var s := ColorSegments(d, color, cutoff, size).value;
      |s| == |d.lines| &&
      forall k :: 0 <= k < |d.lines| ==> k < |d.normals| && s[k] == SegmentFor(color, d, k, cutoff, size)
  {
  }

  /** Position of a colour in the published order. */
  function Rank(c: Color): nat
  {
    match c
    case White => 0
    case Yellow => 1
    case Red => 2
  }

  /**
   * The list is grouped by colour, white before yellow before red, and the segments of a
   * colour are exactly its block: a colour with no lines contributes nothing.
   */
  lemma AssembleGrouped(stamp: real, white: Detection, yellow: Detection, red: Detection,
                        cutoff: int, size: Size)
    requires size.h != 0 && size.w != 0
    requires Assemble(stamp, white, yellow, red, cutoff, size).Some?
    ensures var s := Assemble(stamp, white, yellow, red, cutoff, size).value.segments;
      var nw, ny := |white.lines|, |yellow.lines|;
      && (forall i, j :: 0 <= i < j < |s| ==> Rank(s[i].color) <= Rank(s[j].color))
      && (forall i :: 0 <= i < |s| ==> (s[i].color == White <==> i < nw))
      && (forall i :: 0 <= i < |s| ==> (s[i].color == Yellow <==> nw <= i < nw + ny))
      && (forall i :: 0 <= i < |s| ==> (s[i].color == Red <==> nw + ny <= i))
  {
    AssembleLayout(stamp, white, yellow, red, cutoff, size);
    var s := Assemble(stamp, white, yellow, red, cutoff, size).value.segments;
    var nw, ny := |white.lines|, |yellow.lines|;
    forall i | 0 <= i < |s|
      ensures s[i].color == if i < nw then White else if i < nw + ny then Yellow else Red
    {
      if i < nw {
        assert s[i] == SegmentFor(White, white, i, cutoff, size);
      } else if i < nw + ny {
        assert s[nw + (i - nw)] == SegmentFor(Yellow, yellow, i - nw, cutoff, size);
      } else {
        assert s[nw + ny + (i - nw - ny)] == SegmentFor(Red, red, i - nw - ny, cutoff, size);
      }
    }
  }
}
