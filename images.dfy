/**
 * The shape rule of the frame preprocessing in `processImage`: resize to the configured
 * working size only when the decoded frame has another size, then drop the first
 * `top_cutoff` rows. An image is a sequence of rows of pixels; the pixel values only
 * matter to the collaborators the node hands the image to.
 */
module Images {
  import opened Wrappers
  import opened Slices

  /** One 8-bit BGR pixel, as OpenCV stores it. */
  datatype Pixel = Pixel(b: int, g: int, r: int)

  /** `width` is kept apart from the rows so that an image with no rows still has one. */
  datatype Image = Image(width: nat, rows: seq<seq<Pixel>>)

  /** The `img_size` parameter: `[rows, columns]` of the working image. */
  datatype Size = Size(h: int, w: int)

  function Height(img: Image): nat
  {
    |img.rows|
  }

  /** Every row is `width` pixels long, as in a numpy array. */
  predicate WellFormed(img: Image)
  {
    forall i :: 0 <= i < |img.rows| ==> |img.rows[i]| == img.width
  }

  /** The guard of the resize: the decoded `(height, width)` differs from `img_size`. */
  predicate NeedsResize(size: Size, img: Image)
  {
    size.h != Height(img) || size.w != img.width
  }

  /**
   * Nearest-neighbour source index for destination index `i` when `src` positions are
   * stretched over `dst`: the source position whose scaled cell holds `i`.
   */
  function Nearest(i: nat, src: nat, dst: nat): (k: nat)
    requires i < dst && 0 < src
    ensures k < src
    ensures k * dst <= i * src < (k + 1) * dst
  {
    NearestBounds(i, src, dst);
    i * src / dst
  }

  lemma NearestBounds(i: nat, src: nat, dst: nat)
    requires i < dst && 0 < src
    ensures 0 <= i * src / dst < src
    ensures (i * src / dst) * dst <= i * src < (i * src / dst + 1) * dst
  {
    var p: nat := i * src;
    FloorDiv(p, dst);
    var k: nat := p / dst;
    MulMonotone(i, dst - 1, src);
    assert (dst - 1) * src == src * dst - src;
    MulLessCancel(k, src, dst);
  }

  lemma MulLessCancel(a: nat, b: nat, c: nat)
    requires a * c < b * c
    ensures a < b
  {
    if b <= a {
      MulMonotone(b, a, c);
    }
  }

  /** Euclidean division of naturals brackets the dividend. */
  lemma FloorDiv(a: nat, d: nat)
    requires 0 < d
    ensures (a / d) * d <= a < (a / d + 1) * d
  {
    assert a == (a / d) * d + a % d;
    assert (a / d + 1) * d == (a / d) * d + d;
  }

  lemma MulMonotone(a: nat, b: nat, c: nat)
    requires a <= b
    ensures a * c <= b * c
  {
    assert b * c == a * c + (b - a) * c;
  }

  /** `cv2.resize(img, (w, h), interpolation=cv2.INTER_NEAREST)`. */
  function Resize(img: Image, h: nat, w: nat): (r: Image)
    requires WellFormed(img) && 0 < Height(img) && 0 < img.width && 0 < h && 0 < w
    ensures WellFormed(r) && Height(r) == h && r.width == w
    ensures forall i, j :: 0 <= i < h && 0 <= j < w ==>
      r.rows[i][j] == img.rows[Nearest(i, Height(img), h)][Nearest(j, img.width, w)]
  {
    Image(w, seq(h, i requires 0 <= i < h =>
      seq(w, j requires 0 <= j < w =>
        img.rows[Nearest(i, Height(img), h)][Nearest(j, img.width, w)])))
  }

  /** Resizing to the size an image already has gives the image back. */
  lemma ResizeToOwnSize(img: Image)
    requires WellFormed(img) && 0 < Height(img) && 0 < img.width
    ensures Resize(img, Height(img), img.width) == img
  {
    var r := Resize(img, Height(img), img.width);
    forall i | 0 <= i < Height(img)
      ensures r.rows[i] == img.rows[i]
    {
      forall j | 0 <= j < img.width
        ensures r.rows[i][j] == img.rows[i][j]
      {
        NearestIdentity(i, Height(img));
        NearestIdentity(j, img.width);
      }
    }
  }

  lemma NearestIdentity(i: nat, n: nat)
    requires i < n
    ensures Nearest(i, n, n) == i
  {
    var k := Nearest(i, n, n);
    MulLessCancel(i, k + 1, n);
    assert (i + 1) * n == i * n + n;
    MulLessCancel(k, i + 1, n);
  }

  /** `image[top_cutoff:, :, :]`: Python slicing of the rows, the width is kept. */
  function Crop(img: Image, cutoff: int): (r: Image)
    ensures WellFormed(img) ==> WellFormed(r)
    ensures r.width == img.width
    ensures r.rows == SliceFrom(img.rows, cutoff)
  {
    Image(img.width, SliceFrom(img.rows, cutoff))
  }

  /**
   * The working image of a frame (lines 172-178 of `line_detector_node.py`), or None
   * where `cv2.resize` raises: a working size with a non-positive side, or an empty
   * decoded frame.
   */
  function Preprocess(decoded: Image, size: Size, cutoff: int): (r: Option<Image>)
    requires WellFormed(decoded)
    ensures r.Some? ==> WellFormed(r.value)
  {
    if NeedsResize(size, decoded) then
      if 0 < size.h && 0 < size.w && 0 < Height(decoded) && 0 < decoded.width then
        Some(Crop(Resize(decoded, size.h, size.w), cutoff))
      else
        None
    else
      Some(Crop(decoded, cutoff))
  }

  /** Preprocessing fails exactly when a resize is needed and cannot be done. */
  lemma PreprocessFails(decoded: Image, size: Size, cutoff: int)
    requires WellFormed(decoded)
    ensures Preprocess(decoded, size, cutoff).None? <==>
      NeedsResize(size, decoded) &&
      (size.h <= 0 || size.w <= 0 || Height(decoded) == 0 || decoded.width == 0)
  {
  }

  /**
   * With `0 <= top_cutoff <= h`, the working image has `h - top_cutoff` rows of `w`
   * pixels, whatever size the frame was decoded at.
   */
  lemma PreprocessShape(decoded: Image, size: Size, cutoff: int)
    requires WellFormed(decoded)
    requires Preprocess(decoded, size, cutoff).Some?
    requires 0 <= cutoff <= size.h
    ensures var img := Preprocess(decoded, size, cutoff).value;
      Height(img) == size.h - cutoff && img.width == size.w
  {
  }

  /**
   * A frame that already has the working size is only cropped: its remaining rows are
   * the decoded rows from `top_cutoff` on, pixel for pixel.
   */
  lemma NoResizeOnlyCrops(decoded: Image, size: Size, cutoff: int)
    requires WellFormed(decoded) && !NeedsResize(size, decoded)
    requires 0 <= cutoff <= size.h
    ensures Preprocess(decoded, size, cutoff) == Some(Image(decoded.width, decoded.rows[cutoff..]))
  {
  }

  /**
   * A negative `top_cutoff` keeps the LAST `-top_cutoff` rows (Python slicing), not the
   * whole frame.
   */
  lemma NegativeCutoffKeepsBottom(img: Image, cutoff: int)
    requires cutoff < 0 && -cutoff <= Height(img)
    ensures Crop(img, cutoff).rows == img.rows[Height(img) + cutoff..]
    ensures Height(Crop(img, cutoff)) == -cutoff
  {
  }
}
