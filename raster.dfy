/** Pixel grids as the comparison pipeline handles them: numpy arrays of
    shape (height, width) for grayscale data and masks, and of shape
    (height, width, 3) for the BGR colour images OpenCV decodes. */
module Raster {
  /** One 8-bit channel value (numpy `uint8`). */
  type Byte = x: int | 0 <= x < 256

  /** One colour pixel, in OpenCV's blue-green-red channel order. */
  datatype Bgr = Bgr(b: Byte, g: Byte, r: Byte)

  /** The pixel value of `np.zeros_like` on a colour image. */
  const Black: Bgr := Bgr(0, 0, 0)

  datatype Image<P> = Image(height: nat, width: nat, px: seq<seq<P>>) {
    /** The rows of `px` form a height-by-width rectangle. */
    predicate Valid() {
      |px| == height && forall i :: 0 <= i < |px| ==> |px[i]| == width
    }

    /** numpy's `a.shape[:2] == b.shape[:2]`. */
    predicate SameSize<Q>(other: Image<Q>) {
      height == other.height && width == other.width
    }

    /** numpy's `size` of a single-channel array. */
    function Size(): nat {
      height * width
    }
  }

  /** A well-formed image. */
  type Grid<P> = im: Image<P> | im.Valid() witness Image(0, 0, [])

  type ColorImage = Grid<Bgr>

  /** A single-channel 8-bit image: grayscale data, a diff map or a 0/255 mask. */
  type GrayImage = Grid<Byte>

  /** What `cv2.imread` returns when it succeeds: a colour image that is never empty. */
  type Decoded = im: Image<Bgr> | im.Valid() && im.height > 0 && im.width > 0
    witness Image(1, 1, [[Black]])

  /** The height-by-width image whose pixel at (i, j) is `f(i, j)`. Every
      foreign operation that produces an image is modelled through this, so
      the shape of its output is fixed while its pixel values stay abstract. */
  function Tabulate<P>(h: nat, w: nat, f: (int, int) -> P): (im: Grid<P>)
    ensures im.height == h && im.width == w
    ensures forall i, j :: 0 <= i < h && 0 <= j < w ==> im.px[i][j] == f(i, j)
  {
    Image(h, w, seq(h, i => seq(w, j => f(i, j))))
  }

  /** A per-pixel conversion such as `cv2.cvtColor(img, cv2.COLOR_BGR2GRAY)`. */
  function MapPixels<P, Q>(im: Grid<P>, f: P -> Q): (r: Grid<Q>)
    ensures r.SameSize(im)
    ensures forall i, j :: 0 <= i < im.height && 0 <= j < im.width ==> r.px[i][j] == f(im.px[i][j])
  {
    Image(im.height, im.width,
      seq(im.height, i requires 0 <= i < im.height =>
        seq(im.width, j requires 0 <= j < im.width => f(im.px[i][j]))))
  }
}
