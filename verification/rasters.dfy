/** The data model shared by the two raster routines of the plugin.
    An image's pixels are an `array2<int>` indexed `img[x, y]`, as ImageJ's
    `getPixel(x, y)`: `Length0` is the width, `Length1` the height.
    The specifications talk about a `Raster` value, a snapshot of such an array. */
module Rasters {

  /** The largest sample of a 16-bit grayscale image. */
  const MaxSample16: int := 65535

  /** ImageJ's image type tags, as `ImagePlus.getType` reports them. */
  datatype ImageType = Gray8 | Gray16 | Gray32 | Color256 | ColorRgb

  /** A raster as a value: `rows[y][x]` is the sample at column `x` of row `y`. */
  datatype Raster = Raster(width: nat, height: nat, rows: seq<seq<int>>)
  {
    /** The rows hold exactly width * height samples. */
    predicate Valid()
    {
      |rows| == height && forall row :: row in rows ==> |row| == width
    }

    function At(x: nat, y: nat): int
      requires Valid() && x < width && y < height
    {
      rows[y][x]
    }
  }

  predicate SameShape(a: Raster, b: Raster)
  {
    a.width == b.width && a.height == b.height
  }

  /** Every sample of `r` fits an unsigned 16-bit sample. */
  predicate Holds16Bit(r: Raster)
    requires r.Valid()
  {
    forall x, y :: 0 <= x < r.width && 0 <= y < r.height ==> 0 <= r.At(x, y) <= MaxSample16
  }

  /** The raster an image's pixel array currently holds. */
  ghost function Snapshot(img: array2<int>): (r: Raster)
    reads img
    ensures r.Valid() && r.width == img.Length0 && r.height == img.Length1
    ensures forall x, y :: 0 <= x < img.Length0 && 0 <= y < img.Length1 ==> r.At(x, y) == img[x, y]
  {
    Raster(img.Length0, img.Length1,
      seq(img.Length1, y requires 0 <= y < img.Length1 reads img =>
        seq(img.Length0, x requires 0 <= x < img.Length0 reads img => img[x, y])))
  }

  /** Two rasters of the same shape that agree on every sample are equal. */
  lemma Extensionality(a: Raster, b: Raster)
    requires a.Valid() && b.Valid() && SameShape(a, b)
    requires forall x, y :: 0 <= x < a.width && 0 <= y < a.height ==> a.At(x, y) == b.At(x, y)
    ensures a == b
  {
    forall y | 0 <= y < a.height
      ensures a.rows[y] == b.rows[y]
    {
      assert forall x :: 0 <= x < a.width ==> a.rows[y][x] == a.At(x, y);
    }
  }

  /** Every sample an image's pixel array currently holds fits 16 bits. */
  ghost predicate Holds16BitPixels(img: array2<int>)
    reads img
  {
    Holds16Bit(Snapshot(img))
  }
}
