/** The difference computation of `watershed_correction_.run`: two 16-bit
    grayscale images of equal size give a fresh image of their per-pixel
    absolute differences. */
module Difference {
  import opened Rasters

  datatype Result<T, E> = Success(value: T) | Failure(error: E)

  /** Why no difference image is produced. */
  datatype DiffError =
    | NotGray16          // at least one image is not 16-bit grayscale
    | DimensionMismatch  // the widths or the heights differ

  function Abs(v: int): nat
  {
    if v < 0 then -v else v
  }

  /** A width x height raster of zeros, as a fresh 16-bit processor holds. */
  function Blank(width: nat, height: nat): (r: Raster)
    ensures r.Valid() && r.width == width && r.height == height
    ensures forall x, y :: 0 <= x < width && 0 <= y < height ==> r.At(x, y) == 0
  {
    Raster(width, height, seq(height, y => seq(width, x => 0)))
  }

  /** The raster of per-pixel absolute differences of `a` and `b`. */
  function AbsDiff(a: Raster, b: Raster): (d: Raster)
    requires a.Valid() && b.Valid() && SameShape(a, b)
    ensures d.Valid() && SameShape(d, a)
    ensures forall x, y :: 0 <= x < a.width && 0 <= y < a.height ==>
      d.At(x, y) == Abs(a.At(x, y) - b.At(x, y))
  {
    Raster(a.width, a.height,
      seq(a.height, y requires 0 <= y < a.height =>
        seq(a.width, x requires 0 <= x < a.width => Abs(a.rows[y][x] - b.rows[y][x]))))
  }

  /** The difference does not depend on the order of its inputs. */
  lemma AbsDiffSymmetric(a: Raster, b: Raster)
    requires a.Valid() && b.Valid() && SameShape(a, b)
    ensures AbsDiff(a, b) == AbsDiff(b, a)
  {
    Extensionality(AbsDiff(a, b), AbsDiff(b, a));
  }

  /** The difference is all zeros exactly when the two rasters are equal. */
  lemma AbsDiffBlankIffEqual(a: Raster, b: Raster)
    requires a.Valid() && b.Valid() && SameShape(a, b)
    ensures AbsDiff(a, b) == Blank(a.width, a.height) <==> a == b
  {
    var d, z := AbsDiff(a, b), Blank(a.width, a.height);
    if a == b {
      Extensionality(d, z);
    }
    if d == z {
      forall x, y | 0 <= x < a.width && 0 <= y < a.height
        ensures a.At(x, y) == b.At(x, y)
      {
        assert d.At(x, y) == z.At(x, y) == 0;
      }
      Extensionality(a, b);
    }
  }

  /** Two 16-bit rasters differ by at most 65535 at every pixel. */
  lemma AbsDiffHolds16Bit(a: Raster, b: Raster)
    requires a.Valid() && b.Valid() && SameShape(a, b)
    requires Holds16Bit(a) && Holds16Bit(b)
    ensures Holds16Bit(AbsDiff(a, b))
  {
  }

  /** The worked example: [[10,20],[30,40]] and [[10,25],[20,50]] differ by [[0,5],[10,10]]. */
  lemma AbsDiffExample()
    ensures AbsDiff(Raster(2, 2, [[10, 20], [30, 40]]), Raster(2, 2, [[10, 25], [20, 50]]))
         == Raster(2, 2, [[0, 5], [10, 10]])
  {
    var a, b := Raster(2, 2, [[10, 20], [30, 40]]), Raster(2, 2, [[10, 25], [20, 50]]);
    var e := Raster(2, 2, [[0, 5], [10, 10]]);
    assert a.Valid() && b.Valid() && e.Valid();
    Extensionality(AbsDiff(a, b), e);
  }

  /** The difference step of `run`: rejects images that are not both GRAY16,
      then images of unequal size, and otherwise fills a fresh width x height
      buffer, row by row, with the absolute differences.
      A GRAY16 image is backed by a 16-bit processor, so its samples are 0..65535. */
  method ComputeDifference(kind1: ImageType, ip1: array2<int>, kind2: ImageType, ip2: array2<int>)
    returns (res: Result<array2<int>, DiffError>)
    requires kind1 == Gray16 ==> Holds16BitPixels(ip1)
    requires kind2 == Gray16 ==> Holds16BitPixels(ip2)
    ensures kind1 != Gray16 || kind2 != Gray16 ==> res == Failure(NotGray16)
    ensures kind1 == Gray16 && kind2 == Gray16 && !SameShape(Snapshot(ip1), Snapshot(ip2)) ==>
      res == Failure(DimensionMismatch)
    ensures res.Success? <==> kind1 == Gray16 && kind2 == Gray16 && SameShape(Snapshot(ip1), Snapshot(ip2))
    ensures res.Success? ==>
      fresh(res.value) &&
      res.value.Length0 == ip1.Length0 && res.value.Length1 == ip1.Length1 &&
      Snapshot(res.value) == AbsDiff(Snapshot(ip1), Snapshot(ip2)) &&
      Holds16BitPixels(res.value)
  {
    if kind1 != Gray16 || kind2 != Gray16 {
      return Failure(NotGray16);
    }
    var width, height := ip1.Length0, ip1.Length1;
    if width != ip2.Length0 || height != ip2.Length1 {
      return Failure(DimensionMismatch);
    }
    var diff := new int[width, height];
    var y := 0;
    while y < height
      invariant 0 <= y <= height
      invariant forall i, j :: 0 <= i < width && 0 <= j < y ==> diff[i, j] == Abs(ip1[i, j] - ip2[i, j])
    {
      var x := 0;
      while x < width
        invariant 0 <= x <= width
        invariant forall i, j :: 0 <= i < width && 0 <= j < y ==> diff[i, j] == Abs(ip1[i, j] - ip2[i, j])
        invariant forall i :: 0 <= i < x ==> diff[i, y] == Abs(ip1[i, y] - ip2[i, y])
      {
        diff[x, y] := Abs(ip1[x, y] - ip2[x, y]);
        x := x + 1;
      }
      y := y + 1;
    }
    ghost var a, b := Snapshot(ip1), Snapshot(ip2);
    Extensionality(Snapshot(diff), AbsDiff(a, b));
    AbsDiffHolds16Bit(a, b);
    return Success(diff);
  }
}
