/** The area / "perimeter" estimator of `watershed_correction_.run` and its
    helper `countNeighbors`. A pixel is foreground when its value is exactly
    255; `area` counts foreground pixels and `perimeter` sums, over them, how
    many of their in-bounds 4-neighbours are foreground too. Despite its name,
    `perimeter` is an interior-adjacency count, not a boundary length. */
module Measure {
  import opened Rasters

  /** The foreground value tested by the plugin. */
  const White: int := 255

  /** Neighbour offsets in the order the plugin visits them: left, right, up, down. */
  const Offsets: seq<(int, int)> := [(-1, 0), (1, 0), (0, -1), (0, 1)]

  /** The two accumulators of the measuring loop. */
  datatype Measurement = Measurement(area: nat, perimeter: nat)


  function Ind(b: bool): nat
  {
    if b then 1 else 0
  }

  /** (x, y) lies inside the raster and holds the foreground value. */
  predicate IsWhite(r: Raster, x: int, y: int)
    requires r.Valid()
  {
    0 <= x < r.width && 0 <= y < r.height && r.At(x, y) == White
  }

  /** The number of foreground pixels among the in-bounds 4-neighbours of (x, y). */
  function Neighbours(r: Raster, x: int, y: int): (n: nat)
    requires r.Valid()
    ensures n <= 4
    ensures n == 0 <==>
      !IsWhite(r, x - 1, y) && !IsWhite(r, x + 1, y) && !IsWhite(r, x, y - 1) && !IsWhite(r, x, y + 1)
  {
    Ind(IsWhite(r, x - 1, y)) + Ind(IsWhite(r, x + 1, y)) + Ind(IsWhite(r, x, y - 1)) + Ind(IsWhite(r, x, y + 1))
  }

  /** Foreground pixels at the first k offsets of `Offsets` from (x, y). */
  function WhiteAtOffsets(r: Raster, x: int, y: int, k: nat): nat
    requires r.Valid() && k <= |Offsets|
  {
    if k == 0 then 0
    else WhiteAtOffsets(r, x, y, k - 1) + Ind(IsWhite(r, x + Offsets[k - 1].0, y + Offsets[k - 1].1))
  }

  lemma WhiteAtAllOffsets(r: Raster, x: int, y: int)
    requires r.Valid()
    ensures WhiteAtOffsets(r, x, y, |Offsets|) == Neighbours(r, x, y)
  {
    assert Offsets[0] == (-1, 0) && Offsets[1] == (1, 0) && Offsets[2] == (0, -1) && Offsets[3] == (0, 1);
    assert WhiteAtOffsets(r, x, y, 1) == Ind(IsWhite(r, x - 1, y));
    assert WhiteAtOffsets(r, x, y, 2) == WhiteAtOffsets(r, x, y, 1) + Ind(IsWhite(r, x + 1, y));
    assert WhiteAtOffsets(r, x, y, 3) == WhiteAtOffsets(r, x, y, 2) + Ind(IsWhite(r, x, y - 1));
    assert WhiteAtOffsets(r, x, y, 4) == WhiteAtOffsets(r, x, y, 3) + Ind(IsWhite(r, x, y + 1));
  }

  /** What one pixel adds to the two accumulators. */
  function PixelMeasure(r: Raster, x: int, y: int): Measurement
    requires r.Valid()
  {
    if IsWhite(r, x, y) then Measurement(1, Neighbours(r, x, y)) else Measurement(0, 0)
  }

  /** The accumulators over the first n pixels of row y. */
  function RowMeasure(r: Raster, y: int, n: nat): Measurement
    requires r.Valid()
  {
    if n == 0 then Measurement(0, 0)
    else
      var before, pixel := RowMeasure(r, y, n - 1), PixelMeasure(r, n - 1, y);
      Measurement(before.area + pixel.area, before.perimeter + pixel.perimeter)
  }

  /** The accumulators over the first m rows. */
  function RowsMeasure(r: Raster, m: nat): Measurement
    requires r.Valid()
  {
    if m == 0 then Measurement(0, 0)
    else
      var before, row := RowsMeasure(r, m - 1), RowMeasure(r, m - 1, r.width);
      Measurement(before.area + row.area, before.perimeter + row.perimeter)
  }

  /** The area and perimeter of the whole raster. */
  function Measured(r: Raster): Measurement
    requires r.Valid()
  {
    RowsMeasure(r, r.height)
  }

  /** `countNeighbors`: walks the offset table and counts the neighbours that
      lie inside the image and hold 255; out-of-bounds ones are skipped. */
  method CountNeighbours(ip: array2<int>, x: int, y: int) returns (count: nat)
    ensures count == Neighbours(Snapshot(ip), x, y)
  {
    ghost var r := Snapshot(ip);
    count := 0;
    var neighbours := Offsets;
    var k := 0;
    while k < |neighbours|
      invariant 0 <= k <= |neighbours|
      invariant count == WhiteAtOffsets(r, x, y, k)
    {
      var nx := x + neighbours[k].0;
      var ny := y + neighbours[k].1;
      if nx >= 0 && nx < ip.Length0 && ny >= 0 && ny < ip.Length1 && ip[nx, ny] == White {
        count := count + 1;
      }
      k := k + 1;
    }
    WhiteAtAllOffsets(r, x, y);
  }

  /** One more pixel of row y: the unfolding the measuring loop relies on. */
  lemma RowStep(r: Raster, y: int, x: nat)
    requires r.Valid()
    ensures RowMeasure(r, y, x + 1).area == RowMeasure(r, y, x).area + PixelMeasure(r, x, y).area
    ensures RowMeasure(r, y, x + 1).perimeter == RowMeasure(r, y, x).perimeter + PixelMeasure(r, x, y).perimeter
  {
  }

  /** The measuring loop: scans rows top to bottom and each row left to right,
      counting foreground pixels and adding up their foreground neighbours.
      It only reads the image. */
  method MeasureRegion(ip: array2<int>) returns (area: nat, perimeter: nat)
    ensures Measurement(area, perimeter) == Measured(Snapshot(ip))
  {
    ghost var r := Snapshot(ip);
    var width, height := ip.Length0, ip.Length1;
    area, perimeter := 0, 0;
    var y := 0;
    while y < height
      invariant 0 <= y <= height
      invariant area == RowsMeasure(r, y).area && perimeter == RowsMeasure(r, y).perimeter
    {
      var x := 0;
      while x < width
        invariant 0 <= x <= width
        invariant area == RowsMeasure(r, y).area + RowMeasure(r, y, x).area
        invariant perimeter == RowsMeasure(r, y).perimeter + RowMeasure(r, y, x).perimeter
      {
        RowStep(r, y, x);
        if ip[x, y] == White {
          area := area + 1;
          var c := CountNeighbours(ip, x, y);
          perimeter := perimeter + c;
        }
        x := x + 1;
      }
      y := y + 1;
    }
  }

  /** A foreground pixel without foreground 4-neighbours adds 1 to the area and nothing to the perimeter. */
  lemma IsolatedPixel(r: Raster, x: int, y: int)
    requires r.Valid() && IsWhite(r, x, y)
    requires !IsWhite(r, x - 1, y) && !IsWhite(r, x + 1, y) && !IsWhite(r, x, y - 1) && !IsWhite(r, x, y + 1)
    ensures PixelMeasure(r, x, y) == Measurement(1, 0)
  {
  }

  lemma {:induction false} RowPerimeterBound(r: Raster, y: int, n: nat)
    requires r.Valid()
    ensures RowMeasure(r, y, n).perimeter <= 4 * RowMeasure(r, y, n).area
  {
    if n > 0 {
      RowPerimeterBound(r, y, n - 1);
    }
  }

  lemma {:induction false} RowsPerimeterBound(r: Raster, m: nat)
    requires r.Valid()
    ensures RowsMeasure(r, m).perimeter <= 4 * RowsMeasure(r, m).area
  {
    if m > 0 {
      RowsPerimeterBound(r, m - 1);
      RowPerimeterBound(r, m - 1, r.width);
    }
  }

  /** Every foreground pixel contributes at most 4 to the perimeter. */
  lemma PerimeterAtMostFourTimesArea(r: Raster)
    requires r.Valid()
    ensures Measured(r).perimeter <= 4 * Measured(r).area
  {
    RowsPerimeterBound(r, r.height);
  }

  /** A raster with no pixel equal to 255 (an empty one included) measures area 0, perimeter 0. */
  lemma AllBackground(r: Raster)
    requires r.Valid()
    requires forall x, y :: 0 <= x < r.width && 0 <= y < r.height ==> r.At(x, y) != White
    ensures Measured(r) == Measurement(0, 0)
  {
    AreaCountsWhitePixels(r);
    assert WhitePixels(r) == {};
    PerimeterAtMostFourTimesArea(r);
  }

  /** The pixels of rows 0..m-1 that hold the foreground value. */
  ghost function WhiteBelow(r: Raster, m: nat): set<(int, int)>
    requires r.Valid()
  {
    set x, y | 0 <= x < r.width && 0 <= y < m && IsWhite(r, x, y) :: (x, y)
  }

  /** The pixels of row y among its first n that hold the foreground value. */
  ghost function WhiteInRow(r: Raster, y: int, n: nat): set<(int, int)>
    requires r.Valid()
  {
    set x | 0 <= x < n && IsWhite(r, x, y) :: (x, y)
  }

  /** Every pixel of the raster that holds the foreground value. */
  ghost function WhitePixels(r: Raster): set<(int, int)>
    requires r.Valid()
  {
    WhiteBelow(r, r.height)
  }

  lemma {:induction false} RowAreaCounts(r: Raster, y: int, n: nat)
    requires r.Valid()
    ensures RowMeasure(r, y, n).area == |WhiteInRow(r, y, n)|
  {
    if n > 0 {
      RowAreaCounts(r, y, n - 1);
      var prev := WhiteInRow(r, y, n - 1);
      assert (n - 1, y) !in prev;
      if IsWhite(r, n - 1, y) {
        assert WhiteInRow(r, y, n) == prev + {(n - 1, y)};
      } else {
        assert WhiteInRow(r, y, n) == prev;
      }
    }
  }

  lemma {:induction false} RowsAreaCounts(r: Raster, m: nat)
    requires r.Valid()
    ensures RowsMeasure(r, m).area == |WhiteBelow(r, m)|
  {
    if m > 0 {
      RowsAreaCounts(r, m - 1);
      RowAreaCounts(r, m - 1, r.width);
      var prev, row := WhiteBelow(r, m - 1), WhiteInRow(r, m - 1, r.width);
      assert WhiteBelow(r, m) == prev + row;
      assert prev * row == {} by {
        forall p | p in row ensures p !in prev {
          assert p.1 == m - 1;
        }
      }
    } else {
      assert WhiteBelow(r, m) == {};
    }
  }

  /** `area` is the number of pixels whose value is exactly 255. */
  lemma AreaCountsWhitePixels(r: Raster)
    requires r.Valid()
    ensures Measured(r).area == |WhitePixels(r)|
  {
    RowsAreaCounts(r, r.height);
  }

  /** Row y's first n pixels add nothing to the perimeter when none of their
      foreground pixels has a foreground 4-neighbour. */
  lemma {:induction false} RowNoAdjacency(r: Raster, y: int, n: nat)
    requires r.Valid()
    requires forall x :: 0 <= x < n && IsWhite(r, x, y) ==> Neighbours(r, x, y) == 0
    ensures RowMeasure(r, y, n).perimeter == 0
  {
    if n > 0 {
      RowNoAdjacency(r, y, n - 1);
    }
  }

  lemma {:induction false} RowsNoAdjacency(r: Raster, m: nat)
    requires r.Valid()
    requires forall x, y :: 0 <= x < r.width && 0 <= y < m && IsWhite(r, x, y) ==> Neighbours(r, x, y) == 0
    ensures RowsMeasure(r, m).perimeter == 0
  {
    if m > 0 {
      RowsNoAdjacency(r, m - 1);
      RowNoAdjacency(r, m - 1, r.width);
    }
  }

  /** No foreground pixel has a foreground neighbour to its right or below it:
      then no two foreground pixels are 4-adjacent and the perimeter is 0. */
  lemma NoAdjacentForeground(r: Raster)
    requires r.Valid()
    requires forall x, y :: IsWhite(r, x, y) ==> !IsWhite(r, x + 1, y) && !IsWhite(r, x, y + 1)
    ensures Measured(r).perimeter == 0
  {
    forall x, y | IsWhite(r, x, y)
      ensures Neighbours(r, x, y) == 0
    {
      assert !IsWhite(r, x - 1, y);
      assert !IsWhite(r, x, y - 1);
    }
    RowsNoAdjacency(r, r.height);
  }

  /** A raster whose only 255 pixel is (x0, y0) measures area 1, perimeter 0. */
  lemma SingleIsolatedPixel(r: Raster, x0: int, y0: int)
    requires r.Valid() && WhitePixels(r) == {(x0, y0)}
    ensures Measured(r) == Measurement(1, 0)
  {
    AreaCountsWhitePixels(r);
    forall x, y | IsWhite(r, x, y)
      ensures x == x0 && y == y0
    {
      assert (x, y) in WhitePixels(r);
    }
    NoAdjacentForeground(r);
  }

  /** A fully white 3 x 3 raster: area 9; the centre adds 4, the edge centres 3
      each and the corners 2 each, so perimeter 24. */
  lemma SolidSquare(r: Raster)
    requires r.Valid() && r.width == 3 && r.height == 3
    requires forall x, y :: 0 <= x < 3 && 0 <= y < 3 ==> r.At(x, y) == White
    ensures Measured(r) == Measurement(9, 24)
  {
    assert forall x, y :: IsWhite(r, x, y) <==> 0 <= x < 3 && 0 <= y < 3;
    forall y | 0 <= y < 3
      ensures RowMeasure(r, y, 3) == if y == 1 then Measurement(3, 10) else Measurement(3, 7)
    {
      assert PixelMeasure(r, 0, y) == Measurement(1, if y == 1 then 3 else 2);
      assert PixelMeasure(r, 1, y) == Measurement(1, if y == 1 then 4 else 3);
      assert PixelMeasure(r, 2, y) == Measurement(1, if y == 1 then 3 else 2);
      assert RowMeasure(r, y, 1) == PixelMeasure(r, 0, y);
    }
    assert RowsMeasure(r, 1) == Measurement(3, 7);
    assert RowsMeasure(r, 2) == Measurement(6, 17);
  }

  /** Two foreground pixels on a diagonal are not 4-adjacent: [[255, 0], [0, 255]]
      measures area 2, perimeter 0. */
  lemma DiagonalPair(r: Raster)
    requires r.Valid() && r.width == 2 && r.height == 2
    requires r.At(0, 0) == White && r.At(1, 1) == White && r.At(1, 0) != White && r.At(0, 1) != White
    ensures Measured(r) == Measurement(2, 0)
  {
    assert RowMeasure(r, 0, 2) == Measurement(1, 0) by {
      assert IsWhite(r, 0, 0) && !IsWhite(r, 1, 0) && !IsWhite(r, 0, 1);
      assert PixelMeasure(r, 0, 0) == Measurement(1, 0);
      assert PixelMeasure(r, 1, 0) == Measurement(0, 0);
      assert RowMeasure(r, 0, 1) == Measurement(1, 0);
    }
    assert RowMeasure(r, 1, 2) == Measurement(1, 0) by {
      assert IsWhite(r, 1, 1) && !IsWhite(r, 1, 0) && !IsWhite(r, 0, 1);
      assert PixelMeasure(r, 0, 1) == Measurement(0, 0);
      assert PixelMeasure(r, 1, 1) == Measurement(1, 0);
      assert RowMeasure(r, 1, 1) == Measurement(0, 0);
    }
    assert RowsMeasure(r, 1) == Measurement(1, 0);
  }
}
