/** What the plugin's "perimeter" measures: every pair of 4-adjacent
    foreground pixels is counted twice, once from each side. So the value
    grows with the number of interior adjacencies, not with boundary length,
    and it is always even. */
module Adjacency {
  import opened Rasters
  import opened Measure

  /** 1 when (x, y) and (x + dx, y + dy) both hold the foreground value. */
  function Link(r: Raster, x: int, y: int, dx: int, dy: int): nat
    requires r.Valid()
  {
    Ind(IsWhite(r, x, y) && IsWhite(r, x + dx, y + dy))
  }

  /** Links in direction (dx, dy) from the first n pixels of row y. */
  function RowLinks(r: Raster, y: int, n: nat, dx: int, dy: int): nat
    requires r.Valid()
  {
    if n == 0 then 0 else RowLinks(r, y, n - 1, dx, dy) + Link(r, n - 1, y, dx, dy)
  }

  /** Links in direction (dx, dy) from the pixels of the first m rows. */
  function Links(r: Raster, m: nat, dx: int, dy: int): nat
    requires r.Valid()
  {
    if m == 0 then 0 else Links(r, m - 1, dx, dy) + RowLinks(r, m - 1, r.width, dx, dy)
  }

  /** The number of foreground pixels whose right-hand neighbour is foreground too. */
  function HorizontalPairs(r: Raster): nat
    requires r.Valid()
  {
    Links(r, r.height, 1, 0)
  }

  /** The number of foreground pixels whose neighbour below is foreground too. */
  function VerticalPairs(r: Raster): nat
    requires r.Valid()
  {
    Links(r, r.height, 0, 1)
  }

  lemma {:induction false} RowPerimeterSplits(r: Raster, y: int, n: nat)
    requires r.Valid()
    ensures RowMeasure(r, y, n).perimeter ==
      RowLinks(r, y, n, -1, 0) + RowLinks(r, y, n, 1, 0) + RowLinks(r, y, n, 0, -1) + RowLinks(r, y, n, 0, 1)
  {
    if n > 0 {
      RowPerimeterSplits(r, y, n - 1);
    }
  }

  lemma {:induction false} PerimeterSplits(r: Raster, m: nat)
    requires r.Valid()
    ensures RowsMeasure(r, m).perimeter ==
      Links(r, m, -1, 0) + Links(r, m, 1, 0) + Links(r, m, 0, -1) + Links(r, m, 0, 1)
  {
    if m > 0 {
      PerimeterSplits(r, m - 1);
      RowPerimeterSplits(r, m - 1, r.width);
    }
  }

  /** A row outside the raster, or whose partner row is outside it, has no links. */
  lemma {:induction false} RowLinksOutside(r: Raster, y: int, n: nat, dx: int, dy: int)
    requires r.Valid()
    requires !(0 <= y < r.height && 0 <= y + dy < r.height)
    ensures RowLinks(r, y, n, dx, dy) == 0
  {
    if n > 0 {
      RowLinksOutside(r, y, n - 1, dx, dy);
    }
  }

  /** Looking left from pixels 0..n is looking right from pixels 0..n-1. */
  lemma {:induction false} LeftMirrorsRight(r: Raster, y: int, n: nat)
    requires r.Valid()
    ensures RowLinks(r, y, n + 1, -1, 0) == RowLinks(r, y, n, 1, 0)
  {
    if n > 0 {
      LeftMirrorsRight(r, y, n - 1);
      assert Link(r, n, y, -1, 0) == Link(r, n - 1, y, 1, 0);
    }
  }

  lemma {:induction false} LeftEqualsRight(r: Raster, m: nat)
    requires r.Valid()
    ensures Links(r, m, -1, 0) == Links(r, m, 1, 0)
  {
    if m > 0 {
      LeftEqualsRight(r, m - 1);
      var y, w := m - 1, r.width;
      if w > 0 {
        LeftMirrorsRight(r, y, w - 1);
        assert Link(r, w - 1, y, 1, 0) == 0;
      }
    }
  }

  /** Looking up from row y is looking down from row y - 1. */
  lemma {:induction false} UpMirrorsDownRow(r: Raster, y: int, n: nat)
    requires r.Valid()
    ensures RowLinks(r, y, n, 0, -1) == RowLinks(r, y - 1, n, 0, 1)
  {
    if n > 0 {
      UpMirrorsDownRow(r, y, n - 1);
      assert Link(r, n - 1, y, 0, -1) == Link(r, n - 1, y - 1, 0, 1);
    }
  }

  lemma {:induction false} UpMirrorsDown(r: Raster, m: nat)
    requires r.Valid()
    ensures Links(r, m + 1, 0, -1) == Links(r, m, 0, 1)
  {
    UpMirrorsDownRow(r, m, r.width);
    if m == 0 {
      RowLinksOutside(r, -1, r.width, 0, 1);
    } else {
      UpMirrorsDown(r, m - 1);
    }
  }

  lemma UpEqualsDown(r: Raster)
    requires r.Valid()
    ensures Links(r, r.height, 0, -1) == Links(r, r.height, 0, 1)
  {
    var h := r.height;
    if h > 0 {
      UpMirrorsDown(r, h - 1);
      RowLinksOutside(r, h - 1, r.width, 0, 1);
    }
  }

  /** The "perimeter" is twice the number of 4-adjacent foreground pairs, so it is even. */
  lemma PerimeterCountsAdjacentPairs(r: Raster)
    requires r.Valid()
    ensures Measured(r).perimeter == 2 * (HorizontalPairs(r) + VerticalPairs(r))
    ensures Measured(r).perimeter % 2 == 0
  {
    PerimeterSplits(r, r.height);
    LeftEqualsRight(r, r.height);
    UpEqualsDown(r);
  }
}
