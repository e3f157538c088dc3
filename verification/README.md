# Watershed correction: difference and area/perimeter routines

A Dafny model of the two raster routines in the ImageJ plugin
`watershed_correction_`:

- **Difference computation.** The plugin takes two images. It rejects them
  unless both are 16-bit grayscale (`GRAY16`). It then rejects them unless their
  width and height agree. Otherwise it allocates a fresh width x height 16-bit
  buffer and fills it, row by row, with the absolute difference of the two
  images at each pixel.
- **Area / "perimeter" estimator.** On a third image, a pixel is foreground
  when its value is exactly 255. `area` counts the foreground pixels.
  `perimeter` adds, for each foreground pixel, the number of its in-bounds
  4-neighbours (left, right, up, down) that are foreground too. The helper
  `countNeighbors` counts those neighbours. Out-of-bounds neighbours are
  skipped, not wrapped.

An image's pixels are an `array2<int>` indexed `img[x, y]`, like ImageJ's
`getPixel(x, y)`. `Length0` is the width and `Length1` the height. The
routines are methods with loops over these arrays. Each method is proved
against a specification function on a `Raster` value. `Rasters.Snapshot`
turns an array into that value. The estimator never writes to its image:
`MeasureRegion` and `CountNeighbours` have no `modifies` clause.

The "perimeter" keeps the source's behaviour: it is not a boundary length.
`Adjacency.PerimeterCountsAdjacentPairs` proves what it really is. It equals
twice the number of 4-adjacent foreground pairs, so it is always even. It grows
with interior adjacency: a solid 3 x 3 block scores 24.

Files:
- `rasters.dfy` (module `Rasters`): the raster value, `Snapshot`, the 16-bit range.
- `difference.dfy` (module `Difference`): the difference step and its properties.
- `measure.dfy` (module `Measure`): `countNeighbors`, the measuring loop and their properties.
- `adjacency.dfy` (module `Adjacency`): "perimeter" as a count of adjacent pairs.

Two choices follow the plugin's code:
- The foreground value is the constant 255 (`Measure.White`), as the code has
  it. It is not a parameter.
- The sample-depth guard tests the image type tag (`ImagePlus.getType() ==
  GRAY16`). It does not inspect the samples. The model takes the type tag as
  an input. A `GRAY16` image's samples are 0..65535, which is how ImageJ stores
  them, so `ComputeDifference` requires that of the `GRAY16` images it gets.

## Model

| member | source | states |
|---|---|---|
| `Difference.ComputeDifference` | watershed_correction_.java:44-71 | Fails with `NotGray16` when either image is not GRAY16. Otherwise fails with `DimensionMismatch` when widths or heights differ. Succeeds exactly when neither applies. On success it returns a fresh array of the inputs' width and height, equal to `AbsDiff` of the two images, with every sample in 0..65535 |
| `Difference.Blank` | watershed_correction_.java:63 | The all-zero width x height raster a fresh 16-bit processor holds. `ComputeDifference` overwrites every pixel of its buffer, so it does not rely on it; it is the all-zero target of `AbsDiffBlankIffEqual` |
| `Difference.AbsDiff` | watershed_correction_.java:66-69 | The difference raster has the inputs' shape, and its sample at (x, y) is abs(a(x, y) - b(x, y)) |
| `Difference.AbsDiffSymmetric` | watershed_correction_.java:68 | Swapping the two inputs gives the same difference raster |
| `Difference.AbsDiffBlankIffEqual` | watershed_correction_.java:66-69 | The difference is all zeros if and only if the two rasters are equal |
| `Difference.AbsDiffHolds16Bit` | watershed_correction_.java:45-68 | When both inputs hold 16-bit samples, every difference sample lies in 0..65535 |
| `Difference.AbsDiffExample` | watershed_correction_.java:66-71 | [[10,20],[30,40]] and [[10,25],[20,50]] give [[0,5],[10,10]] |
| `Measure.Neighbours` | watershed_correction_.java:128-139 | The in-bounds foreground 4-neighbour count is at most 4. It is 0 exactly when none of left, right, up and down is an in-bounds 255 pixel |
| `Measure.WhiteAtAllOffsets` | watershed_correction_.java:130-137 | Walking the offset table (-1,0), (1,0), (0,-1), (0,1) counts the same neighbours as `Neighbours` |
| `Measure.CountNeighbours` | watershed_correction_.java:128-139 | `countNeighbors` returns `Neighbours` of the image at (x, y). Only neighbours inside [0,W) x [0,H) that hold 255 count. It reads the image and changes nothing |
| `Measure.MeasureRegion` | watershed_correction_.java:95-113 | The row-by-row scan returns exactly `Measured` of the image: area and perimeter. It reads the image and changes nothing |
| `Measure.AreaCountsWhitePixels` | watershed_correction_.java:106-109 | `area` equals the number of pixels whose value is exactly 255 |
| `Measure.PerimeterAtMostFourTimesArea` | watershed_correction_.java:106-113 | perimeter <= 4 * area |
| `Measure.IsolatedPixel` | watershed_correction_.java:108-110 | A 255 pixel with no in-bounds 255 4-neighbour adds 1 to area and 0 to perimeter |
| `Measure.NoAdjacentForeground` | watershed_correction_.java:106-113 | When no 255 pixel has a 255 neighbour to its right or below it, so no two 255 pixels are 4-adjacent, the perimeter is 0 |
| `Measure.SingleIsolatedPixel` | watershed_correction_.java:99-113 | A raster whose only 255 pixel is (x0, y0) measures area 1 and perimeter 0 |
| `Measure.AllBackground` | watershed_correction_.java:99-113 | A raster with no 255 pixel measures area 0 and perimeter 0. This includes an empty raster |
| `Measure.SolidSquare` | watershed_correction_.java:106-113 | An all-255 3 x 3 raster measures area 9 and perimeter 24 |
| `Measure.DiagonalPair` | watershed_correction_.java:106-113 | A 2 x 2 raster whose only 255 pixels are (0,0) and (1,1) measures area 2 and perimeter 0 |
| `Adjacency.PerimeterCountsAdjacentPairs` | watershed_correction_.java:108-134 | perimeter = 2 * (horizontal + vertical 4-adjacent foreground pairs), so the perimeter is even |

## Left out

- Choosing the images is not modelled. This covers window enumeration (`WindowManager.getIDList`, `getImage`), the "at least two images" check, the selection dialogs and the null check on the third image. It is GUI state; the routines receive their arrays as parameters.
- Messages and display are not modelled. This covers `IJ.showMessage` / `IJ.error`, creating and showing the difference `ImagePlus`, the `ResultsTable`, and `showAbout`. The two guards become the `DiffError` results instead of dialogs.
- ImageJ's pixel access for the various processor types is not modelled. This covers `getPixel` on byte, float and packed-RGB processors for the third image, and the rounding and clamping of `putPixelValue`. A raster is a plain integer grid. The clamp cannot change a difference of two 16-bit samples, which already lies in 0..65535.
- In the plugin the measuring step runs only after the difference step has succeeded: the early `return`s after the two guards skip it. The model states the two routines independently and does not model that ordering.
- `area` and `perimeter` are `double` in the source. The model uses `nat`: they only ever grow by small integers and stay exact.
- Java's 32-bit `int` arithmetic is not modelled. Samples and coordinates stay far from overflow.

