# cropseg in Dafny

A model of the logic of `cropseg.py` that is the script's own and not a library call. The script
finds field boundaries in a raster band. It runs a Hough transform on one or two edge maps and
burns every detected line into a boolean accumulator mask. It then inverts that mask to get
segment interiors and derives a minimum object size and two output paths.

The model has three modules:

- `Wrappers` (wrappers.dfy): `Option` and `Result`.
- `HoughRaster` (hough_raster.dfy): the peak loop of `_std_huff`.
  - The input for each Hough peak is its clipped, rounded intersection coordinates.
  - Both endpoints are read and any coordinate equal to the width or height is pulled back by one.
  - The line between them is burned into the accumulator, an `array2<bool>` updated in place.
  - A peak whose intersection has fewer than two coordinates stops the loop. The source fails
    there reading the coordinates (cropseg.py:60-68), and the lines already burned stay burned.
  - `Burned` is the set of cells the peaks burn. `FirstShortPeak` is the peak that fails.
  - The lemmas show that every burned cell is inside the image, so the write at cropseg.py:82 is in
    bounds. They also show that burning two runs of peaks burns the union of their cells.
- `Segmentation` (segmentation.dfy): the orchestration in `cropseg`.
  - `Slot` is `Flag(bool) | Edges(map)`, modelling the overloaded `hArray` / `vArray`.
  - `EdgeSlots` is the detector branch, including the `'phase'` quirk: both slots are assigned
    based on `hArray` alone.
  - `RasterizeSlots` runs the rasterizer on `vArray` at `angleV`, then on `hArray` at `angleD`,
    each only when the slot holds an edge map.
  - The mask is post-processed as `np.invert` followed by `inv[tempIm == 0] = 0`.
  - `MinSize` is the minimum-size threshold with `np.round`'s round-half-to-even.
  - `SegRasterPath` and `PolygonPath` build the two output paths by string slicing.
  - `CropSeg` ties these together. It also carries the four faults a run can end with:
    - `thresh` left as `None` (cropseg.py:115);
    - a zero `ratio` (cropseg.py:115);
    - a short intersection (cropseg.py:60-68);
    - a zero pixel size when `min_area` is given (cropseg.py:156).

The external algorithms are inputs, grouped in `Collaborators`:

- `imangle`'s two angles.
- The phase-congruency and Canny edge maps.
- The Hough peak search. This is one function from an edge map and an angle to the rounded
  intersection coordinates of each peak, in detection order. It covers `hough_line`,
  `hough_line_peaks`, the y-intercept trigonometry, the Shapely clip and `np.around`. It is
  required to give coordinates in the closed box [0, width] x [0, height].
- `skimage.draw.line`. It is required to return only pixels in the rectangle spanned by its two
  endpoints (`DrawsBetween`).

The model follows the code:

- A short intersection fails the whole run and is not skipped.
- The clipped coordinates lie in the closed box [0, width] x [0, height].
- A missing `thresh` fails at cropseg.py:115 before any edge detection.

## Model

| member | source | states |
|---|---|---|
| `HoughRaster.ClampPoint` | cropseg.py:70-77 | a coordinate equal to the width (height) becomes width-1 (height-1) and every other coordinate is kept; a point in [0,width]x[0,height] of a non-empty image lands in [0,width-1]x[0,height-1] |
| `HoughRaster.ClampedEndpoints` | cropseg.py:60-77 | no endpoints exactly when the intersection has fewer than two coordinates; otherwise exactly the clamped first two coordinates, which lie in the image when the coordinates lie in the box |
| `HoughRaster.FirstShortPeak` | cropseg.py:51-68 | None exactly when every peak's intersection has at least two coordinates; otherwise the index of the first peak with fewer, all earlier peaks having two or more |
| `HoughRaster.Completed` | cropseg.py:51-68 | the peaks drawn before the loop stops form a prefix of the peaks, all with full intersections, shorter than all peaks exactly when some intersection is short, and then ending just before the first short peak |
| `HoughRaster.BurnedInImage` | cropseg.py:45-82 | every cell burned by in-box peaks, with a line drawer that stays between its endpoints, lies inside the height x width image: the write at cropseg.py:82 is in bounds |
| `HoughRaster.BurnedAppend` | cropseg.py:148-150 | burning two runs of peaks one after another burns the union of their cells, so the accumulator only grows across the two rasterizer calls |
| `HoughRaster.FirstShortPeakAppend` | cropseg.py:147-150 | the two runs together hit a short intersection exactly when one of them does |
| `HoughRaster.BurnLine` | cropseg.py:80-82 | after the write, a cell is set exactly when it was set before or lies on the drawn line; no cell is cleared |
| `HoughRaster.BurnPeak` | cropseg.py:62-82 | one peak sets exactly the cells of the line between its clamped endpoints and changes nothing else |
| `HoughRaster.DrawPeaks` | cropseg.py:51-82 | the loop draws peaks in detection order and stops exactly at the first peak with a short intersection; every drawn peak has two or more coordinates; the accumulator becomes its old value united with the cells of the drawn peaks |
| `HoughRaster.StdHuff` | cropseg.py:51-85 | reports exactly the first short peak; the accumulator becomes its old value united with the cells of the peaks drawn before that one (all peaks when none is short); no set cell is cleared |
| `Segmentation.EdgeSlots` | cropseg.py:117-142 | in the `'phase'` branch each slot holds an edge map exactly when `hArray` is True or it already held one; otherwise each slot holds one exactly when its own flag is True or it already held one; a newly assigned map is the phase map or the Canny map by branch; in the `'phase'` branch with `hArray` True `vArray` becomes the phase map even when it held a map, and in every other case a `vArray` whose own test fails is kept |
| `Segmentation.PhaseIgnoresVerticalFlag` | cropseg.py:124-127 | with `hArray` True the `'phase'` branch gives both slots the phase map whatever `vArray` holds, a flag or a caller's edge map |
| `Segmentation.PhaseDropsVerticalRequest` | cropseg.py:124-127 | with `hArray` False and `vArray` True the `'phase'` branch assigns no edge map, so no line is drawn |
| `Segmentation.CannyHonoursFlags` | cropseg.py:130-142 | outside the `'phase'` branch each flag alone decides whether its slot gets an edge map, and two requested slots get the same map |
| `Segmentation.Peaks` | cropseg.py:147-150 | the burned peaks are those of `vArray` at `angleV` followed by those of `hArray` at `angleD`, each present only when the slot holds an edge map |
| `Segmentation.RasterizeSlots` | cropseg.py:147-150 | fails exactly when a peak of either call has a short intersection; otherwise the accumulator gains exactly the cells of both calls' peaks |
| `Segmentation.Invert` | cropseg.py:153 | a fresh mask of the accumulator's shape, true exactly where the accumulator is false |
| `Segmentation.ClearNoData` | cropseg.py:154 | a pixel stays true exactly when it was true and the band value there is non-zero |
| `Segmentation.RoundHalfEven` | cropseg.py:156 | the result is within one half of the quotient, and is even when the quotient lies halfway between two integers |
| `Segmentation.MinSize` | cropseg.py:155-158 | the threshold is at least 1; it is 4 when area over pixel area is at most one half, and the rounded quotient otherwise |
| `Segmentation.DropLast` | cropseg.py:161 | Python's `s[:-n]` gives a prefix of `s` that is `n` shorter, or empty when `s` is shorter than `n` or `n` is 0 |
| `Segmentation.SegRasterPath` | cropseg.py:161 | the raster path ends in `seg.tif` after a prefix of `outShp` that is 3 characters shorter; it is exactly `seg.tif` when `outShp` has fewer than 3 characters |
| `Segmentation.PolygonPath` | cropseg.py:168 | the polygon path ends in `_poly.shp` after a prefix of `outShp` that is 4 characters shorter; it is exactly `_poly.shp` when `outShp` has fewer than 4 characters |
| `Segmentation.ShapefileOutputPaths` | cropseg.py:161-168 | for `stem.shp` the raster is `stem.seg.tif` and the polygon file is `stem_poly.shp`: the raster keeps the extension's dot |
| `Segmentation.CropSeg` | cropseg.py:87-168 | fails exactly when a fault occurs and then with the first one in source order; otherwise the mask has the band's shape, a pixel is true exactly when the band is non-zero there and no line of either call burned it, the minimum size is given exactly when `min_area` is, and the paths are the two derived ones |

## Left out

- GDAL I/O (cropseg.py:94-107, cropseg.py:164-168): opening the raster, reading the geotransform and band, `array2raster` and `polygonize` are file plumbing. The band and its pixel size are parameters, and the model returns the two paths rather than writing files.
- External image and geometry algorithms are inputs, not code: `imangle`, `mh.bwperim`, `do_phasecong`, `canny`, `hough_line` / `hough_line_peaks`, Shapely `box` / `intersection` and `skimage.draw.line`. Their outputs come with the stated ranges (coordinates in the box; drawn pixels between the endpoints).
- The perimeter zeroing `ph[perim==1]=0` (cropseg.py:122) is part of the phase map input, because `perim` itself comes from `mh.bwperim`.
- `remove_small_objects` (cropseg.py:160) is external. The model returns the mask before removal together with the minimum size that removal is given.
- Floating point is not modelled: the intercept trigonometry (cropseg.py:54), `np.linspace` / `np.deg2rad` angle sampling (cropseg.py:34-35), the low-threshold rounding (cropseg.py:115), the NaN substitution (cropseg.py:132-133) and `np.around` of the coordinates. Reals are exact, so `MinSize` does not model float rounding error in `min_area / pixel_res**2`.
- `sigma`, `n_orient`, `n_scale`, `valrange`, `interval` and `band` only feed the external algorithms. They are folded into the collaborator inputs.
- The geotransform `rgt` is not modelled as a value. Only its pixel size `rgt[1]` (cropseg.py:97-99) is used, as the `pixelRes` parameter of `CropSeg` and `MinSize`. `_std_huff` takes `rgt` but never reads it.
- Edge maps are assumed to have the band's shape. `HoughInBox` clips every map to the band's box, including a map the caller passes as `hArray` / `vArray`. The source clips to the map's own shape (cropseg.py:40, cropseg.py:45). For a caller-supplied map larger than the band, cropseg.py:82 would index outside `empty` and raise. That failure is not modelled, and the in-bounds results of `BurnedInImage` and `StdHuff` depend on this assumption.
- StdHuff: requires a non-empty image, because GDAL rasters always have at least one row and one column. With a zero width the clamp would give -1.
- `tqdm` progress display (cropseg.py:51) is UI only.
- Module setup (cropseg.py:14-27) is not modelled. cropseg.py:27 calls `ogr.UseExceptions()` without importing `ogr`. That stops the script before any modelled logic runs. On NumPy 1.24 to 1.26, `np.bool` does not exist and cropseg.py:104 raises.
