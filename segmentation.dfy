/** The orchestration in `cropseg`: turning the edge requests into edge
    maps, running the line rasterizer on each, inverting the accumulator
    into the segmentation mask, the minimum-area threshold and the two
    output paths. Every image or geometry algorithm it calls is an input. */
module Segmentation {
  import opened Wrappers
  import opened HoughRaster

  /** `hArray` / `vArray`: a request flag from the caller, or an edge map
      once one has been assigned (Python's `hasattr(x, 'shape')`). */
  datatype Slot<E> = Flag(requested: bool) | Edges(edges: E)

  /** `x is True` on a slot. */
  predicate IsTrue<E>(s: Slot<E>)
  {
    s.Flag? && s.requested
  }

  /** The edge slots after the detector branch: `(hArray, vArray)`. In the
      `'phase'` branch both slots are tested against `hArray`; otherwise
      each requested slot receives the Canny map. */
  function EdgeSlots<E>(edge: string, h: Slot<E>, v: Slot<E>, phase: E, canny: E): (slots: (Slot<E>, Slot<E>))
    ensures edge == "phase" ==> (slots.0.Edges? <==> IsTrue(h) || h.Edges?)
    ensures edge == "phase" ==> (slots.1.Edges? <==> IsTrue(h) || v.Edges?)
    ensures edge != "phase" ==> (slots.0.Edges? <==> IsTrue(h) || h.Edges?)
    ensures edge != "phase" ==> (slots.1.Edges? <==> IsTrue(v) || v.Edges?)
    ensures slots.0.Edges? && !h.Edges? ==> slots.0.edges == (if edge == "phase" then phase else canny)
    ensures slots.1.Edges? && !v.Edges? ==> slots.1.edges == (if edge == "phase" then phase else canny)
    ensures !IsTrue(h) ==> slots.0 == h
    ensures edge == "phase" && IsTrue(h) ==> slots.1 == Edges(phase)
    ensures (if edge == "phase" then !IsTrue(h) else !IsTrue(v)) ==> slots.1 == v
  {
    if edge == "phase" then
      var v' := if IsTrue(h) then Edges(phase) else v;
      var h' := if IsTrue(h) then Edges(phase) else h;
      (h', v')
    else
      var h' := if IsTrue(h) then Edges(canny) else h;
      var v' := if IsTrue(v) then Edges(canny) else v;
      (h', v')
  }

  /** In the `'phase'` branch the vertical slot has no effect when the
      horizontal flag is set: whatever it held, flag or caller's map, both
      slots hold the one phase map. */
  lemma PhaseIgnoresVerticalFlag<E>(v: Slot<E>, phase: E, canny: E)
    ensures EdgeSlots("phase", Flag(true), v, phase, canny) == (Edges(phase), Edges(phase))
  {
  }

  /** In the `'phase'` branch, a vertical request without a horizontal one
      yields no edge map at all, so neither rasterizer call runs. */
  lemma PhaseDropsVerticalRequest<E>(phase: E, canny: E)
    ensures EdgeSlots("phase", Flag(false), Flag(true), phase, canny) == (Flag(false), Flag(true))
  {
  }

  /** In the Canny branch each slot receives an edge map exactly when its
      own flag asked for one, and both receive the same map. */
  lemma CannyHonoursFlags<E>(edge: string, a: bool, b: bool, phase: E, canny: E)
    requires edge != "phase"
    ensures EdgeSlots(edge, Flag(a), Flag(b), phase, canny).0.Edges? == a
    ensures EdgeSlots(edge, Flag(a), Flag(b), phase, canny).1.Edges? == b
    ensures a && b ==> EdgeSlots(edge, Flag(a), Flag(b), phase, canny).0 == EdgeSlots(edge, Flag(a), Flag(b), phase, canny).1
  {
  }

  /** The peaks the two rasterizer calls burn, in order: those of `vArray`
      at `angleV`, then those of `hArray` at `angleD`, each only when the
      slot holds an edge map. */
  function Peaks<E>(slots: (Slot<E>, Slot<E>), angleD: real, angleV: real, hough: (E, real) -> seq<seq<Point>>)
    : (peaks: seq<seq<Point>>)
    ensures |peaks| == (if slots.1.Edges? then |hough(slots.1.edges, angleV)| else 0)
                     + (if slots.0.Edges? then |hough(slots.0.edges, angleD)| else 0)
    ensures slots.1.Edges? ==> peaks[..|hough(slots.1.edges, angleV)|] == hough(slots.1.edges, angleV)
    ensures slots.0.Edges? ==> peaks[|peaks| - |hough(slots.0.edges, angleD)|..] == hough(slots.0.edges, angleD)
  {
    (if slots.1.Edges? then hough(slots.1.edges, angleV) else [])
      + (if slots.0.Edges? then hough(slots.0.edges, angleD) else [])
  }

  /** The Hough peak search, clipping and rounding give only coordinates in
      the image box, whatever edge map and angle they are given. */
  ghost predicate HoughInBox<E(!new)>(hough: (E, real) -> seq<seq<Point>>, width: int, height: int)
  {
    forall e: E, a: real {:trigger hough(e, a)} :: AllInBox(hough(e, a), width, height)
  }

  /** `np.invert(empty)`: a new mask, true exactly where nothing was burned. */
  method Invert(acc: array2<bool>) returns (inv: array2<bool>)
    ensures fresh(inv)
    ensures inv.Length0 == acc.Length0 && inv.Length1 == acc.Length1
    ensures forall r, c :: 0 <= r < inv.Length0 && 0 <= c < inv.Length1 ==> inv[r, c] == !acc[r, c]
  {
    inv := new bool[acc.Length0, acc.Length1];
    forall r, c | 0 <= r < acc.Length0 && 0 <= c < acc.Length1 {
      inv[r, c] := !acc[r, c];
    }
  }

  /** `inv[tempIm == 0] = 0`: no-data pixels are forced out of every segment. */
  method ClearNoData(inv: array2<bool>, band: array2<real>)
    requires inv.Length0 == band.Length0 && inv.Length1 == band.Length1
    modifies inv
    ensures forall r, c :: 0 <= r < inv.Length0 && 0 <= c < inv.Length1 ==>
              inv[r, c] == (old(inv[r, c]) && band[r, c] != 0.0)
  {
    forall r, c | 0 <= r < inv.Length0 && 0 <= c < inv.Length1 && band[r, c] == 0.0 {
      inv[r, c] := false;
    }
  }

  /** `np.round`: the nearest integer, ties going to the even one. */
  function RoundHalfEven(q: real): (n: int)
    ensures q - 0.5 <= n as real <= q + 0.5
    ensures (n as real - q == 0.5 || q - n as real == 0.5) ==> n % 2 == 0
  {
    var f := q.Floor;
    var frac := q - f as real;
    if frac < 0.5 then f
    else if frac > 0.5 then f + 1
    else if f % 2 == 0 then f else f + 1
  }

  /** The minimum object size in pixels for a minimum area in ground units:
      the area over the pixel area, rounded, or 4 when that is not positive. */
  function MinSize(minArea: real, pixelRes: real): (n: int)
    requires pixelRes != 0.0
    ensures n >= 1
    ensures minArea / (pixelRes * pixelRes) <= 0.5 ==> n == 4
    ensures minArea / (pixelRes * pixelRes) > 0.5 ==> n == RoundHalfEven(minArea / (pixelRes * pixelRes))
  {
    var rounded := RoundHalfEven(minArea / (pixelRes * pixelRes));
    if rounded <= 0 then 4 else rounded
  }

  /** Python's `s[:-n]`: all but the last `n` characters, or nothing when
      there are fewer than `n` (and nothing at all for `n` = 0, since
      `s[:-0]` is `s[:0]`). */
  function DropLast(s: string, n: nat): (t: string)
    ensures t <= s
    ensures |t| == if n == 0 || |s| < n then 0 else |s| - n
  {
    if n == 0 || |s| < n then [] else s[..|s| - n]
  }

  /** `outShp[:-3] + "seg.tif"`: the segmentation raster's path. */
  function SegRasterPath(outShp: string): (p: string)
    ensures |p| >= 7 && p[|p| - 7..] == "seg.tif"
    ensures p[..|p| - 7] <= outShp
    ensures |outShp| >= 3 ==> |p| == |outShp| + 4
    ensures |outShp| < 3 ==> p == "seg.tif"
  {
    DropLast(outShp, 3) + "seg.tif"
  }

  /** `outShp[:-4] + "_poly.shp"`: the polygon file's path. */
  function PolygonPath(outShp: string): (p: string)
    ensures |p| >= 9 && p[|p| - 9..] == "_poly.shp"
    ensures p[..|p| - 9] <= outShp
    ensures |outShp| >= 4 ==> |p| == |outShp| + 5
    ensures |outShp| < 4 ==> p == "_poly.shp"
  {
    DropLast(outShp, 4) + "_poly.shp"
  }

  /** For a shapefile name `stem.shp` the raster keeps the dot of the
      extension (`stem.seg.tif`) while the polygon file does not
      (`stem_poly.shp`). */
  lemma ShapefileOutputPaths(stem: string)
    ensures SegRasterPath(stem + ".shp") == stem + ".seg.tif"
    ensures PolygonPath(stem + ".shp") == stem + "_poly.shp"
  {
  }

  /** The faults that end a run: `thresh` left as None (cropseg.py:115), a zero
      `ratio` (cropseg.py:115), a peak whose clipped line has fewer than two
      coordinates, and a zero pixel size when `min_area` is given. */
  datatype Fault = MissingThreshold | ZeroRatio | ShortIntersection | ZeroPixelSize

  /** The keyword arguments of `cropseg` that its own logic reads. */
  datatype Options<E> = Options(
    edge: string,
    thresh: Option<real>,
    ratio: real,
    hArray: Slot<E>,
    vArray: Slot<E>,
    minArea: Option<real>)

  /** What the external collaborators give for one image: the two dominant
      angles (`imangle`), the two edge detectors' maps, the Hough peak
      search with clipping and rounding, and the discrete line drawer. */
  datatype Collaborators<!E> = Collaborators(
    angleD: real,
    angleV: real,
    phase: E,
    canny: E,
    hough: (E, real) -> seq<seq<Point>>,
    draw: (Point, Point) -> seq<Point>)

  /** The result of a run: the segmentation mask before small-object
      removal, the minimum size that removal is given (None when no
      `min_area`), and the two output paths. */
  datatype Segmented = Segmented(mask: array2<bool>, minSize: Option<int>, rasterPath: string, polygonPath: string)

  /** The peaks of both rasterizer calls for these options. */
  function RunPeaks<E>(opts: Options<E>, ext: Collaborators<E>): seq<seq<Point>>
  {
    Peaks(EdgeSlots(opts.edge, opts.hArray, opts.vArray, ext.phase, ext.canny), ext.angleD, ext.angleV, ext.hough)
  }

  /** The fault a run ends with, if any, in the order the source meets them. */
  function RunFault<E>(opts: Options<E>, ext: Collaborators<E>, pixelRes: real): Option<Fault>
  {
    if opts.thresh.None? then Some(MissingThreshold)
    else if opts.ratio == 0.0 then Some(ZeroRatio)
    else if FirstShortPeak(RunPeaks(opts, ext)).Some? then Some(ShortIntersection)
    else if opts.minArea.Some? && pixelRes == 0.0 then Some(ZeroPixelSize)
    else None
  }

  /** cropseg.py:147-150: run the rasterizer on `vArray` at `angleV`, then on
      `hArray` at `angleD`, each only when the slot holds an edge map, into
      the one accumulator. Returns whether a short intersection stopped it. */
  method RasterizeSlots<E(!new)>(acc: array2<bool>, hArray: Slot<E>, vArray: Slot<E>, ext: Collaborators<E>)
    returns (failed: bool)
    requires 0 < acc.Length0 && 0 < acc.Length1
    requires HoughInBox(ext.hough, acc.Length1, acc.Length0)
    requires DrawsBetween(ext.draw)
    modifies acc
    ensures failed == FirstShortPeak(Peaks((hArray, vArray), ext.angleD, ext.angleV, ext.hough)).Some?
    ensures !failed ==> forall r, c :: 0 <= r < acc.Length0 && 0 <= c < acc.Length1 ==>
              acc[r, c] == (old(acc[r, c])
                || (r, c) in Burned(Peaks((hArray, vArray), ext.angleD, ext.angleV, ext.hough), acc.Length1, acc.Length0, ext.draw))
  {
    var height, width := acc.Length0, acc.Length1;
    var vPeaks := if vArray.Edges? then ext.hough(vArray.edges, ext.angleV) else [];
    var hPeaks := if hArray.Edges? then ext.hough(hArray.edges, ext.angleD) else [];
    assert Peaks((hArray, vArray), ext.angleD, ext.angleV, ext.hough) == vPeaks + hPeaks;
    FirstShortPeakAppend(vPeaks, hPeaks);
    BurnedAppend(vPeaks, hPeaks, width, height, ext.draw);
    failed := false;
    if vArray.Edges? {
      var failedPeak := StdHuff(acc, vPeaks, ext.draw);
      if failedPeak.Some? {
        return true;
      }
    }
    assert Completed(vPeaks) == vPeaks;
    if hArray.Edges? {
      var failedPeak := StdHuff(acc, hPeaks, ext.draw);
      if failedPeak.Some? {
        return true;
      }
    }
    assert Completed(hPeaks) == hPeaks;
  }

  /** `cropseg` on the band `tempIm` of a raster with pixel size
      `pixelRes`: allocate the all-false accumulator, assign the edge
      slots, rasterize `vArray` at `angleV` then `hArray` at `angleD` into
      the one accumulator, invert it, clear the no-data pixels, derive the
      minimum size and the output paths. */
  method CropSeg<E(!new)>(band: array2<real>, pixelRes: real, outShp: string, opts: Options<E>, ext: Collaborators<E>)
    returns (r: Result<Segmented, Fault>)
    requires 0 < band.Length0 && 0 < band.Length1
    requires HoughInBox(ext.hough, band.Length1, band.Length0)
    requires DrawsBetween(ext.draw)
    ensures r.Failure? <==> RunFault(opts, ext, pixelRes).Some?
    ensures r.Failure? ==> Some(r.error) == RunFault(opts, ext, pixelRes)
    ensures r.Success? ==>
      var out := r.value;
      && fresh(out.mask)
      && out.mask.Length0 == band.Length0 && out.mask.Length1 == band.Length1
      && (forall row, col :: 0 <= row < band.Length0 && 0 <= col < band.Length1 ==>
            out.mask[row, col] == (band[row, col] != 0.0
              && (row, col) !in Burned(RunPeaks(opts, ext), band.Length1, band.Length0, ext.draw)))
      && out.minSize == (if opts.minArea.Some? then Some(MinSize(opts.minArea.value, pixelRes)) else None)
      && out.rasterPath == SegRasterPath(outShp)
      && out.polygonPath == PolygonPath(outShp)
  {
    var height, width := band.Length0, band.Length1;
    var empty := new bool[height, width]((_, _) => false);
    if opts.thresh.None? {
      return Failure(MissingThreshold);
    }
    if opts.ratio == 0.0 {
      return Failure(ZeroRatio);
    }
    var slots := EdgeSlots(opts.edge, opts.hArray, opts.vArray, ext.phase, ext.canny);
    var failed := RasterizeSlots(empty, slots.0, slots.1, ext);
    if failed {
      return Failure(ShortIntersection);
    }
    var inv := Invert(empty);
    ClearNoData(inv, band);
    var minSize := None;
    if opts.minArea.Some? {
      if pixelRes == 0.0 {
        return Failure(ZeroPixelSize);
      }
      minSize := Some(MinSize(opts.minArea.value, pixelRes));
    }
    r := Success(Segmented(inv, minSize, SegRasterPath(outShp), PolygonPath(outShp)));
  }
}
