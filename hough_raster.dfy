/** The line-burning half of `_std_huff`: each Hough peak's line, already
    clipped to the image box and rounded to whole pixels, has its endpoints
    pulled back inside the image and is then drawn into the shared
    accumulator mask in place. */
module HoughRaster {
  import opened Wrappers

  /** A position in image coordinates: `x` is the column, `y` the row. */
  datatype Point = Point(x: int, y: int)

  /** An accumulator index in numpy's order: (row, column). */
  type Cell = (int, int)

  /** `p` lies in the closed box [0, width] x [0, height] that the line is clipped to. */
  predicate InBox(p: Point, width: int, height: int)
  {
    0 <= p.x <= width && 0 <= p.y <= height
  }

  /** `p` names a pixel of a `height` x `width` image. */
  predicate InImage(p: Point, width: int, height: int)
  {
    0 <= p.x < width && 0 <= p.y < height
  }

  predicate Between(v: int, a: int, b: int)
  {
    (a <= v <= b) || (b <= v <= a)
  }

  /** What the discrete line drawer is relied on for: every pixel it returns
      lies in the rectangle spanned by the two endpoints it was given. */
  ghost predicate DrawsBetween(draw: (Point, Point) -> seq<Point>)
  {
    forall a: Point, b: Point, p: Point {:trigger p in draw(a, b)} ::
      p in draw(a, b) ==> Between(p.x, a.x, b.x) && Between(p.y, a.y, b.y)
  }

  /** Every intersection coordinate of every peak lies in the clipping box. */
  predicate AllInBox(clips: seq<seq<Point>>, width: int, height: int)
  {
    forall i, j :: 0 <= i < |clips| && 0 <= j < |clips[i]| ==> InBox(clips[i][j], width, height)
  }

  /** The clamp applied to a rounded endpoint: a coordinate equal to the
      image width or height is moved back by one, every other is kept. */
  function ClampPoint(p: Point, width: int, height: int): (q: Point)
    ensures p.x == width ==> q.x == width - 1
    ensures p.x != width ==> q.x == p.x
    ensures p.y == height ==> q.y == height - 1
    ensures p.y != height ==> q.y == p.y
    ensures 0 < width && 0 < height && InBox(p, width, height) ==> InImage(q, width, height)
  {
    Point(if p.x == width then width - 1 else p.x, if p.y == height then height - 1 else p.y)
  }

  /** The two clamped endpoints taken from the first two intersection
      coordinates, or None when the intersection has fewer than two
      coordinates (where the source fails reading the coordinates,
      cropseg.py:60-68). */
  function ClampedEndpoints(coords: seq<Point>, width: int, height: int): (e: Option<(Point, Point)>)
    ensures e.None? <==> |coords| < 2
    ensures e.Some? ==> e.value == (ClampPoint(coords[0], width, height), ClampPoint(coords[1], width, height))
    ensures e.Some? && 0 < width && 0 < height && InBox(coords[0], width, height) && InBox(coords[1], width, height)
            ==> InImage(e.value.0, width, height) && InImage(e.value.1, width, height)
  {
    if |coords| < 2 then None
    else Some((ClampPoint(coords[0], width, height), ClampPoint(coords[1], width, height)))
  }

  /** The accumulator cells a drawn line covers. */
  function CellsOf(line: seq<Point>): set<Cell>
  {
    set p | p in line :: (p.y, p.x)
  }

  /** The cells one peak burns, or none when its intersection is short. */
  function PeakCells(coords: seq<Point>, width: int, height: int, draw: (Point, Point) -> seq<Point>): set<Cell>
  {
    match ClampedEndpoints(coords, width, height)
    case None => {}
    case Some(e) => CellsOf(draw(e.0, e.1))
  }

  /** The cells burned by a sequence of peaks, in detection order. */
  function Burned(clips: seq<seq<Point>>, width: int, height: int, draw: (Point, Point) -> seq<Point>): set<Cell>
  {
    if clips == [] then {}
    else Burned(clips[..|clips| - 1], width, height, draw) + PeakCells(clips[|clips| - 1], width, height, draw)
  }

  /** The index of the first peak whose intersection has fewer than two
      coordinates, if any: the peak at which the source raises. */
  function FirstShortPeak(clips: seq<seq<Point>>): (k: Option<nat>)
    ensures k.None? <==> forall i :: 0 <= i < |clips| ==> |clips[i]| >= 2
    ensures k.Some? ==> k.value < |clips| && |clips[k.value]| < 2
    ensures k.Some? ==> forall i :: 0 <= i < k.value ==> |clips[i]| >= 2
  {
    if clips == [] then None
    else if |clips[0]| < 2 then Some(0)
    else match FirstShortPeak(clips[1..])
      case None => None
      case Some(j) => Some(j + 1)
  }

  /** The peaks drawn before the loop ends: all of them, or those before the
      first short intersection. */
  function Completed(clips: seq<seq<Point>>): (done: seq<seq<Point>>)
    ensures done <= clips
    ensures forall i :: 0 <= i < |done| ==> |done[i]| >= 2
    ensures |done| < |clips| <==> exists i :: 0 <= i < |clips| && |clips[i]| < 2
    ensures |done| < |clips| ==> |clips[|done|]| < 2
  {
    match FirstShortPeak(clips)
    case None => clips
    case Some(k) => clips[..k]
  }

  /** Every cell a sequence of in-box peaks burns lies inside the image,
      so the write of each line stays in bounds. */
  lemma {:induction false} BurnedInImage(clips: seq<seq<Point>>, width: int, height: int, draw: (Point, Point) -> seq<Point>)
    requires 0 < width && 0 < height
    requires AllInBox(clips, width, height)
    requires DrawsBetween(draw)
    ensures forall c :: c in Burned(clips, width, height, draw) ==> 0 <= c.0 < height && 0 <= c.1 < width
  {
    if clips != [] {
      var front := clips[..|clips| - 1];
      assert AllInBox(front, width, height) by {
        forall i, j | 0 <= i < |front| && 0 <= j < |front[i]|
          ensures InBox(front[i][j], width, height)
        {
          assert front[i] == clips[i];
        }
      }
      BurnedInImage(front, width, height, draw);
      var last := clips[|clips| - 1];
      match ClampedEndpoints(last, width, height)
      case None =>
      case Some(e) =>
        assert InBox(last[0], width, height) && InBox(last[1], width, height);
        forall c | c in CellsOf(draw(e.0, e.1)) ensures 0 <= c.0 < height && 0 <= c.1 < width {
          var p :| p in draw(e.0, e.1) && c == (p.y, p.x);
        }
    }
  }

  /** Burning two runs of peaks one after the other burns the union of
      their cells: the accumulator only grows. */
  lemma {:induction false} BurnedAppend(a: seq<seq<Point>>, b: seq<seq<Point>>, width: int, height: int, draw: (Point, Point) -> seq<Point>)
    ensures Burned(a + b, width, height, draw) == Burned(a, width, height, draw) + Burned(b, width, height, draw)
  {
    if b == [] {
      assert a + b == a;
    } else {
      var front := b[..|b| - 1];
      assert (a + b)[..|a + b| - 1] == a + front;
      BurnedAppend(a, front, width, height, draw);
    }
  }

  /** A run of peaks followed by another has a short intersection exactly
      when one of the two runs has. */
  lemma {:induction false} FirstShortPeakAppend(a: seq<seq<Point>>, b: seq<seq<Point>>)
    ensures FirstShortPeak(a + b).None? <==> FirstShortPeak(a).None? && FirstShortPeak(b).None?
  {
    if FirstShortPeak(a).Some? {
      var k := FirstShortPeak(a).value;
      assert (a + b)[k] == a[k];
    } else if FirstShortPeak(b).Some? {
      var k := FirstShortPeak(b).value;
      assert (a + b)[|a| + k] == b[k];
    } else {
      forall i | 0 <= i < |a + b| ensures |(a + b)[i]| >= 2 {
        if i < |a| { assert (a + b)[i] == a[i]; } else { assert (a + b)[i] == b[i - |a|]; }
      }
    }
  }

  /** Burned cells grow peak by peak. */
  lemma BurnedSnoc(clips: seq<seq<Point>>, i: nat, width: int, height: int, draw: (Point, Point) -> seq<Point>)
    requires i < |clips|
    ensures Burned(clips[..i + 1], width, height, draw)
            == Burned(clips[..i], width, height, draw) + PeakCells(clips[i], width, height, draw)
  {
    assert clips[..i + 1][..i] == clips[..i];
  }

  /** `outArray[rr, cc] = 1`: every pixel of the drawn line is set, all at once. */
  method BurnLine(acc: array2<bool>, line: seq<Point>)
    requires forall p :: p in line ==> InImage(p, acc.Length1, acc.Length0)
    modifies acc
    ensures forall r, c :: 0 <= r < acc.Length0 && 0 <= c < acc.Length1 ==>
              acc[r, c] == (old(acc[r, c]) || (r, c) in CellsOf(line))
  {
    forall p | p in line {
      acc[p.y, p.x] := true;
    }
  }

  /** One turn of the peak loop of `_std_huff`: read the first two
      intersection coordinates, pull a coordinate equal to the width or
      height back by one, and burn the line between the two endpoints. */
  method BurnPeak(acc: array2<bool>, coord: seq<Point>, draw: (Point, Point) -> seq<Point>)
    requires 0 < acc.Length0 && 0 < acc.Length1
    requires |coord| >= 2
    requires InBox(coord[0], acc.Length1, acc.Length0) && InBox(coord[1], acc.Length1, acc.Length0)
    requires DrawsBetween(draw)
    modifies acc
    ensures forall r, c :: 0 <= r < acc.Length0 && 0 <= c < acc.Length1 ==>
              acc[r, c] == (old(acc[r, c]) || (r, c) in PeakCells(coord, acc.Length1, acc.Length0, draw))
  {
    var height, width := acc.Length0, acc.Length1;
    var x1, y1, x2, y2 := coord[0].x, coord[0].y, coord[1].x, coord[1].y;
    if y1 == height { y1 := height - 1; }
    if y2 == height { y2 := height - 1; }
    if x1 == width { x1 := width - 1; }
    if x2 == width { x2 := width - 1; }
    var line := draw(Point(x1, y1), Point(x2, y2));
    assert ClampedEndpoints(coord, width, height) == Some((Point(x1, y1), Point(x2, y2)));
    assert PeakCells(coord, width, height, draw) == CellsOf(line);
    assert forall p :: p in line ==> InImage(p, width, height);
    BurnLine(acc, line);
  }

  /** The peak loop of `_std_huff`: burn each peak's line into `acc` in
      detection order, stopping at the first peak whose intersection is
      short. Returns how many peaks were drawn. */
  method DrawPeaks(acc: array2<bool>, clips: seq<seq<Point>>, draw: (Point, Point) -> seq<Point>)
    returns (drawn: nat)
    requires 0 < acc.Length0 && 0 < acc.Length1
    requires AllInBox(clips, acc.Length1, acc.Length0)
    requires DrawsBetween(draw)
    modifies acc
    ensures drawn <= |clips|
    ensures forall j :: 0 <= j < drawn ==> |clips[j]| >= 2
    ensures drawn < |clips| ==> |clips[drawn]| < 2
    ensures forall r, c :: 0 <= r < acc.Length0 && 0 <= c < acc.Length1 ==>
              acc[r, c] == (old(acc[r, c]) || (r, c) in Burned(clips[..drawn], acc.Length1, acc.Length0, draw))
  {
    var height, width := acc.Length0, acc.Length1;
    drawn := 0;
    ghost var burned: set<Cell> := {};
    while drawn < |clips| && |clips[drawn]| >= 2
      invariant 0 <= drawn <= |clips|
      invariant forall j :: 0 <= j < drawn ==> |clips[j]| >= 2
      invariant burned == Burned(clips[..drawn], width, height, draw)
      invariant forall r, c :: 0 <= r < height && 0 <= c < width ==>
                  acc[r, c] == (old(acc[r, c]) || (r, c) in burned)
    {
      var coord := clips[drawn];
      assert forall j :: 0 <= j < drawn + 1 ==> |clips[j]| >= 2;
      assert InBox(coord[0], width, height) && InBox(coord[1], width, height);
      ghost var cells := PeakCells(coord, width, height, draw);
      assert Burned(clips[..drawn + 1], width, height, draw) == burned + cells by {
        BurnedSnoc(clips, drawn, width, height, draw);
      }
      BurnPeak(acc, coord, draw);
      burned := burned + cells;
      drawn := drawn + 1;
    }
  }

  /** `_std_huff` on rounded intersection coordinates: the peak loop, and
      the index of the peak whose short intersection raised, if any. The
      lines of the earlier peaks stay burned. */
  method StdHuff(acc: array2<bool>, clips: seq<seq<Point>>, draw: (Point, Point) -> seq<Point>)
    returns (failedPeak: Option<nat>)
    requires 0 < acc.Length0 && 0 < acc.Length1
    requires AllInBox(clips, acc.Length1, acc.Length0)
    requires DrawsBetween(draw)
    modifies acc
    ensures failedPeak == FirstShortPeak(clips)
    ensures forall r, c :: 0 <= r < acc.Length0 && 0 <= c < acc.Length1 ==>
              acc[r, c] == (old(acc[r, c]) || (r, c) in Burned(Completed(clips), acc.Length1, acc.Length0, draw))
    ensures forall r, c :: 0 <= r < acc.Length0 && 0 <= c < acc.Length1 && old(acc[r, c]) ==> acc[r, c]
  {
    var drawn := DrawPeaks(acc, clips, draw);
    if drawn < |clips| {
      assert FirstShortPeak(clips) == Some(drawn);
      failedPeak := Some(drawn);
    } else {
      assert clips[..drawn] == clips;
      failedPeak := None;
    }
    assert Completed(clips) == clips[..drawn];
  }
}
