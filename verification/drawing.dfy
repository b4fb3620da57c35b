/**
 * The annotations drawn into the frame while the regions are sampled: after region k
 * is cut out, its outline (thickness 4) and its number are painted green into the same
 * image, so later regions are cut from the annotated image. Which pixels OpenCV's
 * rasteriser paints is left abstract as `Ink`.
 */
module Drawing {
  import opened Colors
  import Roi

  /** The drawing colour (0, 255, 0), in blue-green-red order. */
  const Green := Pixel(0, 255, 0)

  /** `ink(k, x, y)`: drawing region k's outline and number paints pixel (x, y). */
  type Ink = (nat, int, int) -> bool

  /** The frame with every pixel that `painted` selects set to green. */
  function Paint(f: Roi.Frame, painted: (int, int) -> bool): (g: Roi.Frame)
    requires Roi.WellFormed(f)
    ensures Roi.WellFormed(g) && g.width == f.width && g.height == f.height
    ensures forall y, x :: 0 <= y < f.height && 0 <= x < f.width ==>
      g.rows[y][x] == if painted(x, y) then Green else f.rows[y][x]
  {
    Roi.Frame(f.width, f.height,
      seq(f.height, y requires 0 <= y < f.height =>
        seq(f.width, x requires 0 <= x < f.width && x < |f.rows[y]| =>
          if painted(x, y) then Green else f.rows[y][x])))
  }

  /** The image region `i` is cut from: regions 0 .. i-1 already drawn into it. */
  function Before(f: Roi.Frame, i: nat, ink: Ink): (g: Roi.Frame)
    requires Roi.WellFormed(f) && i <= 4
    ensures Roi.WellFormed(g) && g.width == f.width && g.height == f.height
    decreases i
  {
    if i == 0 then f else Paint(Before(f, i - 1, ink), (x, y) => ink(i - 1, x, y))
  }

  /** A pixel no earlier drawing touches keeps its camera value. */
  lemma {:induction false} BeforeKeeps(f: Roi.Frame, i: nat, ink: Ink, x: int, y: int)
    requires Roi.WellFormed(f) && i <= 4
    requires 0 <= y < f.height && 0 <= x < f.width
    requires forall k: nat :: k < i ==> !ink(k, x, y)
    ensures Before(f, i, ink).rows[y][x] == f.rows[y][x]
    decreases i
  {
    if i > 0 {
      BeforeKeeps(f, i - 1, ink, x, y);
    }
  }

  /** A pixel an earlier drawing touches is green when the region is cut. */
  lemma {:induction false} BeforePaints(f: Roi.Frame, i: nat, ink: Ink, k: nat, x: int, y: int)
    requires Roi.WellFormed(f) && k < i <= 4
    requires 0 <= y < f.height && 0 <= x < f.width
    requires ink(k, x, y)
    ensures Before(f, i, ink).rows[y][x] == Green
    decreases i
  {
    if k == i - 1 {
      PaintedNow(f, i, ink, x, y);
    } else {
      BeforePaints(f, i - 1, ink, k, x, y);
      StaysGreen(f, i, ink, x, y);
    }
  }

  /** Drawing region i-1 paints its pixels green. */
  lemma PaintedNow(f: Roi.Frame, i: nat, ink: Ink, x: int, y: int)
    requires Roi.WellFormed(f) && 0 < i <= 4
    requires 0 <= y < f.height && 0 <= x < f.width
    requires ink(i - 1, x, y)
    ensures Before(f, i, ink).rows[y][x] == Green
  {
    BeforeAt(f, i, ink, x, y);
  }

  /** A green pixel stays green, whether or not a later drawing paints it again. */
  lemma StaysGreen(f: Roi.Frame, i: nat, ink: Ink, x: int, y: int)
    requires Roi.WellFormed(f) && 0 < i <= 4
    requires 0 <= y < f.height && 0 <= x < f.width
    requires Before(f, i - 1, ink).rows[y][x] == Green
    ensures Before(f, i, ink).rows[y][x] == Green
  {
    BeforeAt(f, i, ink, x, y);
  }

  /** Drawing region i-1 paints a pixel or leaves it as the earlier drawings left it. */
  lemma BeforeAt(f: Roi.Frame, i: nat, ink: Ink, x: int, y: int)
    requires Roi.WellFormed(f) && 0 < i <= 4
    requires 0 <= y < f.height && 0 <= x < f.width
    ensures Before(f, i, ink).rows[y][x] == if ink(i - 1, x, y) then Green else Before(f, i - 1, ink).rows[y][x]
  {
  }

  /** Pixel (x, y) lies in the half-open rectangle. */
  predicate Inside(rc: Roi.Rect, x: int, y: int) {
    rc.x1 <= x < rc.x2 && rc.y1 <= y < rc.y2
  }

  /**
   * A region no earlier drawing reaches is cut from unchanged camera pixels.
   */
  lemma UntouchedRegion(f: Roi.Frame, i: nat, ink: Ink)
    requires Roi.WellFormed(f) && i < 4
    requires forall k: nat, x, y :: k < i && Inside(Roi.Regions(f.width, f.height)[i], x, y) ==> !ink(k, x, y)
    ensures Roi.RegionBlock(Before(f, i, ink), i) == Roi.RegionBlock(f, i)
  {
    var g := Before(f, i, ink);
    var rc := Roi.Regions(f.width, f.height)[i];
    Roi.RegionCovered(f, rc);
    Roi.RegionCovered(g, rc);
    forall y, x | rc.y1 <= y < rc.y2 && rc.x1 <= x < rc.x2
      ensures g.rows[y][x] == f.rows[y][x]
    {
      assert Inside(rc, x, y);
      BeforeKeeps(f, i, ink, x, y);
    }
    Roi.BlockSame(g.rows, f.rows, rc);
  }

  /**
   * The pixels a thickness-4 outline of `rc` can cover: within 2 of one of the lines
   * x = x1, x = x2, y = y1, y = y2 (corners included), inside the outer square.
   */
  predicate OutlineBand(rc: Roi.Rect, x: int, y: int) {
    && rc.x1 - 2 <= x <= rc.x2 + 2 && rc.y1 - 2 <= y <= rc.y2 + 2
    && (x <= rc.x1 + 2 || rc.x2 - 2 <= x || y <= rc.y1 + 2 || rc.y2 - 2 <= y)
  }

  /**
   * The drawing stays in the outline band of its region or above that band, where
   * the number sits (its baseline is five rows above the top edge).
   */
  ghost predicate Confined(width: nat, height: nat, ink: Ink) {
    forall k: nat, x, y :: k < 4 && ink(k, x, y) ==>
      OutlineBand(Roi.Regions(width, height)[k], x, y) || y < Roi.Regions(width, height)[k].y1 - 2
  }

  /**
   * On a frame at least 326 pixels wide and high, no outline or number reaches a region
   * sampled after it, so every region is cut from unchanged camera pixels.
   */
  lemma LargeFrameUntouched(f: Roi.Frame, i: nat, ink: Ink)
    requires Roi.WellFormed(f) && i < 4
    requires f.width >= 326 && f.height >= 326
    requires Confined(f.width, f.height, ink)
    ensures Roi.RegionBlock(Before(f, i, ink), i) == Roi.RegionBlock(f, i)
  {
    forall k: nat, x, y | k < i && Inside(Roi.Regions(f.width, f.height)[i], x, y)
      ensures !ink(k, x, y)
    {
      Apart(f.width, f.height, k, i, x, y);
    }
    UntouchedRegion(f, i, ink);
  }

  /** The geometry behind it: a later region lies clear of an earlier region's band and above-band rows. */
  lemma Apart(width: nat, height: nat, k: nat, i: nat, x: int, y: int)
    requires width >= 326 && height >= 326 && k < i < 4
    requires Inside(Roi.Regions(width, height)[i], x, y)
    ensures !OutlineBand(Roi.Regions(width, height)[k], x, y)
    ensures Roi.Regions(width, height)[k].y1 - 2 <= y
  {
    QuarterGap(width);
    QuarterGap(height);
    Roi.RegionsAroundCenters(width, height, k);
    Roi.RegionsAroundCenters(width, height, i);
    Unclipped(width, height, k);
    Unclipped(width, height, i);
  }

  /** The quarter and three-quarter points of an extent of at least 326 are 163 or more apart. */
  lemma QuarterGap(n: nat)
    requires n >= 326
    ensures (3 * n) / 4 - n / 4 >= 163
    ensures n / 4 >= 81 && (3 * n) / 4 + 80 <= n
  {
  }

  /** On a large frame no region is clipped: it is the full square around its centre. */
  lemma Unclipped(width: nat, height: nat, i: nat)
    requires width >= 326 && height >= 326 && i < 4
    ensures var rc := Roi.Regions(width, height)[i];
      var c := Roi.Centers(width, height)[i];
      rc == Roi.Rect(c.0 - Roi.Half, c.1 - Roi.Half, c.0 + Roi.Half, c.1 + Roi.Half)
  {
    QuarterGap(width);
    QuarterGap(height);
    Roi.InteriorRegionIsFull(width, height, i);
  }

  /**
   * On a 320 x 240 frame the outline of region 0 reaches into region 1: pixel (160, 100)
   * lies in region 1 and in the band around region 0's right edge.
   */
  lemma SmallFrameOverlap()
    ensures Inside(Roi.Regions(320, 240)[1], 160, 100)
    ensures OutlineBand(Roi.Regions(320, 240)[0], 160, 100)
  {
    var cs := Roi.Centers(320, 240);
    assert cs[0] == (80, 60) && cs[1] == (240, 60);
    assert Roi.Regions(320, 240)[0] == Roi.Clamp(80, 60, 320, 240);
    assert Roi.Regions(320, 240)[1] == Roi.Clamp(240, 60, 320, 240);
  }
}
