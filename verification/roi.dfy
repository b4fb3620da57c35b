/** The region sampler: four fixed square regions of a frame, clamped to its bounds. */
module Roi {
  import opened Base
  import opened Colors

  /** Side of a sampled square, in pixels. */
  const RoiSize: nat := 160

  /** Half the side, Python's `ROI_SIZE // 2`. */
  const Half: nat := RoiSize / 2

  /** A frame as OpenCV hands it over: `height` rows of `width` pixels each. */
  datatype Frame = Frame(width: nat, height: nat, rows: seq<seq<Pixel>>)

  /** A numpy image is rectangular by construction. */
  predicate WellFormed(f: Frame) {
    |f.rows| == f.height && forall y :: 0 <= y < |f.rows| ==> |f.rows[y]| == f.width
  }

  /** The half-open pixel rectangle [x1, x2) x [y1, y2). */
  datatype Rect = Rect(x1: int, y1: int, x2: int, y2: int)

  /** A centre coordinate `int(extent * fraction)`, the float product taken exactly. */
  function Scaled(extent: nat, fraction: real): int {
    Trunc(extent as real * fraction)
  }

  /** The four centres, top-left, top-right, bottom-left, bottom-right. */
  function Centers(width: nat, height: nat): (cs: seq<(int, int)>)
    ensures |cs| == 4
    ensures cs[0] == (width / 4, height / 4) && cs[1] == ((3 * width) / 4, height / 4)
    ensures cs[2] == (width / 4, (3 * height) / 4) && cs[3] == ((3 * width) / 4, (3 * height) / 4)
  {
    QuarterIsDivision(width);
    QuarterIsDivision(height);
    ThreeQuartersIsDivision(width);
    ThreeQuartersIsDivision(height);
    [ (Scaled(width, 0.25), Scaled(height, 0.25)),
      (Scaled(width, 0.75), Scaled(height, 0.25)),
      (Scaled(width, 0.25), Scaled(height, 0.75)),
      (Scaled(width, 0.75), Scaled(height, 0.75)) ]
  }

  lemma QuarterIsDivision(n: nat)
    ensures Scaled(n, 0.25) == n / 4
  {
    var q := n / 4;
    assert 4 * q <= n < 4 * q + 4;
    assert q as real <= n as real * 0.25 < q as real + 1.0;
  }

  lemma ThreeQuartersIsDivision(n: nat)
    ensures Scaled(n, 0.75) == (3 * n) / 4
  {
    var q := (3 * n) / 4;
    assert 4 * q <= 3 * n < 4 * q + 4;
    assert q as real <= n as real * 0.75 < q as real + 1.0;
  }

  /** `v` lies in the half-open interval [lo, hi). */
  predicate InSpan(v: int, lo: int, hi: int) {
    lo <= v < hi
  }

  /** The square of side `RoiSize` around (cx, cy), clipped to the frame. */
  function Clamp(cx: int, cy: int, width: nat, height: nat): (rc: Rect)
    requires 0 <= cx <= width && 0 <= cy <= height
    ensures 0 <= rc.x1 <= cx <= rc.x2 <= width
    ensures 0 <= rc.y1 <= cy <= rc.y2 <= height
    ensures rc.x2 - rc.x1 <= RoiSize && rc.y2 - rc.y1 <= RoiSize
    ensures forall x :: InSpan(x, rc.x1, rc.x2) <==> InSpan(x, 0, width) && InSpan(x, cx - Half, cx + Half)
    ensures forall y :: InSpan(y, rc.y1, rc.y2) <==> InSpan(y, 0, height) && InSpan(y, cy - Half, cy + Half)
  {
    Rect(Max(0, cx - Half), Max(0, cy - Half), Min(width, cx + Half), Min(height, cy + Half))
  }

  /** The four sampling rectangles of a `width` x `height` frame, in centre order. */
  function Regions(width: nat, height: nat): (rs: seq<Rect>)
    ensures |rs| == 4
    ensures forall i :: 0 <= i < 4 ==>
      && 0 <= rs[i].x1 <= rs[i].x2 <= width && rs[i].x2 - rs[i].x1 <= RoiSize
      && 0 <= rs[i].y1 <= rs[i].y2 <= height && rs[i].y2 - rs[i].y1 <= RoiSize
  {
    var cs := Centers(width, height);
    seq(4, i requires 0 <= i < 4 => Clamp(cs[i].0, cs[i].1, width, height))
  }

  /**
   * Each rectangle contains its centre and is the part of the frame within `Half`
   * of it: the `RoiSize` square around the centre, clipped to the frame.
   */
  lemma RegionsAroundCenters(width: nat, height: nat, i: nat)
    requires i < 4
    ensures var rc := Regions(width, height)[i];
      var c := Centers(width, height)[i];
      && rc.x1 <= c.0 <= rc.x2 && rc.y1 <= c.1 <= rc.y2
      && (forall x :: InSpan(x, rc.x1, rc.x2) <==> InSpan(x, 0, width) && InSpan(x, c.0 - Half, c.0 + Half))
      && (forall y :: InSpan(y, rc.y1, rc.y2) <==> InSpan(y, 0, height) && InSpan(y, c.1 - Half, c.1 + Half))
  {
    var c := Centers(width, height)[i];
    assert Regions(width, height)[i] == Clamp(c.0, c.1, width, height);
  }

  /** A region well inside the frame is the full `RoiSize` square. */
  lemma {:induction false} InteriorRegionIsFull(width: nat, height: nat, i: nat)
    requires i < 4
    requires Half <= Centers(width, height)[i].0 && Centers(width, height)[i].0 + Half <= width
    requires Half <= Centers(width, height)[i].1 && Centers(width, height)[i].1 + Half <= height
    ensures Regions(width, height)[i].x2 - Regions(width, height)[i].x1 == RoiSize
    ensures Regions(width, height)[i].y2 - Regions(width, height)[i].y1 == RoiSize
    ensures var c := Centers(width, height)[i];
      Regions(width, height)[i] == Rect(c.0 - Half, c.1 - Half, c.0 + Half, c.1 + Half)
  {
    var c := Centers(width, height)[i];
    assert Regions(width, height)[i] == Clamp(c.0, c.1, width, height);
  }

  /** Where pixel (x, y) of rectangle `rc` lands in the row-major flattening of its block. */
  function Offset(rc: Rect, y: int, x: int): int {
    (y - rc.y1) * (rc.x2 - rc.x1) + (x - rc.x1)
  }

  /** `rows` covers rectangle `rc`. */
  predicate Covers(rows: seq<seq<Pixel>>, rc: Rect) {
    && 0 <= rc.y1 <= rc.y2 <= |rows| && 0 <= rc.x1 <= rc.x2
    && forall y :: rc.y1 <= y < rc.y2 ==> rc.x2 <= |rows[y]|
  }

  /** The pixels of `rows[y1..y2, x1..x2]`, flattened row by row like `reshape((-1, 3))`. */
  function Block(rows: seq<seq<Pixel>>, rc: Rect): (r: seq<Pixel>)
    requires Covers(rows, rc)
    ensures |r| == (rc.y2 - rc.y1) * (rc.x2 - rc.x1)
    decreases rc.y2 - rc.y1
  {
    if rc.y1 == rc.y2 then []
    else
      var rest := Block(rows, rc.(y1 := rc.y1 + 1));
      var w := rc.x2 - rc.x1;
      assert (rc.y2 - rc.y1) * w == w + (rc.y2 - (rc.y1 + 1)) * w;
      rows[rc.y1][rc.x1..rc.x2] + rest
  }

  /** Every pixel of the rectangle sits at its row-major offset in the block. */
  lemma {:induction false} BlockAt(rows: seq<seq<Pixel>>, rc: Rect, y: int, x: int)
    requires Covers(rows, rc)
    requires rc.y1 <= y < rc.y2 && rc.x1 <= x < rc.x2
    ensures 0 <= Offset(rc, y, x) < |Block(rows, rc)|
    ensures Block(rows, rc)[Offset(rc, y, x)] == rows[y][x]
    decreases rc.y2 - rc.y1
  {
    var w := rc.x2 - rc.x1;
    var next := rc.(y1 := rc.y1 + 1);
    var row := rows[rc.y1][rc.x1..rc.x2];
    assert Block(rows, rc) == row + Block(rows, next);
    if y == rc.y1 {
      assert Offset(rc, y, x) == x - rc.x1;
    } else {
      BlockAt(rows, next, y, x);
      OffsetNext(rc, y, x);
    }
  }

  /** Dropping the top row of a rectangle moves every later pixel one row width closer to the start. */
  lemma OffsetNext(rc: Rect, y: int, x: int)
    ensures Offset(rc, y, x) == (rc.x2 - rc.x1) + Offset(rc.(y1 := rc.y1 + 1), y, x)
  {
    var w := rc.x2 - rc.x1;
    assert (y - rc.y1) * w == w + (y - (rc.y1 + 1)) * w;
  }

  /** Two images that agree on every pixel of a rectangle give the same block for it. */
  lemma {:induction false} BlockSame(a: seq<seq<Pixel>>, b: seq<seq<Pixel>>, rc: Rect)
    requires Covers(a, rc) && Covers(b, rc)
    requires forall y, x :: rc.y1 <= y < rc.y2 && rc.x1 <= x < rc.x2 ==> a[y][x] == b[y][x]
    ensures Block(a, rc) == Block(b, rc)
    decreases rc.y2 - rc.y1
  {
    if rc.y1 < rc.y2 {
      var next := rc.(y1 := rc.y1 + 1);
      BlockSame(a, b, next);
      assert a[rc.y1][rc.x1..rc.x2] == b[rc.y1][rc.x1..rc.x2] by {
        forall t | 0 <= t < rc.x2 - rc.x1
          ensures a[rc.y1][rc.x1..rc.x2][t] == b[rc.y1][rc.x1..rc.x2][t]
        {
          assert a[rc.y1][rc.x1 + t] == b[rc.y1][rc.x1 + t];
        }
      }
    }
  }

  /** The pixel block sampled for region `i`. */
  function RegionBlock(f: Frame, i: nat): (r: seq<Pixel>)
    requires WellFormed(f) && i < 4
    ensures var rc := Regions(f.width, f.height)[i];
      |r| == (rc.y2 - rc.y1) * (rc.x2 - rc.x1) <= RoiSize * RoiSize
  {
    var rc := Regions(f.width, f.height)[i];
    RegionCovered(f, rc);
    MulMono(rc.y2 - rc.y1, rc.x2 - rc.x1, RoiSize);
    Block(f.rows, rc)
  }

  /** A rectangle inside the frame's bounds is covered by its rows. */
  lemma RegionCovered(f: Frame, rc: Rect)
    requires WellFormed(f)
    requires 0 <= rc.x1 <= rc.x2 <= f.width && 0 <= rc.y1 <= rc.y2 <= f.height
    ensures Covers(f.rows, rc)
  {
  }

  lemma MulMono(a: int, b: int, m: nat)
    requires 0 <= a <= m && 0 <= b <= m
    ensures a * b <= m * m
  {
    assert a * b <= a * m;
  }

  /** A frame with no columns or no rows yields empty blocks. */
  lemma EmptyFrameEmptyBlocks(f: Frame, i: nat)
    requires WellFormed(f) && i < 4
    requires f.width == 0 || f.height == 0
    ensures RegionBlock(f, i) == []
  {
  }
}
