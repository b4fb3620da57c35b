/**
 * One measurement step over a camera frame: the four regions are sampled, their
 * dominant colours pushed into the smoothing windows, the smoothed colours rendered,
 * and the verdict, message and maximum distance recomputed.
 */
module Pipeline {
  import opened Base
  import opened Colors
  import Roi
  import Extractor
  import Smoothing
  import Hex
  import opened Grouping
  import Status
  import MaxDelta
  import Drawing

  /** The published reading of one region. */
  datatype Box = Box(rgb: Rgb, lab: Lab, hex: string)

  /**
   * The shared measurement state: the four published readings, the four smoothing
   * windows, and the status fields served to the browser.
   */
  datatype State = State(
    boxes: seq<Box>,
    histories: seq<Smoothing.Window>,
    statusMessage: string,
    passFail: string,
    maxDeltaE: real)

  /** The state before any frame: black placeholders, empty windows, "Ready" and "N/A". */
  const Initial: State :=
    State(seq(4, _ => Box(Black, Lab(0.0, 0.0, 0.0), "#000000")), seq(4, _ => []), "Ready", "N/A", 0.0)

  /** The state has one reading and one window per region. */
  predicate Shaped(st: State) {
    |st.boxes| == 4 && |st.histories| == 4
  }

  /** The black placeholders carry the hex rendering of their own colour. */
  lemma InitialIsBlack()
    ensures Shaped(Initial)
    ensures forall i :: 0 <= i < 4 ==> Initial.boxes[i].hex == Hex.RgbToHex(Initial.boxes[i].rgb)
    ensures forall i :: 0 <= i < 4 ==> |Initial.histories[i]| == 0
  {
    Hex.ExampleBlack();
  }

  /**
   * The raw dominant colour of region `i`, cut from the image into which the outlines
   * and numbers of the earlier regions have already been drawn.
   */
  function RawColor(f: Roi.Frame, i: nat, cluster: seq<Pixel> -> Option<Bgr>, ink: Drawing.Ink): Rgb
    requires Roi.WellFormed(f) && i < 4
  {
    Extractor.DominantColor(Roi.RegionBlock(Drawing.Before(f, i, ink), i), cluster)
  }

  /**
   * On a frame at least 326 pixels wide and high, the drawing does not reach any later
   * region, so each raw colour is the dominant colour of the camera's own pixels.
   */
  lemma RawColorOnLargeFrame(f: Roi.Frame, i: nat, cluster: seq<Pixel> -> Option<Bgr>, ink: Drawing.Ink)
    requires Roi.WellFormed(f) && i < 4
    requires f.width >= 326 && f.height >= 326
    requires Drawing.Confined(f.width, f.height, ink)
    ensures RawColor(f, i, cluster, ink) == Extractor.DominantColor(Roi.RegionBlock(f, i), cluster)
  {
    Drawing.LargeFrameUntouched(f, i, ink);
  }

  /** The smoothed reading published for a window. */
  function MakeBox(h: Smoothing.Window, toLab: Rgb -> Lab): (b: Box)
    requires |h| > 0
    ensures b.lab == toLab(b.rgb) && b.hex == Hex.RgbToHex(b.rgb)
  {
    var c := Smoothing.Mean(h);
    Box(c, toLab(c), Hex.RgbToHex(c))
  }

  /** The distance between regions `i` and `j`, computed on their published Lab values. */
  function Distances(boxes: seq<Box>, deltaE: (Lab, Lab) -> real): Dist {
    (i: nat, j: nat) => if i < |boxes| && j < |boxes| then deltaE(boxes[i].lab, boxes[j].lab) else 0.0
  }

  /** The windows after the frame: each window has had its region's raw colour appended. */
  function Record(hs: seq<Smoothing.Window>, f: Roi.Frame, cluster: seq<Pixel> -> Option<Bgr>, ink: Drawing.Ink): (r: seq<Smoothing.Window>)
    requires |hs| == 4 && Roi.WellFormed(f)
    ensures |r| == 4
    ensures forall i :: 0 <= i < 4 ==> Smoothing.Appended(hs[i], r[i], RawColor(f, i, cluster, ink))
  {
    seq(4, i requires 0 <= i < 4 => Smoothing.Push(hs[i], RawColor(f, i, cluster, ink)))
  }

  /** The readings published for four non-empty windows. */
  function Publish(hs: seq<Smoothing.Window>, toLab: Rgb -> Lab): (boxes: seq<Box>)
    requires |hs| == 4
    requires forall i :: 0 <= i < 4 ==> |hs[i]| > 0
    ensures |boxes| == 4
    ensures forall i :: 0 <= i < 4 ==> boxes[i] == MakeBox(hs[i], toLab)
  {
    seq(4, i requires 0 <= i < 4 => MakeBox(hs[i], toLab))
  }

  /**
   * The status fields agree with the readings: "PASS" exactly when all six Lab
   * differences are within the threshold, "FAIL" exactly when all six exceed it,
   * "MIXED" otherwise; the all-match message goes with "PASS" alone, "All Different"
   * with "FAIL", and a MIXED message reads back to the groups formed; both fields
   * are those the grouper's verdict yields; and the maximum is at least every
   * difference and is one of them, or 0.0.
   */
  predicate Assessed(boxes: seq<Box>, deltaE: (Lab, Lab) -> real, message: string, passFail: string, m: real)
    requires |boxes| == 4
  {
    && (passFail == "PASS" <==> forall i, j :: 0 <= i < j < 4 ==> deltaE(boxes[i].lab, boxes[j].lab) <= Threshold)
    && (passFail == "FAIL" <==> forall i, j :: 0 <= i < j < 4 ==> deltaE(boxes[i].lab, boxes[j].lab) > Threshold)
    && (passFail == "PASS" || passFail == "FAIL" || passFail == "MIXED")
    && (message == Status.AllMatch <==> passFail == "PASS")
    && (passFail == "FAIL" ==> message == Status.AllDifferent)
    && m >= 0.0
    && (forall i, j :: 0 <= i < j < 4 ==> deltaE(boxes[i].lab, boxes[j].lab) <= m)
    && (m == 0.0 || exists i, j :: 0 <= i < j < 4 && m == deltaE(boxes[i].lab, boxes[j].lab))
    && (passFail == "MIXED" ==> Status.ParseListing(message) == Status.Groups(Distances(boxes, deltaE)))
    && message == Status.Judge(Distances(boxes, deltaE)).message
    && passFail == Status.VerdictText(Status.Judge(Distances(boxes, deltaE)).verdict)
  }

  /** The grouping and status steps on the four published readings. */
  method Classify(boxes: seq<Box>, deltaE: (Lab, Lab) -> real) returns (message: string, passFail: string)
    requires |boxes| == 4
    ensures passFail == "PASS" <==> forall i, j :: 0 <= i < j < 4 ==> deltaE(boxes[i].lab, boxes[j].lab) <= Threshold
    ensures passFail == "FAIL" <==> forall i, j :: 0 <= i < j < 4 ==> deltaE(boxes[i].lab, boxes[j].lab) > Threshold
    ensures passFail == "PASS" || passFail == "FAIL" || passFail == "MIXED"
    ensures message == Status.AllMatch <==> passFail == "PASS"
    ensures passFail == "FAIL" ==> message == Status.AllDifferent
    ensures passFail == "MIXED" ==> Status.ParseListing(message) == Status.Groups(Distances(boxes, deltaE))
    ensures message == Status.Judge(Distances(boxes, deltaE)).message
    ensures passFail == Status.VerdictText(Status.Judge(Distances(boxes, deltaE)).verdict)
  {
    var report := Status.Judge(Distances(boxes, deltaE));
    ReportFields(boxes, deltaE);
    Status.MixedMessageNamesGroups(Distances(boxes, deltaE));
    message := report.message;
    passFail := Status.VerdictText(report.verdict);
  }

  /** The maximum-distance step on the four published readings. */
  method MaxOfBoxes(boxes: seq<Box>, deltaE: (Lab, Lab) -> real) returns (m: real)
    requires |boxes| == 4
    ensures m >= 0.0
    ensures forall i, j :: 0 <= i < j < 4 ==> deltaE(boxes[i].lab, boxes[j].lab) <= m
    ensures m == 0.0 || exists i, j :: 0 <= i < j < 4 && m == deltaE(boxes[i].lab, boxes[j].lab)
  {
    m := MaxDelta.MaxDeltaE(Distances(boxes, deltaE));
    MaxFields(boxes, deltaE, m);
  }

  /**
   * Processes one frame. `cluster` stands for K-Means, `toLab` for the sRGB to Lab
   * conversion and `deltaE` for the CIEDE2000 distance.
   */
  method ProcessFrame(st: State, f: Roi.Frame, cluster: seq<Pixel> -> Option<Bgr>, ink: Drawing.Ink,
                      toLab: Rgb -> Lab, deltaE: (Lab, Lab) -> real) returns (next: State)
    requires Roi.WellFormed(f) && |st.histories| == 4
    ensures Shaped(next)
    ensures forall i :: 0 <= i < 4 ==> Smoothing.Appended(st.histories[i], next.histories[i], RawColor(f, i, cluster, ink))
    ensures forall i :: 0 <= i < 4 ==> |next.histories[i]| > 0 && next.boxes[i] == MakeBox(next.histories[i], toLab)
    ensures Assessed(next.boxes, deltaE, next.statusMessage, next.passFail, next.maxDeltaE)
  {
    var hs := Record(st.histories, f, cluster, ink);
    var boxes := Publish(hs, toLab);
    var message, passFail, m := Assess(boxes, deltaE);
    next := State(boxes, hs, message, passFail, m);
  }

  /** The status fields computed from the four published readings. */
  method Assess(boxes: seq<Box>, deltaE: (Lab, Lab) -> real) returns (message: string, passFail: string, m: real)
    requires |boxes| == 4
    ensures Assessed(boxes, deltaE, message, passFail, m)
  {
    message, passFail := Classify(boxes, deltaE);
    m := MaxOfBoxes(boxes, deltaE);
  }

  /** The published passFail and message agree with the verdict on the four regions. */
  lemma ReportFields(boxes: seq<Box>, deltaE: (Lab, Lab) -> real)
    requires |boxes| == 4
    ensures Status.VerdictText(Status.Judge(Distances(boxes, deltaE)).verdict) == "PASS" <==>
      forall i, j :: 0 <= i < j < 4 ==> deltaE(boxes[i].lab, boxes[j].lab) <= Threshold
    ensures Status.VerdictText(Status.Judge(Distances(boxes, deltaE)).verdict) == "FAIL" <==>
      forall i, j :: 0 <= i < j < 4 ==> deltaE(boxes[i].lab, boxes[j].lab) > Threshold
    ensures Status.Judge(Distances(boxes, deltaE)).message == Status.AllMatch <==>
      Status.Judge(Distances(boxes, deltaE)).verdict == Status.Pass
  {
    var dist := Distances(boxes, deltaE);
    Status.PassIffAllClose(dist);
    Status.FailIffAllFar(dist);
    AllCloseOnBoxes(boxes, deltaE);
    AllFarOnBoxes(boxes, deltaE);
    MessageNamesPass(dist);
  }

  /** Only the passing verdict carries the all-match message. */
  lemma MessageNamesPass(dist: Dist)
    ensures Status.Judge(dist).message == Status.AllMatch <==> Status.Judge(dist).verdict == Status.Pass
  {
    var r := Status.Judge(dist);
    if r.verdict == Status.Mixed {
      assert r.message[0] == 'S';
    }
  }

  lemma AllCloseOnBoxes(boxes: seq<Box>, deltaE: (Lab, Lab) -> real)
    requires |boxes| == 4
    ensures (forall i, j :: 0 <= i < j < 4 ==> Distances(boxes, deltaE)(i, j) <= Threshold) <==>
      (forall i, j :: 0 <= i < j < 4 ==> deltaE(boxes[i].lab, boxes[j].lab) <= Threshold)
  {
    DistancesOfBoxes(boxes, deltaE);
  }

  lemma AllFarOnBoxes(boxes: seq<Box>, deltaE: (Lab, Lab) -> real)
    requires |boxes| == 4
    ensures (forall i, j :: 0 <= i < j < 4 ==> Distances(boxes, deltaE)(i, j) > Threshold) <==>
      (forall i, j :: 0 <= i < j < 4 ==> deltaE(boxes[i].lab, boxes[j].lab) > Threshold)
  {
    DistancesOfBoxes(boxes, deltaE);
  }

  /** The maximum over the region distances is a maximum over the Lab differences of the boxes. */
  lemma MaxFields(boxes: seq<Box>, deltaE: (Lab, Lab) -> real, m: real)
    requires |boxes| == 4
    requires forall i: nat, j: nat :: i < j < 4 ==> Distances(boxes, deltaE)(i, j) <= m
    requires m == 0.0 || exists i: nat, j: nat :: i < j < 4 && m == Distances(boxes, deltaE)(i, j)
    ensures forall i, j :: 0 <= i < j < 4 ==> deltaE(boxes[i].lab, boxes[j].lab) <= m
    ensures m == 0.0 || exists i, j :: 0 <= i < j < 4 && m == deltaE(boxes[i].lab, boxes[j].lab)
  {
    DistancesOfBoxes(boxes, deltaE);
    forall i, j | 0 <= i < j < 4
      ensures deltaE(boxes[i].lab, boxes[j].lab) <= m
    {
      assert Distances(boxes, deltaE)(i, j) <= m;
    }
    if m != 0.0 {
      var i: nat, j: nat :| i < j < 4 && m == Distances(boxes, deltaE)(i, j);
      assert m == deltaE(boxes[i].lab, boxes[j].lab);
    }
  }

  /** On the four regions, the distance is the colour difference of their Lab values. */
  lemma DistancesOfBoxes(boxes: seq<Box>, deltaE: (Lab, Lab) -> real)
    requires |boxes| == 4
    ensures forall i: nat, j: nat :: i < 4 && j < 4 ==> Distances(boxes, deltaE)(i, j) == deltaE(boxes[i].lab, boxes[j].lab)
  {
  }

  /**
   * One tick of the frame generator: a failed capture (None) leaves the state as it
   * was; otherwise the frame is processed.
   */
  method Step(st: State, frame: Option<Roi.Frame>, cluster: seq<Pixel> -> Option<Bgr>, ink: Drawing.Ink,
              toLab: Rgb -> Lab, deltaE: (Lab, Lab) -> real) returns (next: State)
    requires |st.histories| == 4
    requires frame.Some? ==> Roi.WellFormed(frame.value)
    ensures frame.None? ==> next == st
    ensures frame.Some? ==> Shaped(next)
    ensures frame.Some? ==> forall i :: 0 <= i < 4 ==>
      Smoothing.Appended(st.histories[i], next.histories[i], RawColor(frame.value, i, cluster, ink))
    ensures frame.Some? ==> forall i :: 0 <= i < 4 ==>
      |next.histories[i]| > 0 && next.boxes[i] == MakeBox(next.histories[i], toLab)
    ensures frame.Some? ==> Assessed(next.boxes, deltaE, next.statusMessage, next.passFail, next.maxDeltaE)
  {
    match frame
    case None =>
      next := st;
    case Some(f) =>
      next := ProcessFrame(st, f, cluster, ink, toLab, deltaE);
  }

  /**
   * When every sample in a window is a colour with channels in [0, 255], the published
   * reading is a seven-character "#rrggbb" that reads back to the truncated smoothed channels.
   */
  lemma BoxHexReadsBack(h: Smoothing.Window, toLab: Rgb -> Lab)
    requires |h| > 0
    requires forall i :: 0 <= i < |h| ==> RgbWithin(h[i], 0.0, 255.0)
    ensures RgbWithin(MakeBox(h, toLab).rgb, 0.0, 255.0)
    ensures |MakeBox(h, toLab).hex| == 7
    ensures Hex.ParseColor(MakeBox(h, toLab).hex) ==
      (Trunc(MakeBox(h, toLab).rgb.r), Trunc(MakeBox(h, toLab).rgb.g), Trunc(MakeBox(h, toLab).rgb.b))
  {
    Smoothing.MeanBounds(h);
    Hex.ColorRoundTrip(Smoothing.Mean(h));
  }

  /** Ten frames of an unchanging region colour publish exactly that colour. */
  lemma SteadyRegion(h: Smoothing.Window, c: Rgb, toLab: Rgb -> Lab)
    ensures var h' := Smoothing.PushAll(h, seq(Smoothing.HistoryLen, _ => c));
      |h'| > 0 && MakeBox(h', toLab) == Box(c, toLab(c), Hex.RgbToHex(c))
  {
    Smoothing.Converges(h, c);
  }

  /**
   * When the clustering step only ever returns colours with channels in [0, 255]
   * (cluster centres are means of pixels), every raw region colour has its channels there.
   */
  lemma RawColorInRange(f: Roi.Frame, i: nat, cluster: seq<Pixel> -> Option<Bgr>, ink: Drawing.Ink)
    requires Roi.WellFormed(f) && i < 4
    requires forall ps :: cluster(ps).Some? ==> RgbWithin(ToRgb(cluster(ps).value), 0.0, 255.0)
    ensures RgbWithin(RawColor(f, i, cluster, ink), 0.0, 255.0)
  {
    var ps := Roi.RegionBlock(Drawing.Before(f, i, ink), i);
    if |ps| > 0 && cluster(Extractor.Candidates(ps)).None? {
      Extractor.MeanBounds(Extractor.Candidates(ps));
    }
  }
}
