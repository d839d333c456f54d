/**
 * The backend's per-frame plate search and its video loop: contours are
 * admitted as plate locations by size, shape and edge-density tests, each
 * location is read by OCR and kept when the reading has six characters, and
 * the readings of all processed frames are accumulated.
 */
module BackendWrapper {
  import opened Vision
  import opened Lists

  /** `MIN_AREA`. */
  const MinArea: real := 500.0
  /** The length a reading must have to count as a plate. */
  const PlateLength: nat := 6

  /** The tests a contour passes to become a location: area at least
      `MIN_AREA`, a four-vertex polygon, `w >= 1.3 h`, `w > 80`, `h > 20` and a
      strong-edge fraction `count / (w h)` above 0.2. */
  predicate Admitted(r: Region)
  {
    && r.area >= MinArea
    && r.vertices == 4
    && WideEnough(r.box) && r.box.w > 80 && r.box.h > 20
    && 5 * r.strongEdges > r.box.w * r.box.h
  }

  /** The result of `OCR(cropped_image)`: the labels the classifier predicted,
      or an exception. */
  datatype OcrResult = OcrRaised | Labels(labels: seq<string>)

  /** A video frame as the library sees it: whether one of the library
      stages raises on it, its contours and what OCR reads in each crop. */
  datatype Frame = Frame(stagesFail: bool, regions: seq<Region>, ocr: Box -> OcrResult)

  datatype Colour = Black | Green
  /** A rectangle drawn on the frame with `cv2.rectangle`. */
  datatype Outline = Outline(box: Box, colour: Colour)

  /** What `process_frame` returns: `(None, None)`, or the annotated frame
      (its outlines) with the plate strings found. */
  datatype FrameResult = FrameFailed | FrameDone(outlines: seq<Outline>, plates: seq<string>)

  function Locations(regions: seq<Region>): seq<Box>
  {
    Boxes(Select(regions, Admitted))
  }

  /** What one location contributes: its joined reading, if OCR did not
      raise and the reading has six characters. */
  function Reading(ocr: Box -> OcrResult, b: Box): seq<string>
  {
    match ocr(b)
    case OcrRaised => []
    case Labels(ls) => if |Join(ls)| == PlateLength then [Join(ls)] else []
  }

  function Plates(locations: seq<Box>, ocr: Box -> OcrResult): seq<string>
  {
    if locations == [] then []
    else Plates(locations[..|locations| - 1], ocr) + Reading(ocr, locations[|locations| - 1])
  }

  /** Each location is outlined in black before OCR and in green after it. */
  function Outlines(locations: seq<Box>): seq<Outline>
  {
    if locations == [] then []
    else
      var b := locations[|locations| - 1];
      Outlines(locations[..|locations| - 1]) + [Outline(b, Black), Outline(b, Green)]
  }

  function FrameOutcome(f: Frame): FrameResult
  {
    if f.stagesFail then FrameFailed
    else FrameDone(Outlines(Locations(f.regions)), Plates(Locations(f.regions), f.ocr))
  }

  // ----- process_frame -----

  /** The first loop of `process_frame`. */
  method AdmitRegions(regions: seq<Region>) returns (locations: seq<Box>)
    ensures locations == Locations(regions)
  {
    locations := [];
    var i := 0;
    while i < |regions|
      invariant 0 <= i <= |regions|
      invariant locations == Boxes(Select(regions[..i], Admitted))
    {
      assert regions[..i + 1][..i] == regions[..i];
      if Admitted(regions[i]) {
        locations := locations + [regions[i].box];
      }
      i := i + 1;
    }
    assert regions[..i] == regions;
  }

  /** Locations come from admitted contours only, in contour order, and no
      admitted contour is missing: `idx` gives the contour of each location. */
  lemma LocationsInContourOrder(regions: seq<Region>) returns (idx: seq<nat>)
    ensures |idx| == |Locations(regions)|
    ensures forall k :: 0 <= k < |idx| ==>
      idx[k] < |regions| && Admitted(regions[idx[k]]) && Locations(regions)[k] == regions[idx[k]].box
    ensures forall k, l :: 0 <= k < l < |idx| ==> idx[k] < idx[l]
    ensures forall i :: 0 <= i < |regions| && Admitted(regions[i]) ==> i in idx
  {
    idx := SelectIsSubsequence(regions, Admitted);
    SelectMembers(regions, Admitted);
    forall k | 0 <= k < |idx|
      ensures Admitted(regions[idx[k]])
    {
      assert regions[idx[k]] in Select(regions, Admitted);
    }
  }

  /** The second loop of `process_frame`: outline each location, read it,
      keep readings of six characters; a failed reading adds nothing. */
  method ReadLocations(locations: seq<Box>, ocr: Box -> OcrResult) returns (outlines: seq<Outline>, plates: seq<string>)
    ensures outlines == Outlines(locations)
    ensures plates == Plates(locations, ocr)
  {
    outlines, plates := [], [];
    var i := 0;
    while i < |locations|
      invariant 0 <= i <= |locations|
      invariant outlines == Outlines(locations[..i])
      invariant plates == Plates(locations[..i], ocr)
    {
      var b := locations[i];
      assert locations[..i + 1][..i] == locations[..i];
      outlines := outlines + [Outline(b, Black)];
      match ocr(b) {
        case OcrRaised =>
        case Labels(ls) =>
          var reading := Join(ls);
          if |reading| == PlateLength {
            plates := plates + [reading];
          }
      }
      outlines := outlines + [Outline(b, Green)];
      i := i + 1;
    }
    assert locations[..i] == locations;
  }

  /** A location whose OCR yields six one-character labels contributes
      exactly their joined string. */
  lemma SixLabelsRead(ocr: Box -> OcrResult, b: Box)
    requires ocr(b).Labels? && |ocr(b).labels| == PlateLength
    requires forall i :: 0 <= i < |ocr(b).labels| ==> |ocr(b).labels[i]| == 1
    ensures |Join(ocr(b).labels)| == PlateLength
    ensures Reading(ocr, b) == [Join(ocr(b).labels)]
  {
    JoinSingles(ocr(b).labels);
  }

  /** Every kept reading has six characters, and no location gives more than one. */
  lemma {:induction false} PlatesWellFormed(locations: seq<Box>, ocr: Box -> OcrResult)
    ensures |Plates(locations, ocr)| <= |locations|
    ensures forall s :: s in Plates(locations, ocr) ==> |s| == PlateLength
  {
    if locations != [] {
      PlatesWellFormed(locations[..|locations| - 1], ocr);
    }
  }

  /** Readings follow location order: the plates of a split list are the
      plates of its parts, in order. */
  lemma {:induction false} PlatesAppend(a: seq<Box>, b: seq<Box>, ocr: Box -> OcrResult)
    ensures Plates(a + b, ocr) == Plates(a, ocr) + Plates(b, ocr)
    decreases |b|
  {
    if b == [] {
      assert a + b == a;
    } else {
      assert (a + b)[..|a + b| - 1] == a + b[..|b| - 1];
      PlatesAppend(a, b[..|b| - 1], ocr);
    }
  }

  /** An OCR failure at one location neither adds a plate nor stops the
      locations after it from being read. */
  lemma OcrFailureIsLocal(a: seq<Box>, b: Box, c: seq<Box>, ocr: Box -> OcrResult)
    requires ocr(b) == OcrRaised
    ensures Plates(a + [b] + c, ocr) == Plates(a, ocr) + Plates(c, ocr)
  {
    assert Plates([b], ocr) == [] by {
      assert [b][..0] == [];
      assert Reading(ocr, b) == [];
    }
    PlatesAppend(a, [b], ocr);
    PlatesAppend(a + [b], c, ocr);
  }

  /** `process_frame`: `(None, None)` exactly when a library stage raises. */
  method ProcessFrame(f: Frame) returns (r: FrameResult)
    ensures r == FrameOutcome(f)
    ensures r.FrameFailed? <==> f.stagesFail
    ensures r.FrameDone? ==> |r.outlines| == 2 * |Locations(f.regions)|
    ensures r.FrameDone? ==> forall s :: s in r.plates ==> |s| == PlateLength
  {
    if f.stagesFail {
      return FrameFailed;
    }
    var locations := AdmitRegions(f.regions);
    var outlines, plates := ReadLocations(locations, f.ocr);
    OutlinesCount(locations);
    PlatesWellFormed(locations, f.ocr);
    r := FrameDone(outlines, plates);
  }

  lemma {:induction false} OutlinesCount(locations: seq<Box>)
    ensures |Outlines(locations)| == 2 * |locations|
  {
    if locations != [] {
      OutlinesCount(locations[..|locations| - 1]);
    }
  }

  // ----- process_video_stream -----

  datatype StreamOutcome = StreamOutcome(status: StreamStatus, frameCount: nat, combined: seq<string>, shown: seq<seq<Outline>>)

  /** Frame `i` (counted from 0) is one that the loop hands to `process_frame`,
      that is `i % skip == 0`, stated by repeated subtraction. */
  predicate Processed(i: nat, skip: nat)
    requires skip > 0
    decreases i
  {
    if i < skip then i == 0 else Processed(i - skip, skip)
  }

  lemma {:induction false} ProcessedIsMultiple(i: nat, skip: nat)
    requires skip > 0
    ensures Processed(i, skip) <==> i % skip == 0
    decreases i
  {
    if i >= skip {
      ProcessedIsMultiple(i - skip, skip);
      ModStep(i - skip, skip);
    }
  }

  lemma MulAtLeast(m: int, d: int)
    requires m > 0 && d >= 1
    ensures m * d >= m
  {
    assert m * d == m * (d - 1) + m;
    assert m * (d - 1) >= 0;
  }

  /** Euclidean remainders are unique. */
  lemma ModUnique(a: int, m: int, q: int, r: int)
    requires m > 0 && 0 <= r < m && a == m * q + r
    ensures a % m == r
  {
    var q', r' := a / m, a % m;
    assert a == m * q' + r';
    var d := q - q';
    assert m * d == r' - r;
    if d >= 1 {
      MulAtLeast(m, d);
    } else if d <= -1 {
      MulAtLeast(m, -d);
    }
  }

  lemma ModStep(i: int, m: int)
    requires m > 0
    ensures (i + m) % m == i % m
  {
    var q, r := i / m, i % m;
    assert i == m * q + r;
    assert i + m == m * (q + 1) + r;
    ModUnique(i + m, m, q + 1, r);
  }

  /** Frame `i` (counted from 0) of `frames` is processed and `process_frame` returns `(None, None)` on it. */
  ghost predicate Crashes(frames: seq<Frame>, skip: nat, i: nat)
    requires skip > 0 && i < |frames|
  {
    Processed(i, skip) && frames[i].stagesFail
  }

  /** None of the first `n` frames crashes, counted one frame at a time. */
  ghost predicate NoCrashBefore(frames: seq<Frame>, skip: nat, n: nat)
    requires skip > 0 && n <= |frames|
  {
    n == 0 || (NoCrashBefore(frames, skip, n - 1) && !Crashes(frames, skip, n - 1))
  }

  lemma {:induction false} NoCrashBeforeAll(frames: seq<Frame>, skip: nat, n: nat)
    requires skip > 0 && n <= |frames| && NoCrashBefore(frames, skip, n)
    ensures forall i :: 0 <= i < n ==> !Crashes(frames, skip, i)
  {
    if n > 0 {
      NoCrashBeforeAll(frames, skip, n - 1);
    }
  }

  /** The plate strings of the processed frames of `frames`, frame by frame. */
  function Gathered(frames: seq<Frame>, skip: nat): seq<string>
    requires skip > 0
  {
    if frames == [] then []
    else
      var n := |frames| - 1;
      var r := FrameOutcome(frames[n]);
      Gathered(frames[..n], skip) + (if Processed(n, skip) && r.FrameDone? then r.plates else [])
  }

  /** The annotated frames shown, one per processed frame that did not fail. */
  function Shown(frames: seq<Frame>, skip: nat): seq<seq<Outline>>
    requires skip > 0
  {
    if frames == [] then []
    else
      var n := |frames| - 1;
      var r := FrameOutcome(frames[n]);
      Shown(frames[..n], skip) + (if Processed(n, skip) && r.FrameDone? then [r.outlines] else [])
  }

  /** One more frame read extends both accumulations by that frame's share. */
  lemma GatheredStep(frames: seq<Frame>, skip: nat, n: nat)
    requires skip > 0 && n < |frames|
    ensures var r := FrameOutcome(frames[n]);
      && Gathered(frames[..n + 1], skip) == Gathered(frames[..n], skip) + (if Processed(n, skip) && r.FrameDone? then r.plates else [])
      && Shown(frames[..n + 1], skip) == Shown(frames[..n], skip) + (if Processed(n, skip) && r.FrameDone? then [r.outlines] else [])
  {
    assert frames[..n + 1][..n] == frames[..n];
  }

  /** `process_video_stream` as written: a frame on which `process_frame`
      returns `(None, None)` makes `combined_predictions.extend(None)` raise,
      and the outer handler ends the stream with an error status. */
  ghost predicate AsWrittenOutcome(isOpen: bool, frames: seq<Frame>, quit: nat -> bool, skip: nat, o: StreamOutcome)
    requires skip > 0
  {
    if !isOpen then o == StreamOutcome(OpenFailed, 0, [], [])
    else
      && o.frameCount <= |frames|
      && (forall i :: 0 <= i < o.frameCount ==> !Crashes(frames, skip, i))
      && o.combined == Gathered(frames[..o.frameCount], skip)
      && o.shown == Shown(frames[..o.frameCount], skip)
      && (o.status == Complete || o.status == Aborted)
      && (o.status == Complete ==> Halts(frames, quit, o.frameCount))
      && (o.status == Aborted ==>
            && o.frameCount < |frames| && Crashes(frames, skip, o.frameCount)
            && forall i :: 0 <= i < o.frameCount ==> !quit(i))
  }

  /** The evidently intended loop: a failed frame contributes no plates and
      the stream goes on. */
  ghost predicate TolerantOutcome(isOpen: bool, frames: seq<Frame>, quit: nat -> bool, skip: nat, o: StreamOutcome)
    requires skip > 0
  {
    if !isOpen then o == StreamOutcome(OpenFailed, 0, [], [])
    else
      && o.status == Complete
      && Halts(frames, quit, o.frameCount)
      && o.combined == Gathered(frames[..o.frameCount], skip)
      && o.shown == Shown(frames[..o.frameCount], skip)
  }

  /** The body of the capture loop for frame `n`: a processed frame (every
      `skip`-th) goes through `process_frame`; unless that fails, its plates
      and its annotated frame are appended. `failed` tells whether
      `process_frame` returned `(None, None)`. */
  method HandleFrame(frames: seq<Frame>, skip: nat, n: nat, combined: seq<string>, shown: seq<seq<Outline>>)
    returns (failed: bool, combined': seq<string>, shown': seq<seq<Outline>>)
    requires skip > 0 && n < |frames|
    requires combined == Gathered(frames[..n], skip) && shown == Shown(frames[..n], skip)
    ensures failed <==> Crashes(frames, skip, n)
    ensures combined' == Gathered(frames[..n + 1], skip) && shown' == Shown(frames[..n + 1], skip)
  {
    GatheredStep(frames, skip, n);
    ProcessedIsMultiple(n, skip);
    failed, combined', shown' := false, combined, shown;
    if n % skip == 0 {
      var r := ProcessFrame(frames[n]);
      if r.FrameFailed? {
        failed := true;
      } else {
        combined', shown' := combined + r.plates, shown + [r.outlines];
      }
    }
  }

  /** `process_video_stream` as written. `isOpen` is `cap.isOpened()`,
      `frames` the frames `cap.read()` delivers, `quit(i)` whether `q` is
      pressed after frame `i`, `skip` is `skip_frames`. */
  method ProcessVideoStream(isOpen: bool, frames: seq<Frame>, quit: nat -> bool, skip: nat) returns (o: StreamOutcome)
    requires skip > 0
    ensures AsWrittenOutcome(isOpen, frames, quit, skip, o)
  {
    if !isOpen {
      return StreamOutcome(OpenFailed, 0, [], []);
    }
    var frameCount: nat := 0;
    var combined: seq<string> := [];
    var shown: seq<seq<Outline>> := [];
    var quitting, raised := false, false;
    while frameCount < |frames| && !quitting && !raised
      invariant frameCount <= |frames|
      invariant NoCrashBefore(frames, skip, frameCount)
      invariant frameCount == 0 || NoQuitBefore(quit, frameCount - 1)
      invariant quitting <==> frameCount > 0 && quit(frameCount - 1)
      invariant raised ==> !quitting && frameCount < |frames| && Crashes(frames, skip, frameCount)
      invariant combined == Gathered(frames[..frameCount], skip)
      invariant shown == Shown(frames[..frameCount], skip)
      decreases |frames| - frameCount, if raised then 0 else 1
    {
      var failed, combined', shown' := HandleFrame(frames, skip, frameCount, combined, shown);
      if failed {
        // extend(None) raises TypeError
        raised := true;
      } else {
        assert NoCrashBefore(frames, skip, frameCount + 1);
        assert NoQuitBefore(quit, frameCount);
        combined, shown := combined', shown';
        frameCount := frameCount + 1;
        quitting := quit(frameCount - 1);
      }
    }
    if raised {
      o := StreamOutcome(Aborted, frameCount, combined, shown);
      StreamAborts(frames, quit, skip, o);
    } else {
      o := StreamOutcome(Complete, frameCount, combined, shown);
      StreamCompletes(frames, quit, skip, o);
    }
  }

  /** The facts the as-written loop holds when it runs out of frames or the
      user quits establish its outcome. */
  lemma StreamCompletes(frames: seq<Frame>, quit: nat -> bool, skip: nat, o: StreamOutcome)
    requires skip > 0 && o.frameCount <= |frames| && o.status == Complete
    requires NoCrashBefore(frames, skip, o.frameCount)
    requires o.frameCount == 0 || NoQuitBefore(quit, o.frameCount - 1)
    requires o.frameCount == |frames| || (o.frameCount > 0 && quit(o.frameCount - 1))
    requires o.combined == Gathered(frames[..o.frameCount], skip)
    requires o.shown == Shown(frames[..o.frameCount], skip)
    ensures AsWrittenOutcome(true, frames, quit, skip, o)
  {
    assert forall i :: 0 <= i < o.frameCount ==> !Crashes(frames, skip, i) by {
      NoCrashBeforeAll(frames, skip, o.frameCount);
    }
    assert Halts(frames, quit, o.frameCount) by {
      HaltsOnExit(frames, quit, o.frameCount);
    }
  }

  /** The facts the as-written loop holds when a frame raises establish its
      outcome. */
  lemma StreamAborts(frames: seq<Frame>, quit: nat -> bool, skip: nat, o: StreamOutcome)
    requires skip > 0 && o.frameCount < |frames| && o.status == Aborted
    requires NoCrashBefore(frames, skip, o.frameCount) && Crashes(frames, skip, o.frameCount)
    requires o.frameCount == 0 || (NoQuitBefore(quit, o.frameCount - 1) && !quit(o.frameCount - 1))
    requires o.combined == Gathered(frames[..o.frameCount], skip)
    requires o.shown == Shown(frames[..o.frameCount], skip)
    ensures AsWrittenOutcome(true, frames, quit, skip, o)
  {
    assert forall i :: 0 <= i < o.frameCount ==> !Crashes(frames, skip, i) by {
      NoCrashBeforeAll(frames, skip, o.frameCount);
    }
    assert forall i :: 0 <= i < o.frameCount ==> !quit(i) by {
      NoQuitBeforeAll(quit, o.frameCount);
    }
  }

  /** `process_video_stream` with the failed-frame case skipped instead of
      passed to `extend`. */
  method ProcessVideoStreamTolerant(isOpen: bool, frames: seq<Frame>, quit: nat -> bool, skip: nat) returns (o: StreamOutcome)
    requires skip > 0
    ensures TolerantOutcome(isOpen, frames, quit, skip, o)
  {
    if !isOpen {
      return StreamOutcome(OpenFailed, 0, [], []);
    }
    var frameCount: nat := 0;
    var combined: seq<string> := [];
    var shown: seq<seq<Outline>> := [];
    var quitting := false;
    while frameCount < |frames| && !quitting
      invariant frameCount <= |frames|
      invariant frameCount == 0 || NoQuitBefore(quit, frameCount - 1)
      invariant quitting <==> frameCount > 0 && quit(frameCount - 1)
      invariant combined == Gathered(frames[..frameCount], skip)
      invariant shown == Shown(frames[..frameCount], skip)
    {
      var failed;
      failed, combined, shown := HandleFrame(frames, skip, frameCount, combined, shown);
      frameCount := frameCount + 1;
      quitting := quit(frameCount - 1);
    }
    HaltsOnExit(frames, quit, frameCount);
    o := StreamOutcome(Complete, frameCount, combined, shown);
  }

  /** Every accumulated string is a six-character plate reading. */
  lemma {:induction false} GatheredPlatesWellFormed(frames: seq<Frame>, skip: nat)
    requires skip > 0
    ensures forall s :: s in Gathered(frames, skip) ==> |s| == PlateLength
  {
    if frames != [] {
      var n := |frames| - 1;
      GatheredPlatesWellFormed(frames[..n], skip);
      PlatesWellFormed(Locations(frames[n].regions), frames[n].ocr);
    }
  }

  // ----- the failed-frame discrepancy, on a two-frame video -----

  /** A frame on which a library stage raises. */
  function BrokenFrame(): Frame
  {
    Frame(true, [], b => OcrRaised)
  }

  /** A frame with one plate-shaped contour that OCR reads as `1ABC23`. */
  function PlateFrame(): Frame
  {
    Frame(false, [Region(1000.0, 4, Box(10, 10, 100, 30), 1000)], b => Labels(["1", "A", "B", "C", "2", "3"]))
  }

  function NeverQuit(i: nat): bool
  {
    false
  }

  /** The six labels of `PlateFrame` join to `1ABC23`. */
  lemma JoinPlateLabels()
    ensures Join(["1", "A", "B", "C", "2", "3"]) == "1ABC23"
  {
    assert ["1", "A", "B", "C", "2", "3"] == ["1", "A", "B", "C", "2"] + ["3"];
    assert ["1", "A", "B", "C", "2"] == ["1", "A", "B", "C"] + ["2"];
    assert ["1", "A", "B", "C"] == ["1", "A", "B"] + ["C"];
    assert ["1", "A", "B"] == ["1", "A"] + ["B"];
    assert ["1", "A"] == ["1"] + ["A"];
    assert ["1"] == [] + ["1"];
    JoinSnoc([], "1");
    JoinSnoc(["1"], "A");
    JoinSnoc(["1", "A"], "B");
    JoinSnoc(["1", "A", "B"], "C");
    JoinSnoc(["1", "A", "B", "C"], "2");
    JoinSnoc(["1", "A", "B", "C", "2"], "3");
  }

  /** `process_frame` finds the plate of `PlateFrame`. */
  lemma PlateFrameReads()
    ensures FrameOutcome(PlateFrame()).FrameDone?
    ensures FrameOutcome(PlateFrame()).plates == ["1ABC23"]
  {
    var p := PlateFrame();
    var b := Box(10, 10, 100, 30);
    assert Admitted(p.regions[0]);
    assert Select(p.regions, Admitted) == p.regions by {
      assert p.regions[..0] == [];
    }
    assert Locations(p.regions) == [b];
    JoinPlateLabels();
    assert Plates([b], p.ocr) == ["1ABC23"] by {
      assert [b][..0] == [];
    }
  }

  /** The broken first frame contributes no plate. */
  lemma BrokenFrameGathered()
    ensures Gathered([BrokenFrame()], 1) == []
  {
    assert [BrokenFrame()][..0] == [];
  }

  /** What the two-frame video accumulates over its first frame and over both. */
  lemma TwoFrameGathered()
    ensures Gathered([BrokenFrame(), PlateFrame()][..0], 1) == []
    ensures Gathered([BrokenFrame(), PlateFrame()][..2], 1) == ["1ABC23"]
  {
    var frames := [BrokenFrame(), PlateFrame()];
    assert frames[..0] == [];
    assert frames[..2] == frames;
    assert frames[..1] == [BrokenFrame()];
    BrokenFrameGathered();
    PlateFrameReads();
    assert Processed(1, 1) by {
      assert Processed(0, 1);
    }
  }

  /** As written, a failed first frame aborts the stream before the plate in
      the second frame is read; the tolerant loop reads it. */
  lemma FailedFrameAbortsStream(o: StreamOutcome, fixed: StreamOutcome)
    requires AsWrittenOutcome(true, [BrokenFrame(), PlateFrame()], NeverQuit, 1, o)
    requires TolerantOutcome(true, [BrokenFrame(), PlateFrame()], NeverQuit, 1, fixed)
    ensures o.status == Aborted && o.frameCount == 0 && o.combined == []
    ensures fixed.status == Complete && fixed.frameCount == 2 && fixed.combined == ["1ABC23"]
  {
    var frames := [BrokenFrame(), PlateFrame()];
    assert Crashes(frames, 1, 0);
    TwoFrameGathered();
  }
}
