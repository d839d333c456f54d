/**
 * The desktop integration's frame pipeline: contours are visited from the
 * largest area down, those of plate shape and edge density become
 * locations, and one rectangle is drawn per location. A frame on which a
 * library stage raises is dropped, and the video loop hands every frame
 * that was processed without error to `out.write` and shows it.
 */
module IntegrationWrapper {
  import opened Vision
  import opened Lists

  /** The tests a contour passes here: a four-vertex polygon, `w >= 1.3 h`
      and a strong-edge fraction `count / (w h)` above 0.1. The count is an
      input of the model. In the program it counts pixels inside the box, so
      a zero-sized box has count 0: its fraction `0 / 0` (NaN) compares
      false, and `10 * 0 > 0` fails here likewise. */
  predicate Kept(r: Region)
  {
    && r.vertices == 4
    && WideEnough(r.box)
    && 10 * r.strongEdges > r.box.w * r.box.h
  }

  /** `sorted(contours, key=cv2.contourArea, reverse=True)` sorts by the
      negated area; Python's reverse sort is stable too. */
  function AreaKey(r: Region): real
  {
    -r.area
  }

  /** A video frame as the library sees it: whether one of the library
      stages raises on it, and its contours. */
  datatype Frame = Frame(stagesFail: bool, regions: seq<Region>)

  /** The contours that become locations, in the order they are visited. */
  function KeptRegions(regions: seq<Region>): seq<Region>
  {
    Select(SortBy(regions, AreaKey), Kept)
  }

  function Locations(regions: seq<Region>): seq<Box>
  {
    Boxes(KeptRegions(regions))
  }

  /** What `process_frame` returns for `f`: `None`, or the rectangles drawn
      on the cropped frame. */
  function FrameOutcome(f: Frame): Option<seq<Box>>
  {
    if f.stagesFail then None else Some(Locations(f.regions))
  }

  /** `process_frame`: the admission loop over the area-sorted contours, then
      one `cv2.rectangle` per location. */
  method ProcessFrame(f: Frame) returns (r: Option<seq<Box>>)
    ensures r == FrameOutcome(f)
    ensures r == None <==> f.stagesFail
  {
    if f.stagesFail {
      return None;
    }
    var contours := SortBy(f.regions, AreaKey);
    var location: seq<Box> := [];
    var i := 0;
    while i < |contours|
      invariant 0 <= i <= |contours|
      invariant location == Boxes(Select(contours[..i], Kept))
    {
      assert contours[..i + 1][..i] == contours[..i];
      if Kept(contours[i]) {
        location := location + [contours[i].box];
      }
      i := i + 1;
    }
    assert contours[..i] == contours;
    var drawn: seq<Box> := [];
    var j := 0;
    while j < |location|
      invariant 0 <= j <= |location|
      invariant drawn == location[..j]
    {
      drawn := drawn + [location[j]];
      j := j + 1;
    }
    assert location[..j] == location;
    r := Some(drawn);
  }

  /** The locations of a frame, as the contours they come from: exactly the
      contours that pass the tests, each as often as it occurs, visited from
      the largest area down, and contours of equal area in their original
      order. One rectangle is drawn per location. */
  lemma KeptRegionsSpec(regions: seq<Region>)
    ensures |Locations(regions)| == |KeptRegions(regions)|
    ensures forall k :: 0 <= k < |KeptRegions(regions)| ==> Locations(regions)[k] == KeptRegions(regions)[k].box
    ensures forall r :: r in KeptRegions(regions) <==> r in regions && Kept(r)
    ensures multiset(KeptRegions(regions)) == multiset(Select(regions, Kept))
    ensures forall i, j :: 0 <= i < j < |KeptRegions(regions)| ==>
      KeptRegions(regions)[i].area >= KeptRegions(regions)[j].area
    ensures forall a :: WithKey(KeptRegions(regions), AreaKey, a) == WithKey(Select(regions, Kept), AreaKey, a)
  {
    var sorted := SortBy(regions, AreaKey);
    SortBySorted(regions, AreaKey);
    SelectMembers(sorted, Kept);
    forall r ensures r in sorted <==> r in regions {
      assert r in sorted <==> r in multiset(sorted);
    }
    SelectSortByPermutes(regions, AreaKey, Kept);
    SelectKeepsSorted(sorted, Kept, AreaKey);
    forall a ensures WithKey(KeptRegions(regions), AreaKey, a) == WithKey(Select(regions, Kept), AreaKey, a) {
      SelectWithKey(sorted, Kept, AreaKey, a);
      SortByStable(regions, AreaKey, a);
      SelectWithKey(regions, Kept, AreaKey, a);
    }
  }

  // ----- process_video -----

  /** How `process_video` ends: the status label it sets, the final
      `frame_count` and the rectangles of each frame handed to `out.write`
      (and shown). */
  datatype VideoOutcome = VideoOutcome(status: StreamStatus, frameCount: nat, written: seq<seq<Box>>)

  predicate Succeeds(f: Frame)
  {
    !f.stagesFail
  }

  /** The rectangles drawn on a frame that did not fail. */
  function Drawn(f: Frame): seq<Box>
  {
    Locations(f.regions)
  }

  /** The frames handed to `out.write`, in order: one per frame whose
      processing did not fail. */
  function Written(frames: seq<Frame>): seq<seq<Box>>
  {
    Collect(frames, Succeeds, Drawn)
  }

  /** The body of the capture loop for one frame read. */
  method HandleFrame(frames: seq<Frame>, n: nat, written: seq<seq<Box>>) returns (written': seq<seq<Box>>)
    requires n < |frames| && written == Written(frames[..n])
    ensures written' == Written(frames[..n + 1])
  {
    assert frames[..n + 1][..n] == frames[..n];
    var processed := ProcessFrame(frames[n]);
    written' := written;
    if processed != None {
      written' := written + [processed.value];
    }
  }

  /** `process_video`. `isOpen` is `cap.isOpened()`, `frames` the frames
      `cap.read()` delivers and `quit(i)` whether `q` is pressed after frame
      `i`. */
  method ProcessVideo(isOpen: bool, frames: seq<Frame>, quit: nat -> bool) returns (o: VideoOutcome)
    ensures !isOpen ==> o == VideoOutcome(OpenFailed, 0, [])
    ensures isOpen ==> o.status == Complete && Halts(frames, quit, o.frameCount)
    ensures isOpen ==> o.written == Written(frames[..o.frameCount])
  {
    if !isOpen {
      return VideoOutcome(OpenFailed, 0, []);
    }
    var frameCount: nat := 0;
    var written: seq<seq<Box>> := [];
    var quitting := false;
    while frameCount < |frames| && !quitting
      invariant frameCount <= |frames|
      invariant frameCount == 0 || NoQuitBefore(quit, frameCount - 1)
      invariant quitting <==> frameCount > 0 && quit(frameCount - 1)
      invariant written == Written(frames[..frameCount])
    {
      written := HandleFrame(frames, frameCount, written);
      frameCount := frameCount + 1;
      quitting := quit(frameCount - 1);
    }
    HaltsOnExit(frames, quit, frameCount);
    o := VideoOutcome(Complete, frameCount, written);
  }

  /** The frames handed to `out.write` are the frames that did not fail, in
      reading order, each with the rectangles `process_frame` drew on it;
      `idx` gives the frame each one comes from. */
  lemma WrittenFrames(frames: seq<Frame>) returns (idx: seq<nat>)
    ensures |idx| == |Written(frames)|
    ensures forall k :: 0 <= k < |idx| ==>
      idx[k] < |frames| && !frames[idx[k]].stagesFail && Written(frames)[k] == Locations(frames[idx[k]].regions)
    ensures forall k, l :: 0 <= k < l < |idx| ==> idx[k] < idx[l]
    ensures forall i :: 0 <= i < |frames| && !frames[i].stagesFail ==> i in idx
  {
    idx := CollectIsSubsequence(frames, Succeeds, Drawn);
  }
}
