/**
 * What the pipeline sees of the image-processing library. Every OpenCV call
 * is replaced by the values it hands back: the bounding rectangle of a
 * contour, its area, the vertex count of its approximating polygon and the
 * number of strong vertical-edge pixels inside the rectangle.
 */
module Vision {

  datatype Option<T> = None | Some(value: T)

  /** A bounding rectangle `(x, y, w, h)` as `cv2.boundingRect` returns it. */
  datatype Box = Box(x: nat, y: nat, w: nat, h: nat)

  /** One contour of a frame, as measured by the library:
      `area` is `cv2.contourArea`, `vertices` the length of the polygon from
      `cv2.approxPolyDP`, `box` the bounding rectangle of that polygon and
      `strongEdges` the number of pixels of the box whose Sobel response
      exceeds 100. */
  datatype Region = Region(area: real, vertices: nat, box: Box, strongEdges: nat)

  /** `w >= 1.3 * h`, in integers. */
  predicate WideEnough(b: Box)
  {
    10 * b.w >= 13 * b.h
  }

  /** The bounding rectangles of `rs`, in the same order. */
  function Boxes(rs: seq<Region>): (bs: seq<Box>)
    ensures |bs| == |rs|
    ensures forall i :: 0 <= i < |rs| ==> bs[i] == rs[i].box
  {
    if rs == [] then [] else Boxes(rs[..|rs| - 1]) + [rs[|rs| - 1].box]
  }

  /** The stop rule of a capture loop that reads frames until `cap.read()`
      fails (after `|frames|` frames) or the viewer presses `q` after frame
      `i`: `n` frames were read and counted. */
  ghost predicate Halts<F>(frames: seq<F>, quit: nat -> bool, n: nat)
  {
    && n <= |frames|
    && (forall i :: 0 <= i < n - 1 ==> !quit(i))
    && (n == |frames| || (n > 0 && quit(n - 1)))
  }

  /** `q` was not pressed after any of the first `n` frames, one frame at a time. */
  ghost predicate NoQuitBefore(quit: nat -> bool, n: nat)
  {
    n == 0 || (NoQuitBefore(quit, n - 1) && !quit(n - 1))
  }

  /** A capture loop that stops on a failed read or on `q` halts as `Halts` says. */
  lemma {:induction false} HaltsOnExit<F>(frames: seq<F>, quit: nat -> bool, n: nat)
    requires n <= |frames|
    requires n == 0 || NoQuitBefore(quit, n - 1)
    requires n == |frames| || (n > 0 && quit(n - 1))
    ensures Halts(frames, quit, n)
  {
    if n > 0 {
      NoQuitBeforeAll(quit, n - 1);
    }
  }

  lemma {:induction false} NoQuitBeforeAll(quit: nat -> bool, n: nat)
    requires NoQuitBefore(quit, n)
    ensures forall i :: 0 <= i < n ==> !quit(i)
  {
    if n > 0 {
      NoQuitBeforeAll(quit, n - 1);
    }
  }

  datatype StreamStatus = OpenFailed | Complete | Aborted
}
