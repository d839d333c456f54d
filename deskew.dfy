/**
 * The integer part of plate deskewing: choosing, among the four corners of
 * the plate's contour, the two that span its bottom edge, ordered left then
 * right. The rotation angle and the affine warp are floating-point library
 * work and are passed in as one function.
 */
module DeskewPlate {
  import opened Vision

  datatype Point = Point(x: int, y: int)

  /** The square of `distance(p, q)`. Since the square root is monotone on
      non-negative numbers, `distance(a, b) > distance(c, d)` holds exactly
      when `SquaredDistance(a, b) > SquaredDistance(c, d)`. */
  function SquaredDistance(p: Point, q: Point): (d: int)
    ensures d >= 0
    ensures d == 0 <==> p == q
  {
    var dx, dy := q.x - p.x, q.y - p.y;
    assert dx * dx >= 0 && dy * dy >= 0;
    assert dx * dx == 0 ==> dx == 0;
    assert dy * dy == 0 ==> dy == 0;
    dx * dx + dy * dy
  }

  /** The neighbour before corner `b` on the four-corner ring. */
  function Prev(b: nat): (p: nat)
    requires b < 4
    ensures p == (b + 3) % 4
  {
    if b > 0 then b - 1 else 3
  }

  /** The neighbour after corner `b` on the four-corner ring. */
  function Next(b: nat): (n: nat)
    requires b < 4
    ensures n == (b + 1) % 4
  {
    if b < 3 then b + 1 else 0
  }

  /** `b` is the first index with the greatest y, where only y values above
      the starting maximum 0 can move it away from index 0. */
  ghost predicate IsBottomMost(pts: seq<Point>, b: nat)
  {
    || (b == 0 && forall i :: 0 <= i < |pts| ==> pts[i].y <= 0)
    || (&& b < |pts| && pts[b].y > 0
        && (forall i :: 0 <= i < |pts| ==> pts[i].y <= pts[b].y)
        && (forall i :: 0 <= i < b ==> pts[i].y < pts[b].y))
  }

  /** The choice `calculate_left_right_points` makes on the four corners
      `pts`: `bottom` is the bottom-most corner; one of `left` and `right` is
      `bottom` and the other is its strictly farther ring neighbour (the next
      one on equal distances); the left one has the smaller x, and on equal x
      the bottom corner comes first. */
  ghost predicate BottomEdge(pts: seq<Point>, bottom: nat, left: nat, right: nat)
  {
    && |pts| == 4
    && bottom < 4 && IsBottomMost(pts, bottom)
    && left < 4 && right < 4 && left != right
    && (left == bottom || right == bottom)
    && (var partner := if left == bottom then right else left;
        var toPrev, toNext := SquaredDistance(pts[bottom], pts[Prev(bottom)]), SquaredDistance(pts[bottom], pts[Next(bottom)]);
        && (partner == Prev(bottom) || partner == Next(bottom))
        && SquaredDistance(pts[bottom], pts[partner]) == (if toPrev > toNext then toPrev else toNext)
        && (toPrev == toNext ==> partner == Next(bottom)))
    && pts[left].x <= pts[right].x
    && (pts[left].x == pts[right].x ==> left == bottom)
  }

  /** There is only one bottom-most corner. */
  lemma BottomMostUnique(pts: seq<Point>, b: nat, b': nat)
    requires IsBottomMost(pts, b) && IsBottomMost(pts, b') && b < |pts| && b' < |pts|
    ensures b == b'
  {
  }

  /** `BottomEdge` leaves no freedom: the four corners fix the bottom corner
      and the left and right indices. */
  lemma BottomEdgeUnique(pts: seq<Point>, b: nat, l: nat, r: nat, b': nat, l': nat, r': nat)
    requires BottomEdge(pts, b, l, r) && BottomEdge(pts, b', l', r')
    ensures b == b' && l == l' && r == r'
  {
    BottomMostUnique(pts, b, b');
    var p := if l == b then r else l;
    var p' := if l' == b then r' else l';
    var toPrev, toNext := SquaredDistance(pts[b], pts[Prev(b)]), SquaredDistance(pts[b], pts[Next(b)]);
    assert Prev(b) != Next(b);
    assert p == p' by {
      if toPrev > toNext {
        assert p == Prev(b) && p' == Prev(b);
      } else if toPrev < toNext {
        assert p == Next(b) && p' == Next(b);
      }
    }
  }

  /** `calculate_left_right_points`: the bottom-most corner and the farther of
      its two ring neighbours, returned so that the left one comes first. */
  method CalculateLeftRightPoints(pts: seq<Point>) returns (left: nat, right: nat, ghost bottom: nat)
    requires |pts| == 4
    ensures BottomEdge(pts, bottom, left, right)
  {
    var bottomMost := 0;
    var maxY := 0;
    var idx := 0;
    while idx < |pts|
      invariant 0 <= idx <= |pts|
      invariant bottomMost < 4 && maxY >= 0
      invariant forall i :: 0 <= i < idx ==> pts[i].y <= maxY
      invariant maxY == 0 ==> bottomMost == 0
      invariant maxY > 0 ==> bottomMost < idx && pts[bottomMost].y == maxY
      invariant forall i :: 0 <= i < bottomMost ==> pts[i].y < maxY
    {
      if pts[idx].y > maxY {
        bottomMost := idx;
        maxY := pts[idx].y;
      }
      idx := idx + 1;
    }
    bottom := bottomMost;

    var prev := if bottomMost > 0 then bottomMost - 1 else 3;
    var next := if bottomMost < 3 then bottomMost + 1 else 0;
    var toPrev := SquaredDistance(pts[bottomMost], pts[prev]);
    var toNext := SquaredDistance(pts[bottomMost], pts[next]);
    if toPrev > toNext {
      if pts[prev].x < pts[bottomMost].x {
        left, right := prev, bottomMost;
      } else {
        left, right := bottomMost, prev;
      }
    } else {
      if pts[next].x < pts[bottomMost].x {
        left, right := next, bottomMost;
      } else {
        left, right := bottomMost, next;
      }
    }
  }

  /** `[item for sublist in contour for item in sublist]`. */
  function Flatten(contour: seq<seq<Point>>): seq<Point>
  {
    if contour == [] then [] else Flatten(contour[..|contour| - 1]) + contour[|contour| - 1]
  }

  /** A contour of the shape `cv2.approxPolyDP` returns (one point per entry)
      flattens to the same points in the same order. */
  lemma {:induction false} FlattenSingletons(contour: seq<seq<Point>>)
    requires forall i :: 0 <= i < |contour| ==> |contour[i]| == 1
    ensures |Flatten(contour)| == |contour|
    ensures forall i :: 0 <= i < |contour| ==> Flatten(contour)[i] == contour[i][0]
  {
    if contour != [] {
      FlattenSingletons(contour[..|contour| - 1]);
    }
  }

  /** `deskew_img`. `contour` is the four-corner polygon that `findContour`
      found, or `None`; `rotate` stands for computing the rotation angle from
      the left and right bottom corners, refusing angles above 20 degrees and
      warping the image. `corners` are the indices `left` and `right` chosen,
      and the ghost `bottom` the bottom-most corner. */
  method DeskewImg<Image>(cropped: Image, contour: Option<seq<seq<Point>>>, rotate: (Image, Point, Point) -> Image)
    returns (result: Image, corners: Option<(nat, nat)>, ghost bottom: nat)
    requires contour.Some? ==> |contour.value| == 4 && forall i :: 0 <= i < 4 ==> |contour.value[i]| == 1
    ensures contour == None ==> result == cropped && corners == None
    ensures contour.Some? ==>
              && corners.Some?
              && var c, l, r := contour.value, corners.value.0, corners.value.1;
              && BottomEdge(Flatten(c), bottom, l, r)
              && result == rotate(cropped, c[l][0], c[r][0])
  {
    if contour == None {
      return cropped, None, 0;
    }
    var flat := Flatten(contour.value);
    FlattenSingletons(contour.value);
    var left, right;
    left, right, bottom := CalculateLeftRightPoints(flat);
    corners := Some((left, right));
    result := rotate(cropped, flat[left], flat[right]);
  }
}
