/**
 * Character segmentation of a plate image: whitening the image border,
 * keeping the contours whose bounding rectangle has the size of one
 * character, ordering them from left to right, and cutting one character
 * image out of the plate per kept rectangle.
 */
module SegmentCharacters {
  import opened Vision
  import opened Lists

  /** The number of characters the caller expects on a plate (the default of `numChars`). */
  const NumChars: int := 6
  /** The value written into the border pixels of the binary image. */
  const White: int := 255
  /** How many rows and columns on each side are whitened. */
  const BorderWidth: nat := 3

  function Min(a: int, b: int): int { if a <= b then a else b }
  function Max(a: int, b: int): int { if a <= b then b else a }

  // ----- border whitening -----

  /** Pixel `(i, j)` of a `rows` x `cols` image lies in one of the four
      three-pixel bands that are whitened. */
  predicate OnBorder(i: int, j: int, rows: int, cols: int)
  {
    i < BorderWidth || i >= rows - BorderWidth || j < BorderWidth || j >= cols - BorderWidth
  }

  /** The slice assignment `img[r0:r1, c0:c1] = v`. */
  method Fill(img: array2<int>, r0: nat, r1: nat, c0: nat, c1: nat, v: int)
    requires r0 <= r1 <= img.Length0 && c0 <= c1 <= img.Length1
    modifies img
    ensures forall i, j :: 0 <= i < img.Length0 && 0 <= j < img.Length1 ==>
      img[i, j] == if r0 <= i < r1 && c0 <= j < c1 then v else old(img[i, j])
  {
    var i := r0;
    while i < r1
      invariant r0 <= i <= r1
      invariant forall p, q :: 0 <= p < img.Length0 && 0 <= q < img.Length1 ==>
        img[p, q] == if r0 <= p < i && c0 <= q < c1 then v else old(img[p, q])
    {
      var j := c0;
      while j < c1
        invariant c0 <= j <= c1
        invariant forall p, q :: 0 <= p < img.Length0 && 0 <= q < img.Length1 ==>
          img[p, q] == if (r0 <= p < i && c0 <= q < c1) || (p == i && c0 <= q < j) then v else old(img[p, q])
      {
        img[i, j] := v;
        j := j + 1;
      }
      i := i + 1;
    }
  }

  /** The last step of `preprocess_license_plate`: the first and last three
      rows and columns become white, every other pixel is left as it was. */
  method WhitenBorder(img: array2<int>)
    modifies img
    ensures forall i, j :: 0 <= i < img.Length0 && 0 <= j < img.Length1 ==>
      img[i, j] == if OnBorder(i, j, img.Length0, img.Length1) then White else old(img[i, j])
  {
    var rows, cols := img.Length0, img.Length1;
    Fill(img, 0, Min(BorderWidth, rows), 0, cols, White);             // img[:3, :]
    Fill(img, Max(rows - BorderWidth, 0), rows, 0, cols, White);      // img[-3:, :]
    Fill(img, 0, rows, 0, Min(BorderWidth, cols), White);             // img[:, :3]
    Fill(img, 0, rows, Max(cols - BorderWidth, 0), cols, White);      // img[:, -3:]
  }

  // ----- the size window and left-to-right order -----

  /** The estimated dimensions of one character, as true (not floor) divisions. */
  datatype Dimensions = Dimensions(minHeight: real, maxHeight: real, minWidth: real, maxWidth: real)

  function CharDimensions(height: nat, width: nat, numChars: int): (d: Dimensions)
    requires numChars != 0
  {
    Dimensions(height as real / 3.0, height as real / 1.0,
               width as real / ((numChars * 2) as real), width as real / 3.0)
  }

  /** Both sides lie strictly inside the window. */
  predicate Fits(b: Box, d: Dimensions)
  {
    d.minWidth < b.w as real < d.maxWidth && d.minHeight < b.h as real < d.maxHeight
  }

  function FitsIn(d: Dimensions): Box -> bool
  {
    b => Fits(b, d)
  }

  /** The sort key of `sorted(..., key=lambda c: c[0])`. */
  function XKey(b: Box): real
  {
    b.x as real
  }

  /** `extract_character_contours`: `rects` are the bounding rectangles of the
      contours found in the binary image, in the order the library lists them.
      `None` stands for the `ZeroDivisionError` that `numChars == 0` raises. */
  method ExtractCharacterContours(height: nat, width: nat, rects: seq<Box>, numChars: int)
    returns (r: Option<seq<Box>>)
    ensures numChars == 0 <==> r == None
    ensures numChars != 0 ==>
      var d := CharDimensions(height, width, numChars);
      && r == Some(SortBy(Select(rects, FitsIn(d)), XKey))
      // exactly the rectangles of character size are kept
      && (forall b :: b in r.value <==> b in rects && Fits(b, d))
      // a permutation of the kept rectangles, nothing duplicated or dropped
      && multiset(r.value) == multiset(Select(rects, FitsIn(d)))
      // left to right
      && (forall i, j :: 0 <= i < j < |r.value| ==> r.value[i].x <= r.value[j].x)
      // equal x: original contour order
      && (forall k :: WithKey(r.value, XKey, k) == WithKey(Select(rects, FitsIn(d)), XKey, k))
  {
    if numChars == 0 {
      return None;
    }
    var d := CharDimensions(height, width, numChars);
    var kept: seq<Box> := [];
    var i := 0;
    while i < |rects|
      invariant 0 <= i <= |rects|
      invariant kept == Select(rects[..i], FitsIn(d))
    {
      var b := rects[i];
      assert rects[..i + 1][..i] == rects[..i];
      if Fits(b, d) {
        kept := kept + [b];
      }
      i := i + 1;
    }
    assert rects[..i] == rects;
    var sorted := SortBy(kept, XKey);
    SelectMembers(rects, FitsIn(d));
    SortBySorted(kept, XKey);
    forall b ensures b in sorted <==> b in kept {
      assert b in sorted <==> b in multiset(sorted);
    }
    forall k ensures WithKey(sorted, XKey, k) == WithKey(kept, XKey, k) {
      SortByStable(kept, XKey, k);
    }
    r := Some(sorted);
  }

  // ----- cropping -----

  /** The numpy slice `img[b.y:b.y + b.h, b.x:b.x + b.w]`, clipped to the image. */
  function Crop(img: array2<int>, b: Box): (c: seq<seq<int>>)
    reads img
    ensures b.y + b.h <= img.Length0 && b.x + b.w <= img.Length1 ==>
      |c| == b.h && forall i :: 0 <= i < b.h ==>
        |c[i]| == b.w && forall j :: 0 <= j < b.w ==> c[i][j] == img[b.y + i, b.x + j]
  {
    var r0, r1 := Min(b.y, img.Length0), Min(b.y + b.h, img.Length0);
    var c0, c1 := Min(b.x, img.Length1), Min(b.x + b.w, img.Length1);
    seq(r1 - r0, i requires 0 <= i < r1 - r0 reads img =>
      seq(c1 - c0, j requires 0 <= j < c1 - c0 reads img => img[r0 + i, c0 + j]))
  }

  /** `segment_characters` on the thresholded plate image `binary`, whose
      contours (after whitening) have the bounding rectangles `rects`. */
  method SegmentCharacters(binary: array2<int>, rects: seq<Box>)
    returns (characters: seq<seq<seq<int>>>, boxes: seq<Box>)
    modifies binary
    ensures forall i, j :: 0 <= i < binary.Length0 && 0 <= j < binary.Length1 ==>
      binary[i, j] == if OnBorder(i, j, binary.Length0, binary.Length1) then White else old(binary[i, j])
    ensures boxes == SortBy(Select(rects, FitsIn(CharDimensions(binary.Length0, binary.Length1, NumChars))), XKey)
    ensures |characters| == |boxes|
    ensures forall k :: 0 <= k < |boxes| ==> characters[k] == Crop(binary, boxes[k])
  {
    WhitenBorder(binary);
    var contours := ExtractCharacterContours(binary.Length0, binary.Length1, rects, NumChars);
    boxes := contours.value;
    characters := CropAll(binary, boxes);
  }

  /** The loop of `segment_characters` that crops each box in turn. */
  method CropAll(binary: array2<int>, boxes: seq<Box>) returns (characters: seq<seq<seq<int>>>)
    ensures |characters| == |boxes|
    ensures forall k :: 0 <= k < |boxes| ==> characters[k] == Crop(binary, boxes[k])
  {
    characters := [];
    var k := 0;
    while k < |boxes|
      invariant 0 <= k <= |boxes|
      invariant |characters| == k
      invariant forall m :: 0 <= m < k ==> characters[m] == Crop(binary, boxes[m])
    {
      characters := characters + [Crop(binary, boxes[k])];
      k := k + 1;
    }
  }
}
