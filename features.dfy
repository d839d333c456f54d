/**
 * The zoning features of a character image: the image is cut into a grid of
 * equal zones (sizes by floor division) and each zone contributes its mean
 * pixel value, row by row. The other feature extractors (HOG, Hu moments,
 * edge directions) are library computations whose results are inputs here.
 */
module ExtractFeatures {

  /** A numpy float64 value: a number, or the NaN that `0 / 0` gives. */
  datatype Float = Num(value: real) | NaN

  /** The grid of `extract_combined_features`, the default `grid_size`. */
  const GridRows: nat := 3
  const GridCols: nat := 3

  function Cols(img: seq<seq<int>>): nat
  {
    if img == [] then 0 else |img[0]|
  }

  /** A 2-D numpy array: every row has the same length. */
  predicate Rectangular(img: seq<seq<int>>)
  {
    forall r :: 0 <= r < |img| ==> |img[r]| == Cols(img)
  }

  function RowSum(row: seq<int>, c0: nat, c1: nat): int
    requires c0 <= c1 <= |row|
    decreases c1 - c0
  {
    if c0 == c1 then 0 else RowSum(row, c0, c1 - 1) + row[c1 - 1]
  }

  /** `np.sum(img[r0:r1, c0:c1])`. */
  function RegionSum(img: seq<seq<int>>, r0: nat, r1: nat, c0: nat, c1: nat): int
    requires Rectangular(img) && r0 <= r1 <= |img| && c0 <= c1 <= Cols(img)
    decreases r1 - r0
  {
    if r0 == r1 then 0 else RegionSum(img, r0, r1 - 1, c0, c1) + RowSum(img[r1 - 1], c0, c1)
  }

  lemma MulLe(a: nat, b: nat, c: nat)
    requires a <= b
    ensures a * c <= b * c
  {
  }

  /** Zone `i` of `g` zones of size `n / g` ends inside `n`. */
  lemma ZoneEnd(n: nat, g: nat, i: nat)
    requires 0 <= i < g
    ensures 0 <= i * (n / g) <= (i + 1) * (n / g) <= g * (n / g) <= n
  {
    MulLe(i + 1, g, n / g);
  }

  /** Zone `(i, j)`: rows `[i*zh, (i+1)*zh)` and columns `[j*zw, (j+1)*zw)`
      with `zh = rows // g0` and `zw = cols // g1`. */
  predicate InZone(img: seq<seq<int>>, g0: nat, g1: nat, i: nat, j: nat, r: nat, c: nat)
    requires g0 > 0 && g1 > 0
  {
    var zh, zw := |img| / g0, Cols(img) / g1;
    i * zh <= r < (i + 1) * zh && j * zw <= c < (j + 1) * zw
  }

  /** The mean of zone `(i, j)`; NaN when zones are empty. */
  function ZoneFeature(img: seq<seq<int>>, g0: nat, g1: nat, i: nat, j: nat): Float
    requires Rectangular(img) && 0 <= i < g0 && 0 <= j < g1
  {
    var zh, zw := |img| / g0, Cols(img) / g1;
    ZoneEnd(|img|, g0, i);
    ZoneEnd(Cols(img), g1, j);
    if zh * zw == 0 then NaN
    else Num(RegionSum(img, i * zh, (i + 1) * zh, j * zw, (j + 1) * zw) as real / (zh * zw) as real)
  }

  function ZoneRow(img: seq<seq<int>>, g0: nat, g1: nat, i: nat): seq<Float>
    requires Rectangular(img) && 0 <= i < g0
  {
    seq(g1, j requires 0 <= j < g1 => ZoneFeature(img, g0, g1, i, j))
  }

  function ZoneRows(img: seq<seq<int>>, g0: nat, g1: nat, n: nat): seq<Float>
    requires Rectangular(img) && n <= g0
  {
    if n == 0 then [] else ZoneRows(img, g0, g1, n - 1) + ZoneRow(img, g0, g1, n - 1)
  }

  /** The zoning feature vector for a `g0` x `g1` grid. */
  function Zoning(img: seq<seq<int>>, g0: nat, g1: nat): seq<Float>
    requires Rectangular(img)
  {
    ZoneRows(img, g0, g1, g0)
  }

  /** `extract_zoning_features(image, grid_size=(g0, g1))`. */
  method ExtractZoningFeatures(img: seq<seq<int>>, g0: nat, g1: nat) returns (features: seq<Float>)
    requires Rectangular(img) && g0 > 0 && g1 > 0
    ensures features == Zoning(img, g0, g1)
  {
    var zoneHeight := |img| / g0;
    var zoneWidth := Cols(img) / g1;
    features := [];
    var i := 0;
    while i < g0
      invariant 0 <= i <= g0
      invariant features == ZoneRows(img, g0, g1, i)
    {
      var j := 0;
      while j < g1
        invariant 0 <= j <= g1
        invariant features == ZoneRows(img, g0, g1, i) + ZoneRow(img, g0, g1, i)[..j]
      {
        ZoneEnd(|img|, g0, i);
        ZoneEnd(Cols(img), g1, j);
        var zoneSum := RegionSum(img, i * zoneHeight, (i + 1) * zoneHeight, j * zoneWidth, (j + 1) * zoneWidth);
        var zoneFeature := if zoneHeight * zoneWidth == 0 then NaN
                           else Num(zoneSum as real / (zoneHeight * zoneWidth) as real);
        assert zoneFeature == ZoneFeature(img, g0, g1, i, j);
        assert ZoneRow(img, g0, g1, i)[..j + 1] == ZoneRow(img, g0, g1, i)[..j] + [zoneFeature];
        features := features + [zoneFeature];
        j := j + 1;
      }
      assert ZoneRow(img, g0, g1, i)[..g1] == ZoneRow(img, g0, g1, i);
      i := i + 1;
    }
  }

  // ----- properties of the zoning grid -----

  lemma MulSucc(a: nat, g: nat)
    ensures (a + 1) * g == a * g + g
  {
  }

  lemma {:induction false} ZoneRowsLength(img: seq<seq<int>>, g0: nat, g1: nat, n: nat)
    requires Rectangular(img) && n <= g0
    ensures |ZoneRows(img, g0, g1, n)| == n * g1
  {
    if n > 0 {
      ZoneRowsLength(img, g0, g1, n - 1);
      MulSucc(n - 1, g1);
    }
  }

  lemma {:induction false} ZoneRowsAt(img: seq<seq<int>>, g0: nat, g1: nat, n: nat, i: nat, j: nat)
    requires Rectangular(img) && n <= g0 && i < n && j < g1
    ensures |ZoneRows(img, g0, g1, n)| == n * g1
    ensures i * g1 + j < n * g1
    ensures ZoneRows(img, g0, g1, n)[i * g1 + j] == ZoneFeature(img, g0, g1, i, j)
  {
    ZoneRowsLength(img, g0, g1, n);
    ZoneRowsLength(img, g0, g1, n - 1);
    MulSucc(n - 1, g1);
    if i < n - 1 {
      ZoneRowsAt(img, g0, g1, n - 1, i, j);
    }
  }

  /** The vector has one entry per zone, `g0 * g1` in all, and entry
      `i * g1 + j` is the mean of zone `(i, j)`. */
  lemma ZoningRowMajor(img: seq<seq<int>>, g0: nat, g1: nat, i: nat, j: nat)
    requires Rectangular(img) && i < g0 && j < g1
    ensures |Zoning(img, g0, g1)| == g0 * g1
    ensures i * g1 + j < g0 * g1
    ensures Zoning(img, g0, g1)[i * g1 + j] == ZoneFeature(img, g0, g1, i, j)
  {
    ZoneRowsAt(img, g0, g1, g0, i, j);
  }

  /** Zones lie inside the image and no pixel belongs to two zones. */
  lemma ZonesDisjoint(img: seq<seq<int>>, g0: nat, g1: nat, i: nat, j: nat, i': nat, j': nat, r: nat, c: nat)
    requires g0 > 0 && g1 > 0 && i < g0 && j < g1 && i' < g0 && j' < g1
    requires InZone(img, g0, g1, i, j, r, c) && InZone(img, g0, g1, i', j', r, c)
    ensures r < |img| && c < Cols(img)
    ensures i == i' && j == j'
  {
    var zh, zw := |img| / g0, Cols(img) / g1;
    ZoneEnd(|img|, g0, i);
    ZoneEnd(Cols(img), g1, j);
    if i < i' {
      MulLe(i + 1, i', zh);
    } else if i' < i {
      MulLe(i' + 1, i, zh);
    }
    if j < j' {
      MulLe(j + 1, j', zw);
    } else if j' < j {
      MulLe(j' + 1, j, zw);
    }
  }

  lemma {:induction false} RowSumAgree(a: seq<int>, b: seq<int>, c0: nat, c1: nat)
    requires c0 <= c1 <= |a| && c1 <= |b|
    requires forall c :: c0 <= c < c1 ==> a[c] == b[c]
    ensures RowSum(a, c0, c1) == RowSum(b, c0, c1)
    decreases c1 - c0
  {
    if c0 < c1 {
      RowSumAgree(a, b, c0, c1 - 1);
    }
  }

  lemma {:induction false} RegionSumAgree(a: seq<seq<int>>, b: seq<seq<int>>, r0: nat, r1: nat, c0: nat, c1: nat)
    requires Rectangular(a) && Rectangular(b) && |a| == |b| && Cols(a) == Cols(b)
    requires r0 <= r1 <= |a| && c0 <= c1 <= Cols(a)
    requires forall r, c :: r0 <= r < r1 && c0 <= c < c1 ==> a[r][c] == b[r][c]
    ensures RegionSum(a, r0, r1, c0, c1) == RegionSum(b, r0, r1, c0, c1)
    decreases r1 - r0
  {
    if r0 < r1 {
      RegionSumAgree(a, b, r0, r1 - 1, c0, c1);
      RowSumAgree(a[r1 - 1], b[r1 - 1], c0, c1);
    }
  }

  lemma {:induction false} ZoneRowsAgree(a: seq<seq<int>>, b: seq<seq<int>>, g0: nat, g1: nat, n: nat)
    requires Rectangular(a) && Rectangular(b) && n <= g0
    requires forall i, j :: 0 <= i < n && 0 <= j < g1 ==> ZoneFeature(a, g0, g1, i, j) == ZoneFeature(b, g0, g1, i, j)
    ensures ZoneRows(a, g0, g1, n) == ZoneRows(b, g0, g1, n)
  {
    if n > 0 {
      ZoneRowsAgree(a, b, g0, g1, n - 1);
      assert ZoneRow(a, g0, g1, n - 1) == ZoneRow(b, g0, g1, n - 1);
    }
  }

  /** Rows at or below `g0 * zh` and columns at or right of `g1 * zw` never
      contribute: two images of the same shape that agree on the covered part
      have the same zoning features. */
  lemma UncoveredPixelsIgnored(a: seq<seq<int>>, b: seq<seq<int>>, g0: nat, g1: nat)
    requires Rectangular(a) && Rectangular(b) && |a| == |b| && Cols(a) == Cols(b) && g0 > 0 && g1 > 0
    requires forall r, c :: 0 <= r < g0 * (|a| / g0) && 0 <= c < g1 * (Cols(a) / g1) ==> a[r][c] == b[r][c]
    ensures Zoning(a, g0, g1) == Zoning(b, g0, g1)
  {
    var zh, zw := |a| / g0, Cols(a) / g1;
    forall i, j | 0 <= i < g0 && 0 <= j < g1
      ensures ZoneFeature(a, g0, g1, i, j) == ZoneFeature(b, g0, g1, i, j)
    {
      ZoneEnd(|a|, g0, i);
      ZoneEnd(Cols(a), g1, j);
      RegionSumAgree(a, b, i * zh, (i + 1) * zh, j * zw, (j + 1) * zw);
    }
    ZoneRowsAgree(a, b, g0, g1, g0);
  }

  lemma {:induction false} RowSumBounds(row: seq<int>, c0: nat, c1: nat, lo: int, hi: int)
    requires c0 <= c1 <= |row|
    requires forall c :: c0 <= c < c1 ==> lo <= row[c] <= hi
    ensures lo * (c1 - c0) <= RowSum(row, c0, c1) <= hi * (c1 - c0)
    decreases c1 - c0
  {
    if c0 < c1 {
      RowSumBounds(row, c0, c1 - 1, lo, hi);
      MulAdd(lo, c1 - 1 - c0, 1);
      MulAdd(hi, c1 - 1 - c0, 1);
    }
  }

  lemma MulAdd(a: int, x: int, y: int)
    ensures a * (x + y) == a * x + a * y
  {
  }

  /** One more row of width `w` between the bounds keeps the running sum of
      the rows `r0` to `r1` between them. */
  lemma BoundsStep(a: int, b: int, r0: nat, r1: nat, w: nat, lo: int, hi: int)
    requires r0 < r1
    requires lo * ((r1 - 1 - r0) * w) <= a <= hi * ((r1 - 1 - r0) * w) && lo * w <= b <= hi * w
    ensures lo * ((r1 - r0) * w) <= a + b <= hi * ((r1 - r0) * w)
  {
    MulSucc(r1 - 1 - r0, w);
    MulAdd(lo, (r1 - 1 - r0) * w, w);
    MulAdd(hi, (r1 - 1 - r0) * w, w);
  }

  lemma {:induction false} RegionSumBounds(img: seq<seq<int>>, r0: nat, r1: nat, c0: nat, c1: nat, lo: int, hi: int)
    requires Rectangular(img) && r0 <= r1 <= |img| && c0 <= c1 <= Cols(img)
    requires forall r, c :: r0 <= r < r1 && c0 <= c < c1 ==> lo <= img[r][c] <= hi
    ensures lo * ((r1 - r0) * (c1 - c0)) <= RegionSum(img, r0, r1, c0, c1) <= hi * ((r1 - r0) * (c1 - c0))
    decreases r1 - r0
  {
    if r0 < r1 {
      RegionSumBounds(img, r0, r1 - 1, c0, c1, lo, hi);
      RowSumBounds(img[r1 - 1], c0, c1, lo, hi);
      BoundsStep(RegionSum(img, r0, r1 - 1, c0, c1), RowSum(img[r1 - 1], c0, c1), r0, r1, c1 - c0, lo, hi);
    }
  }

  lemma MeanBetween(s: int, n: int, lo: int, hi: int)
    requires n > 0 && lo * n <= s <= hi * n
    ensures lo as real <= s as real / n as real <= hi as real
  {
    var m := s as real / n as real;
    assert m * n as real == s as real;
    assert (lo * n) as real == lo as real * n as real;
    assert (hi * n) as real == hi as real * n as real;
  }

  /** Every zone feature is the mean of its zone: for any bounds `lo` and
      `hi` on the zone's pixels (its minimum and maximum among them) the
      feature lies between them. */
  lemma ZoneMeanBetween(img: seq<seq<int>>, g0: nat, g1: nat, i: nat, j: nat, lo: int, hi: int)
    requires Rectangular(img) && 0 <= i < g0 && 0 <= j < g1
    requires |img| / g0 > 0 && Cols(img) / g1 > 0
    requires forall r: nat, c: nat :: r < |img| && c < Cols(img) && InZone(img, g0, g1, i, j, r, c) ==> lo <= img[r][c] <= hi
    ensures ZoneFeature(img, g0, g1, i, j).Num?
    ensures lo as real <= ZoneFeature(img, g0, g1, i, j).value <= hi as real
  {
    var zh, zw := |img| / g0, Cols(img) / g1;
    ZoneEnd(|img|, g0, i);
    ZoneEnd(Cols(img), g1, j);
    MulSucc(i, zh);
    MulSucc(j, zw);
    RegionSumBounds(img, i * zh, (i + 1) * zh, j * zw, (j + 1) * zw, lo, hi);
    MeanBetween(RegionSum(img, i * zh, (i + 1) * zh, j * zw, (j + 1) * zw), zh * zw, lo, hi);
  }

  /** `extract_combined_features`: `hog`, `hu` and `edgeDirs` are the HOG
      descriptor, the log Hu moments of the skeleton and the flattened edge
      directions, computed by the image library. */
  method ExtractCombinedFeatures(img: seq<seq<int>>, hog: seq<Float>, hu: seq<Float>, edgeDirs: seq<Float>)
    returns (combined: seq<Float>)
    requires Rectangular(img)
    ensures |combined| == |hog| + |hu| + |edgeDirs| + GridRows * GridCols
    ensures combined[..|hog|] == hog
    ensures combined[|hog|..|hog| + |hu|] == hu
    ensures combined[|hog| + |hu|..|hog| + |hu| + |edgeDirs|] == edgeDirs
    ensures combined[|combined| - GridRows * GridCols..] == Zoning(img, GridRows, GridCols)
  {
    var zoning := ExtractZoningFeatures(img, GridRows, GridCols);
    ZoneRowsLength(img, GridRows, GridCols, GridRows);
    combined := hog + hu + edgeDirs + zoning;
  }
}
