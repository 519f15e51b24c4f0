/** The CFAR ship detector's kernels and masks: the background and target
    windows, the zeroed border of a filtered image, and the rejection of
    detections close to land. */
module Cfar {
  import opened Wrappers
  import opened PyOps

  // ---------------------------------------------------------------------------
  // Slice assignment on a 2-D array

  /** Whether cell (r, c) lies in the block `[rlo:rhi, clo:chi]` of a
      `rows` by `cols` array, with Python's slice bounds on each axis. */
  predicate InBlock(r: int, c: int, rlo: int, rhi: int, clo: int, chi: int, rows: nat, cols: nat)
  {
    InSlice(r, rlo, rhi, rows) && InSlice(c, clo, chi, cols)
  }

  /** `a[rlo:rhi, clo:chi] = v`: every cell of the block becomes `v`, every
      other cell keeps its value. */
  method FillBlock(a: array2<real>, rlo: int, rhi: int, clo: int, chi: int, v: real)
    modifies a
    ensures forall r, c :: 0 <= r < a.Length0 && 0 <= c < a.Length1 ==>
      a[r, c] == (if InBlock(r, c, rlo, rhi, clo, chi, a.Length0, a.Length1) then v else old(a[r, c]))
  {
    // A slice whose end comes before its start is empty.
    var r0, r1 := SliceBound(rlo, a.Length0), SliceBound(rhi, a.Length0);
    var c0, c1 := SliceBound(clo, a.Length1), SliceBound(chi, a.Length1);
    if r1 < r0 {
      r1 := r0;
    }
    if c1 < c0 {
      c1 := c0;
    }
    var r := r0;
    while r < r1
      invariant r0 <= r <= r1
      invariant forall i, j :: 0 <= i < a.Length0 && 0 <= j < a.Length1 ==>
        a[i, j] == (if r0 <= i < r && c0 <= j < c1 then v else old(a[i, j]))
    {
      var c := c0;
      while c < c1
        invariant c0 <= c <= c1
        invariant forall i, j :: 0 <= i < a.Length0 && 0 <= j < a.Length1 ==>
          a[i, j] == (if (r0 <= i < r && c0 <= j < c1) || (i == r && c0 <= j < c) then v else old(a[i, j]))
      {
        a[r, c] := v;
        c := c + 1;
      }
      r := r + 1;
    }
  }

  // ---------------------------------------------------------------------------
  // The background and target windows

  /** The guard size `_create_bg_window` uses: a falsy argument (None or
      0) becomes a third of the window, rounded down. */
  function GuardSize(n: nat, guard: Option<int>): (g: int)
    ensures guard.Some? && guard.value != 0 ==> g == guard.value
    ensures guard.None? || guard == Some(0) ==> 3 * g <= n < 3 * g + 3
  {
    if guard.None? || guard.value == 0 then FloorDiv(n, 3) else guard.value
  }

  /** The central band `[n//2 - s//2 : n//2 + s//2]` of a window of size
      `n`, for a guard or target size `s`. */
  function BandLo(n: nat, s: int): int { FloorDiv(n, 2) - FloorDiv(s, 2) }
  function BandHi(n: nat, s: int): int { FloorDiv(n, 2) + FloorDiv(s, 2) }

  predicate InBand(k: int, n: nat, s: int)
  {
    InSlice(k, BandLo(n, s), BandHi(n, s), n)
  }

  /** The number of rows (or columns) the band covers. */
  function BandWidth(n: nat, s: int): nat
  {
    SliceLength(BandLo(n, s), BandHi(n, s), n)
  }

  /** A band that fits in the window is `2 * (s // 2)` wide. */
  lemma BandWidthInside(n: nat, s: int)
    requires 0 <= FloorDiv(s, 2) <= FloorDiv(n, 2)
    ensures BandWidth(n, s) == 2 * FloorDiv(s, 2)
  {
  }

  /** A background window cell: 0 on the guard cross, 1 elsewhere. */
  function BgCell(n: nat, g: int, r: int, c: int): real
  {
    if InBand(r, n, g) || InBand(c, n, g) then 0.0 else 1.0
  }

  /** A target window cell: 1 on the central square, 0 elsewhere. */
  function TargetCell(n: nat, t: int, r: int, c: int): real
  {
    if InBand(r, n, t) && InBand(c, n, t) then 1.0 else 0.0
  }

  /** `_create_bg_window`: an `n` by `n` window of ones with the guard
      rows and then the guard columns set to zero. */
  method CreateBgWindow(n: nat, guard: Option<int>) returns (w: array2<real>)
    ensures fresh(w) && w.Length0 == n && w.Length1 == n
    ensures forall r, c :: 0 <= r < n && 0 <= c < n ==> w[r, c] == BgCell(n, GuardSize(n, guard), r, c)
  {
    var g := if guard.None? || guard.value == 0 then FloorDiv(n, 3) else guard.value;
    w := new real[n, n]((r, c) => 1.0);
    FillBlock(w, BandLo(n, g), BandHi(n, g), 0, n, 0.0);
    FillBlock(w, 0, n, BandLo(n, g), BandHi(n, g), 0.0);
  }

  /** `_create_target_window`: an `n` by `n` window of zeros with the
      central `t`-square set to one. */
  method CreateTargetWindow(n: nat, t: int) returns (w: array2<real>)
    ensures fresh(w) && w.Length0 == n && w.Length1 == n
    ensures forall r, c :: 0 <= r < n && 0 <= c < n ==> w[r, c] == TargetCell(n, t, r, c)
  {
    w := new real[n, n]((r, c) => 0.0);
    FillBlock(w, BandLo(n, t), BandHi(n, t), BandLo(n, t), BandHi(n, t), 1.0);
  }

  // The kernel sums, `np.sum` of each window, row by row.

  /** How many of the positions `0 .. m-1` lie in the band. */
  function CountInBand(n: nat, s: int, m: nat): (k: nat)
    ensures k <= m
  {
    if m == 0 then 0 else CountInBand(n, s, m - 1) + (if InBand(m - 1, n, s) then 1 else 0)
  }

  /** The first `m` positions of an axis meet the band in `[lo, hi)` clipped to `[0, m)`. */
  lemma {:induction false} CountInBandPrefix(n: nat, s: int, m: nat)
    requires m <= n
    ensures var lo, hi := SliceBound(BandLo(n, s), n), SliceBound(BandHi(n, s), n);
      CountInBand(n, s, m) == (if hi <= lo || m <= lo then 0 else if m <= hi then m - lo else hi - lo)
  {
    if m > 0 {
      CountInBandPrefix(n, s, m - 1);
    }
  }

  /** The whole axis meets the band in exactly its width. */
  lemma CountInBandAll(n: nat, s: int)
    ensures CountInBand(n, s, n) == BandWidth(n, s)
  {
    CountInBandPrefix(n, s, n);
  }

  function BgRowSum(n: nat, g: int, r: int, m: nat): real
  {
    if m == 0 then 0.0 else BgRowSum(n, g, r, m - 1) + BgCell(n, g, r, m - 1)
  }

  function BgSum(n: nat, g: int, m: nat): real
  {
    if m == 0 then 0.0 else BgSum(n, g, m - 1) + BgRowSum(n, g, m - 1, n)
  }

  lemma {:induction false} BgRowSumValue(n: nat, g: int, r: int, m: nat)
    ensures BgRowSum(n, g, r, m) == if InBand(r, n, g) then 0.0 else (m - CountInBand(n, g, m)) as real
  {
    if m > 0 {
      BgRowSumValue(n, g, r, m - 1);
    }
  }

  lemma {:induction false} BgSumValue(n: nat, g: int, m: nat)
    ensures BgSum(n, g, m) == ((m - CountInBand(n, g, m)) * (n - CountInBand(n, g, n))) as real
  {
    if m > 0 {
      BgSumValue(n, g, m - 1);
      BgRowSumValue(n, g, m - 1, n);
      var k := n - CountInBand(n, g, n);
      var x := m - 1 - CountInBand(n, g, m - 1);
      if InBand(m - 1, n, g) {
        assert m - CountInBand(n, g, m) == x;
      } else {
        assert m - CountInBand(n, g, m) == x + 1;
        MulSucc(x, k);
      }
    }
  }

  lemma MulSucc(x: nat, k: nat)
    ensures (x + 1) * k == x * k + k
  {
  }

  /** The background kernel sums to the square of the rows outside the guard band. */
  lemma BgWindowSum(n: nat, guard: Option<int>)
    ensures var g := GuardSize(n, guard);
      BgSum(n, g, n) == ((n - BandWidth(n, g)) * (n - BandWidth(n, g))) as real
  {
    BgSumValue(n, GuardSize(n, guard), n);
    CountInBandAll(n, GuardSize(n, guard));
  }

  /** The detector's 64-sample background window with the default guard sums to 1936. */
  lemma DefaultBgWindowSum()
    ensures BgSum(64, GuardSize(64, None), 64) == 1936.0
  {
    BgWindowSum(64, None);
    assert GuardSize(64, None) == 21;
    assert BandWidth(64, 21) == 20;
  }

  function TargetRowSum(n: nat, t: int, r: int, m: nat): real
  {
    if m == 0 then 0.0 else TargetRowSum(n, t, r, m - 1) + TargetCell(n, t, r, m - 1)
  }

  function TargetSum(n: nat, t: int, m: nat): real
  {
    if m == 0 then 0.0 else TargetSum(n, t, m - 1) + TargetRowSum(n, t, m - 1, n)
  }

  lemma {:induction false} TargetRowSumValue(n: nat, t: int, r: int, m: nat)
    ensures TargetRowSum(n, t, r, m) == if InBand(r, n, t) then CountInBand(n, t, m) as real else 0.0
  {
    if m > 0 {
      TargetRowSumValue(n, t, r, m - 1);
    }
  }

  lemma {:induction false} TargetSumValue(n: nat, t: int, m: nat)
    ensures TargetSum(n, t, m) == (CountInBand(n, t, m) * CountInBand(n, t, n)) as real
  {
    if m > 0 {
      TargetSumValue(n, t, m - 1);
      TargetRowSumValue(n, t, m - 1, n);
      var k := CountInBand(n, t, n);
      var x := CountInBand(n, t, m - 1);
      if InBand(m - 1, n, t) {
        assert CountInBand(n, t, m) == x + 1;
        MulSucc(x, k);
      } else {
        assert CountInBand(n, t, m) == x;
      }
    }
  }

  /** The target kernel sums to the square of the band width. */
  lemma TargetWindowSum(n: nat, t: int)
    ensures TargetSum(n, t, n) == (BandWidth(n, t) * BandWidth(n, t)) as real
  {
    TargetSumValue(n, t, n);
    CountInBandAll(n, t);
  }

  /** The detector's 6-sample target in its 64-sample window sums to 36. */
  lemma DefaultTargetWindowSum()
    ensures TargetSum(64, 6, 64) == 36.0
  {
    TargetWindowSum(64, 6);
    assert BandWidth(64, 6) == 6;
  }

  // ---------------------------------------------------------------------------
  // The cleared border

  /** Whether `_clear_border` zeroes cell (r, c): the slices `[0:b]` and
      `[-b:]` of either axis. */
  predicate OnBorder(r: int, c: int, b: int, rows: nat, cols: nat)
  {
    InSlice(r, 0, b, rows) || InSlice(r, -b, rows, rows) ||
    InSlice(c, 0, b, cols) || InSlice(c, -b, cols, cols)
  }

  /** `_clear_border`: zero the first and last `b` rows, then the first and
      last `b` columns, in place; the result is the same array. */
  method ClearBorder(roi: array2<real>, b: int) returns (r: array2<real>)
    modifies roi
    ensures r == roi
    ensures forall i, j :: 0 <= i < roi.Length0 && 0 <= j < roi.Length1 ==>
      roi[i, j] == (if OnBorder(i, j, b, roi.Length0, roi.Length1) then 0.0 else old(roi[i, j]))
  {
    FillBlock(roi, 0, b, 0, roi.Length1, 0.0);
    FillBlock(roi, -b, roi.Length0, 0, roi.Length1, 0.0);
    FillBlock(roi, 0, roi.Length0, 0, b, 0.0);
    FillBlock(roi, 0, roi.Length0, -b, roi.Length1, 0.0);
    return roi;
  }

  /** For a positive border width, the cleared cells are those within `b`
      of an edge, and no others. */
  lemma BorderCells(r: int, c: int, b: int, rows: nat, cols: nat)
    requires 1 <= b && 0 <= r < rows && 0 <= c < cols
    ensures OnBorder(r, c, b, rows, cols) <==> r < b || rows - b <= r || c < b || cols - b <= c
  {
  }

  /** A zero border width clears everything: `[-0:]` is the whole axis. */
  lemma ZeroBorderClearsAll(r: int, c: int, rows: nat, cols: nat)
    requires 0 <= r < rows && 0 <= c < cols
    ensures OnBorder(r, c, 0, rows, cols)
  {
  }

  // ---------------------------------------------------------------------------
  // The land filter

  /** A detection: (column, row) in image coordinates. */
  type Detection = (int, int)

  /** The geolocation of an image position, `(lat, lon)`. */
  type GeoLocate = (int, int) -> (real, real)

  /** The coastline test on a `[lon, lat]` point. */
  type OverLand = seq<real> -> bool

  const BufferLand := 500

  /** The eight probe directions, in the order they are tried. */
  const Probes: seq<(int, int)> := [(-1, -1), (-1, 1), (1, -1), (1, 1), (-1, 0), (1, 0), (0, -1), (0, 1)]

  /** Whether probe `k` of a detection, 500 samples off in its direction,
      falls on land; the land test receives longitude first. */
  predicate ProbeOnLand(det: Detection, k: nat, geo: GeoLocate, land: OverLand)
    requires k < |Probes|
  {
    var (a, b) := Probes[k];
    var (lat, lon) := geo(det.0 + a * BufferLand, det.1 + b * BufferLand);
    land([lon, lat])
  }

  predicate NearLand(det: Detection, geo: GeoLocate, land: OverLand)
  {
    exists k :: 0 <= k < |Probes| && ProbeOnLand(det, k, geo, land)
  }

  /** The detections no probe puts near land, in their original order. */
  function Kept(dets: seq<Detection>, geo: GeoLocate, land: OverLand): seq<Detection>
  {
    if dets == [] then []
    else
      var last := dets[|dets| - 1];
      Kept(dets[..|dets| - 1], geo, land) + (if NearLand(last, geo, land) then [] else [last])
  }

  /** The inner loop of `filter_detections`: the probes in order, stopping at
      the first one on land; `tried` counts the probes looked at. */
  method ProbeLand(det: Detection, geo: GeoLocate, land: OverLand) returns (isLand: bool, tried: nat)
    ensures isLand <==> NearLand(det, geo, land)
    ensures 1 <= tried <= |Probes|
    ensures forall j :: 0 <= j < tried - 1 ==> !ProbeOnLand(det, j, geo, land)
    ensures isLand ==> ProbeOnLand(det, tried - 1, geo, land)
    ensures !isLand ==> tried == |Probes|
  {
    isLand := false;
    tried := 0;
    while tried < |Probes|
      invariant tried <= |Probes| && !isLand
      invariant forall j :: 0 <= j < tried ==> !ProbeOnLand(det, j, geo, land)
    {
      var (a, b) := Probes[tried];
      var absoluteX := det.0 + a * BufferLand;
      var absoluteY := det.1 + b * BufferLand;
      var (lat, lon) := geo(absoluteX, absoluteY);
      isLand := isLand || land([lon, lat]);
      assert isLand == ProbeOnLand(det, tried, geo, land);
      tried := tried + 1;
      if isLand {
        return;
      }
    }
  }

  /** `filter_detections`: the detections with no probe on land. */
  method FilterDetections(geo: GeoLocate, land: OverLand, detections: seq<Detection>)
    returns (filtered: seq<Detection>)
    ensures filtered == Kept(detections, geo, land)
  {
    filtered := [];
    for i := 0 to |detections|
      invariant filtered == Kept(detections[..i], geo, land)
    {
      var det := detections[i];
      var isLand, _ := ProbeLand(det, geo, land);
      if !isLand {
        filtered := filtered + [det];
      }
      assert detections[..i + 1][..i] == detections[..i];
    }
    assert detections[..|detections|] == detections;
  }

  /** Filtering a concatenation filters each part: the kept detections
      keep their relative order. */
  lemma {:induction false} KeptAppend(a: seq<Detection>, b: seq<Detection>, geo: GeoLocate, land: OverLand)
    ensures Kept(a + b, geo, land) == Kept(a, geo, land) + Kept(b, geo, land)
    decreases |b|
  {
    if b == [] {
      assert a + b == a;
    } else {
      var b' := b[..|b| - 1];
      assert (a + b)[..|a + b| - 1] == a + b';
      assert (a + b)[|a + b| - 1] == b[|b| - 1];
      KeptAppend(a, b', geo, land);
    }
  }

  /** A detection is kept exactly when it is in the input and not near land. */
  lemma {:induction false} KeptMembers(dets: seq<Detection>, geo: GeoLocate, land: OverLand, d: Detection)
    ensures d in Kept(dets, geo, land) <==> d in dets && !NearLand(d, geo, land)
    ensures |Kept(dets, geo, land)| <= |dets|
  {
    if dets != [] {
      var init := dets[..|dets| - 1];
      KeptMembers(init, geo, land, d);
      assert dets == init + [dets[|dets| - 1]];
    }
  }

  /** Filtering twice changes nothing more. */
  lemma {:induction false} KeptIdempotent(dets: seq<Detection>, geo: GeoLocate, land: OverLand)
    ensures Kept(Kept(dets, geo, land), geo, land) == Kept(dets, geo, land)
  {
    if dets != [] {
      var init := dets[..|dets| - 1];
      var last := dets[|dets| - 1];
      KeptIdempotent(init, geo, land);
      var tail := if NearLand(last, geo, land) then [] else [last];
      assert Kept(dets, geo, land) == Kept(init, geo, land) + tail;
      KeptAppend(Kept(init, geo, land), tail, geo, land);
      if NearLand(last, geo, land) {
        assert Kept(init, geo, land) + [] == Kept(init, geo, land);
      } else {
        assert [last][..0] == [];
        assert Kept([last], geo, land) == Kept([], geo, land) + [last];
      }
    }
  }
}
