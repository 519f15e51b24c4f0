/** The Sentinel-1 reader: manifest decoding, product naming, deburst of SLC
    rasters, and geolocation by bilinear interpolation in the annotation's
    geolocation grid. XML parsing, GDAL raster reading and date parsing are
    replaced by already-parsed records; times are seconds as reals. */
module Sentinel {
  import opened Wrappers
  import opened PyOps
  import Interp

  datatype SentinelError =
    | KeyError            // a manifest key that is not present
    | IndexError          // a list index out of range
    | ZeroDivisionError   // division by a zero period, spacing or interval
    | UnknownProductType  // the `assert productType in ['SLC', 'GRD']`

  /** `get_sensor_name`. */
  const SensorName := "Sentinel"

  // ---------------------------------------------------------------------------
  // Manifest

  /** One `dataObject` of `manifest.safe`: its `repID` and its file href. */
  datatype DataObject = DataObject(repId: string, href: string)

  /** The hrefs of the data objects filed under `key`, in document order. */
  function HrefsOf(objs: seq<DataObject>, key: string): seq<string>
  {
    if objs == [] then []
    else
      var last := objs[|objs| - 1];
      HrefsOf(objs[..|objs| - 1], key) + (if last.repId == key then [last.href] else [])
  }

  function RepIds(objs: seq<DataObject>): set<string>
  {
    set k | 0 <= k < |objs| :: objs[k].repId
  }

  /** `_decode_manifest`: every href grouped under its `repID`, keeping
      document order within each key. */
  method DecodeManifest(objs: seq<DataObject>) returns (files: map<string, seq<string>>)
    ensures files.Keys == RepIds(objs)
    ensures forall key :: key in files ==> files[key] == HrefsOf(objs, key)
  {
    files := map[];
    for i := 0 to |objs|
      invariant files.Keys == RepIds(objs[..i])
      invariant forall key :: key in files ==> files[key] == HrefsOf(objs[..i], key)
    {
      var key := objs[i].repId;
      ghost var prev := files;
      if key !in files {
        files := files[key := []];
      }
      files := files[key := files[key] + [objs[i].href]];
      assert objs[..i + 1][..i] == objs[..i];
      forall k | k in files
        ensures files[k] == HrefsOf(objs[..i + 1], k)
      {
        assert HrefsOf(objs[..i + 1], k) ==
          HrefsOf(objs[..i], k) + (if objs[i].repId == k then [objs[i].href] else []);
        if k != key {
          assert files[k] == prev[k];
        } else if key !in prev {
          HrefsOfAbsent(objs[..i], key);
        }
      }
      assert RepIds(objs[..i + 1]) == RepIds(objs[..i]) + {key} by {
        assert forall k :: 0 <= k < i ==> objs[..i + 1][k] == objs[..i][k];
      }
    }
    assert objs[..|objs|] == objs;
  }

  lemma {:induction false} HrefsOfAbsent(objs: seq<DataObject>, key: string)
    requires key !in RepIds(objs)
    ensures HrefsOf(objs, key) == []
  {
    if objs != [] {
      var front := objs[..|objs| - 1];
      assert RepIds(front) <= RepIds(objs) by {
        assert forall k :: 0 <= k < |front| ==> front[k] == objs[k];
      }
      HrefsOfAbsent(front, key);
    }
  }

  /** An href filed under a key that appears in none of the data objects is
      nowhere, and every data object's href is filed under its own key. */
  lemma {:induction false} HrefOfEveryObject(objs: seq<DataObject>, k: nat)
    requires k < |objs|
    ensures objs[k].href in HrefsOf(objs, objs[k].repId)
  {
    var n := |objs|;
    if k < n - 1 {
      HrefOfEveryObject(objs[..n - 1], k);
    }
  }

  // ---------------------------------------------------------------------------
  // Product indexes

  /** `os.path.basename`: the text after the last '/'. */
  function Basename(p: string): (b: string)
    ensures '/' !in b
    ensures |b| <= |p| && b == p[|p| - |b|..]
  {
    if p == [] then ""
    else if p[|p| - 1] == '/' then ""
    else Basename(p[..|p| - 1]) + [p[|p| - 1]]
  }

  /** `s.split(sep)`. */
  function Split(s: string, sep: char): (parts: seq<string>)
    ensures 1 <= |parts|
    ensures forall k :: 0 <= k < |parts| ==> sep !in parts[k]
  {
    if s == [] then [""]
    else
      var rest := Split(s[..|s| - 1], sep);
      var c := s[|s| - 1];
      if c == sep then rest + [""]
      else rest[..|rest| - 1] + [rest[|rest| - 1] + [c]]
  }

  /** `sep.join(parts)`. */
  function Join(parts: seq<string>, sep: char): string
    requires 1 <= |parts|
  {
    if |parts| == 1 then parts[0]
    else Join(parts[..|parts| - 1], sep) + [sep] + parts[|parts| - 1]
  }

  /** Splitting and joining again gives back the string. */
  lemma {:induction false} JoinSplit(s: string, sep: char)
    ensures Join(Split(s, sep), sep) == s
  {
    if s != [] {
      var rest := Split(s[..|s| - 1], sep);
      JoinSplit(s[..|s| - 1], sep);
      var c := s[|s| - 1];
      var parts := Split(s, sep);
      if c == sep {
        assert parts[..|parts| - 1] == rest;
      } else {
        assert parts[..|parts| - 1] == rest[..|rest| - 1];
        if |rest| > 1 {
          assert rest[..|rest| - 1][..|rest| - 2] == rest[..|rest| - 2];
        }
      }
      assert s == s[..|s| - 1] + [c];
    }
  }

  /** Joining a prefix of the parts gives a prefix of the whole. */
  lemma {:induction false} JoinPrefix(parts: seq<string>, sep: char, k: nat)
    requires 1 <= k <= |parts|
    ensures Join(parts[..k], sep) <= Join(parts, sep)
    decreases |parts|
  {
    if k < |parts| {
      JoinPrefix(parts[..|parts| - 1], sep, k);
      assert parts[..|parts| - 1][..k] == parts[..k];
    } else {
      assert parts[..k] == parts;
    }
  }

  /** The product id of one annotation file: the directory's base name, a
      dot, then the first four '-'-separated parts of the file's base name. */
  function ProductId(baseNameId: string, path: string): Result<string, SentinelError>
  {
    var parts := Split(Basename(path), '-');
    if |parts| < 4 then Failure(IndexError)
    else Success(baseNameId + "." + Join(parts[..4], '-'))
  }

  /** The id is the base name, a dot, and a prefix of the file's base name
      that ends before its fourth '-'. */
  lemma ProductIdIsPrefix(baseNameId: string, path: string)
    requires ProductId(baseNameId, path).Success?
    ensures var id := ProductId(baseNameId, path).value;
      var n := |baseNameId| + 1;
      id[..n] == baseNameId + "." && id[n..] <= Basename(path) &&
      |Split(id[n..], '-')| == 4
  {
    var b := Basename(path);
    var parts := Split(b, '-');
    JoinSplit(b, '-');
    JoinPrefix(parts, '-', 4);
    var id := ProductId(baseNameId, path).value;
    var n := |baseNameId| + 1;
    assert id[n..] == Join(parts[..4], '-');
    SplitJoin(parts[..4], '-');
  }

  /** Joining parts that contain no separator and splitting again gives the parts. */
  lemma {:induction false} SplitJoin(parts: seq<string>, sep: char)
    requires 1 <= |parts|
    requires forall k :: 0 <= k < |parts| ==> sep !in parts[k]
    ensures Split(Join(parts, sep), sep) == parts
    decreases |parts|, |parts[|parts| - 1]|
  {
    var last := parts[|parts| - 1];
    if |parts| == 1 {
      SplitNoSep(last, sep);
    } else {
      var front := parts[..|parts| - 1];
      var joined := Join(front, sep);
      assert Join(parts, sep) == joined + [sep] + last;
      SplitJoin(front, sep);
      SplitAfterSep(joined, sep, last);
      assert Split(joined + [sep] + last, sep) == front + [last];
      assert front + [last] == parts;
    }
  }

  lemma {:induction false} SplitNoSep(s: string, sep: char)
    requires sep !in s
    ensures Split(s, sep) == [s]
  {
    if s != [] {
      SplitNoSep(s[..|s| - 1], sep);
      assert s[..|s| - 1] + [s[|s| - 1]] == s;
    }
  }

  /** Splitting `a + sep + b`, where b holds no separator, appends b as one more part. */
  lemma {:induction false} SplitAfterSep(a: string, sep: char, b: string)
    requires sep !in b
    ensures Split(a + [sep] + b, sep) == Split(a, sep) + [b]
  {
    if b == [] {
      assert (a + [sep] + b)[..|a|] == a;
    } else {
      var s := a + [sep] + b;
      var b' := b[..|b| - 1];
      assert s[..|s| - 1] == a + [sep] + b';
      SplitAfterSep(a, sep, b');
      assert b' + [b[|b| - 1]] == b;
    }
  }

  /** The loop of `get_product_indexes`: position i of the annotation-file
      list mapped to that file's product id. */
  method ProductIndexes(baseNameId: string, files: map<string, seq<string>>)
    returns (r: Result<map<nat, string>, SentinelError>)
    ensures "s1Level1ProductSchema" !in files ==> r == Failure(KeyError)
    ensures "s1Level1ProductSchema" in files ==>
      var paths := files["s1Level1ProductSchema"];
      (r.Success? <==> forall i :: 0 <= i < |paths| ==> ProductId(baseNameId, paths[i]).Success?) &&
      (r.Success? ==>
        (forall i: nat :: i in r.value <==> i < |paths|) &&
        forall i :: 0 <= i < |paths| ==> r.value[i] == ProductId(baseNameId, paths[i]).value)
  {
    if "s1Level1ProductSchema" !in files {
      return Failure(KeyError);
    }
    r := IndexProducts(baseNameId, files["s1Level1ProductSchema"]);
  }

  /** The `enumerate` loop over the annotation files. */
  method IndexProducts(baseNameId: string, paths: seq<string>)
    returns (r: Result<map<nat, string>, SentinelError>)
    ensures r.Success? <==> forall i :: 0 <= i < |paths| ==> ProductId(baseNameId, paths[i]).Success?
    ensures r.Success? ==>
      (forall i: nat :: i in r.value <==> i < |paths|) &&
      forall i :: 0 <= i < |paths| ==> r.value[i] == ProductId(baseNameId, paths[i]).value
  {
    var indexes: map<nat, string> := map[];
    for i := 0 to |paths|
      invariant forall k: nat :: k in indexes <==> k < i
      invariant forall k :: 0 <= k < i ==> ProductId(baseNameId, paths[k]) == Success(indexes[k])
    {
      var id := ProductId(baseNameId, paths[i]);
      if id.Failure? {
        return Failure(id.error);
      }
      indexes := indexes[i := id.value];
    }
    return Success(indexes);
  }

  // ---------------------------------------------------------------------------
  // Product type and image

  datatype ProductType = SLC | GRD

  /** The product type check of `process`. */
  function ParseProductType(s: string): (r: Result<ProductType, SentinelError>)
    ensures r == Success(SLC) <==> s == "SLC"
    ensures r == Success(GRD) <==> s == "GRD"
    ensures r.Failure? <==> s != "SLC" && s != "GRD"
  {
    if s == "SLC" then Success(SLC)
    else if s == "GRD" then Success(GRD)
    else Failure(UnknownProductType)
  }

  // ---------------------------------------------------------------------------
  // Deburst

  /** One entry of `swathTiming/burstList`: start time (seconds) and the
      `firstValidSample` markers, -1 for an invalid line. */
  datatype Burst = Burst(azimuthTime: real, firstValidSample: seq<int>)

  /** The number of leading invalid lines: the length of the leading run of -1. */
  function InvalidLines(markers: seq<int>): (n: nat)
    ensures n <= |markers|
    ensures forall k :: 0 <= k < n ==> markers[k] == -1
    ensures n < |markers| ==> markers[n] != -1
  {
    if markers == [] || markers[0] != -1 then 0 else 1 + InvalidLines(markers[1..])
  }

  /** The rows burst `i` contributes: `img[i*L:(i+1)*L][invalid_lines:]`, and
      all of `img[0:L]` for burst 0. */
  function BurstPart<T>(img: seq<seq<T>>, bursts: seq<Burst>, linesPerBurst: nat, i: nat): seq<seq<T>>
    requires i < |bursts|
  {
    if i == 0 then Slice(img, 0, linesPerBurst)
    else SliceFrom(BurstRows(img, linesPerBurst, i), InvalidLines(bursts[i].firstValidSample))
  }

  /** Raw rows [i*L, (i+1)*L) of the stack, clamped to its height. */
  function BurstRows<T>(img: seq<seq<T>>, linesPerBurst: nat, i: nat): seq<seq<T>>
  {
    Slice(img, i * linesPerBurst, (i + 1) * linesPerBurst)
  }

  /** The time of line y counted from a line at `firstLineTime`, lines
      being `interval` seconds apart. */
  function LineTime(firstLineTime: real, interval: real, y: int): real
  {
    firstLineTime + y as real * interval
  }

  /** Burst i's time origin: its start time, moved past its invalid lines. */
  function BurstTime(bursts: seq<Burst>, interval: real, i: nat): real
    requires i < |bursts|
  {
    if i == 0 then bursts[0].azimuthTime
    else LineTime(bursts[i].azimuthTime, interval, InvalidLines(bursts[i].firstValidSample))
  }

  /** `find_pixel_index`: the row, counted from the first burst's origin, at
      which a time falls. */
  function CutIndex(startTime: real, searchTime: real, interval: real): int
    requires interval != 0.0
  {
    Round((searchTime - startTime) / interval)
  }

  /** The stitched image after bursts 0..k-1: each later burst cuts the
      running image at its row and is appended below. */
  function Stitched<T>(img: seq<seq<T>>, bursts: seq<Burst>, linesPerBurst: nat, interval: real, k: nat): seq<seq<T>>
    requires 1 <= k <= |bursts| && interval != 0.0
  {
    if k == 1 then BurstPart(img, bursts, linesPerBurst, 0)
    else
      var cut := CutIndex(BurstTime(bursts, interval, 0), BurstTime(bursts, interval, k - 1), interval);
      Slice(Stitched(img, bursts, linesPerBurst, interval, k - 1), 0, cut)
      + BurstPart(img, bursts, linesPerBurst, k - 1)
  }

  /** `_deburst_image`. */
  function Deburst<T>(img: seq<seq<T>>, bursts: seq<Burst>, linesPerBurst: nat, interval: real): Result<seq<seq<T>>, SentinelError>
  {
    if bursts == [] then Failure(IndexError)            // burst_list[0]
    else if |bursts| == 1 then Success(BurstPart(img, bursts, linesPerBurst, 0))
    else if interval == 0.0 then Failure(ZeroDivisionError)
    else Success(Stitched(img, bursts, linesPerBurst, interval, |bursts|))
  }

  /** `_deburst_image` as the source runs it: a first pass collects each
      burst's valid rows and time origin, a second cuts and appends. */
  method DeburstImage<T>(img: seq<seq<T>>, bursts: seq<Burst>, linesPerBurst: nat, interval: real)
    returns (r: Result<seq<seq<T>>, SentinelError>)
    ensures r == Deburst(img, bursts, linesPerBurst, interval)
  {
    if bursts == [] {
      return Failure(IndexError);
    }
    var parts, times := CollectBursts(img, bursts, linesPerBurst, interval);
    if |bursts| == 1 {
      return Success(parts[0]);
    }
    if interval == 0.0 {
      return Failure(ZeroDivisionError);
    }
    var stitched := StitchBursts(img, bursts, linesPerBurst, interval, parts, times);
    return Success(stitched);
  }

  /** The first pass of `_deburst_image`: every burst's valid rows and time origin. */
  method CollectBursts<T>(img: seq<seq<T>>, bursts: seq<Burst>, linesPerBurst: nat, interval: real)
    returns (parts: seq<seq<seq<T>>>, times: seq<real>)
    requires bursts != []
    ensures |parts| == |bursts|
    ensures forall k :: 0 <= k < |bursts| ==> parts[k] == BurstPart(img, bursts, linesPerBurst, k)
    ensures |times| == |bursts|
    ensures forall k :: 0 <= k < |bursts| ==> times[k] == BurstTime(bursts, interval, k)
  {
    parts := [Slice(img, 0, linesPerBurst)];
    times := [bursts[0].azimuthTime];
    for i := 1 to |bursts|
      invariant |parts| == i
      invariant forall k :: 0 <= k < i ==> parts[k] == BurstPart(img, bursts, linesPerBurst, k)
      invariant |times| == i
      invariant forall k :: 0 <= k < i ==> times[k] == BurstTime(bursts, interval, k)
    {
      var part, invalidLines := ValidRows(img, bursts, linesPerBurst, i);
      PartsSnoc(img, bursts, linesPerBurst, parts, part);
      parts := parts + [part];
      var startTime := LineTime(bursts[i].azimuthTime, interval, invalidLines);
      TimesSnoc(bursts, interval, times, startTime);
      times := times + [startTime];
    }
  }

  lemma PartsSnoc<T>(img: seq<seq<T>>, bursts: seq<Burst>, linesPerBurst: nat, parts: seq<seq<seq<T>>>, part: seq<seq<T>>)
    requires |parts| < |bursts|
    requires forall k :: 0 <= k < |parts| ==> parts[k] == BurstPart(img, bursts, linesPerBurst, k)
    requires part == BurstPart(img, bursts, linesPerBurst, |parts|)
    ensures forall k :: 0 <= k <= |parts| ==> (parts + [part])[k] == BurstPart(img, bursts, linesPerBurst, k)
  {
    var next := parts + [part];
    forall k | 0 <= k <= |parts|
      ensures next[k] == BurstPart(img, bursts, linesPerBurst, k)
    {
      if k < |parts| {
        assert next[k] == parts[k];
      }
    }
  }

  lemma TimesSnoc(bursts: seq<Burst>, interval: real, times: seq<real>, t: real)
    requires |times| < |bursts|
    requires forall k :: 0 <= k < |times| ==> times[k] == BurstTime(bursts, interval, k)
    requires t == BurstTime(bursts, interval, |times|)
    ensures forall k :: 0 <= k <= |times| ==> (times + [t])[k] == BurstTime(bursts, interval, k)
  {
  }

  /** Burst i's rows of `img[i*L:(i+1)*L]` after its leading invalid lines,
      and the number of those lines. */
  method ValidRows<T>(img: seq<seq<T>>, bursts: seq<Burst>, linesPerBurst: nat, i: nat)
    returns (part: seq<seq<T>>, invalidLines: nat)
    requires 1 <= i < |bursts|
    ensures part == BurstPart(img, bursts, linesPerBurst, i)
    ensures invalidLines == InvalidLines(bursts[i].firstValidSample)
  {
    var burstRows := BurstRows(img, linesPerBurst, i);
    invalidLines := CountInvalidLines(bursts[i].firstValidSample);
    part := SliceFrom(burstRows, invalidLines);
  }

  /** The `invalid_lines` loop: count -1 markers until the first valid line. */
  method CountInvalidLines(markers: seq<int>) returns (n: nat)
    ensures n == InvalidLines(markers)
  {
    n := 0;
    while n < |markers| && markers[n] == -1
      invariant n <= |markers|
      invariant InvalidLines(markers[n..]) + n == InvalidLines(markers)
    {
      assert markers[n..][1..] == markers[n + 1..];
      n := n + 1;
    }
  }

  /** The second pass of `_deburst_image`: cut at each later burst's row and append it. */
  method StitchBursts<T>(img: seq<seq<T>>, bursts: seq<Burst>, linesPerBurst: nat, interval: real,
                         parts: seq<seq<seq<T>>>, times: seq<real>)
    returns (imgDeburst: seq<seq<T>>)
    requires interval != 0.0 && 1 <= |bursts| == |parts| == |times|
    requires forall k :: 0 <= k < |bursts| ==> parts[k] == BurstPart(img, bursts, linesPerBurst, k)
    requires forall k :: 0 <= k < |bursts| ==> times[k] == BurstTime(bursts, interval, k)
    ensures imgDeburst == Stitched(img, bursts, linesPerBurst, interval, |bursts|)
  {
    var firstStartTime := times[0];
    imgDeburst := parts[0];
    for i := 1 to |bursts|
      invariant imgDeburst == Stitched(img, bursts, linesPerBurst, interval, i)
    {
      var indexToCut := CutIndex(firstStartTime, times[i], interval);
      imgDeburst := Slice(imgDeburst, 0, indexToCut);
      imgDeburst := imgDeburst + parts[i];
    }
  }

  /** Burst 0 contributes raw rows [0, L) and burst i >= 1 raw rows
      [i*L + invalid_lines, (i+1)*L), for a raw stack holding all its bursts. */
  lemma BurstPartRows<T>(img: seq<seq<T>>, bursts: seq<Burst>, linesPerBurst: nat, i: nat)
    requires i < |bursts| && (i + 1) * linesPerBurst <= |img|
    ensures var skip := if i == 0 then 0 else InvalidLines(bursts[i].firstValidSample);
      var lo := i * linesPerBurst + (if skip < linesPerBurst then skip else linesPerBurst);
      BurstPart(img, bursts, linesPerBurst, i) == img[lo..(i + 1) * linesPerBurst]
  {
    var hi := (i + 1) * linesPerBurst;
    assert i * linesPerBurst + linesPerBurst == hi;
    if i == 0 {
      SliceWithin(img, 0, linesPerBurst);
    } else {
      var rows := img[i * linesPerBurst..hi];
      SliceWithin(img, i * linesPerBurst, hi);
      assert BurstRows(img, linesPerBurst, i) == rows;
      var skip := InvalidLines(bursts[i].firstValidSample);
      var m := if skip < linesPerBurst then skip else linesPerBurst;
      assert SliceFrom(rows, skip) == rows[m..];
      assert rows[m..] == img[i * linesPerBurst + m..hi];
    }
  }

  /** One stitch step keeps the first `cut` rows of the running image (all
      of them when the cut is past its end, counted from the end when
      negative) and appends the burst's valid rows in full. */
  lemma StitchStep<T>(img: seq<seq<T>>, bursts: seq<Burst>, linesPerBurst: nat, interval: real, k: nat)
    requires 2 <= k <= |bursts| && interval != 0.0
    ensures var prev := Stitched(img, bursts, linesPerBurst, interval, k - 1);
      var cut := CutIndex(BurstTime(bursts, interval, 0), BurstTime(bursts, interval, k - 1), interval);
      var kept := SliceBound(cut, |prev|);
      var part := BurstPart(img, bursts, linesPerBurst, k - 1);
      var next := Stitched(img, bursts, linesPerBurst, interval, k);
      |next| == kept + |part| && next[..kept] == prev[..kept] && next[kept..] == part
  {
  }

  /** The stitched image never loses the rows of burst 0 before the first
      cut, and its height is the sum of what each step keeps and appends:
      when every cut falls inside the running image, the height is the last
      cut plus the last burst's valid rows. */
  lemma StitchedHeight<T>(img: seq<seq<T>>, bursts: seq<Burst>, linesPerBurst: nat, interval: real, k: nat)
    requires 2 <= k <= |bursts| && 0.0 < interval
    requires var cut := CutIndex(BurstTime(bursts, interval, 0), BurstTime(bursts, interval, k - 1), interval);
      0 <= cut <= |Stitched(img, bursts, linesPerBurst, interval, k - 1)|
    ensures |Stitched(img, bursts, linesPerBurst, interval, k)| ==
      CutIndex(BurstTime(bursts, interval, 0), BurstTime(bursts, interval, k - 1), interval)
      + |BurstPart(img, bursts, linesPerBurst, k - 1)|
  {
    StitchStep(img, bursts, linesPerBurst, interval, k);
  }

  /** `get_image`: a GRD raster is returned as read; an SLC raster is debursted. */
  function ProductImage<T>(productType: ProductType, raw: seq<seq<T>>, bursts: seq<Burst>, linesPerBurst: nat, interval: real)
    : (r: Result<seq<seq<T>>, SentinelError>)
    ensures productType == GRD ==> r == Success(raw)
    ensures productType == SLC ==> r == Deburst(raw, bursts, linesPerBurst, interval)
  {
    if productType == GRD then Success(raw) else Deburst(raw, bursts, linesPerBurst, interval)
  }

  // ---------------------------------------------------------------------------
  // Geolocation

  /** The lat/lon/incidence record of one geolocation grid point. */
  datatype GeoNode = GeoNode(lat: real, lon: real, inc: real)

  /** One `geolocationGridPoint` of the annotation file. */
  datatype GridPoint = GridPoint(azimuthTime: real, slantRangeTime: real, pixel: int, node: GeoNode)

  /** The range period: the first index after 0 that repeats the first
      pixel value, i.e. the number of grid points per grid line; 0 when
      there is none. */
  function RangePeriod(pixels: seq<int>): (p: nat)
    ensures p == 0 <==> forall i :: 1 <= i < |pixels| ==> pixels[i] != pixels[0]
    ensures p != 0 ==> (1 <= p < |pixels| && pixels[p] == pixels[0] &&
                        forall i :: 1 <= i < p ==> pixels[i] != pixels[0])
  {
    RangePeriodFrom(pixels, 1)
  }

  function RangePeriodFrom(pixels: seq<int>, i: nat): (p: nat)
    requires 1 <= i
    ensures p == 0 <==> forall j :: i <= j < |pixels| ==> pixels[j] != pixels[0]
    ensures p != 0 ==> (i <= p < |pixels| && pixels[p] == pixels[0] &&
                        forall j :: i <= j < p ==> pixels[j] != pixels[0])
    decreases |pixels| - i
  {
    if i >= |pixels| then 0
    else if pixels[i] == pixels[0] then i
    else RangePeriodFrom(pixels, i + 1)
  }

  /** The azimuth loop from grid line k on: grid lines are scanned at
      stride `rp` and the index is the last line whose time is before
      `yTime`. */
  function AzimuthScan(times: seq<real>, rp: nat, yTime: real, k: nat): (a: nat)
    requires 1 <= rp
    requires 0 < k ==> Times(rp, k - 1) < |times| && times[Times(rp, k - 1)] < yTime
    ensures a == 0 || (Times(rp, a) < |times| && times[Times(rp, a)] < yTime)
    ensures (0 < k || (0 < |times| && times[0] < yTime)) && Times(rp, a + 1) < |times| ==>
      yTime <= times[Times(rp, a + 1)]
    decreases |times| - Times(rp, k)
  {
    if Times(rp, k) >= |times| || yTime <= times[Times(rp, k)] then (if k == 0 then 0 else k - 1)
    else AzimuthScan(times, rp, yTime, k + 1)
  }

  /** The azimuth index of the grid line just before `yTime`. */
  function AzimuthIndex(times: seq<real>, rp: nat, yTime: real): (a: nat)
    requires 1 <= rp
    ensures a == 0 || (Times(rp, a) < |times| && times[Times(rp, a)] < yTime)
    ensures 0 < |times| && times[0] < yTime && Times(rp, a + 1) < |times| ==> yTime <= times[Times(rp, a + 1)]
  {
    AzimuthScan(times, rp, yTime, 0)
  }

  /** The range loop over the `rp` grid points of the line starting at
      `base`, from point i on: the index is the last point whose pixel is
      before `x`. Reading past the table is an IndexError. */
  function RangeScan(pixels: seq<int>, base: nat, rp: nat, x: int, i: nat): (r: Result<nat, SentinelError>)
    requires i <= rp
    requires 0 < i ==> base + i - 1 < |pixels| && pixels[base + i - 1] < x
    ensures r.Success? ==> r.value < rp || r.value == 0
    ensures r.Success? && 0 < r.value ==> base + r.value < |pixels| && pixels[base + r.value] < x
    ensures (r.Success? && (0 < i || (base < |pixels| && pixels[base] < x)) && r.value + 1 < rp &&
             base + r.value + 1 < |pixels|) ==> x <= pixels[base + r.value + 1]
    ensures base + rp <= |pixels| ==> r.Success?
    decreases rp - i
  {
    if i == rp then Success(if i == 0 then 0 else i - 1)
    else if base + i >= |pixels| then Failure(IndexError)
    else if x <= pixels[base + i] then Success(if i == 0 then 0 else i - 1)
    else RangeScan(pixels, base, rp, x, i + 1)
  }

  /** `max(min(v, period - 2), 0)`: the first corner of the grid cell. */
  function Clamp(v: int, period: int): (c: int)
    ensures 0 <= c
    ensures 2 <= period ==> c <= period - 2
    ensures 0 <= v <= period - 2 ==> c == v
  {
    var m := if v < period - 2 then v else period - 2;
    if m > 0 then m else 0
  }

  /** The range fraction `(x - r_min)/(r_max - r_min)` as written: with
      integer pixels Python 2 floors the quotient. */
  function XFracAsWritten(x: int, rMin: int, rMax: int): real
    requires rMax != rMin
  {
    FloorDiv(x - rMin, rMax - rMin) as real
  }

  /** The range fraction as intended: a true ratio, so that the
      interpolation moves linearly across the cell. */
  function XFrac(x: int, rMin: int, rMax: int): (f: real)
    requires rMax != rMin
    ensures f * (rMax - rMin) as real == (x - rMin) as real
    ensures x == rMin ==> f == 0.0
  {
    (x - rMin) as real / (rMax - rMin) as real
  }

  /** As written, every pixel strictly inside a grid cell gets range
      fraction 0: the geolocation is constant across the cell and jumps at
      its edge. Halfway across the cell [0, 10] the fraction is 0, not 0.5. */
  lemma XFracAsWrittenIsFlat(x: int, rMin: int, rMax: int)
    requires rMin <= x < rMax
    ensures XFracAsWritten(x, rMin, rMax) == 0.0
    ensures XFracAsWritten(5, 0, 10) == 0.0 && XFrac(5, 0, 10) == 0.5
  {
    var q := FloorDiv(x - rMin, rMax - rMin);
    if q >= 1 {
      MulLeft(1, q, rMax - rMin);
    }
    assert FloorDiv(5, 10) == 0;
  }

  /** The intended fraction is 0 at the cell's first pixel, 1 at its last,
      and in between inside the cell. */
  lemma XFracSpansCell(x: int, rMin: int, rMax: int)
    requires rMin < rMax && rMin <= x <= rMax
    ensures 0.0 <= XFrac(x, rMin, rMax) <= 1.0
    ensures XFrac(x, rMin, rMax) == 0.0 <==> x == rMin
    ensures XFrac(x, rMin, rMax) == 1.0 <==> x == rMax
  {
    var f := XFrac(x, rMin, rMax);
    var d := (rMax - rMin) as real;
    if f < 0.0 {
      RealMulNeg(f, d);
    }
    if f > 1.0 {
      RealMulGt1(f, d);
    }
  }

  lemma RealMulNeg(f: real, d: real)
    requires f < 0.0 < d
    ensures f * d < 0.0
  {
  }

  lemma RealMulGt1(f: real, d: real)
    requires f > 1.0 && d > 0.0
    ensures f * d > d
  {
    assert f * d - d == (f - 1.0) * d;
  }

  /** The grid cell of `getGeoLocation`: the table index of the first
      corner of the cell holding pixel column x at time yTime, with the
      period that separates grid lines. */
  function GridCell(pixels: seq<int>, times: seq<real>, x: int, yTime: real): (r: Result<(nat, nat), SentinelError>)
    ensures r.Success? ==> 1 <= r.value.1 == RangePeriod(pixels)
  {
    var rp := RangePeriod(pixels);
    if rp == 0 then Failure(ZeroDivisionError)
    else
      var ap := |pixels| / rp;
      var a := AzimuthIndex(times, rp, yTime);
      var r := RangeScan(pixels, Times(rp, a), rp, x, 0);
      if r.Failure? then Failure(IndexError)
      else Success((Times(rp, Clamp(a, ap)) + Clamp(r.value, rp), rp))
  }

  /** `getGeoLocation`: lat/lon interpolated bilinearly between the four
      corners of the grid cell holding pixel (x, y). */
  function GeoLocation(pixels: seq<int>, times: seq<real>, grid: seq<GeoNode>,
                       firstLineTime: real, interval: real, x: int, y: int): Result<(real, real), SentinelError>
    requires |pixels| == |times| == |grid|
  {
    var yTime := LineTime(firstLineTime, interval, y);
    var cell := GridCell(pixels, times, x, yTime);
    if cell.Failure? then Failure(cell.error)
    else CellLocation(pixels, times, grid, cell.value.0, cell.value.1, x, yTime)
  }

  /** The interpolation inside the cell whose first corner is table entry
      `i00`. The corner one grid line further, `(quad_a + 1)*range_period +
      quad_r`, is written `i00 + rp`. */
  function CellLocation(pixels: seq<int>, times: seq<real>, grid: seq<GeoNode>,
                        i00: nat, rp: nat, x: int, yTime: real): Result<(real, real), SentinelError>
    requires |pixels| == |times| == |grid|
  {
    if i00 + 1 >= |pixels| then Failure(IndexError)
    else if pixels[i00 + 1] == pixels[i00] then Failure(ZeroDivisionError)
    else if i00 + rp + 1 >= |times| then Failure(IndexError)
    else if times[i00 + rp + 1] == times[i00] then Failure(ZeroDivisionError)
    else
      var xf := XFrac(x, pixels[i00], pixels[i00 + 1]);
      var yf := (yTime - times[i00]) / (times[i00 + rp + 1] - times[i00]);
      Success((Interp.Bilinear(xf, yf, grid[i00].lat, grid[i00 + 1].lat, grid[i00 + rp + 1].lat, grid[i00 + rp].lat),
               Interp.Bilinear(xf, yf, grid[i00].lon, grid[i00 + 1].lon, grid[i00 + rp + 1].lon, grid[i00 + rp].lon)))
  }

  /** On a full grid of at least 2 x 2 points every index the lookup reads is
      inside the tables: no pixel, wherever it lies, raises an IndexError. */
  lemma GeoLocationInBounds(pixels: seq<int>, times: seq<real>, grid: seq<GeoNode>,
                            firstLineTime: real, interval: real, x: int, y: int, lines: nat)
    requires |pixels| == |times| == |grid|
    requires 2 <= RangePeriod(pixels) && 2 <= lines && |pixels| == Times(RangePeriod(pixels), lines)
    ensures GeoLocation(pixels, times, grid, firstLineTime, interval, x, y) != Failure(IndexError)
  {
    var yTime := LineTime(firstLineTime, interval, y);
    var rp := RangePeriod(pixels);
    var n := |pixels|;
    var cell := GridCell(pixels, times, x, yTime);
    GridCellInBounds(pixels, times, x, yTime, lines);
  }

  /** On a full grid of `lines` grid lines of at least 2 points each, the
      cell's far corner `i00 + rp + 1` is inside the tables. */
  lemma GridCellInBounds(pixels: seq<int>, times: seq<real>, x: int, yTime: real, lines: nat)
    requires |pixels| == |times|
    requires 2 <= RangePeriod(pixels) && 2 <= lines && |pixels| == Times(RangePeriod(pixels), lines)
    ensures GridCell(pixels, times, x, yTime).Success?
    ensures GridCell(pixels, times, x, yTime).value.0 + RangePeriod(pixels) + 1 < |pixels|
  {
    var rp := RangePeriod(pixels);
    var n := |pixels|;
    TimesDiv(rp, lines);
    assert n / rp == lines;
    var a := AzimuthIndex(times, rp, yTime);
    assert a + 1 <= lines by {
      if a >= lines {
        TimesMonotone(rp, lines, a);
      }
    }
    TimesMonotone(rp, a + 1, lines);
    var r := RangeScan(pixels, Times(rp, a), rp, x, 0);
    assert r.Success?;
    var qa := Clamp(a, lines);
    var qr := Clamp(r.value, rp);
    TimesMonotone(rp, qa + 2, lines);
    assert Times(rp, qa) + qr + rp + 1 < n;
  }

  /** At a grid point that is the first corner of its cell the lookup returns
      that grid point's own latitude and longitude. */
  lemma GeoLocationAtGridPoint(pixels: seq<int>, times: seq<real>, grid: seq<GeoNode>,
                               firstLineTime: real, interval: real, x: int, y: int)
    requires |pixels| == |times| == |grid|
    requires GeoLocation(pixels, times, grid, firstLineTime, interval, x, y).Success?
    requires var i := GridCell(pixels, times, x, LineTime(firstLineTime, interval, y)).value.0;
      x == pixels[i] && LineTime(firstLineTime, interval, y) == times[i]
    ensures var i := GridCell(pixels, times, x, LineTime(firstLineTime, interval, y)).value.0;
      GeoLocation(pixels, times, grid, firstLineTime, interval, x, y) == Success((grid[i].lat, grid[i].lon))
  {
    var yTime := LineTime(firstLineTime, interval, y);
    var (i, rp) := GridCell(pixels, times, x, yTime).value;
    CellLocationAtCorner(pixels, times, grid, i, rp, x, yTime);
  }

  lemma CellLocationAtCorner(pixels: seq<int>, times: seq<real>, grid: seq<GeoNode>,
                             i00: nat, rp: nat, x: int, yTime: real)
    requires |pixels| == |times| == |grid|
    requires CellLocation(pixels, times, grid, i00, rp, x, yTime).Success?
    requires i00 < |pixels| && x == pixels[i00] && yTime == times[i00]
    ensures CellLocation(pixels, times, grid, i00, rp, x, yTime) == Success((grid[i00].lat, grid[i00].lon))
  {
    var xf := XFrac(x, pixels[i00], pixels[i00 + 1]);
    var yf := (yTime - times[i00]) / (times[i00 + rp + 1] - times[i00]);
    assert xf == 0.0 && yf == 0.0;
  }

  // ---------------------------------------------------------------------------
  // The loops of `getGeoLocation`

  /** The range-period loop. */
  method FindRangePeriod(pixels: seq<int>) returns (rangePeriod: nat)
    ensures rangePeriod == RangePeriod(pixels)
  {
    rangePeriod := 0;
    var i := 1;
    while i < |pixels|
      invariant 1 <= i
      invariant RangePeriodFrom(pixels, i) == RangePeriod(pixels)
      decreases |pixels| - i
    {
      if pixels[i] == pixels[0] {
        rangePeriod := i;
        return;
      }
      i := i + 1;
    }
  }

  /** The azimuth loop: `for i in range(0, len(table), range_period)`. */
  method FindAzimuthIndex(times: seq<real>, rangePeriod: nat, yTime: real) returns (aIndex: nat)
    requires 1 <= rangePeriod
    ensures aIndex == AzimuthIndex(times, rangePeriod, yTime)
  {
    aIndex := 0;
    var i := 0;
    ghost var k := 0;
    while i < |times|
      invariant i == Times(rangePeriod, k)
      invariant aIndex == (if k == 0 then 0 else k - 1)
      invariant 0 < k ==> Times(rangePeriod, k - 1) < |times| && times[Times(rangePeriod, k - 1)] < yTime
      invariant AzimuthScan(times, rangePeriod, yTime, k) == AzimuthIndex(times, rangePeriod, yTime)
      decreases |times| - i
    {
      if yTime <= times[i] {
        break;
      }
      TimesDiv(rangePeriod, k);
      aIndex := i / rangePeriod;
      i := i + rangePeriod;
      k := k + 1;
    }
  }

  /** The range loop: `for i in range(range_period)` over one grid line. */
  method FindRangeIndex(pixels: seq<int>, base: nat, rangePeriod: nat, x: int)
    returns (r: Result<nat, SentinelError>)
    ensures r == RangeScan(pixels, base, rangePeriod, x, 0)
  {
    var rIndex := 0;
    var i := 0;
    while i < rangePeriod
      invariant i <= rangePeriod
      invariant rIndex == (if i == 0 then 0 else i - 1)
      invariant 0 < i ==> base + i - 1 < |pixels| && pixels[base + i - 1] < x
      invariant RangeScan(pixels, base, rangePeriod, x, i) == RangeScan(pixels, base, rangePeriod, x, 0)
    {
      if base + i >= |pixels| {
        return Failure(IndexError);
      }
      if x <= pixels[base + i] {
        break;
      }
      rIndex := i;
      i := i + 1;
    }
    return Success(rIndex);
  }

  /** The period, azimuth and range loops of `getGeoLocation`, and the clamp
      to a cell inside the grid. */
  method FindGridCell(pixels: seq<int>, times: seq<real>, x: int, yTime: real)
    returns (r: Result<(nat, nat), SentinelError>)
    ensures r == GridCell(pixels, times, x, yTime)
  {
    var rangePeriod := FindRangePeriod(pixels);
    if rangePeriod == 0 {
      return Failure(ZeroDivisionError);
    }
    var azimuthPeriod := |pixels| / rangePeriod;
    var aIndex := FindAzimuthIndex(times, rangePeriod, yTime);
    var rIndex := FindRangeIndex(pixels, Times(rangePeriod, aIndex), rangePeriod, x);
    if rIndex.Failure? {
      return Failure(IndexError);
    }
    var quadA := Clamp(aIndex, azimuthPeriod);
    var quadR := Clamp(rIndex.value, rangePeriod);
    return Success((Times(rangePeriod, quadA) + quadR, rangePeriod));
  }

  /** The fractions and the bilinear interpolation of `getGeoLocation`,
      read from the tables in the source's order. */
  method InterpolateCell(pixels: seq<int>, times: seq<real>, grid: seq<GeoNode>,
                         i00: nat, rp: nat, x: int, yTime: real)
    returns (r: Result<(real, real), SentinelError>)
    requires |pixels| == |times| == |grid|
    ensures r == CellLocation(pixels, times, grid, i00, rp, x, yTime)
  {
    if i00 + 1 >= |pixels| {
      return Failure(IndexError);
    }
    var rMin := pixels[i00];
    var rMax := pixels[i00 + 1];
    if rMax == rMin {
      return Failure(ZeroDivisionError);
    }
    var xFrac := XFrac(x, rMin, rMax);
    if i00 + rp + 1 >= |times| {
      return Failure(IndexError);
    }
    var aMax := times[i00 + rp + 1];
    var aMin := times[i00];
    if aMax == aMin {
      return Failure(ZeroDivisionError);
    }
    var yFrac := (yTime - aMin) / (aMax - aMin);
    var p1, p2 := grid[i00], grid[i00 + 1];
    var p3, p4 := grid[i00 + rp + 1], grid[i00 + rp];
    var biLon := Interp.Bilinear(xFrac, yFrac, p1.lon, p2.lon, p3.lon, p4.lon);
    var biLat := Interp.Bilinear(xFrac, yFrac, p1.lat, p2.lat, p3.lat, p4.lat);
    return Success((biLat, biLon));
  }

  // ---------------------------------------------------------------------------
  // The product

  /** A Sentinel-1 product directory: the manifest's file groups and, once
      `Process` has read one annotation file, its geolocation tables. */
  class SentinelProduct {
    const baseNameId: string
    const objectFiles: map<string, seq<string>>
    var productType: string   // the annotation's `productType` text, stored before it is checked
    var azimuthTimeInterval: real
    var productFirstLineTime: real
    var azimuthTimeTable: seq<real>
    var rangeTimeTable: seq<real>
    var rangeIndexTable: seq<int>
    var datagridTable: seq<GeoNode>
    var processed: bool

    /** The four geolocation tables run in step. */
    predicate Valid()
      reads this
    {
      |azimuthTimeTable| == |rangeTimeTable| == |rangeIndexTable| == |datagridTable|
    }

    /** `__init__`: the directory's base name and the decoded manifest. */
    constructor (baseDir: string, manifest: seq<DataObject>)
      ensures baseNameId == Basename(baseDir)
      ensures objectFiles.Keys == RepIds(manifest)
      ensures forall key :: key in objectFiles ==> objectFiles[key] == HrefsOf(manifest, key)
      ensures !processed && Valid()
    {
      baseNameId := Basename(baseDir);
      var files := DecodeManifest(manifest);
      objectFiles := files;
      productType := "";
      azimuthTimeInterval := 0.0;
      productFirstLineTime := 0.0;
      azimuthTimeTable := [];
      rangeTimeTable := [];
      rangeIndexTable := [];
      datagridTable := [];
      processed := false;
    }

    /** `get_product_indexes`. */
    method GetProductIndexes() returns (r: Result<map<nat, string>, SentinelError>)
      ensures "s1Level1ProductSchema" !in objectFiles ==> r == Failure(KeyError)
      ensures "s1Level1ProductSchema" in objectFiles ==>
        var paths := objectFiles["s1Level1ProductSchema"];
        (r.Success? <==> forall i :: 0 <= i < |paths| ==> ProductId(baseNameId, paths[i]).Success?) &&
        (r.Success? ==>
          (forall i: nat :: i in r.value <==> i < |paths|) &&
          forall i :: 0 <= i < |paths| ==> r.value[i] == ProductId(baseNameId, paths[i]).value)
    {
      r := ProductIndexes(baseNameId, objectFiles);
    }

    /** `process`: look up the product's files, store and check its type,
        and read the geolocation grid into the four tables, in document
        order. The type is stored before the check, so a rejected type
        stays behind. */
    method Process(productIndex: int, productTypeName: string, interval: real, firstLineTime: real,
                   points: seq<GridPoint>) returns (r: Result<(), SentinelError>)
      modifies this
      ensures FileLookup(objectFiles, productIndex).Failure? ==>
        r == Failure(FileLookup(objectFiles, productIndex).error) && unchanged(this)
      ensures FileLookup(objectFiles, productIndex).Success? ==> productType == productTypeName
      ensures r.Success? <==> ProcessLookup(objectFiles, productIndex, productTypeName).Success?
      ensures r.Failure? ==>
        unchanged(this`azimuthTimeInterval, this`productFirstLineTime, this`azimuthTimeTable,
                  this`rangeTimeTable, this`rangeIndexTable, this`datagridTable, this`processed)
      ensures r.Success? ==>
        processed && Valid() &&
        azimuthTimeInterval == interval && productFirstLineTime == firstLineTime &&
        |azimuthTimeTable| == |points| &&
        forall k :: 0 <= k < |points| ==>
          azimuthTimeTable[k] == points[k].azimuthTime && rangeTimeTable[k] == points[k].slantRangeTime &&
          rangeIndexTable[k] == points[k].pixel && datagridTable[k] == points[k].node
    {
      var files := FileLookup(objectFiles, productIndex);
      if files.Failure? {
        return Failure(files.error);
      }
      productType := productTypeName;
      var t := ParseProductType(productTypeName);
      if t.Failure? {
        return Failure(t.error);
      }
      var azimuthTimes, rangeTimes, rangeIndexes, nodes := [], [], [], [];
      for i := 0 to |points|
        invariant |azimuthTimes| == |rangeTimes| == |rangeIndexes| == |nodes| == i
        invariant forall k :: 0 <= k < i ==> azimuthTimes[k] == points[k].azimuthTime
        invariant forall k :: 0 <= k < i ==> rangeTimes[k] == points[k].slantRangeTime
        invariant forall k :: 0 <= k < i ==> rangeIndexes[k] == points[k].pixel
        invariant forall k :: 0 <= k < i ==> nodes[k] == points[k].node
      {
        azimuthTimes := azimuthTimes + [points[i].azimuthTime];
        rangeTimes := rangeTimes + [points[i].slantRangeTime];
        rangeIndexes := rangeIndexes + [points[i].pixel];
        nodes := nodes + [points[i].node];
      }
      azimuthTimeInterval := interval;
      productFirstLineTime := firstLineTime;
      azimuthTimeTable, rangeTimeTable, rangeIndexTable, datagridTable := azimuthTimes, rangeTimes, rangeIndexes, nodes;
      processed := true;
      return Success(());
    }

    /** `get_image`: the raster as read for GRD, debursted for any other
        stored type text. */
    method GetImage<T>(raw: seq<seq<T>>, bursts: seq<Burst>, linesPerBurst: nat)
      returns (r: Result<seq<seq<T>>, SentinelError>)
      requires processed
      ensures r == ProductImage(if productType == "GRD" then GRD else SLC, raw, bursts, linesPerBurst,
                                azimuthTimeInterval)
    {
      if productType == "GRD" {
        return Success(raw);
      }
      r := DeburstImage(raw, bursts, linesPerBurst, azimuthTimeInterval);
    }

    /** `getGeoLocation`: pixel (x, y) to (lat, lon). */
    method GetGeoLocation(x: int, y: int) returns (r: Result<(real, real), SentinelError>)
      requires processed && Valid()
      ensures r == GeoLocation(rangeIndexTable, azimuthTimeTable, datagridTable,
                               productFirstLineTime, azimuthTimeInterval, x, y)
    {
      var yTime := LineTime(productFirstLineTime, azimuthTimeInterval, y);
      var cell := FindGridCell(rangeIndexTable, azimuthTimeTable, x, yTime);
      if cell.Failure? {
        return Failure(cell.error);
      }
      r := InterpolateCell(rangeIndexTable, azimuthTimeTable, datagridTable, cell.value.0, cell.value.1, x, yTime);
    }
  }

  /** The file lookups of `process`: each of the four manifest groups must
      exist, the product index must be a valid (possibly negative) list
      index into the three per-product groups and the quick-look group must
      be non-empty. */
  function FileLookup(files: map<string, seq<string>>, productIndex: int): (r: Result<(), SentinelError>)
    ensures r.Success? <==>
      (forall key :: key in {"s1Level1MeasurementSchema", "s1Level1CalibrationSchema", "s1Level1ProductSchema"} ==>
         key in files && -|files[key]| <= productIndex < |files[key]|) &&
      "s1Level1QuickLookSchema" in files && 0 < |files["s1Level1QuickLookSchema"]|
    ensures r.Failure? ==> r.error == KeyError || r.error == IndexError
  {
    if "s1Level1MeasurementSchema" !in files then Failure(KeyError)
    else if ListIndex(productIndex, |files["s1Level1MeasurementSchema"]|).None? then Failure(IndexError)
    else if "s1Level1CalibrationSchema" !in files then Failure(KeyError)
    else if ListIndex(productIndex, |files["s1Level1CalibrationSchema"]|).None? then Failure(IndexError)
    else if "s1Level1ProductSchema" !in files then Failure(KeyError)
    else if ListIndex(productIndex, |files["s1Level1ProductSchema"]|).None? then Failure(IndexError)
    else if "s1Level1QuickLookSchema" !in files then Failure(KeyError)
    else if |files["s1Level1QuickLookSchema"]| == 0 then Failure(IndexError)
    else Success(())
  }

  /** The file lookups, then the type check of `process`. */
  function ProcessLookup(files: map<string, seq<string>>, productIndex: int, productTypeName: string)
    : (r: Result<ProductType, SentinelError>)
    ensures r.Success? <==>
      FileLookup(files, productIndex).Success? && (productTypeName == "SLC" || productTypeName == "GRD")
    ensures r.Success? ==> ParseProductType(productTypeName) == r
  {
    var found := FileLookup(files, productIndex);
    if found.Failure? then Failure(found.error) else ParseProductType(productTypeName)
  }
}
