/** The COSAR raster layout of TerraSAR-X Level 1B products (Level 1B Product
    Format Specification): bursts stacked vertically, each a header block of
    four row-widths whose first 20 bytes are five big-endian signed 32-bit
    fields, followed by `azimuth_size` rows of `range_size + 2` samples, each
    sample a big-endian int16 real part followed by an int16 imaginary part.
    The file is given as an in-memory byte sequence. */
module Cosar {
  import opened Wrappers
  import opened PyOps

  type Byte = x: int | 0 <= x < 256

  /** One element of the numpy dtype `[('r', '>i2'), ('i', '>i2')]`. */
  datatype Sample = Sample(r: int, i: int)

  type Raster = seq<seq<Sample>>

  datatype CosError =
    | ShortHeader          // struct.error: fewer than 20 header bytes to unpack
    | NegativeRangeSize    // the first header's range sample count is negative
    | NegativeAzimuthSize  // np.ndarray refuses a negative row count
    | TruncatedBurst       // the file ends inside a burst's rows
    | AmbiguousTruthValue  // `if img_map` on a numpy array of several elements

  const HeaderFieldBytes := 20   // struct '>lllll'
  const SampleBytes := 4         // two big-endian int16

  predicate IsInt16(v: int) { -0x8000 <= v < 0x8000 }
  predicate IsInt32(v: int) { -0x8000_0000 <= v < 0x8000_0000 }

  /** A big-endian two's-complement int16. */
  function Int16Of(q: seq<Byte>): int
    requires |q| == 2
  {
    var u := (q[0] as int) * 0x100 + q[1];
    if u >= 0x8000 then u - 0x1_0000 else u
  }

  /** A big-endian two's-complement int32 (struct format `>l`). */
  function Int32Of(q: seq<Byte>): int
    requires |q| == 4
  {
    var u := (((q[0] as int) * 0x100 + q[1]) * 0x100 + q[2]) * 0x100 + q[3];
    if u >= 0x8000_0000 then u - 0x1_0000_0000 else u
  }

  /** Header field number `k` (0..4) of a header block. */
  function HeaderField(q: seq<Byte>, k: nat): int
    requires k < 5 && HeaderFieldBytes <= |q|
  {
    Int32Of(q[4 * k..4 * k + 4])
  }

  /** The bytes of an int16 in the file's byte order; reading them back gives `v`. */
  function Int16Bytes(v: int): (q: seq<Byte>)
    requires IsInt16(v)
    ensures |q| == 2 && Int16Of(q) == v
  {
    var u := if v < 0 then v + 0x1_0000 else v;
    [u / 0x100, u % 0x100]
  }

  /** The bytes of an int32 in the file's byte order; reading them back gives `v`. */
  function Int32Bytes(v: int): (q: seq<Byte>)
    requires IsInt32(v)
    ensures |q| == 4 && Int32Of(q) == v
  {
    var u := if v < 0 then v + 0x1_0000_0000 else v;
    var u1 := u / 0x100;
    var u2 := u1 / 0x100;
    [u2 / 0x100, u2 % 0x100, u1 % 0x100, u % 0x100]
  }

  /** `np.fromfile(f, count=w, dtype=dt)`: `w` samples from `4 * w` bytes. */
  function DecodeRow(q: seq<Byte>, w: nat): (row: seq<Sample>)
    requires |q| == SampleBytes * w
    ensures |row| == w
  {
    if w == 0 then []
    else [Sample(Int16Of(q[..2]), Int16Of(q[2..4]))] + DecodeRow(q[4..], w - 1)
  }

  /** A row for which the file held a single sample: numpy broadcasts that
      sample to all `w` columns of the row. */
  function BroadcastRow(q: seq<Byte>, w: nat): (row: seq<Sample>)
    requires |q| == SampleBytes
    ensures |row| == w
    ensures forall c :: 0 <= c < w ==> row[c] == DecodeRow(q, 1)[0]
  {
    seq(w, _ => Sample(Int16Of(q[..2]), Int16Of(q[2..4])))
  }

  /** `n` rows of `w` samples each, in file order. */
  function DecodeRows(q: seq<Byte>, w: nat, n: nat): (rows: Raster)
    requires |q| == Times(SampleBytes * w, n)
    ensures |rows| == n
    decreases n
    ensures forall j :: 0 <= j < n ==> |rows[j]| == w
  {
    if n == 0 then []
    else
      var front := Times(SampleBytes * w, n - 1);
      DecodeRows(q[..front], w, n - 1) + [DecodeRow(q[front..], w)]
  }

  function Concat(bursts: seq<Raster>): Raster
  {
    if bursts == [] then [] else bursts[0] + Concat(bursts[1..])
  }

  /** The burst whose header block starts at byte `pos`, and the file
      position after its last row. `w` is the row width fixed from the first
      header; every header block is `4 * w * 4` bytes (four rows of `w`
      four-byte samples), cut short only by the end of the file. When the
      file ends inside the rows, the burst still reads if the file ends
      within the second sample of its last row: that row gets one sample,
      which numpy broadcasts across it, and the read leaves the file at its
      end. Any other short row is refused by numpy. */
  function BurstAt(q: seq<Byte>, pos: nat, w: nat): (r: Result<(Raster, nat), CosError>)
    requires 2 <= w && pos < |q|
    ensures r.Success? ==> pos < r.value.1 <= |q|
  {
    var headerBytes := 4 * w * 4;
    var got := if |q| - pos < headerBytes then |q| - pos else headerBytes;  // f.read near EOF
    if got < HeaderFieldBytes then Failure(ShortHeader)
    else
      var azimuthSize := HeaderField(q[pos..pos + got], 3);
      if azimuthSize < 0 then Failure(NegativeAzimuthSize)
      else
        match RowsRead(q, pos + got, w, azimuthSize)
        case None => Failure(TruncatedBurst)
        case Some(burst) => Success(burst)
  }

  /** `n` rows of `w` samples from byte `start`, and the file position
      after them; None when the file ends too early. */
  function RowsRead(q: seq<Byte>, start: nat, w: nat, n: nat): (r: Option<(Raster, nat)>)
    requires 2 <= w && start <= |q|
    ensures r.Some? <==>
      start + Times(SampleBytes * w, n) <= |q| ||
      (1 <= n && OneSampleLeft(q, start + Times(SampleBytes * w, n - 1)))
    ensures r.Some? ==> |r.value.0| == n && start <= r.value.1 <= |q|
    ensures r.Some? ==> forall j :: 0 <= j < n ==> |r.value.0[j]| == w
  {
    var end := start + Times(SampleBytes * w, n);
    if end <= |q| then Some((DecodeRows(q[start..end], w, n), end))
    else if 1 <= n && OneSampleLeft(q, start + Times(SampleBytes * w, n - 1)) then
      var last := start + Times(SampleBytes * w, n - 1);
      Some((DecodeRows(q[start..last], w, n - 1) + [BroadcastRow(q[last..last + SampleBytes], w)], |q|))
    else None
  }

  /** From byte `at` the file holds one whole sample and not two. */
  predicate OneSampleLeft(q: seq<Byte>, at: nat)
  {
    at + SampleBytes <= |q| < at + 2 * SampleBytes
  }

  /** The bursts from byte `pos` on, in file order. Reading stops exactly
      when the next header read finds no bytes; a later header's range size
      is not looked at. */
  function ReadBursts(q: seq<Byte>, pos: nat, w: nat): Result<seq<Raster>, CosError>
    requires 2 <= w && pos <= |q|
    decreases |q| - pos
  {
    if pos == |q| then Success([])
    else
      match BurstAt(q, pos, w)
      case Failure(e) => Failure(e)
      case Success((burst, end)) =>
        match ReadBursts(q, end, w)
        case Failure(e) => Failure(e)
        case Success(rest) => Success([burst] + rest)
  }

  /** The row width fixed from the first header: `range_size + 2`. A range
      size of -2 gives width 0 and an empty header read; -1 gives a 16-byte
      header block, too short to unpack; below -2 the header read takes the
      whole file and numpy refuses the burst's negative shape. */
  function RowWidth(q: seq<Byte>): (r: Result<nat, CosError>)
    ensures r.Success? ==> r.value == 0 || 2 <= r.value
    ensures r.Success? <==>
      HeaderFieldBytes <= |q| && HeaderField(q[..HeaderFieldBytes], 2) != -1 &&
      -2 <= HeaderField(q[..HeaderFieldBytes], 2)
  {
    if |q| < HeaderFieldBytes then Failure(ShortHeader)
    else
      var rangeSize := HeaderField(q[..HeaderFieldBytes], 2);
      if rangeSize < -2 then Failure(NegativeRangeSize)
      else if rangeSize == -1 then Failure(ShortHeader)
      else Success(rangeSize + 2)
  }

  /** The decoded raster: None when the row width is 0 (the header read is
      empty, so the loop never runs), otherwise the bursts concatenated in
      file order. */
  function DecodeCos(q: seq<Byte>): Result<Option<Raster>, CosError>
  {
    match RowWidth(q)
    case Failure(e) => Failure(e)
    case Success(w) =>
      if w == 0 then Success(None)
      else
        match ReadBursts(q, 0, w)
        case Failure(e) => Failure(e)
        case Success(bursts) => Success(Some(Concat(bursts)))
  }

  function AppendTo(acc: Raster, r: Result<seq<Raster>, CosError>): Result<Option<Raster>, CosError>
  {
    match r
    case Failure(e) => Failure(e)
    case Success(bursts) => Success(Some(acc + Concat(bursts)))
  }

  /** `_load_cos` on the file's bytes: read the first header for the row
      width, then loop over header blocks, reading each burst and stacking
      it under the image read so far. */
  method LoadCos(q: seq<Byte>) returns (r: Result<Option<Raster>, CosError>)
    ensures r == DecodeCos(q)
  {
    if |q| < HeaderFieldBytes {
      return Failure(ShortHeader);
    }
    var rangeSize := HeaderField(q[..HeaderFieldBytes], 2);
    if rangeSize < -2 {
      return Failure(NegativeRangeSize);
    } else if rangeSize == -1 {
      return Failure(ShortHeader);
    } else if rangeSize == -2 {
      return Success(None);
    }
    var w: nat := rangeSize + 2;
    var imgMap: Raster := [];
    var pos := 0;
    DecodeCosStart(q, w);
    while pos < |q|
      invariant pos <= |q|
      invariant DecodeCos(q) == AppendTo(imgMap, ReadBursts(q, pos, w))
      decreases |q| - pos
    {
      var burst := ReadBurst(q, pos, w);
      if burst.Failure? {
        return Failure(burst.error);
      }
      var (rows, next) := burst.value;
      AppendToStep(imgMap, rows, ReadBursts(q, next, w));
      imgMap := imgMap + rows;
      pos := next;
    }
    assert imgMap + Concat([]) == imgMap;
    return Success(Some(imgMap));
  }

  /** With a row width of at least 2, decoding reads the bursts from byte 0. */
  lemma DecodeCosStart(q: seq<Byte>, w: nat)
    requires HeaderFieldBytes <= |q| && 0 <= HeaderField(q[..HeaderFieldBytes], 2)
    requires w == HeaderField(q[..HeaderFieldBytes], 2) + 2
    ensures DecodeCos(q) == AppendTo([], ReadBursts(q, 0, w))
  {
    assert RowWidth(q) == Success(w);
    var rb := ReadBursts(q, 0, w);
    if rb.Success? {
      assert [] + Concat(rb.value) == Concat(rb.value);
    }
  }

  /** One turn of the `while len(header) > 0` loop: unpack the header, then
      read `azimuth_size` rows of `w` samples. */
  method ReadBurst(q: seq<Byte>, pos: nat, w: nat) returns (r: Result<(Raster, nat), CosError>)
    requires 2 <= w && pos < |q|
    ensures r == BurstAt(q, pos, w)
  {
    var headerBytes := 4 * w * 4;
    var got := if |q| - pos < headerBytes then |q| - pos else headerBytes;
    if got < HeaderFieldBytes {
      return Failure(ShortHeader);
    }
    var azimuthSize := HeaderField(q[pos..pos + got], 3);
    if azimuthSize < 0 {
      return Failure(NegativeAzimuthSize);
    }
    var rows := ReadBurstRows(q, pos + got, w, azimuthSize);
    if rows.None? {
      return Failure(TruncatedBurst);
    }
    return Success(rows.value);
  }

  /** The inner loop of `_load_cos`: `n` rows of `w` samples from `start`
      and the file position after them. When the file ends first, the rows
      still read if only the last row is short and holds one sample, which
      is broadcast; otherwise the result is None. */
  method ReadBurstRows(q: seq<Byte>, start: nat, w: nat, n: nat) returns (burst: Option<(Raster, nat)>)
    requires 2 <= w && start <= |q|
    ensures burst == RowsRead(q, start, w, n)
  {
    var rowBytes: nat := SampleBytes * w;
    var rows: Raster := [];
    var i := 0;
    var at := start;
    while i < n
      invariant 0 <= i <= n
      invariant at == start + Times(rowBytes, i) && at <= |q|
      invariant rows == DecodeRows(q[start..at], w, i)
    {
      if |q| < at + rowBytes {
        ShortRow(q, start, w, n, i, at, rows);
        if i + 1 == n && OneSampleLeft(q, at) {
          return Some((rows + [BroadcastRow(q[at..at + SampleBytes], w)], |q|));
        }
        return None;
      }
      DecodeRowsSnoc(q, start, at, w, i);
      rows := rows + [DecodeRow(q[at..at + rowBytes], w)];
      at := at + rowBytes;
      i := i + 1;
    }
    RowsReadAll(q, start, w, n, at, rows);
    return Some((rows, at));
  }

  /** All `n` rows fit in the file. */
  lemma RowsReadAll(q: seq<Byte>, start: nat, w: nat, n: nat, at: nat, rows: Raster)
    requires 2 <= w && at == start + Times(SampleBytes * w, n) && at <= |q|
    requires rows == DecodeRows(q[start..at], w, n)
    ensures RowsRead(q, start, w, n) == Some((rows, at))
  {
  }

  /** When the file ends inside row `i`, the rows read so far stand only
      when that row is the last and holds one sample. */
  lemma ShortRow(q: seq<Byte>, start: nat, w: nat, n: nat, i: nat, at: nat, rows: Raster)
    requires 2 <= w && i < n && at == start + Times(SampleBytes * w, i) && at <= |q| < at + SampleBytes * w
    requires rows == DecodeRows(q[start..at], w, i)
    ensures RowsRead(q, start, w, n) ==
      if i + 1 == n && OneSampleLeft(q, at) then Some((rows + [BroadcastRow(q[at..at + SampleBytes], w)], |q|))
      else None
  {
    TimesMonotone(SampleBytes * w, i + 1, n);
    if i + 1 < n {
      TimesMonotone(SampleBytes * w, i + 1, n - 1);
    }
  }

  /** One more row read at `at` extends the rows read from `start`. */
  lemma DecodeRowsSnoc(q: seq<Byte>, start: nat, at: nat, w: nat, i: nat)
    requires at == start + Times(SampleBytes * w, i) && at + SampleBytes * w <= |q|
    ensures DecodeRows(q[start..at + SampleBytes * w], w, i + 1) ==
      DecodeRows(q[start..at], w, i) + [DecodeRow(q[at..at + SampleBytes * w], w)]
  {
    var rowBytes := SampleBytes * w;
    assert q[start..at + rowBytes][..Times(rowBytes, i)] == q[start..at];
    assert q[start..at + rowBytes][Times(rowBytes, i)..] == q[at..at + rowBytes];
  }

  lemma AppendToStep(acc: Raster, burst: Raster, rest: Result<seq<Raster>, CosError>)
    ensures AppendTo(acc, match rest
                          case Failure(e) => Failure(e)
                          case Success(bs) => Success([burst] + bs))
         == AppendTo(acc + burst, rest)
  {
    if rest.Success? {
      var bs := rest.value;
      assert ([burst] + bs)[1..] == bs;
      assert Concat([burst] + bs) == burst + Concat(bs);
      assert acc + (burst + Concat(bs)) == (acc + burst) + Concat(bs);
    }
  }

  // ---------------------------------------------------------------------------
  // Shape of a decoded raster

  lemma {:induction false} ReadBurstsShape(q: seq<Byte>, pos: nat, w: nat)
    requires 2 <= w && pos <= |q|
    requires ReadBursts(q, pos, w).Success?
    ensures var bs := ReadBursts(q, pos, w).value;
      forall k, j :: 0 <= k < |bs| && 0 <= j < |bs[k]| ==> |bs[k][j]| == w
    decreases |q| - pos
  {
    if pos < |q| {
      var end := BurstAt(q, pos, w).value.1;
      ReadBurstsShape(q, end, w);
    }
  }

  lemma {:induction false} ConcatShape(bs: seq<Raster>, w: nat)
    requires forall k, j :: 0 <= k < |bs| && 0 <= j < |bs[k]| ==> |bs[k][j]| == w
    ensures forall j :: 0 <= j < |Concat(bs)| ==> |Concat(bs)[j]| == w
  {
    if bs != [] {
      ConcatShape(bs[1..], w);
    }
  }

  /** Every row of a decoded raster has `range_size + 2` samples, with
      `range_size` taken from the first header. */
  lemma DecodedRowWidth(q: seq<Byte>)
    requires DecodeCos(q).Success? && DecodeCos(q).value.Some?
    ensures RowWidth(q).Success? && 2 <= RowWidth(q).value
    ensures forall j :: 0 <= j < |DecodeCos(q).value.value| ==>
      |DecodeCos(q).value.value[j]| == HeaderField(q[..HeaderFieldBytes], 2) + 2
  {
    var w := RowWidth(q).value;
    ReadBurstsShape(q, 0, w);
    ConcatShape(ReadBursts(q, 0, w).value, w);
  }

  // ---------------------------------------------------------------------------
  // The writer side of the layout, and the round trip

  predicate Int16Sample(s: Sample) { IsInt16(s.r) && IsInt16(s.i) }

  predicate WellFormedBurst(burst: Raster, w: nat)
  {
    IsInt32(|burst|) &&
    forall j :: 0 <= j < |burst| ==>
      |burst[j]| == w && forall c :: 0 <= c < w ==> Int16Sample(burst[j][c])
  }

  predicate WellFormedBursts(bursts: seq<Raster>, w: nat)
  {
    forall k :: 0 <= k < |bursts| ==> WellFormedBurst(bursts[k], w)
  }

  function EncodeRow(row: seq<Sample>): (q: seq<Byte>)
    requires forall c :: 0 <= c < |row| ==> Int16Sample(row[c])
    ensures |q| == SampleBytes * |row|
  {
    if row == [] then []
    else
      assert Int16Sample(row[0]);
      Int16Bytes(row[0].r) + Int16Bytes(row[0].i) + EncodeRow(row[1..])
  }

  function EncodeRows(rows: Raster, w: nat): (q: seq<Byte>)
    requires WellFormedBurst(rows, w)
    ensures |q| == Times(SampleBytes * w, |rows|)
  {
    if rows == [] then []
    else EncodeRows(rows[..|rows| - 1], w) + EncodeRow(rows[|rows| - 1])
  }

  /** A header block of four row-widths: the five fields (0, 0, range size,
      azimuth size, 0), then zero padding. */
  function EncodeHeader(rangeSize: nat, azimuthSize: nat): (q: seq<Byte>)
    requires IsInt32(rangeSize) && IsInt32(azimuthSize)
    ensures |q| == 4 * (rangeSize + 2) * 4
  {
    Int32Bytes(0) + Int32Bytes(0) + Int32Bytes(rangeSize) + Int32Bytes(azimuthSize) + Int32Bytes(0)
    + seq(4 * (rangeSize + 2) * 4 - HeaderFieldBytes, _ => 0)
  }

  /** A COSAR file holding `bursts`, each of `rangeSize + 2` columns. */
  function EncodeCos(rangeSize: nat, bursts: seq<Raster>): seq<Byte>
    requires IsInt32(rangeSize) && WellFormedBursts(bursts, rangeSize + 2)
  {
    if bursts == [] then []
    else EncodeHeader(rangeSize, |bursts[0]|) + EncodeRows(bursts[0], rangeSize + 2)
         + EncodeCos(rangeSize, bursts[1..])
  }

  lemma {:induction false} DecodeRowEncodeRow(row: seq<Sample>)
    requires forall c :: 0 <= c < |row| ==> Int16Sample(row[c])
    ensures DecodeRow(EncodeRow(row), |row|) == row
  {
    if row != [] {
      var q := EncodeRow(row);
      assert q[..2] == Int16Bytes(row[0].r);
      assert q[2..4] == Int16Bytes(row[0].i);
      assert q[4..] == EncodeRow(row[1..]);
      DecodeRowEncodeRow(row[1..]);
    }
  }

  lemma {:induction false} DecodeRowsEncodeRows(rows: Raster, w: nat)
    requires WellFormedBurst(rows, w)
    ensures DecodeRows(EncodeRows(rows, w), w, |rows|) == rows
  {
    if rows != [] {
      var n := |rows|;
      var q := EncodeRows(rows, w);
      var front := EncodeRows(rows[..n - 1], w);
      assert q[..Times(SampleBytes * w, n - 1)] == front;
      assert q[Times(SampleBytes * w, n - 1)..] == EncodeRow(rows[n - 1]);
      DecodeRowsEncodeRows(rows[..n - 1], w);
      DecodeRowEncodeRow(rows[n - 1]);
    }
  }

  /** The header block written for a burst announces its range and azimuth sizes. */
  lemma FieldsOfEncodeHeader(rangeSize: nat, azimuthSize: nat)
    requires IsInt32(rangeSize) && IsInt32(azimuthSize)
    ensures HeaderField(EncodeHeader(rangeSize, azimuthSize), 2) == rangeSize
    ensures HeaderField(EncodeHeader(rangeSize, azimuthSize), 3) == azimuthSize
  {
    var h := EncodeHeader(rangeSize, azimuthSize);
    assert h[8..12] == Int32Bytes(rangeSize);
    assert h[12..16] == Int32Bytes(azimuthSize);
  }

  /** The fields read from the first 20 bytes of a file are those of its first header block. */
  lemma HeaderFieldOfPrefix(q: seq<Byte>, h: seq<Byte>, k: nat)
    requires k < 5 && HeaderFieldBytes <= |h| <= |q| && q[..|h|] == h
    ensures HeaderField(q[..HeaderFieldBytes], k) == HeaderField(h, k)
  {
    var read := q[..HeaderFieldBytes][4 * k..4 * k + 4];
    var written := h[4 * k..4 * k + 4];
    forall i | 0 <= i < 4 ensures read[i] == written[i] {
      assert q[..|h|][4 * k + i] == h[4 * k + i];
    }
  }

  /** The middle of a concatenation is found at its offset. */
  lemma SliceOfConcat<T>(pre: seq<T>, mid: seq<T>, post: seq<T>)
    ensures (pre + mid + post)[|pre|..|pre| + |mid|] == mid
  {
    var q := pre + mid + post;
    assert forall k :: 0 <= k < |mid| ==> q[|pre| + k] == mid[k];
  }

  /** The byte just after `burst` when it is written from byte `pos`. */
  function BurstEnd(pos: nat, rangeSize: nat, burst: Raster): (end: nat)
    requires IsInt32(rangeSize) && WellFormedBurst(burst, rangeSize + 2)
    ensures pos < end
  {
    pos + |EncodeHeader(rangeSize, |burst|)| + |EncodeRows(burst, rangeSize + 2)|
  }

  /** `burst` is written in `q` from byte `pos`: its header block, then its rows. */
  predicate BurstEncodedAt(q: seq<Byte>, pos: nat, rangeSize: nat, burst: Raster)
    requires IsInt32(rangeSize) && WellFormedBurst(burst, rangeSize + 2)
  {
    PlacedAt(q, pos, EncodeHeader(rangeSize, |burst|), EncodeRows(burst, rangeSize + 2))
  }

  /** `q` holds `header` from byte `pos`, and `body` right after it. */
  predicate PlacedAt(q: seq<Byte>, pos: nat, header: seq<Byte>, body: seq<Byte>)
  {
    pos + |header| + |body| <= |q| &&
    q[pos..pos + |header|] == header &&
    q[pos + |header|..pos + |header| + |body|] == body
  }

  lemma PlacedAfter(pre: seq<Byte>, header: seq<Byte>, body: seq<Byte>, tail: seq<Byte>)
    ensures PlacedAt(pre + header + body + tail, |pre|, header, body)
  {
    var q := pre + header + body + tail;
    assert q == pre + header + (body + tail);
    SliceOfConcat(pre, header, body + tail);
    SliceOfConcat(pre + header, body, tail);
  }

  /** `bursts` are written in the COSAR layout in `q` from byte `pos` to the end. */
  predicate EncodedAt(q: seq<Byte>, pos: nat, rangeSize: nat, bursts: seq<Raster>)
    requires IsInt32(rangeSize) && WellFormedBursts(bursts, rangeSize + 2)
    decreases |bursts|
  {
    if bursts == [] then pos == |q|
    else
      BurstEncodedAt(q, pos, rangeSize, bursts[0]) &&
      EncodedAt(q, BurstEnd(pos, rangeSize, bursts[0]), rangeSize, bursts[1..])
  }

  /** When the header block at `pos` is complete and announces `n` rows that
      are all in the file, the burst is those rows and ends after them. */
  lemma BurstAtComplete(q: seq<Byte>, pos: nat, w: nat, n: nat, headerBytes: nat, bodyBytes: nat,
                        rows: Raster, end: nat)
    requires 2 <= w
    requires headerBytes == 4 * w * 4
    requires bodyBytes == Times(SampleBytes * w, n)
    requires end == pos + headerBytes + bodyBytes
    requires end <= |q|
    requires HeaderField(q[pos..pos + headerBytes], 3) == n
    requires DecodeRows(q[pos + headerBytes..end], w, n) == rows
    ensures BurstAt(q, pos, w) == Success((rows, end))
  {
  }

  /** The header block a burst was written with announces its row count. */
  lemma AzimuthOfWrittenHeader(q: seq<Byte>, pos: nat, end: nat, rangeSize: nat, azimuthSize: nat)
    requires IsInt32(rangeSize) && IsInt32(azimuthSize)
    requires pos <= end <= |q| && q[pos..end] == EncodeHeader(rangeSize, azimuthSize)
    ensures HeaderField(q[pos..end], 3) == azimuthSize
  {
    FieldsOfEncodeHeader(rangeSize, azimuthSize);
  }

  /** The rows a burst was written with decode back to it. */
  lemma RowsOfWrittenBody(q: seq<Byte>, start: nat, end: nat, w: nat, burst: Raster)
    requires WellFormedBurst(burst, w)
    requires start <= end <= |q| && q[start..end] == EncodeRows(burst, w)
    ensures DecodeRows(q[start..end], w, |burst|) == burst
  {
    DecodeRowsEncodeRows(burst, w);
  }

  /** A burst written at `pos` is read back, and ends just after its rows. */
  lemma BurstAtEncoded(q: seq<Byte>, pos: nat, rangeSize: nat, burst: Raster)
    requires IsInt32(rangeSize) && WellFormedBurst(burst, rangeSize + 2)
    requires BurstEncodedAt(q, pos, rangeSize, burst)
    ensures BurstAt(q, pos, rangeSize + 2) == Success((burst, BurstEnd(pos, rangeSize, burst)))
  {
    var w := rangeSize + 2;
    var headerBytes := |EncodeHeader(rangeSize, |burst|)|;
    var bodyBytes := |EncodeRows(burst, w)|;
    var end := BurstEnd(pos, rangeSize, burst);
    AzimuthOfWrittenHeader(q, pos, pos + headerBytes, rangeSize, |burst|);
    BurstAtWrittenBody(q, pos, w, headerBytes, burst, end);
  }

  /** A burst whose header announces its row count and whose rows are
      written right after the header is read back. */
  lemma BurstAtWrittenBody(q: seq<Byte>, pos: nat, w: nat, headerBytes: nat, burst: Raster, end: nat)
    requires 2 <= w && WellFormedBurst(burst, w)
    requires headerBytes == 4 * w * 4
    requires end == pos + headerBytes + Times(SampleBytes * w, |burst|) && end <= |q|
    requires HeaderField(q[pos..pos + headerBytes], 3) == |burst|
    requires q[pos + headerBytes..end] == EncodeRows(burst, w)
    ensures BurstAt(q, pos, w) == Success((burst, end))
  {
    RowsOfWrittenBody(q, pos + headerBytes, end, w, burst);
    BurstAtComplete(q, pos, w, |burst|, headerBytes, Times(SampleBytes * w, |burst|), burst, end);
  }

  /** One turn of the burst loop over a written burst. */
  lemma ReadBurstsCons(q: seq<Byte>, pos: nat, rangeSize: nat, bursts: seq<Raster>)
    requires IsInt32(rangeSize) && bursts != [] && WellFormedBurst(bursts[0], rangeSize + 2)
    requires BurstEncodedAt(q, pos, rangeSize, bursts[0])
    requires ReadBursts(q, BurstEnd(pos, rangeSize, bursts[0]), rangeSize + 2) == Success(bursts[1..])
    ensures ReadBursts(q, pos, rangeSize + 2) == Success(bursts)
  {
    BurstAtEncoded(q, pos, rangeSize, bursts[0]);
    assert [bursts[0]] + bursts[1..] == bursts;
  }

  /** Reading bursts from a position where bursts are written gives them back. */
  lemma {:induction false} ReadBurstsEncoded(q: seq<Byte>, pos: nat, rangeSize: nat, bursts: seq<Raster>)
    requires IsInt32(rangeSize) && WellFormedBursts(bursts, rangeSize + 2)
    requires pos <= |q| && EncodedAt(q, pos, rangeSize, bursts)
    ensures ReadBursts(q, pos, rangeSize + 2) == Success(bursts)
    decreases |bursts|
  {
    if bursts != [] {
      WellFormedTail(bursts, rangeSize + 2);
      ReadBurstsEncoded(q, BurstEnd(pos, rangeSize, bursts[0]), rangeSize, bursts[1..]);
      ReadBurstsCons(q, pos, rangeSize, bursts);
    }
  }

  /** A burst written after a prefix sits at the prefix's length. */
  lemma BurstEncodedAfter(pre: seq<Byte>, rangeSize: nat, burst: Raster, tail: seq<Byte>)
    requires IsInt32(rangeSize) && WellFormedBurst(burst, rangeSize + 2)
    ensures BurstEncodedAt(pre + EncodeHeader(rangeSize, |burst|) + EncodeRows(burst, rangeSize + 2) + tail,
      |pre|, rangeSize, burst)
  {
    PlacedAfter(pre, EncodeHeader(rangeSize, |burst|), EncodeRows(burst, rangeSize + 2), tail);
  }

  /** A file made of a prefix and then the encoded bursts holds them after the prefix. */
  lemma {:induction false} EncodeCosIsEncodedAt(pre: seq<Byte>, rangeSize: nat, bursts: seq<Raster>)
    requires IsInt32(rangeSize) && WellFormedBursts(bursts, rangeSize + 2)
    ensures EncodedAt(pre + EncodeCos(rangeSize, bursts), |pre|, rangeSize, bursts)
    decreases |bursts|
  {
    if bursts != [] {
      WellFormedTail(bursts, rangeSize + 2);
      var header := EncodeHeader(rangeSize, |bursts[0]|);
      var body := EncodeRows(bursts[0], rangeSize + 2);
      var tail := EncodeCos(rangeSize, bursts[1..]);
      var done := pre + header + body;
      BurstEncodedAfter(pre, rangeSize, bursts[0], tail);
      EncodeCosIsEncodedAt(done, rangeSize, bursts[1..]);
      assert |done| == BurstEnd(|pre|, rangeSize, bursts[0]);
      EncodedAtCons(done + tail, |pre|, |done|, rangeSize, bursts);
      assert EncodeCos(rangeSize, bursts) == header + body + tail;
      ConcatAssoc(pre, header, body, tail);
    }
  }

  lemma ConcatAssoc<T>(a: seq<T>, b: seq<T>, c: seq<T>, d: seq<T>)
    ensures a + (b + c + d) == a + b + c + d
  {
  }

  /** Bursts are written from `pos` when the first is and the rest follow it. */
  lemma EncodedAtCons(q: seq<Byte>, pos: nat, end: nat, rangeSize: nat, bursts: seq<Raster>)
    requires IsInt32(rangeSize) && WellFormedBursts(bursts, rangeSize + 2) && bursts != []
    requires WellFormedBursts(bursts[1..], rangeSize + 2)
    requires BurstEncodedAt(q, pos, rangeSize, bursts[0])
    requires end == BurstEnd(pos, rangeSize, bursts[0]) && EncodedAt(q, end, rangeSize, bursts[1..])
    ensures EncodedAt(q, pos, rangeSize, bursts)
  {
  }

  lemma WellFormedTail(bursts: seq<Raster>, w: nat)
    requires WellFormedBursts(bursts, w) && bursts != []
    ensures WellFormedBurst(bursts[0], w) && WellFormedBursts(bursts[1..], w)
  {
    forall k | 0 <= k < |bursts[1..]| ensures WellFormedBurst(bursts[1..][k], w) {
      assert bursts[1..][k] == bursts[k + 1];
    }
  }


  /** The row width read from a file where bursts are written is the bursts' width. */
  lemma RowWidthEncoded(q: seq<Byte>, rangeSize: nat, bursts: seq<Raster>)
    requires IsInt32(rangeSize) && WellFormedBursts(bursts, rangeSize + 2)
    requires 1 <= |bursts| && EncodedAt(q, 0, rangeSize, bursts)
    ensures RowWidth(q) == Success(rangeSize + 2)
  {
    var h := EncodeHeader(rangeSize, |bursts[0]|);
    assert BurstEncodedAt(q, 0, rangeSize, bursts[0]);
    assert PlacedAt(q, 0, h, EncodeRows(bursts[0], rangeSize + 2));
    assert q[..|h|] == h;
    FieldsOfEncodeHeader(rangeSize, |bursts[0]|);
    HeaderFieldOfPrefix(q, h, 2);
    RowWidthOfField(q, rangeSize);
  }

  lemma RowWidthOfField(q: seq<Byte>, rangeSize: nat)
    requires HeaderFieldBytes <= |q| && HeaderField(q[..HeaderFieldBytes], 2) == rangeSize
    ensures RowWidth(q) == Success(rangeSize + 2)
  {
  }

  /** An encoded file announces the bursts' row width and its bursts are read back in order. */
  lemma ReadBurstsEncodeCos(rangeSize: nat, bursts: seq<Raster>)
    requires IsInt32(rangeSize) && WellFormedBursts(bursts, rangeSize + 2)
    requires 1 <= |bursts|
    ensures RowWidth(EncodeCos(rangeSize, bursts)) == Success(rangeSize + 2)
    ensures ReadBursts(EncodeCos(rangeSize, bursts), 0, rangeSize + 2) == Success(bursts)
  {
    var q := EncodeCos(rangeSize, bursts);
    EncodeCosIsEncodedAt([], rangeSize, bursts);
    assert [] + q == q;
    RowWidthEncoded(q, rangeSize, bursts);
    ReadBurstsEncoded(q, 0, rangeSize, bursts);
  }

  /** Decoding a file written in the COSAR layout gives back its bursts'
      rows, concatenated in file order. */
  lemma DecodeCosEncodeCos(rangeSize: nat, bursts: seq<Raster>)
    requires IsInt32(rangeSize) && WellFormedBursts(bursts, rangeSize + 2)
    requires 1 <= |bursts|
    ensures DecodeCos(EncodeCos(rangeSize, bursts)) == Success(Some(Concat(bursts)))
  {
    ReadBurstsEncodeCos(rangeSize, bursts);
  }

  // ---------------------------------------------------------------------------
  // The stacking step as written

  /** `img_map = np.vstack((img_map, data_burst)) if img_map else data_burst`
      exactly as written. `None` is false; a numpy array's truth value is
      False when it is empty and raises ValueError when it holds more than
      one element, which every non-empty burst does (rows have at least two
      samples). So the second burst of a file stacks only when the first was
      empty, and replaces it. */
  function StackAsWritten(imgMap: Option<Raster>, burst: Raster): Result<Option<Raster>, CosError>
  {
    match imgMap
    case None => Success(Some(burst))
    case Some(m) => if |m| == 0 then Success(Some(burst)) else Failure(AmbiguousTruthValue)
  }

  function StackAllAsWritten(imgMap: Option<Raster>, bursts: seq<Raster>): Result<Option<Raster>, CosError>
    decreases |bursts|
  {
    if bursts == [] then Success(imgMap)
    else
      match StackAsWritten(imgMap, bursts[0])
      case Failure(e) => Failure(e)
      case Success(next) => StackAllAsWritten(next, bursts[1..])
  }

  /** `_load_cos` with the stacking step as written. */
  function DecodeCosAsWritten(q: seq<Byte>): Result<Option<Raster>, CosError>
  {
    match RowWidth(q)
    case Failure(e) => Failure(e)
    case Success(w) =>
      if w == 0 then Success(None)
      else
        match ReadBursts(q, 0, w)
        case Failure(e) => Failure(e)
        case Success(bursts) => StackAllAsWritten(None, bursts)
  }

  /** As written, a file with two bursts whose first burst has a row cannot
      be decoded, although its layout is valid and the stacked decoder
      returns every row. */
  lemma AsWrittenRejectsSecondBurst(rangeSize: nat, bursts: seq<Raster>)
    requires IsInt32(rangeSize) && WellFormedBursts(bursts, rangeSize + 2)
    requires 2 <= |bursts| && 1 <= |bursts[0]|
    ensures DecodeCosAsWritten(EncodeCos(rangeSize, bursts)) == Failure(AmbiguousTruthValue)
    ensures DecodeCos(EncodeCos(rangeSize, bursts)) == Success(Some(Concat(bursts)))
  {
    ReadBurstsEncodeCos(rangeSize, bursts);
    StackSecondBurstFails(bursts);
  }

  /** Stacking as written fails on the second burst once the first has a row. */
  lemma StackSecondBurstFails(bursts: seq<Raster>)
    requires 2 <= |bursts| && 1 <= |bursts[0]|
    ensures StackAllAsWritten(None, bursts) == Failure(AmbiguousTruthValue)
  {
    assert StackAllAsWritten(None, bursts) == StackAllAsWritten(Some(bursts[0]), bursts[1..]);
  }
}
