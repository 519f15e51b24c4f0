/** The TerraSAR-X main product annotation: raster sizes, scene times and
    corners, and the UTC timestamp arithmetic of `calendar.timegm`.
    The XML tree is replaced by an already-parsed record whose dates are
    already split into calendar fields. */
module TsxProduct {

  // ---------------------------------------------------------------------------
  // Calendar

  /** A parsed `%Y-%m-%dT%H:%M:%S.%fZ` date: calendar fields, UTC. */
  datatype DateTime = DateTime(year: int, month: int, day: int,
                               hour: int, minute: int, second: int, microsecond: int)

  predicate IsLeap(y: int)
  {
    y % 4 == 0 && (y % 100 != 0 || y % 400 == 0)
  }

  function YearLength(y: int): int
  {
    if IsLeap(y) then 366 else 365
  }

  function DaysInMonth(y: int, m: int): int
    requires 1 <= m <= 12
  {
    if m == 2 then (if IsLeap(y) then 29 else 28)
    else if m == 4 || m == 6 || m == 9 || m == 11 then 30
    else 31
  }

  /** The range of values `datetime` accepts. */
  predicate ValidDateTime(dt: DateTime)
  {
    1 <= dt.year <= 9999 && 1 <= dt.month <= 12 && 1 <= dt.day <= DaysInMonth(dt.year, dt.month) &&
    0 <= dt.hour < 24 && 0 <= dt.minute < 60 && 0 <= dt.second < 60 &&
    0 <= dt.microsecond < 1000000
  }

  /** `_days_before_year` of Python's `datetime`: days in the years before y. */
  function DaysBeforeYear(y: int): int
    requires 1 <= y
  {
    var y1 := y - 1;
    y1 * 365 + y1 / 4 - y1 / 100 + y1 / 400
  }

  /** `_DAYS_BEFORE_MONTH` of a common year, indexed by month. */
  const DaysBeforeMonthTable: seq<int> := [0, 0, 31, 59, 90, 120, 151, 181, 212, 243, 273, 304, 334]

  /** `_days_before_month`: days in the months of year y before month m. */
  function DaysBeforeMonth(y: int, m: int): int
    requires 1 <= m <= 12
  {
    DaysBeforeMonthTable[m] + (if m > 2 && IsLeap(y) then 1 else 0)
  }

  /** `date.toordinal`: day 1 is 0001-01-01. */
  function ToOrdinal(y: int, m: int, d: int): int
    requires 1 <= y && 1 <= m <= 12
  {
    DaysBeforeYear(y) + DaysBeforeMonth(y, m) + d
  }

  /** `_EPOCH_ORD`, the ordinal of 1970-01-01. */
  const EpochOrdinal := 719163

  /** `calendar.timegm`: whole seconds since 1970-01-01T00:00:00 UTC. */
  function TimeGm(dt: DateTime): int
    requires ValidDateTime(dt)
  {
    var days := ToOrdinal(dt.year, dt.month, 1) - EpochOrdinal + dt.day - 1;
    ((days * 24 + dt.hour) * 60 + dt.minute) * 60 + dt.second
  }

  /** `_get_timestamp_from_string` after parsing: `timegm` plus the
      microseconds as a fraction of a second. */
  function Timestamp(dt: DateTime): real
    requires ValidDateTime(dt)
  {
    TimeGm(dt) as real + dt.microsecond as real / 1000000.0
  }

  // Reference definitions by counting days one year or one month at a time.

  function DaysBeforeYearCounted(y: int): int
    requires 1 <= y
    decreases y
  {
    if y == 1 then 0 else DaysBeforeYearCounted(y - 1) + YearLength(y - 1)
  }

  function DaysBeforeMonthCounted(y: int, m: int): int
    requires 1 <= m <= 12
    decreases m
  {
    if m == 1 then 0 else DaysBeforeMonthCounted(y, m - 1) + DaysInMonth(y, m - 1)
  }

  /** The closed form of the days before a year adds one year length per year. */
  lemma DaysBeforeYearStep(y: int)
    requires 1 <= y
    ensures DaysBeforeYear(y + 1) == DaysBeforeYear(y) + YearLength(y)
  {
    var y1 := y - 1;
    assert y / 4 == y1 / 4 + (if y % 4 == 0 then 1 else 0);
    assert y / 100 == y1 / 100 + (if y % 100 == 0 then 1 else 0);
    assert y / 400 == y1 / 400 + (if y % 400 == 0 then 1 else 0);
  }

  /** The closed form agrees with counting year lengths. */
  lemma {:induction false} DaysBeforeYearIsCount(y: int)
    requires 1 <= y
    ensures DaysBeforeYear(y) == DaysBeforeYearCounted(y)
    decreases y
  {
    if y > 1 {
      DaysBeforeYearIsCount(y - 1);
      DaysBeforeYearStep(y - 1);
    }
  }

  /** The month table agrees with counting month lengths. */
  lemma DaysBeforeMonthIsCount(y: int, m: int)
    requires 1 <= m <= 12
    ensures DaysBeforeMonth(y, m) == DaysBeforeMonthCounted(y, m)
  {
  }

  /** The epoch is timestamp 0. */
  lemma TimestampOfEpoch()
    ensures Timestamp(DateTime(1970, 1, 1, 0, 0, 0, 0)) == 0.0
  {
    assert DaysBeforeYear(1970) == 719162;
  }

  function StartOfMonth(y: int, m: int): DateTime
  {
    DateTime(y, m, 1, 0, 0, 0, 0)
  }

  /** Consecutive month starts are the month's length in days apart, and
      consecutive year starts the year's length. */
  lemma TimestampMonthAndYearLengths(y: int, m: int)
    requires 1 <= y < 9999 && 1 <= m <= 12
    ensures m < 12 ==>
      Timestamp(StartOfMonth(y, m + 1)) - Timestamp(StartOfMonth(y, m)) == 86400.0 * DaysInMonth(y, m) as real
    ensures Timestamp(StartOfMonth(y + 1, 1)) - Timestamp(StartOfMonth(y, 1)) == 86400.0 * YearLength(y) as real
  {
    DaysBeforeYearStep(y);
  }

  /** Within a day the timestamp counts seconds from midnight, and days
      are 86400 seconds apart. */
  lemma TimestampOfDay(dt: DateTime)
    requires ValidDateTime(dt)
    ensures var midnight := DateTime(dt.year, dt.month, dt.day, 0, 0, 0, 0);
      Timestamp(dt) == Timestamp(midnight) +
        (dt.hour * 3600 + dt.minute * 60 + dt.second) as real + dt.microsecond as real / 1000000.0
    ensures dt.day < DaysInMonth(dt.year, dt.month) ==>
      var next := DateTime(dt.year, dt.month, dt.day + 1, dt.hour, dt.minute, dt.second, dt.microsecond);
      Timestamp(next) == Timestamp(dt) + 86400.0
  {
  }

  // ---------------------------------------------------------------------------
  // Product

  datatype SceneCorner = SceneCorner(lat: real, lon: real)

  /** The fields of `level1Product` the toolkit reads. */
  datatype ProductInfo = ProductInfo(
    numberOfRows: int, numberOfColumns: int,
    rowSpacing: real, columnSpacing: real,
    groundRangeResolution: real, azimuthResolution: real,
    azimuthLooks: real, rangeLooks: real,
    sceneStart: DateTime, sceneStop: DateTime, sceneCenterAzimuthTime: DateTime,
    rangeFirstPixel: real, rangeLastPixel: real,
    calFactor: real,
    corners: seq<SceneCorner>)

  /** `get_range_size` is the column count. */
  function RangeSize(p: ProductInfo): (n: int)
    ensures n == p.numberOfColumns
  {
    p.numberOfColumns
  }

  /** `get_azimuth_size` is the row count. */
  function AzimuthSize(p: ProductInfo): (n: int)
    ensures n == p.numberOfRows
  {
    p.numberOfRows
  }

  /** `get_azimuth_time`: the scene's start and stop as UTC timestamps. */
  function AzimuthTime(p: ProductInfo): (t: seq<real>)
    requires ValidDateTime(p.sceneStart) && ValidDateTime(p.sceneStop)
    ensures |t| == 2 && t[0] == Timestamp(p.sceneStart) && t[1] == Timestamp(p.sceneStop)
  {
    [Timestamp(p.sceneStart), Timestamp(p.sceneStop)]
  }

  /** `get_range_time`: the first and last pixel's range times. */
  function RangeTime(p: ProductInfo): (t: seq<real>)
    ensures |t| == 2 && t[0] == p.rangeFirstPixel && t[1] == p.rangeLastPixel
  {
    [p.rangeFirstPixel, p.rangeLastPixel]
  }

  /** `get_scene_info_center_coord_azimuth_time`. */
  function CenterTimestamp(p: ProductInfo): real
    requires ValidDateTime(p.sceneCenterAzimuthTime)
  {
    Timestamp(p.sceneCenterAzimuthTime)
  }

  /** `get_BBOX`: the corners flattened to `[lon_0, lat_0, lon_1, lat_1, ...]`. */
  method GetBBox(corners: seq<SceneCorner>) returns (bbox: seq<real>)
    ensures |bbox| == 2 * |corners|
    ensures forall k :: 0 <= k < |corners| ==> bbox[2 * k] == corners[k].lon && bbox[2 * k + 1] == corners[k].lat
  {
    bbox := [];
    for i := 0 to |corners|
      invariant |bbox| == 2 * i
      invariant forall k :: 0 <= k < i ==> bbox[2 * k] == corners[k].lon && bbox[2 * k + 1] == corners[k].lat
    {
      bbox := bbox + [corners[i].lon];
      bbox := bbox + [corners[i].lat];
    }
  }

  /** Reading a flattened box back as (lat, lon) corners. */
  function CornersOf(bbox: seq<real>): (corners: seq<SceneCorner>)
    requires |bbox| % 2 == 0
    ensures |corners| == |bbox| / 2
    ensures forall k :: 0 <= k < |corners| ==> corners[k] == SceneCorner(bbox[2 * k + 1], bbox[2 * k])
  {
    if bbox == [] then [] else [SceneCorner(bbox[1], bbox[0])] + CornersOf(bbox[2..])
  }

  /** The flattening loses nothing: the corners can be read back. */
  lemma BBoxRoundTrip(corners: seq<SceneCorner>, bbox: seq<real>)
    requires |bbox| == 2 * |corners|
    requires forall k :: 0 <= k < |corners| ==> bbox[2 * k] == corners[k].lon && bbox[2 * k + 1] == corners[k].lat
    ensures CornersOf(bbox) == corners
  {
  }
}
