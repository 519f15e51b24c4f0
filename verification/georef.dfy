/** The TerraSAR-X GEOREF annotation: the geolocation grid header and the
    grid of points, indexed [range line][azimuth line]. XML parsing is
    replaced by already-parsed records. */
module GeoRef {
  import opened Wrappers
  import opened PyOps

  datatype GeoRefError =
    | IndexError  // a list index out of range
    | KeyError    // a grid cell that no grid point filled

  /** The values stored for one `gridPoint`. */
  datatype PointData = PointData(t: real, tau: real, lat: real, lon: real, inc: real, elev: real, height: real)

  /** A parsed `gridPoint`: its 1-based `iaz`/`irg` attributes and values. */
  datatype GridPoint = GridPoint(iaz: int, irg: int, data: PointData)

  /** The header of `geolocationGrid`. */
  datatype GridHeader = GridHeader(
    numTotal: int, numAzimuth: int, numRange: int,
    spacingAzimuth: real, spacingRange: real,
    tReferenceTimeUtc: string, tauReferenceTime: real)

  /** A grid cell: the point stored there, or the empty dict it was
      allocated with. */
  type Grid = seq<seq<Option<PointData>>>

  /** `len(range(n))`. */
  function RangeLength(n: int): nat
  {
    if n < 0 then 0 else n
  }

  predicate Shaped<T>(g: seq<seq<T>>, rows: nat, cols: nat)
  {
    |g| == rows && forall x :: 0 <= x < |g| ==> |g[x]| == cols
  }

  /** `[[{} for a in range(num_azimuth)] for r in range(num_range)]`. */
  function EmptyGrid(numRange: int, numAzimuth: int): (g: Grid)
    ensures Shaped(g, RangeLength(numRange), RangeLength(numAzimuth))
    ensures forall x, y :: 0 <= x < |g| && 0 <= y < |g[x]| ==> g[x][y].None?
  {
    seq(RangeLength(numRange), _ => seq(RangeLength(numAzimuth), _ => None))
  }

  /** The cell a grid point goes to: `[irg - 1][iaz - 1]`, where 0 and
      negative attributes count from the end as Python list indices do. */
  function CellOf(p: GridPoint, rows: nat, cols: nat): Option<(nat, nat)>
  {
    var x := ListIndex(p.irg - 1, rows);
    var y := ListIndex(p.iaz - 1, cols);
    if x.None? || y.None? then None else Some((x.value, y.value))
  }

  /** Store one point; a cell out of range is an IndexError. */
  function Place(g: Grid, rows: nat, cols: nat, p: GridPoint): (r: Result<Grid, GeoRefError>)
    requires Shaped(g, rows, cols)
    ensures r.Success? <==> CellOf(p, rows, cols).Some?
    ensures r.Success? ==> Shaped(r.value, rows, cols)
  {
    var c := CellOf(p, rows, cols);
    if c.None? then Failure(IndexError)
    else
      var (x, y) := c.value;
      Success(g[x := g[x][y := Some(p.data)]])
  }

  /** The grid after storing the points in order. */
  function Filled(numRange: int, numAzimuth: int, points: seq<GridPoint>): (r: Result<Grid, GeoRefError>)
    ensures r.Success? <==> forall k :: 0 <= k < |points| ==>
      CellOf(points[k], RangeLength(numRange), RangeLength(numAzimuth)).Some?
    ensures r.Success? ==> Shaped(r.value, RangeLength(numRange), RangeLength(numAzimuth))
  {
    if points == [] then Success(EmptyGrid(numRange, numAzimuth))
    else
      var g := Filled(numRange, numAzimuth, points[..|points| - 1]);
      if g.Failure? then g
      else Place(g.value, RangeLength(numRange), RangeLength(numAzimuth), points[|points| - 1])
  }

  /** The data of the last point that lands on cell (x, y), if any. */
  function LastAt(points: seq<GridPoint>, rows: nat, cols: nat, x: nat, y: nat): Option<PointData>
  {
    if points == [] then None
    else
      var p := points[|points| - 1];
      if CellOf(p, rows, cols) == Some((x, y)) then Some(p.data)
      else LastAt(points[..|points| - 1], rows, cols, x, y)
  }

  /** Each cell holds the last point stored there, and cells no point
      reached stay empty. */
  lemma {:induction false} FilledLastWins(numRange: int, numAzimuth: int, points: seq<GridPoint>, x: nat, y: nat)
    requires Filled(numRange, numAzimuth, points).Success?
    requires x < RangeLength(numRange) && y < RangeLength(numAzimuth)
    ensures Filled(numRange, numAzimuth, points).value[x][y] ==
      LastAt(points, RangeLength(numRange), RangeLength(numAzimuth), x, y)
  {
    if points != [] {
      FilledLastWins(numRange, numAzimuth, points[..|points| - 1], x, y);
    }
  }

  /** The parsed annotation: header values and the filled grid. */
  datatype GeoRef = GeoRef(header: GridHeader, grid: Grid)

  predicate Valid(g: GeoRef)
  {
    Shaped(g.grid, RangeLength(g.header.numRange), RangeLength(g.header.numAzimuth))
  }

  /** `__init__`: allocate the grid and store every grid point at
      `[irg - 1][iaz - 1]`, a later point overwriting an earlier one. */
  method Load(header: GridHeader, points: seq<GridPoint>) returns (r: Result<GeoRef, GeoRefError>)
    ensures r.Success? <==> Filled(header.numRange, header.numAzimuth, points).Success?
    ensures r.Success? ==>
      r.value == GeoRef(header, Filled(header.numRange, header.numAzimuth, points).value) && Valid(r.value)
  {
    var rows, cols := RangeLength(header.numRange), RangeLength(header.numAzimuth);
    var grid := EmptyGrid(header.numRange, header.numAzimuth);
    for i := 0 to |points|
      invariant Filled(header.numRange, header.numAzimuth, points[..i]) == Success(grid)
      invariant Shaped(grid, rows, cols)
    {
      var p := points[i];
      assert points[..i + 1][..i] == points[..i];
      var x := ListIndex(p.irg - 1, |grid|);
      if x.None? {
        assert !Filled(header.numRange, header.numAzimuth, points).Success?;
        return Failure(IndexError);
      }
      var y := ListIndex(p.iaz - 1, |grid[x.value]|);
      if y.None? {
        assert !Filled(header.numRange, header.numAzimuth, points).Success?;
        return Failure(IndexError);
      }
      grid := grid[x.value := grid[x.value][y.value := Some(p.data)]];
    }
    assert points[..|points|] == points;
    return Success(GeoRef(header, grid));
  }

  /** One cell of `getLatLonGrid`: `[lat, lon]`, component 0 the latitude. */
  datatype LatLon = LatLon(lat: real, lon: real)

  predicate AllFilled(g: Grid)
  {
    forall x, y :: 0 <= x < |g| && 0 <= y < |g[x]| ==> g[x][y].Some?
  }

  /** `getLatLonGrid`: the grid's shape, each cell the `[lat, lon]` of its
      point. An empty grid has no first row to measure (IndexError) and an
      unfilled cell has no 'lat' key (KeyError). */
  function LatLonGrid(g: GeoRef): (r: Result<seq<seq<LatLon>>, GeoRefError>)
    requires Valid(g)
    ensures |g.grid| == 0 ==> r == Failure(IndexError)
    ensures r.Success? <==> |g.grid| > 0 && AllFilled(g.grid)
    ensures r.Success? ==> (Shaped(r.value, |g.grid|, |g.grid[0]|) &&
      forall x, y :: 0 <= x < |g.grid| && 0 <= y < |g.grid[0]| ==>
        r.value[x][y] == LatLon(g.grid[x][y].value.lat, g.grid[x][y].value.lon))
  {
    var grid := g.grid;
    if |grid| == 0 then Failure(IndexError)
    else if !AllFilled(grid) then Failure(KeyError)
    else
      Success(seq(|grid|, x requires 0 <= x < |grid| =>
        seq(|grid[0]|, y requires 0 <= y < |grid[0]| => LatLon(grid[x][y].value.lat, grid[x][y].value.lon))))
  }

  /** `getIncGrid`: the grid's shape, each cell the incidence angle of its
      point (the one-element list `[inc]` of the source). */
  function IncGrid(g: GeoRef): (r: Result<seq<seq<real>>, GeoRefError>)
    requires Valid(g)
    ensures |g.grid| == 0 ==> r == Failure(IndexError)
    ensures r.Success? <==> |g.grid| > 0 && AllFilled(g.grid)
    ensures r.Success? ==> (Shaped(r.value, |g.grid|, |g.grid[0]|) &&
      forall x, y :: 0 <= x < |g.grid| && 0 <= y < |g.grid[0]| ==> r.value[x][y] == g.grid[x][y].value.inc)
  {
    var grid := g.grid;
    if |grid| == 0 then Failure(IndexError)
    else if !AllFilled(grid) then Failure(KeyError)
    else
      Success(seq(|grid|, x requires 0 <= x < |grid| =>
        seq(|grid[0]|, y requires 0 <= y < |grid[0]| => grid[x][y].value.inc)))
  }

  /** When the points cover every cell exactly as listed, the lat/lon grid
      exists and holds, at every cell, the last point listed for it. */
  lemma LatLonGridOfLoaded(header: GridHeader, points: seq<GridPoint>, x: nat, y: nat)
    requires Filled(header.numRange, header.numAzimuth, points).Success?
    requires var g := GeoRef(header, Filled(header.numRange, header.numAzimuth, points).value);
      LatLonGrid(g).Success?
    requires x < RangeLength(header.numRange) && y < RangeLength(header.numAzimuth)
    ensures var g := GeoRef(header, Filled(header.numRange, header.numAzimuth, points).value);
      var last := LastAt(points, RangeLength(header.numRange), RangeLength(header.numAzimuth), x, y);
      last.Some? && LatLonGrid(g).value[x][y] == LatLon(last.value.lat, last.value.lon)
  {
    FilledLastWins(header.numRange, header.numAzimuth, points, x, y);
  }

  /** The spacing and reference-time getters: the parsed header values. */
  function SpacingGridAzimuth(g: GeoRef): real { g.header.spacingAzimuth }
  function SpacingGridRange(g: GeoRef): real { g.header.spacingRange }
  function TauReferenceTime(g: GeoRef): real { g.header.tauReferenceTime }
}
