/** The TerraSAR-X image: the decoded raster with the metadata copied from
    the product and GEOREF annotations, geolocation by bilinear
    interpolation in the lat/lon grid, and region-of-interest extraction. */
module TsxImage {
  import opened Wrappers
  import opened PyOps
  import Interp
  import Cosar
  import GeoRef

  datatype ImageError =
    | IndexError          // a list index out of range
    | ZeroDivisionError   // a zero time span or a zero grid step

  datatype Complex = Complex(re: real, im: real)

  /** `complex(s['r'], s['i'])`. */
  function ToComplex(s: Cosar.Sample): Complex
  {
    Complex(s.r as real, s.i as real)
  }

  /** `_calculate_range_grid_step` / `_calculate_azimuth_grid_step`: image
      samples per unit of time along one axis, `size * spacing / (t1 - t0)`. */
  function GridStep(size: int, spacing: real, times: seq<real>): (r: Result<real, ImageError>)
    ensures |times| < 2 ==> r == Failure(IndexError)
    ensures 2 <= |times| && times[1] == times[0] ==> r == Failure(ZeroDivisionError)
    ensures r.Success? ==> 2 <= |times| && r.value * (times[1] - times[0]) == size as real * spacing
  {
    if |times| < 2 then Failure(IndexError)
    else
      var delta := times[1] - times[0];
      if delta == 0.0 then Failure(ZeroDivisionError)
      else Success((size as real * spacing) / delta)
  }

  /** The first corner of the grid cell along one axis: `int(v)` clamped to
      `[0, size - 2]`. */
  function CellIndex(v: real, size: int): (q: int)
    ensures 0 <= q
    ensures 2 <= size ==> q <= size - 2
    ensures 0 <= Trunc(v) <= size - 2 ==> q == Trunc(v)
  {
    var m := if Trunc(v) < size - 2 then Trunc(v) else size - 2;
    if m > 0 then m else 0
  }

  predicate Rectangular<T>(g: seq<seq<T>>, rows: nat, cols: nat)
  {
    |g| == rows && forall x :: 0 <= x < |g| ==> |g[x]| == cols
  }

  /** The four corners `[qx][qy], [qx+1][qy], [qx+1][qy+1], [qx][qy+1]` of the
      cell holding grid position (x, y), with the offsets into the cell. */
  function LatLonCell(grid: seq<seq<GeoRef.LatLon>>, x: real, y: real)
    : (r: Result<(seq<GeoRef.LatLon>, real, real), ImageError>)
    ensures r.Success? <==>
      0 < |grid| &&
      var qx, qy := CellIndex(x, |grid|), CellIndex(y, |grid[0]|);
      qx + 1 < |grid| && qy + 1 < |grid[qx]| && qy + 1 < |grid[qx + 1]|
    ensures r.Success? ==>
      var qx, qy := CellIndex(x, |grid|), CellIndex(y, |grid[0]|);
      r.value == ([grid[qx][qy], grid[qx + 1][qy], grid[qx + 1][qy + 1], grid[qx][qy + 1]],
                  x - qx as real, y - qy as real)
  {
    if |grid| == 0 then Failure(IndexError)
    else
      var qx := CellIndex(x, |grid|);
      var qy := CellIndex(y, |grid[0]|);
      if qx + 1 >= |grid| || qy >= |grid[qx]| || qy >= |grid[qx + 1]| ||
         qy + 1 >= |grid[qx + 1]| || qy + 1 >= |grid[qx]|
      then Failure(IndexError)
      else Success(([grid[qx][qy], grid[qx + 1][qy], grid[qx + 1][qy + 1], grid[qx][qy + 1]],
                    x - qx as real, y - qy as real))
  }

  /** `_t_tau_to_lat`: component 0 of the corners, interpolated. */
  function TTauToLat(grid: seq<seq<GeoRef.LatLon>>, x: real, y: real): Result<real, ImageError>
  {
    var c :- LatLonCell(grid, x, y);
    var (f, fx, fy) := c;
    Success(Interp.Bilinear(fx, fy, f[0].lat, f[1].lat, f[2].lat, f[3].lat))
  }

  /** `_t_tau_to_lon`: component 1 of the corners, interpolated. */
  function TTauToLon(grid: seq<seq<GeoRef.LatLon>>, x: real, y: real): Result<real, ImageError>
  {
    var c :- LatLonCell(grid, x, y);
    var (f, fx, fy) := c;
    Success(Interp.Bilinear(fx, fy, f[0].lon, f[1].lon, f[2].lon, f[3].lon))
  }

  /** On a rectangular grid of at least 2 x 2 points the clamped cell is
      always inside the grid: latitude and longitude exist at every grid
      position, inside the grid or beyond its edges. */
  lemma LatLonInBounds(grid: seq<seq<GeoRef.LatLon>>, rows: nat, cols: nat, x: real, y: real)
    requires Rectangular(grid, rows, cols) && 2 <= rows && 2 <= cols
    ensures TTauToLat(grid, x, y).Success? && TTauToLon(grid, x, y).Success?
  {
  }

  /** At every grid node, the last row and column included, the
      interpolation returns that node's own latitude and longitude. */
  lemma LatLonAtGridNode(grid: seq<seq<GeoRef.LatLon>>, rows: nat, cols: nat, i: nat, j: nat)
    requires Rectangular(grid, rows, cols) && 2 <= rows && 2 <= cols
    requires i < rows && j < cols
    ensures TTauToLat(grid, i as real, j as real) == Success(grid[i][j].lat)
    ensures TTauToLon(grid, i as real, j as real) == Success(grid[i][j].lon)
  {
    var qx := CellIndex(i as real, rows);
    var qy := CellIndex(j as real, cols);
    assert Trunc(i as real) == i && Trunc(j as real) == j;
    assert qx == (if i == rows - 1 then rows - 2 else i);
    assert qy == (if j == cols - 1 then cols - 2 else j);
    var fx := i as real - qx as real;
    var fy := j as real - qy as real;
    assert fx == 0.0 || fx == 1.0;
    assert fy == 0.0 || fy == 1.0;
  }

  /** `_t_tau_to_inc`: the same interpolation in the incidence grid, but
      with `int(x)` and `int(y)` used as indices without clamping, so that
      Python's negative indices count from the end. */
  function TTauToInc(grid: seq<seq<real>>, x: real, y: real): Result<real, ImageError>
  {
    var qx, qy := Trunc(x), Trunc(y);
    var x0, x1 := ListIndex(qx, |grid|), ListIndex(qx + 1, |grid|);
    if x0.None? || x1.None? then Failure(IndexError)
    else
      var y0a, y0b := ListIndex(qy, |grid[x0.value]|), ListIndex(qy + 1, |grid[x0.value]|);
      var y1a, y1b := ListIndex(qy, |grid[x1.value]|), ListIndex(qy + 1, |grid[x1.value]|);
      if y0a.None? || y0b.None? || y1a.None? || y1b.None? then Failure(IndexError)
      else
        Success(Interp.Bilinear(x - qx as real, y - qy as real,
          grid[x0.value][y0a.value], grid[x1.value][y1a.value],
          grid[x1.value][y1b.value], grid[x0.value][y0b.value]))
  }

  /** For grid positions with non-negative integer parts, the incidence
      lookup succeeds exactly when the cell lies inside the grid: unlike
      latitude and longitude, there is no incidence at or beyond the last
      grid line. */
  lemma IncInBoundsIff(grid: seq<seq<real>>, rows: nat, cols: nat, x: real, y: real)
    requires Rectangular(grid, rows, cols) && 0 <= Trunc(x) && 0 <= Trunc(y)
    ensures TTauToInc(grid, x, y).Success? <==> Trunc(x) <= rows - 2 && Trunc(y) <= cols - 2
  {
  }

  /** Inside the grid the incidence lookup returns the node's own value at
      every node that is the first corner of a cell. */
  lemma IncAtGridNode(grid: seq<seq<real>>, rows: nat, cols: nat, i: nat, j: nat)
    requires Rectangular(grid, rows, cols) && i + 2 <= rows && j + 2 <= cols
    ensures TTauToInc(grid, i as real, j as real) == Success(grid[i][j])
  {
    assert Trunc(i as real) == i && Trunc(j as real) == j;
  }

  /** The TerraSAR-X image of one channel. */
  class TsxImage {
    var img: Cosar.Raster
    var shape: (nat, nat)
    var centerTimestamp: real
    var rowSpacing: real
    var colSpacing: real
    var calFactor: real
    var rangeSize: int
    var azimuthSize: int
    var rangeGridSpacing: real
    var azimuthGridSpacing: real
    var rangeTime: seq<real>
    var azimuthTime: seq<real>
    var latlonGrid: seq<seq<GeoRef.LatLon>>
    var incGrid: seq<seq<real>>
    var rangeResolution: real
    var azimuthResolution: real

    /** The raster has the recorded shape. */
    predicate Valid()
      reads this
    {
      Rectangular(img, shape.0, shape.1)
    }

    /** `__init__`: every field empty until the sensor fills it in. */
    constructor ()
      ensures img == [] && shape == (0, 0) && rangeTime == [] && azimuthTime == []
      ensures latlonGrid == [] && incGrid == []
      ensures Valid()
    {
      img := [];
      shape := (0, 0);
      centerTimestamp := 0.0;
      rowSpacing := 0.0;
      colSpacing := 0.0;
      calFactor := 0.0;
      rangeSize := 0;
      azimuthSize := 0;
      rangeGridSpacing := 0.0;
      azimuthGridSpacing := 0.0;
      rangeTime := [];
      azimuthTime := [];
      latlonGrid := [];
      incGrid := [];
      rangeResolution := 0.0;
      azimuthResolution := 0.0;
    }

    /** `_get_geogrid_tau_and_t_pos`: image position to grid position, each
        axis divided by its grid step. */
    function GeoGridPos(x: real, y: real): (r: Result<(real, real), ImageError>)
      reads this
      ensures r.Success? <==>
        GridStep(rangeSize, rangeGridSpacing, rangeTime).Success? &&
        GridStep(azimuthSize, azimuthGridSpacing, azimuthTime).Success? &&
        GridStep(rangeSize, rangeGridSpacing, rangeTime).value != 0.0 &&
        GridStep(azimuthSize, azimuthGridSpacing, azimuthTime).value != 0.0
      ensures r.Success? ==>
        r.value.0 * GridStep(rangeSize, rangeGridSpacing, rangeTime).value == x &&
        r.value.1 * GridStep(azimuthSize, azimuthGridSpacing, azimuthTime).value == y
    {
      var rangeStep := GridStep(rangeSize, rangeGridSpacing, rangeTime);
      var azimuthStep := GridStep(azimuthSize, azimuthGridSpacing, azimuthTime);
      if rangeStep.Failure? then Failure(rangeStep.error)
      else if azimuthStep.Failure? then Failure(azimuthStep.error)
      else if rangeStep.value == 0.0 || azimuthStep.value == 0.0 then Failure(ZeroDivisionError)
      else Success((x / rangeStep.value, y / azimuthStep.value))
    }

    /** `convert_to_geo_coordinates`: `[lon, lat]` of image position (x, y). */
    function ConvertToGeoCoordinates(x: real, y: real): (r: Result<(real, real), ImageError>)
      reads this
      ensures GeoGridPos(x, y).Failure? ==> r == Failure(GeoGridPos(x, y).error)
      ensures GeoGridPos(x, y).Success? ==>
        var pos := GeoGridPos(x, y).value;
        var lon := TTauToLon(latlonGrid, pos.0, pos.1);
        var lat := TTauToLat(latlonGrid, pos.0, pos.1);
        (r.Success? <==> lon.Success? && lat.Success?) &&
        (r.Success? ==> r.value == (lon.value, lat.value))
    {
      var p := GeoGridPos(x, y);
      if p.Failure? then Failure(p.error)
      else
        var lon := TTauToLon(latlonGrid, p.value.0, p.value.1);
        var lat := TTauToLat(latlonGrid, p.value.0, p.value.1);
        if lon.Failure? then Failure(lon.error)
        else if lat.Failure? then Failure(lat.error)
        else Success((lon.value, lat.value))
    }

    /** On a rectangular lat/lon grid of at least 2 x 2 points, converting
        to geographic coordinates fails only where the grid steps do. */
    lemma GeoCoordinatesExist(x: real, y: real)
      requires GeoGridPos(x, y).Success?
      requires 2 <= |latlonGrid| && 2 <= |latlonGrid[0]|
      requires Rectangular(latlonGrid, |latlonGrid|, |latlonGrid[0]|)
      ensures ConvertToGeoCoordinates(x, y).Success?
    {
      var pos := GeoGridPos(x, y).value;
      LatLonInBounds(latlonGrid, |latlonGrid|, |latlonGrid[0]|, pos.0, pos.1);
    }

    /** `get_incidence_angle`. */
    function IncidenceAngle(x: real, y: real): (r: Result<real, ImageError>)
      reads this
      ensures GeoGridPos(x, y).Failure? ==> r == Failure(GeoGridPos(x, y).error)
      ensures GeoGridPos(x, y).Success? ==>
        r == TTauToInc(incGrid, GeoGridPos(x, y).value.0, GeoGridPos(x, y).value.1)
    {
      var p := GeoGridPos(x, y);
      if p.Failure? then Failure(p.error) else TTauToInc(incGrid, p.value.0, p.value.1)
    }

    /** Where the grid position has non-negative integer parts, the
        incidence angle exists exactly when both grid steps do and the
        position's cell lies inside the incidence grid. */
    lemma IncidenceAngleInBounds(x: real, y: real, rows: nat, cols: nat)
      requires Rectangular(incGrid, rows, cols)
      requires GeoGridPos(x, y).Success? ==>
        0 <= Trunc(GeoGridPos(x, y).value.0) && 0 <= Trunc(GeoGridPos(x, y).value.1)
      ensures IncidenceAngle(x, y).Success? <==>
        GeoGridPos(x, y).Success? &&
        Trunc(GeoGridPos(x, y).value.0) <= rows - 2 && Trunc(GeoGridPos(x, y).value.1) <= cols - 2
    {
      if GeoGridPos(x, y).Success? {
        var pos := GeoGridPos(x, y).value;
        IncInBoundsIff(incGrid, rows, cols, pos.0, pos.1);
      }
    }

    /** At an image position that maps onto grid node (i, j), the
        incidence angle is the node's own value, for every node that is the
        first corner of a cell. */
    lemma IncidenceAngleAtNode(x: real, y: real, i: nat, j: nat, rows: nat, cols: nat)
      requires Rectangular(incGrid, rows, cols) && i + 2 <= rows && j + 2 <= cols
      requires GeoGridPos(x, y) == Success((i as real, j as real))
      ensures IncidenceAngle(x, y) == Success(incGrid[i][j])
    {
      IncAtGridNode(incGrid, rows, cols, i, j);
    }

    /** `get_roi`: a fresh complex array holding `img[y0:y1, x0:x1]`, with
        numpy's clamping and negative bounds on both axes. */
    method GetRoi(x0: int, y0: int, x1: int, y1: int) returns (result: array2<Complex>)
      requires Valid()
      ensures fresh(result)
      ensures result.Length0 == |Slice(img, y0, y1)|
      ensures result.Length1 == SliceLength(x0, x1, shape.1)
      ensures forall j, i :: 0 <= j < result.Length0 && 0 <= i < result.Length1 ==>
        result[j, i] == ToComplex(img[SliceBound(y0, |img|) + j][SliceBound(x0, shape.1) + i])
    {
      var top, left := SliceBound(y0, |img|), SliceBound(x0, shape.1);
      var sizeY, sizeX := SliceLength(y0, y1, |img|), SliceLength(x0, x1, shape.1);
      result := new Complex[sizeY, sizeX];
      for j := 0 to sizeY
        invariant forall jj, i :: 0 <= jj < j && 0 <= i < sizeX ==>
          result[jj, i] == ToComplex(img[top + jj][left + i])
      {
        for i := 0 to sizeX
          invariant forall jj, ii :: 0 <= jj < j && 0 <= ii < sizeX ==>
            result[jj, ii] == ToComplex(img[top + jj][left + ii])
          invariant forall ii :: 0 <= ii < i ==> result[j, ii] == ToComplex(img[top + j][left + ii])
        {
          result[j, i] := ToComplex(img[top + j][left + i]);
        }
      }
    }
  }
}
