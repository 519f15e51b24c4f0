/** The GSHHG coastline layer: the shoreline polygons of a shapefile with
    their bounding boxes and rings cached, a point-over-land test, and the
    selection of the polygons that meet a region. The OGR geometry tests
    are parameters. */
module Gshhg {
  import opened Wrappers
  import opened PyOps

  /** A shapefile vertex, (lon, lat). */
  type Point = (real, real)

  /** One shapefile record: its bounding box and its vertices. */
  datatype Shape = Shape(bbox: seq<real>, points: seq<Point>)

  /** An edge of a polygon, from its first point to its second. */
  type Edge = (Point, Point)

  /** OGR's `Contains` of a polygon ring and a point, and `Intersects` of two rings. */
  type Contains = (seq<Point>, Point) -> bool
  type Intersects = (seq<Point>, seq<Point>) -> bool

  datatype GshhgError = IndexError   // `polygon[-1]` of a polygon with no points

  /** The edges `_lines` yields from a previous point `p0` on: each point of
      `ps` closes the edge that starts at the point before it. */
  function LinesFrom(p0: Point, ps: seq<Point>): (r: seq<Edge>)
    ensures |r| == |ps|
    decreases |ps|
  {
    if ps == [] then [] else [(p0, ps[0])] + LinesFrom(ps[0], ps[1..])
  }

  /** `_lines`: the closing edge from the last point to the first, then
      each consecutive pair; an empty polygon has no last point. */
  function Lines(polygon: seq<Point>): Result<seq<Edge>, GshhgError>
  {
    if polygon == [] then Failure(IndexError) else Success(LinesFrom(polygon[|polygon| - 1], polygon))
  }

  /** Edge `k` of `LinesFrom(p0, ps)` joins the point before `ps[k]` to `ps[k]`. */
  lemma {:induction false} LinesFromAt(p0: Point, ps: seq<Point>, k: nat)
    requires k < |ps|
    ensures LinesFrom(p0, ps)[k] == (if k == 0 then p0 else ps[k - 1], ps[k])
    decreases k
  {
    if k > 0 {
      LinesFromAt(ps[0], ps[1..], k - 1);
    }
  }

  /** A polygon of `n` points has `n` edges: the closing edge
      `(p[n-1], p[0])` first, then `(p[k-1], p[k])`. */
  lemma LinesShape(polygon: seq<Point>)
    ensures Lines(polygon).Success? <==> polygon != []
    ensures Lines(polygon).Success? ==>
      var r := Lines(polygon).value;
      |r| == |polygon| &&
      r[0] == (polygon[|polygon| - 1], polygon[0]) &&
      forall k :: 1 <= k < |polygon| ==> r[k] == (polygon[k - 1], polygon[k])
  {
    if polygon != [] {
      var r := Lines(polygon).value;
      LinesFromAt(polygon[|polygon| - 1], polygon, 0);
      forall k | 1 <= k < |polygon|
        ensures r[k] == (polygon[k - 1], polygon[k])
      {
        LinesFromAt(polygon[|polygon| - 1], polygon, k);
      }
    }
  }

  /** The points `_create_ogr_polygon` adds to the ring: both ends of each
      edge, in edge order. */
  function RingOf(edges: seq<Edge>): (ring: seq<Point>)
    ensures |ring| == 2 * |edges|
  {
    if edges == [] then [] else RingOf(edges[..|edges| - 1]) + [edges[|edges| - 1].0, edges[|edges| - 1].1]
  }

  lemma {:induction false} RingOfAt(edges: seq<Edge>, k: nat)
    requires k < |edges|
    ensures RingOf(edges)[2 * k] == edges[k].0 && RingOf(edges)[2 * k + 1] == edges[k].1
    decreases |edges|
  {
    if k < |edges| - 1 {
      RingOfAt(edges[..|edges| - 1], k);
    }
  }

  /** `_create_ogr_polygon`: the ring of a polygon, built edge by edge. */
  method CreateOgrPolygon(polygon: seq<Point>) returns (r: Result<seq<Point>, GshhgError>)
    ensures r.Success? <==> Lines(polygon).Success?
    ensures r.Success? ==> r.value == RingOf(Lines(polygon).value)
  {
    if polygon == [] {
      return Failure(IndexError);
    }
    var edges := Lines(polygon).value;
    var ring: seq<Point> := [];
    for k := 0 to |edges|
      invariant ring == RingOf(edges[..k])
    {
      ring := ring + [edges[k].0, edges[k].1];
      assert edges[..k + 1][..k] == edges[..k];
    }
    assert edges[..|edges|] == edges;
    return Success(ring);
  }

  /** The ring of an `n`-point polygon has `2n` points, starts at the last
      vertex and ends there too, so it is closed. */
  lemma RingClosed(polygon: seq<Point>)
    requires polygon != []
    ensures var ring := RingOf(Lines(polygon).value);
      |ring| == 2 * |polygon| &&
      ring[0] == polygon[|polygon| - 1] && ring[|ring| - 1] == polygon[|polygon| - 1] &&
      forall k :: 0 <= k < |polygon| ==> ring[2 * k + 1] == polygon[k]
  {
    var edges := Lines(polygon).value;
    var n := |polygon|;
    LinesShape(polygon);
    RingOfAt(edges, 0);
    RingOfAt(edges, n - 1);
    forall k | 0 <= k < n
      ensures RingOf(edges)[2 * k + 1] == polygon[k]
    {
      RingOfAt(edges, k);
      LinesFromAt(polygon[n - 1], polygon, k);
    }
  }

  /** Indices `0 .. n-1` in ascending order. */
  function Range(n: nat): (r: seq<nat>)
    ensures |r| == n && forall k :: 0 <= k < n ==> r[k] == k
  {
    if n == 0 then [] else Range(n - 1) + [n - 1]
  }

  predicate Ascending(s: seq<nat>)
  {
    forall i, j :: 0 <= i < j < |s| ==> s[i] < s[j]
  }

  /** The indices below `m` whose polygon ring meets the region's ring, ascending. */
  function Relevant(intersects: Intersects, region: seq<Point>, rings: seq<seq<Point>>, m: nat): (r: seq<nat>)
    requires m <= |rings|
    ensures forall k :: 0 <= k < |r| ==> r[k] < m
  {
    if m == 0 then []
    else
      var last: seq<nat> := if intersects(region, rings[m - 1]) then [m - 1] else [];
      Relevant(intersects, region, rings, m - 1) + last
  }

  /** The loop of `buildRelevantSet`: the ring of every polygon is built
      afresh and kept when it meets the region. */
  method CollectRelevant(intersects: Intersects, region: seq<Point>, polygons: seq<seq<Point>>, rings: seq<seq<Point>>)
      returns (relevant: seq<nat>)
    requires |polygons| == |rings|
    requires forall i :: 0 <= i < |polygons| ==> polygons[i] != [] && rings[i] == RingOf(Lines(polygons[i]).value)
    ensures relevant == Relevant(intersects, region, rings, |rings|)
  {
    relevant := [];
    for i := 0 to |polygons|
      invariant relevant == Relevant(intersects, region, rings, i)
    {
      var polygonOgr := CreateOgrPolygon(polygons[i]);
      if intersects(region, polygonOgr.value) {
        relevant := relevant + [i];
      }
    }
  }

  /** The relevant set holds each intersecting index once, in ascending
      order, and no other index. */
  lemma {:induction false} RelevantMembers(intersects: Intersects, region: seq<Point>, rings: seq<seq<Point>>, m: nat)
    requires m <= |rings|
    ensures Ascending(Relevant(intersects, region, rings, m))
    ensures forall i :: i in Relevant(intersects, region, rings, m) <==> 0 <= i < m && intersects(region, rings[i])
  {
    if m > 0 {
      RelevantMembers(intersects, region, rings, m - 1);
    }
  }

  class Gshhg {
    const shapes: seq<Shape>
    const totalShapes: nat
    var bboxCache: seq<seq<real>>
    var polygonCache: seq<seq<Point>>
    var polygonOgrCache: seq<seq<Point>>
    var relevantIndexSet: Option<seq<nat>>

    /** The three caches are aligned with the shapes, and the relevant set
        names shapes in ascending order. */
    predicate Valid()
      reads this
    {
      CachesAligned() && RelevantInRange()
    }

    predicate CachesAligned()
      reads this`bboxCache, this`polygonCache, this`polygonOgrCache
    {
      totalShapes == |shapes| &&
      |bboxCache| == totalShapes && |polygonCache| == totalShapes && |polygonOgrCache| == totalShapes &&
      forall i :: 0 <= i < totalShapes ==>
        bboxCache[i] == shapes[i].bbox && polygonCache[i] == shapes[i].points &&
        shapes[i].points != [] && polygonOgrCache[i] == RingOf(Lines(shapes[i].points).value)
    }

    predicate RelevantInRange()
      reads this`relevantIndexSet
    {
      relevantIndexSet.Some? ==>
        Ascending(relevantIndexSet.value) &&
        forall k :: 0 <= k < |relevantIndexSet.value| ==> relevantIndexSet.value[k] < totalShapes
    }

    /** `__init__`: the shapes of the file and, shape by shape, its bounding
        box, its points and its ring; no relevant set yet. */
    constructor (shapes: seq<Shape>)
      requires forall i :: 0 <= i < |shapes| ==> shapes[i].points != []
      ensures Valid() && this.shapes == shapes && relevantIndexSet.None?
    {
      this.shapes := shapes;
      totalShapes := |shapes|;
      bboxCache := [];
      polygonCache := [];
      polygonOgrCache := [];
      relevantIndexSet := None;
      new;
      for i := 0 to totalShapes
        invariant |bboxCache| == i && |polygonCache| == i && |polygonOgrCache| == i
        invariant forall k :: 0 <= k < i ==>
          bboxCache[k] == shapes[k].bbox && polygonCache[k] == shapes[k].points &&
          polygonOgrCache[k] == RingOf(Lines(shapes[k].points).value)
        invariant relevantIndexSet.None?
      {
        bboxCache := bboxCache + [shapes[i].bbox];
        polygonCache := polygonCache + [shapes[i].points];
        var ring := CreateOgrPolygon(shapes[i].points);
        polygonOgrCache := polygonOgrCache + [ring.value];
      }
    }

    /** `getPoints`: the points of a shape, negative indices counting from the end. */
    function GetPoints(shapeIndex: int): (r: Option<seq<Point>>)
      ensures r.Some? <==> -(|shapes| as int) <= shapeIndex < |shapes|
      ensures r.Some? ==> r.value == shapes[ListIndex(shapeIndex, |shapes|).value].points
    {
      match ListIndex(shapeIndex, |shapes|)
      case None => None
      case Some(k) => Some(shapes[k].points)
    }

    /** The shapes `isOverLand` looks at: the relevant set once built, all of them before. */
    function LoopSet(): seq<nat>
      reads this
    {
      if relevantIndexSet.None? then Range(totalShapes) else relevantIndexSet.value
    }

    /** `isOverLand`: whether some polygon of the loop set contains the
        point; nothing changes. */
    method IsOverLand(contains: Contains, pointLonLat: Point) returns (b: bool)
      requires Valid()
      ensures b <==> exists k :: 0 <= k < |LoopSet()| && contains(polygonOgrCache[LoopSet()[k]], pointLonLat)
    {
      var loopSet := if relevantIndexSet.None? then Range(totalShapes) else relevantIndexSet.value;
      assert loopSet == LoopSet();
      for k := 0 to |loopSet|
        invariant forall j :: 0 <= j < k ==> !contains(polygonOgrCache[loopSet[j]], pointLonLat)
      {
        var polygonOgr := polygonOgrCache[loopSet[k]];
        if contains(polygonOgr, pointLonLat) {
          assert contains(polygonOgrCache[LoopSet()[k]], pointLonLat);
          return true;
        }
      }
      return false;
    }

    /** `buildRelevantSet`: replace the relevant set by the shapes whose ring
        meets the ring of `bbox`, ascending. The set is emptied first, so a
        `bbox` with no points raises with the set left empty. */
    method BuildRelevantSet(intersects: Intersects, bbox: seq<Point>) returns (r: Result<(), GshhgError>)
      requires Valid()
      modifies this`relevantIndexSet
      ensures Valid()
      ensures bbox == [] ==> r == Failure(IndexError) && relevantIndexSet == Some([])
      ensures bbox != [] ==>
        r.Success? &&
        relevantIndexSet == Some(Relevant(intersects, RingOf(Lines(bbox).value), polygonOgrCache, totalShapes))
    {
      relevantIndexSet := Some([]);
      var polygonBbox := CreateOgrPolygon(bbox);
      if polygonBbox.Failure? {
        assert bbox == [] && Ascending([]);
        return Failure(IndexError);
      }
      var region := polygonBbox.value;
      var relevant := CollectRelevant(intersects, region, polygonCache, polygonOgrCache);
      RelevantMembers(intersects, region, polygonOgrCache, totalShapes);
      relevantIndexSet := Some(relevant);
      return Success(());
    }
  }
}
