/** A region of interest inside an image: its offset and size, its centre,
    conversion of points between image and region coordinates, cutting the
    region out of an image, and its printable form. */
module RoiFrame {
  import opened Wrappers
  import opened PyOps
  import Text

  /** A pixel position `(x, y)`: column first, then row. */
  type Point = (int, int)

  /** The fields of a `", "`-separated list, in order. */
  function JoinFields(fields: seq<string>): string
    requires 1 <= |fields|
  {
    if |fields| == 1 then fields[0] else fields[0] + ", " + JoinFields(fields[1..])
  }

  /** Splits `s` into exactly `n` fields separated by `", "`; `None` when
      it does not hold that many. */
  function Fields(s: string, n: nat): (r: Option<seq<string>>)
    requires 1 <= n
    ensures r.Some? ==> |r.value| == n
    decreases n
  {
    if n == 1 then
      if ',' in s then None else Some([s])
    else if ',' !in s then None
    else
      var rest := Text.After(s, ',');
      if rest == [] || rest[0] != ' ' then None
      else match Fields(rest[1..], n - 1)
        case None => None
        case Some(tail) => Some([Text.Before(s, ',')] + tail)
  }

  /** Splitting a joined list of comma-free fields gives the fields back. */
  lemma {:induction false} FieldsOfJoin(fields: seq<string>)
    requires 1 <= |fields|
    requires forall k :: 0 <= k < |fields| ==> ',' !in fields[k]
    ensures Fields(JoinFields(fields), |fields|) == Some(fields)
  {
    if |fields| > 1 {
      var tail := JoinFields(fields[1..]);
      assert JoinFields(fields) == fields[0] + [','] + (" " + tail);
      Text.CutAtFirst(fields[0], ',', " " + tail);
      assert (" " + tail)[1..] == tail;
      FieldsOfJoin(fields[1..]);
      assert [fields[0]] + fields[1..] == fields;
    } else {
      assert fields == [fields[0]];
    }
  }

  const FramePrefix: string := "ROI frame ("

  /** Reads the printed form of a frame back into its four numbers. */
  function ParseFrame(s: string): Option<(int, int, int, int)>
  {
    if |s| < |FramePrefix| + 1 || s[..|FramePrefix|] != FramePrefix || s[|s| - 1] != ')' then None
    else match Fields(s[|FramePrefix|..|s| - 1], 4)
      case None => None
      case Some(f) =>
        if Text.IsIntText(f[0]) && Text.IsIntText(f[1]) && Text.IsIntText(f[2]) && Text.IsIntText(f[3]) then
          Some((Text.ParseInt(f[0]), Text.ParseInt(f[1]), Text.ParseInt(f[2]), Text.ParseInt(f[3])))
        else None
  }

  /** The printed form of an integer holds no comma. */
  lemma IntTextCommaFree(n: int)
    ensures ',' !in Text.IntToString(n)
  {
  }

  /** Half a positive size, rounded down, is a position inside it: the
      centre of a non-empty region lies in the region. */
  lemma HalfInside(size: int)
    requires 1 <= size
    ensures 0 <= FloorDiv(size, 2) < size
  {
  }

  class ROIFrame {
    const offsetX: int
    const offsetY: int
    const roiSizeX: int
    const roiSizeY: int
    const roiCenterGlobal: Point
    const roiCenterLocal: Point

    /** `__init__`: the local centre halves each size, rounding down, and the
        global centre is the offset moved by the local centre. */
    constructor (offsetX: int, offsetY: int, roiSizeX: int, roiSizeY: int)
      ensures this.offsetX == offsetX && this.offsetY == offsetY
      ensures this.roiSizeX == roiSizeX && this.roiSizeY == roiSizeY
      ensures 2 * roiCenterLocal.0 <= roiSizeX < 2 * roiCenterLocal.0 + 2
      ensures 2 * roiCenterLocal.1 <= roiSizeY < 2 * roiCenterLocal.1 + 2
      ensures roiCenterGlobal == (offsetX + roiCenterLocal.0, offsetY + roiCenterLocal.1)
    {
      this.offsetX := offsetX;
      this.offsetY := offsetY;
      this.roiSizeX := roiSizeX;
      this.roiSizeY := roiSizeY;
      var globalCenterX := offsetX + FloorDiv(roiSizeX, 2);
      var globalCenterY := offsetY + FloorDiv(roiSizeY, 2);
      roiCenterGlobal := (globalCenterX, globalCenterY);
      roiCenterLocal := (FloorDiv(roiSizeX, 2), FloorDiv(roiSizeY, 2));
    }

    function ToLocal(p: Point): Point
    {
      (p.0 - offsetX, p.1 - offsetY)
    }

    function ToGlobal(p: Point): Point
    {
      (p.0 + offsetX, p.1 + offsetY)
    }

    /** Every point moved into region coordinates, in the same order. */
    function LocalPoints(ps: seq<Point>): (r: seq<Point>)
      ensures |r| == |ps|
      ensures forall k :: 0 <= k < |ps| ==> r[k] == (ps[k].0 - offsetX, ps[k].1 - offsetY)
    {
      if ps == [] then [] else LocalPoints(ps[..|ps| - 1]) + [ToLocal(ps[|ps| - 1])]
    }

    /** Every point moved into image coordinates, in the same order. */
    function GlobalPoints(ps: seq<Point>): (r: seq<Point>)
      ensures |r| == |ps|
      ensures forall k :: 0 <= k < |ps| ==> r[k] == (ps[k].0 + offsetX, ps[k].1 + offsetY)
    {
      if ps == [] then [] else GlobalPoints(ps[..|ps| - 1]) + [ToGlobal(ps[|ps| - 1])]
    }

    /** Moving into the region and back returns the original points. */
    lemma {:induction false} GlobalOfLocal(ps: seq<Point>)
      ensures GlobalPoints(LocalPoints(ps)) == ps
    {
      if ps != [] {
        var init := ps[..|ps| - 1];
        GlobalOfLocal(init);
        assert LocalPoints(ps)[..|ps| - 1] == LocalPoints(init);
        assert ps == init + [ps[|ps| - 1]];
      }
    }

    /** Moving out of the region and back returns the original points. */
    lemma {:induction false} LocalOfGlobal(ps: seq<Point>)
      ensures LocalPoints(GlobalPoints(ps)) == ps
    {
      if ps != [] {
        var init := ps[..|ps| - 1];
        LocalOfGlobal(init);
        assert GlobalPoints(ps)[..|ps| - 1] == GlobalPoints(init);
        assert ps == init + [ps[|ps| - 1]];
      }
    }

    /** `transform_points_local`: a new list of region coordinates. */
    method TransformPointsLocal(globalPoints: seq<Point>) returns (localPoints: seq<Point>)
      ensures localPoints == LocalPoints(globalPoints)
    {
      localPoints := [];
      for i := 0 to |globalPoints|
        invariant localPoints == LocalPoints(globalPoints[..i])
      {
        var p := globalPoints[i];
        localPoints := localPoints + [(p.0 - offsetX, p.1 - offsetY)];
        assert globalPoints[..i + 1][..i] == globalPoints[..i];
      }
      assert globalPoints[..|globalPoints|] == globalPoints;
    }

    /** `transform_points_global`: a new list of image coordinates. */
    method TransformPointsGlobal(localPoints: seq<Point>) returns (globalPoints: seq<Point>)
      ensures globalPoints == GlobalPoints(localPoints)
    {
      globalPoints := [];
      for i := 0 to |localPoints|
        invariant globalPoints == GlobalPoints(localPoints[..i])
      {
        var p := localPoints[i];
        globalPoints := globalPoints + [(p.0 + offsetX, p.1 + offsetY)];
        assert localPoints[..i + 1][..i] == localPoints[..i];
      }
      assert localPoints[..|localPoints|] == localPoints;
    }

    /** `cut_image_roi`: a copy of the rows `[offsetY, offsetY + roiSizeY)`
        and, within them, the columns `[offsetX, offsetX + roiSizeX)`, with
        the clipping and negative-index rules of Python slices. */
    function CutImageRoi<T>(img: seq<seq<T>>): (r: seq<seq<T>>)
      ensures |r| == SliceLength(offsetY, offsetY + roiSizeY, |img|)
      ensures forall j :: 0 <= j < |r| ==>
        r[j] == Slice(img[SliceBound(offsetY, |img|) + j], offsetX, offsetX + roiSizeX)
    {
      var rows := Slice(img, offsetY, offsetY + roiSizeY);
      seq(|rows|, j requires 0 <= j < |rows| => Slice(rows[j], offsetX, offsetX + roiSizeX))
    }

    /** A region inside a `width`-column image is cut out whole: `roiSizeY`
        rows of `roiSizeX` pixels, pixel `(i, j)` being image pixel
        `(offsetX + i, offsetY + j)`. */
    lemma CutInside<T>(img: seq<seq<T>>, width: nat)
      requires forall j :: 0 <= j < |img| ==> |img[j]| == width
      requires 0 <= offsetX && 0 <= roiSizeX && offsetX + roiSizeX <= width
      requires 0 <= offsetY && 0 <= roiSizeY && offsetY + roiSizeY <= |img|
      ensures |CutImageRoi(img)| == roiSizeY
      ensures forall j :: 0 <= j < roiSizeY ==> |CutImageRoi(img)[j]| == roiSizeX
      ensures forall j, i :: 0 <= j < roiSizeY && 0 <= i < roiSizeX ==>
        CutImageRoi(img)[j][i] == img[offsetY + j][offsetX + i]
    {
      var r := CutImageRoi(img);
      forall j | 0 <= j < roiSizeY
        ensures r[j] == img[offsetY + j][offsetX..offsetX + roiSizeX]
      {
        SliceWithin(img[offsetY + j], offsetX, offsetX + roiSizeX);
      }
    }

    /** `__str__`: the four numbers in the order offset x, offset y, size x,
        size y, separated by `", "`, between `"ROI frame ("` and `")"`. */
    function ToString(): string
    {
      FramePrefix + JoinFields([Text.IntToString(offsetX), Text.IntToString(offsetY),
                                Text.IntToString(roiSizeX), Text.IntToString(roiSizeY)]) + ")"
    }

    /** The printed form reads back to the four numbers of the frame. */
    lemma ToStringReadsBack()
      ensures ParseFrame(ToString()) == Some((offsetX, offsetY, roiSizeX, roiSizeY))
    {
      var f := [Text.IntToString(offsetX), Text.IntToString(offsetY),
                Text.IntToString(roiSizeX), Text.IntToString(roiSizeY)];
      Text.Unwrap(FramePrefix, JoinFields(f), ")");
      IntTextCommaFree(offsetX);
      IntTextCommaFree(offsetY);
      IntTextCommaFree(roiSizeX);
      IntTextCommaFree(roiSizeY);
      FieldsOfJoin(f);
      Text.IntToStringRoundTrip(offsetX);
      Text.IntToStringRoundTrip(offsetY);
      Text.IntToStringRoundTrip(roiSizeX);
      Text.IntToStringRoundTrip(roiSizeY);
    }
  }
}
