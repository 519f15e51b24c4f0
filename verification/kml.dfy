/** The KML text written for detections: the document header and footer,
    square placemarks around points, and a timed ship placemark. Numbers
    are rendered by formatters passed in as functions, `%f` as `fixed` and
    `%s` of a float as `text`. Adjacent constant pieces that the writer
    appends one after the other are written here as one literal. */
module Kml {
  import opened Wrappers
  import Text

  /** Renders a float as text. */
  type Formatter = real -> string

  /** A point as the callers give it: latitude first, then longitude. */
  type LatLon = (real, real)

  /** A KML coordinate pair: longitude first, then latitude. */
  type LonLat = (real, real)

  /** `generate_kml_start_str`: the XML declaration, the `kml` element
      with its four namespaces, and the opening of the document. */
  function GenerateKmlStartStr(): string
  {
    "<?xml version=\"1.0\" encoding=\"UTF-8\" standalone=\"yes\"?>"
      + "<kml xmlns=\"http://www.opengis.net/kml/2.2\" "
      + "xmlns:gx=\"http://www.google.com/kml/ext/2.2\" "
      + "xmlns:atom=\"http://www.w3.org/2005/Atom\" "
      + "xmlns:xal=\"urn:oasis:names:tc:ciq:xsdschema:xAL:2.0\">"
      + "<Document>"
  }

  /** `generate_kml_end_str`: closes the document and the `kml` element. */
  function GenerateKmlEndStr(): string
  {
    "</Document></kml>"
  }

  const DefaultColor: string := "ff0000ff"

  /** Half the side of the square drawn by `generate_kml_placemark_from_point`. */
  const PlacemarkHalfSide: real := 0.0008

  /** Half the side of the squares drawn by `generate_kml_fom_points`. */
  const PointsHalfSide: real := 0.0001

  /** The square of half side `d` around a point, as a closed ring of five
      corners: the first corner is repeated at the end, each corner is `d`
      away from the point in both directions, consecutive corners differ in
      exactly one coordinate, and the four corners are distinct. */
  function Corners(lat: real, lon: real, d: real): (r: seq<LonLat>)
    ensures |r| == 5 && r[0] == r[4]
    ensures forall k :: 0 <= k < 5 ==>
      (r[k].0 == lon - d || r[k].0 == lon + d) && (r[k].1 == lat - d || r[k].1 == lat + d)
    ensures d != 0.0 ==> forall k :: 0 <= k < 4 ==> (r[k].0 == r[k + 1].0) != (r[k].1 == r[k + 1].1)
    ensures d != 0.0 ==> forall j, k :: 0 <= j < k < 4 ==> r[j] != r[k]
  {
    [(lon - d, lat - d), (lon + d, lat - d), (lon + d, lat + d), (lon - d, lat + d), (lon - d, lat - d)]
  }

  /** One `%f,%f,0 ` entry of a coordinate list. */
  function PairText(fixed: Formatter, c: LonLat): string
  {
    fixed(c.0) + "," + fixed(c.1) + ",0 "
  }

  function PairsText(fixed: Formatter, cs: seq<LonLat>): string
  {
    if cs == [] then "" else PairText(fixed, cs[0]) + PairsText(fixed, cs[1..])
  }

  /** A closed ring of five corners is written starting and ending with
      the same pair. */
  lemma {:induction false} ClosedRingText(fixed: Formatter, cs: seq<LonLat>)
    requires |cs| == 5 && cs[0] == cs[4]
    ensures var t := PairsText(fixed, cs);
      var p := PairText(fixed, cs[0]);
      |p| <= |t| && t[..|p|] == p && t[|t| - |p|..] == p
  {
    var p := PairText(fixed, cs[0]);
    var t4 := PairsText(fixed, cs[4..]);
    assert t4 == p by {
      assert cs[4..][1..] == [] && cs[4..][0] == cs[0];
      assert PairsText(fixed, cs[4..][1..]) == "";
    }
    var t3 := PairsText(fixed, cs[3..]);
    assert t3 == PairText(fixed, cs[3]) + t4 by { assert cs[3..][1..] == cs[4..]; }
    var t2 := PairsText(fixed, cs[2..]);
    assert t2 == PairText(fixed, cs[2]) + t3 by { assert cs[2..][1..] == cs[3..]; }
    var t1 := PairsText(fixed, cs[1..]);
    assert t1 == PairText(fixed, cs[1]) + t2 by { assert cs[1..][1..] == cs[2..]; }
    var t := PairsText(fixed, cs);
    assert t == p + t1;
    var middle := PairText(fixed, cs[1]) + PairText(fixed, cs[2]) + PairText(fixed, cs[3]);
    assert t == p + middle + p;
    Text.Unwrap(p, middle, p);
  }

  /** The written square is closed: its coordinate list starts and ends
      with the pair of the south-west corner. */
  lemma {:induction false} SquareTextClosed(fixed: Formatter, lat: real, lon: real, d: real)
    ensures var t := PairsText(fixed, Corners(lat, lon, d));
      var p := PairText(fixed, (lon - d, lat - d));
      |p| <= |t| && t[..|p|] == p && t[|t| - |p|..] == p
  {
    ClosedRingText(fixed, Corners(lat, lon, d));
  }

  /** The `coordinates` element of the square around a point. */
  function SquareCoordinates(fixed: Formatter, lat: real, lon: real, d: real): string
  {
    "<coordinates>" + PairsText(fixed, Corners(lat, lon, d)) + "</coordinates>"
  }

  function ColorTag(color: string): string
  {
    "<geomColor> " + color + " </geomColor>"
  }

  /** `generate_kml_placemark_from_point`: a square of half side 0.0008
      around the point, drawn in `color` (`'ff0000ff'` when none is given). */
  function GenerateKmlPlacemarkFromPoint(fixed: Formatter, pointLatLon: LatLon, color: Option<string>): string
  {
    var c := if color.None? then DefaultColor else color.value;
    var lat := pointLatLon.0;
    var lon := pointLatLon.1;
    "<Placemark><name>Point</name><Style>" + ColorTag(c) + "<geomScale>3</geomScale></Style><LineString>"
      + SquareCoordinates(fixed, lat, lon, PlacemarkHalfSide) + "</LineString></Placemark>"
  }

  /** Without a colour the placemark is the one drawn in `'ff0000ff'`; the
      colour and the square of half side 0.0008 around the point are
      written in it. */
  lemma {:induction false} PlacemarkFromPointContents(fixed: Formatter, pointLatLon: LatLon, color: Option<string>)
    ensures GenerateKmlPlacemarkFromPoint(fixed, pointLatLon, None)
      == GenerateKmlPlacemarkFromPoint(fixed, pointLatLon, Some(DefaultColor))
    ensures Text.Contains(GenerateKmlPlacemarkFromPoint(fixed, pointLatLon, color),
      ColorTag(if color.None? then DefaultColor else color.value))
    ensures Text.Contains(GenerateKmlPlacemarkFromPoint(fixed, pointLatLon, color),
      SquareCoordinates(fixed, pointLatLon.0, pointLatLon.1, 0.0008))
  {
    var c := if color.None? then DefaultColor else color.value;
    var a := "<Placemark><name>Point</name><Style>";
    var b := "<geomScale>3</geomScale></Style><LineString>";
    var square := SquareCoordinates(fixed, pointLatLon.0, pointLatLon.1, PlacemarkHalfSide);
    var z := "</LineString></Placemark>";
    Text.ContainsMiddle(a, ColorTag(c), b);
    Text.ContainsLeft(a + ColorTag(c) + b, square, ColorTag(c));
    Text.ContainsLeft(a + ColorTag(c) + b + square, z, ColorTag(c));
    Text.ContainsMiddle(a + ColorTag(c) + b, square, z);
  }

  /** The placemark `generate_kml_fom_points` writes for one point: a
      square of half side 0.0001 and a description giving its longitude
      and latitude. */
  function PointPlacemark(fixed: Formatter, point: LatLon): string
  {
    var lat := point.0;
    var lon := point.1;
    "<Placemark><name>P</name><Style><geomColor>ff0000ff</geomColor><geomScale>3</geomScale></Style><LineString>"
      + SquareCoordinates(fixed, lat, lon, PointsHalfSide)
      + PointDescription(fixed, lat, lon)
  }

  /** The end of a point's placemark: a fixed heading and speed, then the
      longitude and the latitude. */
  function PointDescription(fixed: Formatter, lat: real, lon: real): string
  {
    "</LineString><description>&lt;![CDATA["
      + "&lt;b&gt;Heading:&lt;/b&gt;&amp;nbsp;147 &lt;br/&gt;"
      + "&lt;b&gt;SpeedOverGround:&lt;/b&gt;&amp;nbsp; ? kn&lt;br/&gt;"
      + "&lt;b&gt;Longitude:&lt;/b&gt;&amp;nbsp;  " + fixed(lon) + " &lt;br/&gt;"
      + "&lt;b&gt;Latitude:&lt;/b&gt;&amp;nbsp;  " + fixed(lat) + " &lt;br/&gt;"
      + "</description></Placemark>"
  }

  /** The placemark of a point holds the square of half side 0.0001 around it. */
  lemma {:induction false} PointPlacemarkSquare(fixed: Formatter, point: LatLon)
    ensures Text.Contains(PointPlacemark(fixed, point), SquareCoordinates(fixed, point.0, point.1, 0.0001))
  {
    Text.ContainsMiddle(
      "<Placemark><name>P</name><Style><geomColor>ff0000ff</geomColor><geomScale>3</geomScale></Style><LineString>",
      SquareCoordinates(fixed, point.0, point.1, PointsHalfSide),
      PointDescription(fixed, point.0, point.1));
  }

  /** Renders the placemark of one point. */
  type Renderer = LatLon -> string

  /** The placemarks of `points`, one per point, in input order. */
  function Placemarks(render: Renderer, points: seq<LatLon>): string
  {
    if points == [] then "" else Placemarks(render, points[..|points| - 1]) + render(points[|points| - 1])
  }

  /** The placemarks of a concatenation are those of its parts, in order. */
  lemma {:induction false} PlacemarksAppend(render: Renderer, ps: seq<LatLon>, qs: seq<LatLon>)
    ensures Placemarks(render, ps + qs) == Placemarks(render, ps) + Placemarks(render, qs)
    decreases |qs|
  {
    if qs == [] {
      assert ps + qs == ps;
    } else {
      var init := qs[..|qs| - 1];
      PlacemarksAppend(render, ps, init);
      assert (ps + qs)[..|ps + qs| - 1] == ps + init;
    }
  }

  /** Point `k`'s placemark sits after those of the points before it and
      before those of the points after it. */
  lemma {:induction false} PlacemarkOfPoint(render: Renderer, points: seq<LatLon>, k: nat)
    requires k < |points|
    ensures Placemarks(render, points)
      == Placemarks(render, points[..k]) + render(points[k]) + Placemarks(render, points[k + 1..])
  {
    var before, at, after := points[..k], [points[k]], points[k + 1..];
    calc {
      Placemarks(render, points);
      { assert points == before + at + after; }
      Placemarks(render, before + at + after);
      { PlacemarksAppend(render, before + at, after); }
      Placemarks(render, before + at) + Placemarks(render, after);
      { PlacemarksAppend(render, before, at); }
      Placemarks(render, before) + Placemarks(render, at) + Placemarks(render, after);
      { assert at[..0] == []; }
      Placemarks(render, before) + render(points[k]) + Placemarks(render, after);
    }
  }

  /** The loop of `generate_kml_fom_points`: appends to `kmlStr` the
      placemark of each point, in input order. */
  method AppendPlacemarks(kmlStr: string, render: Renderer, points: seq<LatLon>) returns (r: string)
    ensures r == kmlStr + Placemarks(render, points)
  {
    r := kmlStr;
    for i := 0 to |points|
      invariant r == kmlStr + Placemarks(render, points[..i])
    {
      r := r + render(points[i]);
      assert points[..i + 1][..i] == points[..i];
    }
    assert points[..|points|] == points;
  }

  /** `generate_kml_fom_points`: the header, one placemark per point in
      input order, and the footer. */
  method GenerateKmlFomPoints(fixed: Formatter, points: seq<LatLon>) returns (kmlStr: string)
    ensures kmlStr == GenerateKmlStartStr() + Placemarks(p => PointPlacemark(fixed, p), points) + GenerateKmlEndStr()
  {
    kmlStr := GenerateKmlStartStr();
    kmlStr := AppendPlacemarks(kmlStr, p => PointPlacemark(fixed, p), points);
    kmlStr := kmlStr + GenerateKmlEndStr();
  }

  /** The UTC time of a timed point, as a `datetime` holds it. */
  datatype UtcTime = UtcTime(year: int, month: int, day: int, hour: int, minute: int, second: int)

  /** The fields of a time after the year, each already padded to two digits. */
  function DateTail(month: string, day: string, hour: string, minute: string, second: string): string
  {
    "-" + month + "-" + day + "T" + hour + ":" + minute + ":" + second
  }

  /** The `when` element: `%d-%02d-%02dT%02d:%02d:%02dZ`. */
  function WhenText(t: UtcTime): string
  {
    "<when>" + Text.IntToString(t.year)
      + DateTail(Text.Pad2(t.month), Text.Pad2(t.day), Text.Pad2(t.hour), Text.Pad2(t.minute), Text.Pad2(t.second))
      + "Z</when>"
  }

  /** All fields after the year have two digits, as those of a `datetime` do. */
  predicate TwoDigitFields(t: UtcTime)
  {
    0 <= t.month < 100 && 0 <= t.day < 100 && 0 <= t.hour < 100 && 0 <= t.minute < 100 && 0 <= t.second < 100
  }

  function TwoDigits(s: string): Option<nat>
  {
    if |s| == 2 && Text.AllDigits(s) then Some(Text.ParseDigits(s)) else None
  }

  /** Reads a `when` element back into the time it gives. */
  function ParseWhen(s: string): Option<UtcTime>
  {
    if |s| < 6 + 16 + 8 || s[..6] != "<when>" || s[|s| - 8..] != "Z</when>" then None
    else
      var body := s[6..|s| - 8];
      var year := body[..|body| - 15];
      var tail := body[|body| - 15..];
      if !Text.IsIntText(year) || tail[0] != '-' || tail[3] != '-' || tail[6] != 'T' || tail[9] != ':' || tail[12] != ':' then None
      else match (TwoDigits(tail[1..3]), TwoDigits(tail[4..6]), TwoDigits(tail[7..9]), TwoDigits(tail[10..12]), TwoDigits(tail[13..15]))
        case (Some(mo), Some(d), Some(h), Some(mi), Some(se)) => Some(UtcTime(Text.ParseInt(year), mo, d, h, mi, se))
        case _ => None
  }

  /** With two-character fields, each field sits at a fixed place after the year. */
  lemma {:induction false} DateTailLayout(month: string, day: string, hour: string, minute: string, second: string)
    requires |month| == 2 && |day| == 2 && |hour| == 2 && |minute| == 2 && |second| == 2
    ensures var w := DateTail(month, day, hour, minute, second);
      |w| == 15 && w[0] == '-' && w[3] == '-' && w[6] == 'T' && w[9] == ':' && w[12] == ':'
      && w[1..3] == month && w[4..6] == day && w[7..9] == hour && w[10..12] == minute && w[13..15] == second
  {
    var w := DateTail(month, day, hour, minute, second);
    assert w[1..3] == month;
    assert w[4..6] == day;
    assert w[7..9] == hour;
    assert w[10..12] == minute;
    assert w[13..15] == second;
  }

  /** A `when` element built from a year and five two-digit fields reads
      back to the numbers they spell. */
  lemma {:induction false} ParseWhenFields(y: string, mo: string, d: string, h: string, mi: string, se: string)
    requires Text.IsIntText(y)
    requires |mo| == 2 && |d| == 2 && |h| == 2 && |mi| == 2 && |se| == 2
    requires Text.AllDigits(mo) && Text.AllDigits(d) && Text.AllDigits(h) && Text.AllDigits(mi) && Text.AllDigits(se)
    ensures ParseWhen("<when>" + y + DateTail(mo, d, h, mi, se) + "Z</when>")
      == Some(UtcTime(Text.ParseInt(y), Text.ParseDigits(mo), Text.ParseDigits(d), Text.ParseDigits(h),
                      Text.ParseDigits(mi), Text.ParseDigits(se)))
  {
    var w := DateTail(mo, d, h, mi, se);
    DateTailLayout(mo, d, h, mi, se);
    Text.Unwrap("<when>", y + w, "Z</when>");
    assert "<when>" + y + w + "Z</when>" == "<when>" + (y + w) + "Z</when>";
    var body := y + w;
    assert body[..|body| - 15] == y;
    assert body[|body| - 15..] == w;
  }

  /** Every time whose fields after the year have two digits is written so
      that it reads back unchanged. */
  lemma {:induction false} WhenReadsBack(t: UtcTime)
    requires TwoDigitFields(t)
    ensures ParseWhen(WhenText(t)) == Some(t)
  {
    Text.Pad2RoundTrip(t.month);
    Text.Pad2RoundTrip(t.day);
    Text.Pad2RoundTrip(t.hour);
    Text.Pad2RoundTrip(t.minute);
    Text.Pad2RoundTrip(t.second);
    Text.IntToStringRoundTrip(t.year);
    ParseWhenFields(Text.IntToString(t.year), Text.Pad2(t.month), Text.Pad2(t.day), Text.Pad2(t.hour),
                    Text.Pad2(t.minute), Text.Pad2(t.second));
  }

  /** The `coordinates` of a timed point: longitude, then latitude. */
  function PointCoordinates(fixed: Formatter, lat: real, lon: real): string
  {
    "<coordinates>" + fixed(lon) + "," + fixed(lat) + "</coordinates>"
  }

  /** The heading of the icon: the ship's heading turned by 180 degrees. */
  function HeadingText(text: Formatter, heading: real): string
  {
    "<heading>" + text(heading - 180.0) + "</heading>"
  }

  /** The style of a timed point: its icon in `color` and turned by the
      heading, and the label scale. */
  function TimedStyle(text: Formatter, heading: real, color: string): string
  {
    "<Style><IconStyle><color>" + color + "</color><scale>0.6</scale>"
      + HeadingText(text, heading)
      + "<Icon><href>http://maps.google.com/mapfiles/kml/pal5/icon6.png</href></Icon></IconStyle><LabelStyle><scale>1.5</scale></LabelStyle></Style>"
  }

  function TimeStamp(t: UtcTime): string
  {
    "<TimeStamp>" + WhenText(t) + "</TimeStamp>"
  }

  /** The ship's name, MMSI, IMO number and type, each as `%s` writes it. */
  function ShipData(shipName: string, shipMmsi: string, shipImo: string, shipType: string): string
  {
    "<ExtendedData>"
      + "<Data name=\"ship_name\"><value> " + shipName + " </value></Data>"
      + "<Data name=\"ship_mmsi\"><value> " + shipMmsi + " </value></Data>"
      + "<Data name=\"ship_imo\"><value> " + shipImo + " </value></Data>"
      + "<Data name=\"ship_type\"><value> " + shipType + " </value></Data>"
      + "</ExtendedData>"
  }

  /** The end of a timed point: its balloon style, the ship data and the position. */
  function TimedTail(fixed: Formatter, lat: real, lon: real, shipName: string, shipMmsi: string,
                     shipImo: string, shipType: string): string
  {
    "<styleUrl>#golf-balloon-style</styleUrl>" + ShipData(shipName, shipMmsi, shipImo, shipType)
      + "<Point>" + PointCoordinates(fixed, lat, lon) + "</Point></Placemark>"
  }

  /** `generate_kml_timed_point`: a ship placemark with its style, time
      stamp, ship data and position. */
  function GenerateKmlTimedPoint(fixed: Formatter, text: Formatter, pointLatLon: LatLon, utcTime: UtcTime,
                                 heading: real, shipName: string, shipMmsi: string, shipImo: string,
                                 shipType: string, color: string): string
  {
    var lat := pointLatLon.0;
    var lon := pointLatLon.1;
    "<Placemark>" + TimedStyle(text, heading, color) + TimeStamp(utcTime)
      + TimedTail(fixed, lat, lon, shipName, shipMmsi, shipImo, shipType)
  }

  /** The style of a timed point holds the heading turned by 180 degrees. */
  lemma {:induction false} TimedStyleHeading(text: Formatter, heading: real, color: string)
    ensures Text.Contains(TimedStyle(text, heading, color), HeadingText(text, heading))
  {
    Text.ContainsMiddle("<Style><IconStyle><color>" + color + "</color><scale>0.6</scale>", HeadingText(text, heading),
      "<Icon><href>http://maps.google.com/mapfiles/kml/pal5/icon6.png</href></Icon></IconStyle><LabelStyle><scale>1.5</scale></LabelStyle></Style>");
  }

  /** The end of a timed point holds its position. */
  lemma {:induction false} TimedTailPosition(fixed: Formatter, lat: real, lon: real, shipName: string, shipMmsi: string,
                                             shipImo: string, shipType: string)
    ensures Text.Contains(TimedTail(fixed, lat, lon, shipName, shipMmsi, shipImo, shipType), PointCoordinates(fixed, lat, lon))
  {
    Text.ContainsMiddle("<styleUrl>#golf-balloon-style</styleUrl>" + ShipData(shipName, shipMmsi, shipImo, shipType)
      + "<Point>", PointCoordinates(fixed, lat, lon), "</Point></Placemark>");
  }

  /** The position is written longitude first: when the longitude text has
      no comma, what precedes the first comma is the longitude and what
      follows it the latitude. */
  lemma {:induction false} PointCoordinatesLonFirst(fixed: Formatter, lat: real, lon: real)
    requires ',' !in fixed(lon)
    ensures var inner := fixed(lon) + "," + fixed(lat);
      PointCoordinates(fixed, lat, lon) == "<coordinates>" + inner + "</coordinates>"
      && Text.Before(inner, ',') == fixed(lon) && Text.After(inner, ',') == fixed(lat)
  {
    Text.CutAtFirst(fixed(lon), ',', fixed(lat));
  }
}
