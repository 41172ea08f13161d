/** The per-frame computations of the travel map, as values: reading the
    progress and the two countries out of the page, finding them in the
    location table, scaling percentages to pixels, choosing the path sample
    for the progress and the plane's pose there. */
module Frame {
  import opened Projection
  import opened JsBuiltins
  import opened GreatCircle

  /** The path is always drawn with 100 steps, so 101 samples. */
  const PATH_STEPS: int := 100
  /** The plane indicator is 32 pixels square; its corner sits half of that
      up and to the left of the point it marks. */
  const PLANE_HALF_SIZE: real := 16.0
  const DOT_RADIUS: real := 5.0

  /** The location table, in the order its dots are drawn. */
  const LOCATIONS: seq<(string, MapPoint)> := [
    ("torn", MapPoint(51.0, 47.0)),
    ("mexico", MapPoint(48.0, 49.0)),
    ("cayman-islands", MapPoint(54.0, 52.0)),
    ("canada", MapPoint(54.0, 38.0)),
    ("hawaii", MapPoint(34.0, 53.0)),
    ("uk", MapPoint(77.0, 31.0)),
    ("argentina", MapPoint(60.0, 83.0)),
    ("switzerland", MapPoint(79.0, 36.0)),
    ("japan", MapPoint(16.0, 42.0)),
    ("uae", MapPoint(92.0, 49.0)),
    ("china", MapPoint(9.0, 39.0)),
    ("south-africa", MapPoint(85.0, 78.0))
  ]

  /** The property lookup `locations[name]` on the table. */
  function Lookup(table: seq<(string, MapPoint)>, name: string): (r: Option<MapPoint>)
    ensures r.Some? <==> exists k :: 0 <= k < |table| && table[k].0 == name
    ensures r.Some? ==> exists k :: 0 <= k < |table| && table[k] == (name, r.value)
  {
    if table == [] then None
    else if table[0].0 == name then Some(table[0].1)
    else
      var r := Lookup(table[1..], name);
      assert forall k :: 0 < k < |table| ==> table[k] == table[1..][k - 1];
      r
  }

  /** Every location of the table lies on the map image. */
  predicate OnImage(p: MapPoint) {
    0.0 <= p.x <= 100.0 && 0.0 <= p.y <= 100.0
  }

  lemma LocationsOnImage()
    ensures forall k :: 0 <= k < |LOCATIONS| ==> OnImage(LOCATIONS[k].1)
  {
  }

  /** The lookup finds the first entry with the name. */
  lemma {:induction false} LookupFirst(table: seq<(string, MapPoint)>, name: string, k: int)
    requires 0 <= k < |table| && table[k].0 == name
    requires forall j :: 0 <= j < k ==> table[j].0 != name
    ensures Lookup(table, name) == Some(table[k].1)
  {
    if k > 0 {
      LookupFirst(table[1..], name, k - 1);
    }
  }

  lemma LookupTorn()
    ensures Lookup(LOCATIONS, "torn") == Some(MapPoint(51.0, 47.0))
  {
    LookupFirst(LOCATIONS, "torn", 0);
  }

  lemma LookupJapan()
    ensures Lookup(LOCATIONS, "japan") == Some(MapPoint(16.0, 42.0))
  {
    assert forall j :: 0 <= j < 8 ==> |LOCATIONS[j].0| != 5;
    LookupFirst(LOCATIONS, "japan", 8);
  }

  /** A name that is not in the table is not found. */
  lemma LookupAtlantis()
    ensures Lookup(LOCATIONS, "atlantis") == None
  {
    assert forall j :: 0 <= j < |LOCATIONS| ==> |LOCATIONS[j].0| != 8;
  }

  /** `extent / 100 * pct`: a percentage of the canvas as pixels. */
  function Scale(extent: real, pct: real): (r: real)
    ensures pct == 0.0 ==> r == 0.0
    ensures pct == 100.0 ==> r == extent
    ensures 0.0 <= extent && 0.0 <= pct <= 100.0 ==> 0.0 <= r <= extent
  {
    var r := extent / 100.0 * pct;
    if 0.0 <= extent && 0.0 <= pct <= 100.0 then
      MulNonNegative(extent / 100.0, pct);
      MulNonNegative(extent / 100.0, 100.0 - pct);
      assert extent - r == extent / 100.0 * (100.0 - pct);
      r
    else
      r
  }

  /** Scaling does not reverse the order of positions on a canvas. */
  lemma ScaleMonotone(extent: real, p: real, q: real)
    requires 0.0 <= extent && p <= q
    ensures Scale(extent, p) <= Scale(extent, q)
  {
    MulNonNegative(extent / 100.0, q - p);
    assert Scale(extent, q) - Scale(extent, p) == extent / 100.0 * (q - p);
  }

  lemma MulNonNegative(a: real, b: real)
    requires 0.0 <= a && 0.0 <= b
    ensures 0.0 <= a * b
  {
  }

  lemma MulPositive(a: real, b: real)
    requires 0.0 < a && 0.0 < b
    ensures 0.0 < a * b
  {
  }

  /** A map point in pixels on a canvas of the given size. */
  function Pixel(p: MapPoint, width: real, height: real): (real, real) {
    (Scale(width, p.x), Scale(height, p.y))
  }

  /** Where a path sample is drawn: back to map percentages, then to pixels. */
  function GeoPixel(g: GeoPoint, width: real, height: real): (real, real) {
    Pixel(LatLonToMap(g), width, height)
  }

  /** A location converted to the globe is drawn where its dot is. */
  lemma GeoPixelOfLocation(p: MapPoint, width: real, height: real)
    ensures GeoPixel(MapToLatLon(p), width, height) == Pixel(p, width, height)
  {
    MapRoundTrip(p);
  }

  /** `Math.floor((pct / 100) * (len - 1))`: the path sample the plane is at. */
  function PathIndex(pct: real, len: int): (index: int)
    ensures index as real <= (pct / 100.0) * (len - 1) as real < index as real + 1.0
  {
    ((pct / 100.0) * (len - 1) as real).Floor
  }

  /** For a progress in 0..100 the index lies on a non-empty path. */
  lemma PathIndexInRange(pct: real, len: int)
    requires 0.0 <= pct <= 100.0 && len >= 1
    ensures 0 <= PathIndex(pct, len) <= len - 1
  {
    var last := (len - 1) as real;
    var t := (pct / 100.0) * last;
    assert 0.0 <= t <= last by {
      assert last - t == ((100.0 - pct) / 100.0) * last;
    }
  }

  /** More progress never moves the plane back along the path. */
  lemma PathIndexMonotone(p: real, q: real, len: int)
    requires p <= q && len >= 1
    ensures PathIndex(p, len) <= PathIndex(q, len)
  {
    var last := (len - 1) as real;
    assert (q / 100.0) * last - (p / 100.0) * last == ((q - p) / 100.0) * last;
  }

  /** On a path of several samples, within 0..100 the plane reaches the last
      sample only at 100 percent: everywhere before it has a successor. */
  lemma PathIndexLastOnlyAtArrival(pct: real, len: int)
    requires 0.0 <= pct <= 100.0 && len >= 2
    ensures PathIndex(pct, len) == len - 1 <==> pct == 100.0
  {
    var last := (len - 1) as real;
    var t := (pct / 100.0) * last;
    if pct < 100.0 {
      assert last - t == ((100.0 - pct) / 100.0) * last;
      MulPositive((100.0 - pct) / 100.0, last);
      assert t < last;
    }
  }

  /** Halfway along the 101-sample path the plane is at sample 50. */
  lemma PathIndexHalfway()
    ensures PathIndex(50.0, PathLength(PATH_STEPS)) == 50
  {
  }

  /** The pose of the plane indicator: its corner in pixels and its rotation. */
  datatype Pose = Pose(left: real, top: real, degrees: real)

  /** The plane's pose at sample `index` of `path`. The heading looks at the
      next sample only when there is one; at the last sample it is 0. */
  function PoseAt(path: seq<GeoPoint>, index: int, width: real, height: real,
                  atan2: (real, real) -> real): (pose: Pose)
    requires 0 <= index < |path|
    ensures (pose.left + PLANE_HALF_SIZE, pose.top + PLANE_HALF_SIZE) == GeoPixel(path[index], width, height)
    ensures index == |path| - 1 ==> pose.degrees == 0.0
  {
    var (x, y) := GeoPixel(path[index], width, height);
    var radians :=
      if index < |path| - 1 then
        var (nx, ny) := GeoPixel(path[index + 1], width, height);
        atan2(ny - y, nx - x)
      else
        0.0;
    Pose(x - PLANE_HALF_SIZE, y - PLANE_HALF_SIZE, radians * (180.0 / PI))
  }

  /** The indicator is centred on the pixel of its sample, and its heading
      is the direction to the next sample's pixel when there is one. */
  lemma PoseAtSample(path: seq<GeoPoint>, index: int, width: real, height: real,
                     atan2: (real, real) -> real)
    requires 0 <= index < |path|
    ensures var pose := PoseAt(path, index, width, height, atan2);
      && (pose.left + PLANE_HALF_SIZE, pose.top + PLANE_HALF_SIZE) == GeoPixel(path[index], width, height)
      && (index < |path| - 1 ==>
            var (x, y) := GeoPixel(path[index], width, height);
            var (nx, ny) := GeoPixel(path[index + 1], width, height);
            pose.degrees == ToDeg(atan2(ny - y, nx - x)))
  {
  }

  /** At the last sample the heading is 0 whatever the arctangent would say:
      nothing from another sample or another frame is carried over. */
  lemma PoseAtLastIgnoresHeading(path: seq<GeoPoint>, width: real, height: real,
                                 f: (real, real) -> real, g: (real, real) -> real)
    requires |path| >= 1
    ensures PoseAt(path, |path| - 1, width, height, f) == PoseAt(path, |path| - 1, width, height, g)
    ensures PoseAt(path, |path| - 1, width, height, f).degrees == 0.0
  {
  }

  /** The pose depends on the path only through its sample and that sample's
      successor. */
  lemma PoseAtLocal(path: seq<GeoPoint>, other: seq<GeoPoint>, index: int, width: real, height: real,
                    atan2: (real, real) -> real)
    requires 0 <= index < |path| && index < |other|
    requires path[index] == other[index]
    requires (index < |path| - 1) == (index < |other| - 1)
    requires index < |path| - 1 ==> path[index + 1] == other[index + 1]
    ensures PoseAt(path, index, width, height, atan2) == PoseAt(other, index, width, height, atan2)
  {
  }

  // ---- reading the state out of the page ----

  /** The country in a flag image's URL: the last `/` part without its
      first 3 and last 4 characters (a prefix such as `cs_` and `.png`). */
  function CountryName(src: string): (name: string)
    ensures '/' !in name
    ensures |LastPart(src, '/')| < 8 ==> name == ""
    ensures |LastPart(src, '/')| >= 8 ==> name == LastPart(src, '/')[3..|LastPart(src, '/')| - 4]
  {
    var file := LastPart(src, '/');
    var name := Slice(file, 3, -4);
    assert '/' !in file;
    assert multiset(name)['/'] == 0 by { assert multiset(file)['/'] == 0; }
    name
  }

  /** In general the country is the file name without its first 3 and
      last 4 characters. */
  lemma CountryNameOfFile(dir: string, file: string)
    requires '/' !in file && |file| >= 8
    ensures CountryName(dir + "/" + file) == file[3..|file| - 4]
  {
    assert dir + "/" + file == dir + ['/'] + file;
    LastPartAfterSeparator(dir, '/', file);
  }

  /** A flag image file for a country: three characters, the country, and
      a four-character extension, with no `/`. */
  predicate FlagFile(file: string, country: string) {
    |country| >= 1 && |file| == |country| + 7 && file[3..|file| - 4] == country && '/' !in file
  }

  /** The flag files the page serves, such as `cs_japan.png`. */
  lemma FlagFileOfCountry(country: string)
    requires |country| >= 1 && '/' !in country
    ensures FlagFile("cs_" + country + ".png", country)
  {
    var file := "cs_" + country + ".png";
    assert file[3..|file| - 4] == country;
    assert forall k :: 0 <= k < |file| ==> file[k] == '/' ==> 3 <= k < |file| - 4 && country[k - 3] == '/';
  }

  /** The URL of a country's flag file, in any directory, gives back the country. */
  lemma CountryNameOfFlagFile(dir: string, file: string, country: string)
    requires FlagFile(file, country)
    ensures CountryName(dir + "/" + file) == country
  {
    CountryNameOfFile(dir, file);
  }

  /** A file name of fewer than 8 characters leaves no country. */
  lemma CountryNameOfShortFile(dir: string, file: string)
    requires '/' !in file && |file| < 8
    ensures CountryName(dir + "/" + file) == ""
  {
    assert dir + "/" + file == dir + ['/'] + file;
    LastPartAfterSeparator(dir, '/', file);
  }

  /** The width style of the progress fill without its trailing `%`. */
  function StripLast(text: string): (r: string)
    ensures |text| >= 1 ==> r + [text[|text| - 1]] == text
    ensures text == "" ==> r == ""
  {
    Slice(text, 0, |text| - 1)
  }

  /** A width style such as `50%` loses exactly its percent sign. */
  lemma StripPercent(digits: string)
    ensures StripLast(digits + "%") == digits
  {
  }

  /** The flags in the order the page gives them, reversed when the fill
      head has a `left` style; the first is then the destination and the
      second the departure. */
  function OrderedFlags(flags: seq<string>, fillHeadLeft: string): (r: seq<string>)
    ensures |r| == |flags|
    ensures fillHeadLeft == "" ==> r == flags
    ensures fillHeadLeft != "" ==> Reversed(r) == flags
  {
    if fillHeadLeft != "" then
      ReversedTwice(flags);
      Reversed(flags)
    else
      flags
  }

  /** With the usual two flags, a `left` style swaps which is the destination. */
  lemma OrderedPair(first: string, second: string, fillHeadLeft: string)
    ensures fillHeadLeft == "" ==> OrderedFlags([first, second], fillHeadLeft) == [first, second]
    ensures fillHeadLeft != "" ==> OrderedFlags([first, second], fillHeadLeft) == [second, first]
  {
    ReversedPair(first, second);
  }

  // ---- what one frame draws ----

  datatype DrawOp =
    | ClearRect(width: real, height: real)
    | Dot(x: real, y: real, radius: real)
    | BeginPath
    | MoveTo(x: real, y: real)
    | LineTo(x: real, y: real)
    | Stroke

  /** The dots of a location table, one per entry in table order. */
  function DotOps(table: seq<(string, MapPoint)>, width: real, height: real): seq<DrawOp> {
    if table == [] then []
    else
      var p := Pixel(table[|table| - 1].1, width, height);
      DotOps(table[..|table| - 1], width, height) + [Dot(p.0, p.1, DOT_RADIUS)]
  }

  /** Dot k is drawn at the pixel of entry k. */
  lemma {:induction false} DotOpsAt(table: seq<(string, MapPoint)>, width: real, height: real)
    ensures |DotOps(table, width, height)| == |table|
    ensures forall k :: 0 <= k < |table| ==>
      DotOps(table, width, height)[k] ==
        Dot(Pixel(table[k].1, width, height).0, Pixel(table[k].1, width, height).1, DOT_RADIUS)
  {
    if table != [] {
      var init := table[..|table| - 1];
      DotOpsAt(init, width, height);
      assert forall k :: 0 <= k < |init| ==> init[k] == table[k];
    }
  }

  /** Every dot of the table lands on the canvas. */
  lemma DotsOnCanvas(width: real, height: real)
    requires 0.0 <= width && 0.0 <= height
    ensures |DotOps(LOCATIONS, width, height)| == |LOCATIONS|
    ensures forall k :: 0 <= k < |LOCATIONS| ==>
      var d := DotOps(LOCATIONS, width, height)[k];
      d.Dot? && 0.0 <= d.x <= width && 0.0 <= d.y <= height
  {
    DotOpsAt(LOCATIONS, width, height);
    LocationsOnImage();
  }

  /** Pixel point k of the polyline: a move for the first, a line for the rest. */
  function SegmentOp(k: int, p: (real, real)): DrawOp {
    if k == 0 then MoveTo(p.0, p.1) else LineTo(p.0, p.1)
  }

  /** The polyline through the path's samples, in path order. */
  function Segments(path: seq<GeoPoint>, width: real, height: real): seq<DrawOp> {
    if path == [] then []
    else
      Segments(path[..|path| - 1], width, height)
        + [SegmentOp(|path| - 1, GeoPixel(path[|path| - 1], width, height))]
  }

  /** Step k of the polyline goes to the pixel of sample k. */
  lemma {:induction false} SegmentsAt(path: seq<GeoPoint>, width: real, height: real)
    ensures |Segments(path, width, height)| == |path|
    ensures forall k :: 0 <= k < |path| ==>
      Segments(path, width, height)[k] == SegmentOp(k, GeoPixel(path[k], width, height))
  {
    if path != [] {
      var init := path[..|path| - 1];
      SegmentsAt(init, width, height);
      assert forall k :: 0 <= k < |init| ==> init[k] == path[k];
    }
  }

  function PathOps(path: seq<GeoPoint>, width: real, height: real): seq<DrawOp> {
    [BeginPath] + Segments(path, width, height) + [Stroke]
  }

  /** The drawn path starts with a move to the first sample and then draws
      one line to each further sample, in order. */
  lemma PathOpsShape(path: seq<GeoPoint>, width: real, height: real)
    requires |path| >= 1
    ensures var ops := PathOps(path, width, height);
      && |ops| == |path| + 2
      && ops[0] == BeginPath && ops[|ops| - 1] == Stroke
      && ops[1] == MoveTo(GeoPixel(path[0], width, height).0, GeoPixel(path[0], width, height).1)
      && forall k :: 1 <= k < |path| ==>
           ops[k + 1] == LineTo(GeoPixel(path[k], width, height).0, GeoPixel(path[k], width, height).1)
  {
    var segments := Segments(path, width, height);
    var ops := PathOps(path, width, height);
    SegmentsAt(path, width, height);
    assert ops[1] == segments[0];
    forall k | 1 <= k < |path|
      ensures ops[k + 1] == LineTo(GeoPixel(path[k], width, height).0, GeoPixel(path[k], width, height).1)
    {
      assert ops[k + 1] == segments[k];
    }
  }
}
