/** One frame of the travel map, step by step: size the canvas, clear it,
    draw a dot per location, read the progress and the two countries from
    the page, find them, draw the great-circle path and place the plane.

    The canvas and the plane indicator are objects whose state the frame
    changes; the page's state arrives as a `Page` snapshot and the
    floating-point library calls as `Numerics`. */
module Render {
  import opened Projection
  import opened JsBuiltins
  import opened GreatCircle
  import opened Frame

  /** What a frame reads from the page: the `width` style of the progress
      fill, the `src` of each circular flag image in page order, and the
      `left` style of the fill head. */
  datatype Page = Page(fillWidth: string, flagSources: seq<string>, fillHeadLeft: string)

  /** The library numerics a frame calls: the spherical interpolation of
      one path sample, `Math.atan2(y, x)`, and `Number(text)`, which is
      `None` when the text does not denote a finite number. */
  datatype Numerics = Numerics(slerp: Slerp, atan2: (real, real) -> real, toNumber: string -> Option<real>)

  /** How a frame ends. `MissingFlag` and `PlaneOffPath` are the frames
      that stop on a TypeError: fewer than two flags to read, or a path
      index that names no sample. */
  datatype Outcome =
    | MissingFlag
    | UnknownDestination(destination: string)
    | UnknownDeparture(departure: string)
    | PlaneOffPath
    | Placed(pose: Pose)

  datatype FrameResult = FrameResult(width: nat, height: nat, ops: seq<DrawOp>, outcome: Outcome)

  const TWO_TO_32: int := 0x1_0000_0000

  /** Assigning a layout size to `canvas.width` or `canvas.height`: the
      conversion to an unsigned 32-bit integer truncates the fraction. */
  function CanvasDimension(size: real): (n: nat)
    requires 0.0 <= size
    ensures n as real <= size
    ensures size < TWO_TO_32 as real ==> size < n as real + 1.0
  {
    size.Floor % TWO_TO_32
  }

  /** The destination and the departure, read from the first and second
      flag after the optional reversal. */
  function Countries(page: Page): (r: Option<(string, string)>)
    ensures r.Some? <==> |page.flagSources| >= 2
  {
    var flags := OrderedFlags(page.flagSources, page.fillHeadLeft);
    if |flags| < 2 then None else Some((CountryName(flags[0]), CountryName(flags[1])))
  }

  /** The plane's outcome once the path is drawn with `progress` parsed
      from the page. */
  function PlaneOutcome(path: seq<GeoPoint>, progress: Option<real>, width: real, height: real,
                        atan2: (real, real) -> real): Outcome
  {
    if progress.None? then PlaneOffPath
    else
      var index := PathIndex(progress.value, |path|);
      if 0 <= index < |path| then Placed(PoseAt(path, index, width, height, atan2)) else PlaneOffPath
  }

  /** The path the frame draws between two locations of the table. */
  function FlightPath(departure: MapPoint, destination: MapPoint, slerp: Slerp): seq<GeoPoint> {
    Path(MapToLatLon(departure), MapToLatLon(destination), PATH_STEPS, slerp)
  }

  /** What a frame draws after the dots, and how it ends, on a canvas of
      the given pixel size, with `table` as the location table. */
  function RouteSpec(table: seq<(string, MapPoint)>, page: Page, num: Numerics, width: real, height: real)
    : (seq<DrawOp>, Outcome)
  {
    var countries := Countries(page);
    if countries.None? then ([], MissingFlag)
    else
      var (destination, departure) := countries.value;
      LocatedRouteSpec(destination, departure, Lookup(table, destination), Lookup(table, departure),
                       num.toNumber(StripLast(page.fillWidth)), num, width, height)
  }

  /** The route once the two countries are read and looked up: the
      destination is checked before the departure. */
  function LocatedRouteSpec(destination: string, departure: string,
                            destLoc: Option<MapPoint>, depLoc: Option<MapPoint>,
                            progress: Option<real>, num: Numerics, width: real, height: real)
    : (seq<DrawOp>, Outcome)
  {
    if destLoc.None? then ([], UnknownDestination(destination))
    else if depLoc.None? then ([], UnknownDeparture(departure))
    else KnownRouteSpec(depLoc.value, destLoc.value, progress, num, width, height)
  }

  /** What a frame draws and how it ends once both locations are known. */
  function KnownRouteSpec(departure: MapPoint, destination: MapPoint, progress: Option<real>, num: Numerics,
                          width: real, height: real): (seq<DrawOp>, Outcome)
  {
    var path := FlightPath(departure, destination, num.slerp);
    (PathOps(path, width, height), PlaneOutcome(path, progress, width, height, num.atan2))
  }

  /** Everything one frame does, as a value, with `table` as the location
      table (the frame itself always uses `LOCATIONS`). */
  function FrameSpec(table: seq<(string, MapPoint)>, rectWidth: real, rectHeight: real, page: Page, num: Numerics)
    : FrameResult
    requires 0.0 <= rectWidth && 0.0 <= rectHeight
  {
    var width := CanvasDimension(rectWidth);
    var height := CanvasDimension(rectHeight);
    var route := RouteSpec(table, page, num, width as real, height as real);
    FrameResult(width, height,
                [ClearRect(rectWidth, rectHeight)] + DotOps(table, width as real, height as real) + route.0,
                route.1)
  }

  /** The drawing surface: its pixel size and what is drawn on it since it
      was last cleared. The default size of a canvas is 300 by 150. */
  class Canvas {
    var width: nat
    var height: nat
    var ops: seq<DrawOp>

    constructor ()
      ensures width == 300 && height == 150 && ops == []
    {
      width, height, ops := 300, 150, [];
    }

    /** The `forEach` over the location table: one dot per entry. */
    method DrawDots(table: seq<(string, MapPoint)>, w: real, h: real)
      modifies this`ops
      ensures ops == old(ops) + DotOps(table, w, h)
    {
      var i := 0;
      while i < |table|
        invariant 0 <= i <= |table|
        invariant ops == old(ops) + DotOps(table[..i], w, h)
      {
        var loc := table[i].1;
        assert table[..i + 1][..i] == table[..i];
        ops := ops + [Dot(Scale(w, loc.x), Scale(h, loc.y), DOT_RADIUS)];
        i := i + 1;
      }
      assert table[..i] == table;
    }

    /** The `forEach` over the path: a move to the first sample, a line to
        each further one, inside one begun and stroked path. */
    method DrawPath(path: seq<GeoPoint>, w: real, h: real)
      modifies this`ops
      ensures ops == old(ops) + PathOps(path, w, h)
    {
      ops := ops + [BeginPath];
      var k := 0;
      while k < |path|
        invariant 0 <= k <= |path|
        invariant ops == old(ops) + [BeginPath] + Segments(path[..k], w, h)
      {
        var mapCoords := LatLonToMap(path[k]);
        assert path[..k + 1][..k] == path[..k];
        ops := ops + [SegmentOp(k, (Scale(w, mapCoords.x), Scale(h, mapCoords.y)))];
        k := k + 1;
      }
      assert path[..k] == path;
      ops := ops + [Stroke];
    }
  }

  /** The plane indicator's style: `left` and `top` in pixels and the
      rotation in degrees. */
  class PlaneIndicator {
    var left: real
    var top: real
    var degrees: real

    constructor ()
      ensures left == 0.0 && top == 0.0 && degrees == 0.0
    {
      left, top, degrees := 0.0, 0.0, 0.0;
    }
  }

  /** The plane's sample for the progress and its pose there; the heading
      is computed only when the sample has a successor. */
  method PlanePose(pathPoints: seq<GeoPoint>, flightPercentage: Option<real>, width: real, height: real,
                   atan2: (real, real) -> real)
    returns (outcome: Outcome)
    ensures outcome == PlaneOutcome(pathPoints, flightPercentage, width, height, atan2)
  {
    if flightPercentage.None? {
      return PlaneOffPath;
    }
    var pathIndex := PathIndex(flightPercentage.value, |pathPoints|);
    if !(0 <= pathIndex < |pathPoints|) {
      return PlaneOffPath;
    }
    var planeMapCoords := LatLonToMap(pathPoints[pathIndex]);
    var planeX := Scale(width, planeMapCoords.x);
    var planeY := Scale(height, planeMapCoords.y);
    var angleRad := 0.0;
    if pathIndex < |pathPoints| - 1 {
      var nextMapCoords := LatLonToMap(pathPoints[pathIndex + 1]);
      var nextX := Scale(width, nextMapCoords.x);
      var nextY := Scale(height, nextMapCoords.y);
      angleRad := atan2(nextY - planeY, nextX - planeX);
    }
    var angleDeg := angleRad * (180.0 / PI);
    outcome := Placed(Pose(planeX - PLANE_HALF_SIZE, planeY - PLANE_HALF_SIZE, angleDeg));
  }

  /** Everything after the dots: read the state, look the countries up,
      draw the path and place the plane. */
  method DrawRoute(canvas: Canvas, plane: PlaneIndicator?, table: seq<(string, MapPoint)>, page: Page,
                   num: Numerics, width: real, height: real)
    returns (outcome: Outcome)
    modifies canvas`ops, plane
    ensures canvas.ops == old(canvas.ops) + RouteSpec(table, page, num, width, height).0
    ensures outcome == RouteSpec(table, page, num, width, height).1
    ensures plane != null && outcome.Placed? ==>
      plane.left == outcome.pose.left && plane.top == outcome.pose.top && plane.degrees == outcome.pose.degrees
    ensures plane != null && !outcome.Placed? ==> unchanged(plane)
  {
    ghost var spec := RouteSpec(table, page, num, width, height);
    // the progress and the two countries
    var widthStyle := page.fillWidth;
    var flightPercentage := num.toNumber(StripLast(widthStyle));
    var countries := page.flagSources;
    if page.fillHeadLeft != "" {
      countries := Reversed(countries);
    }
    assert countries == OrderedFlags(page.flagSources, page.fillHeadLeft);
    if |countries| < 2 {
      assert spec == ([], MissingFlag);
      return MissingFlag;
    }
    var destination := CountryName(countries[0]);
    var departure := CountryName(countries[1]);
    assert Countries(page) == Some((destination, departure));
    var destLoc := Lookup(table, destination);
    var depLoc := Lookup(table, departure);
    if destLoc.None? {
      assert spec == ([], UnknownDestination(destination));
      return UnknownDestination(destination);
    }
    if depLoc.None? {
      assert spec == ([], UnknownDeparture(departure));
      return UnknownDeparture(departure);
    }

    assert spec == KnownRouteSpec(depLoc.value, destLoc.value, flightPercentage, num, width, height);
    outcome := DrawKnownRoute(canvas, plane, depLoc.value, destLoc.value, flightPercentage, num, width, height);
  }

  /** The path between two known locations and the plane on it. */
  method DrawKnownRoute(canvas: Canvas, plane: PlaneIndicator?, departure: MapPoint, destination: MapPoint,
                        flightPercentage: Option<real>, num: Numerics, width: real, height: real)
    returns (outcome: Outcome)
    modifies canvas`ops, plane
    ensures canvas.ops == old(canvas.ops) + KnownRouteSpec(departure, destination, flightPercentage, num, width, height).0
    ensures outcome == KnownRouteSpec(departure, destination, flightPercentage, num, width, height).1
    ensures plane != null && outcome.Placed? ==>
      plane.left == outcome.pose.left && plane.top == outcome.pose.top && plane.degrees == outcome.pose.degrees
    ensures plane != null && !outcome.Placed? ==> unchanged(plane)
  {
    var depLatLon := MapToLatLon(departure);
    var destLatLon := MapToLatLon(destination);
    var pathPoints := GreatCirclePath(depLatLon, destLatLon, PATH_STEPS, num.slerp);
    canvas.DrawPath(pathPoints, width, height);
    outcome := PlanePose(pathPoints, flightPercentage, width, height, num.atan2);
    if outcome.Placed? && plane != null {
      plane.left := outcome.pose.left;
      plane.top := outcome.pose.top;
      plane.degrees := outcome.pose.degrees;
    }
  }

  /** One frame. Setting the canvas size empties the canvas; the plane
      indicator, when the page has one, moves only on a frame that places
      the plane. */
  method RenderFrame(canvas: Canvas, plane: PlaneIndicator?, rectWidth: real, rectHeight: real,
                     page: Page, num: Numerics)
    returns (outcome: Outcome)
    requires 0.0 <= rectWidth && 0.0 <= rectHeight
    modifies canvas, plane
    ensures canvas.width == FrameSpec(LOCATIONS, rectWidth, rectHeight, page, num).width
    ensures canvas.height == FrameSpec(LOCATIONS, rectWidth, rectHeight, page, num).height
    ensures canvas.ops == FrameSpec(LOCATIONS, rectWidth, rectHeight, page, num).ops
    ensures outcome == FrameSpec(LOCATIONS, rectWidth, rectHeight, page, num).outcome
    ensures plane != null && outcome.Placed? ==>
      plane.left == outcome.pose.left && plane.top == outcome.pose.top && plane.degrees == outcome.pose.degrees
    ensures plane != null && !outcome.Placed? ==> unchanged(plane)
  {
    canvas.width := CanvasDimension(rectWidth);
    canvas.height := CanvasDimension(rectHeight);
    canvas.ops := [ClearRect(rectWidth, rectHeight)];
    var width := canvas.width as real;
    var height := canvas.height as real;
    canvas.DrawDots(LOCATIONS, width, height);
    outcome := DrawRoute(canvas, plane, LOCATIONS, page, num, width, height);
  }

  // ---- properties of a frame ----

  /** Every frame, however it ends, first sizes the canvas and draws one dot
      per location of the table. */
  lemma FrameStartsWithDots(table: seq<(string, MapPoint)>, rectWidth: real, rectHeight: real, page: Page,
                            num: Numerics)
    requires 0.0 <= rectWidth && 0.0 <= rectHeight
    ensures var f := FrameSpec(table, rectWidth, rectHeight, page, num);
      && |f.ops| >= 1 + |table|
      && f.ops[..1 + |table|] == [ClearRect(rectWidth, rectHeight)] + DotOps(table, f.width as real, f.height as real)
  {
    var f := FrameSpec(table, rectWidth, rectHeight, page, num);
    DotOpsAt(table, f.width as real, f.height as real);
  }

  /** The destination is looked up first: a frame stops on an unknown
      destination even when the departure is unknown too, and stops on an
      unknown departure only when the destination is known; otherwise it
      goes on to the path and the plane. */
  lemma UnknownLocationOrder(table: seq<(string, MapPoint)>, rectWidth: real, rectHeight: real, page: Page,
                             num: Numerics, destination: string, departure: string)
    requires 0.0 <= rectWidth && 0.0 <= rectHeight
    requires Countries(page) == Some((destination, departure))
    ensures var outcome := FrameSpec(table, rectWidth, rectHeight, page, num).outcome;
      && (outcome == UnknownDestination(destination) <==> Lookup(table, destination).None?)
      && (outcome == UnknownDeparture(departure) <==>
            Lookup(table, destination).Some? && Lookup(table, departure).None?)
      && (outcome.Placed? || outcome.PlaneOffPath? <==>
            Lookup(table, destination).Some? && Lookup(table, departure).Some?)
  {
    var f := FrameSpec(table, rectWidth, rectHeight, page, num);
    var w, h := f.width as real, f.height as real;
    var destLoc, depLoc := Lookup(table, destination), Lookup(table, departure);
    var progress := num.toNumber(StripLast(page.fillWidth));
    assert f.outcome == LocatedRouteSpec(destination, departure, destLoc, depLoc, progress, num, w, h).1;
    if destLoc.Some? && depLoc.Some? {
      var path := FlightPath(depLoc.value, destLoc.value, num.slerp);
      assert f.outcome == PlaneOutcome(path, progress, w, h, num.atan2);
    }
  }

  /** A frame that stops on a missing flag or an unknown location draws the
      dots and nothing else: no path, and (by RenderFrame) the plane is
      left where it was. */
  lemma UnknownLocationDrawsOnlyDots(table: seq<(string, MapPoint)>, rectWidth: real, rectHeight: real,
                                     page: Page, num: Numerics)
    requires 0.0 <= rectWidth && 0.0 <= rectHeight
    requires var outcome := FrameSpec(table, rectWidth, rectHeight, page, num).outcome;
      outcome.MissingFlag? || outcome.UnknownDestination? || outcome.UnknownDeparture?
    ensures var f := FrameSpec(table, rectWidth, rectHeight, page, num);
      f.ops == [ClearRect(rectWidth, rectHeight)] + DotOps(table, f.width as real, f.height as real)
  {
    var f := FrameSpec(table, rectWidth, rectHeight, page, num);
    var route := RouteSpec(table, page, num, f.width as real, f.height as real);
    StoppedRouteDrawsNothing(table, page, num, f.width as real, f.height as real);
    assert f.ops == [ClearRect(rectWidth, rectHeight)] + DotOps(table, f.width as real, f.height as real) + route.0;
    assert route.0 == [];
  }

  /** A route that stops before the path draws nothing. */
  lemma StoppedRouteDrawsNothing(table: seq<(string, MapPoint)>, page: Page, num: Numerics, width: real, height: real)
    ensures var route := RouteSpec(table, page, num, width, height);
      route.1.MissingFlag? || route.1.UnknownDestination? || route.1.UnknownDeparture? ==> route.0 == []
  {
    var route := RouteSpec(table, page, num, width, height);
    if Countries(page).Some? {
      var (destination, departure) := Countries(page).value;
      var destLoc, depLoc := Lookup(table, destination), Lookup(table, departure);
      if destLoc.Some? && depLoc.Some? {
        var known := KnownRouteSpec(depLoc.value, destLoc.value, num.toNumber(StripLast(page.fillWidth)), num, width, height);
        assert route == known;
        assert known.1.Placed? || known.1.PlaneOffPath?;
      }
    }
  }

  /** When both countries are known, the frame draws the 101-sample path
      from the departure to the destination after the dots. */
  lemma KnownRouteDrawsPath(table: seq<(string, MapPoint)>, rectWidth: real, rectHeight: real, page: Page,
                            num: Numerics, destination: string, departure: string, destLoc: MapPoint, depLoc: MapPoint)
    requires 0.0 <= rectWidth && 0.0 <= rectHeight
    requires Countries(page) == Some((destination, departure))
    requires Lookup(table, destination) == Some(destLoc) && Lookup(table, departure) == Some(depLoc)
    ensures var f := FrameSpec(table, rectWidth, rectHeight, page, num);
      var path := FlightPath(depLoc, destLoc, num.slerp);
      && |path| == 101
      && |f.ops| == 1 + |table| + 103
      && f.ops[1 + |table|..] == PathOps(path, f.width as real, f.height as real)
  {
    var f := FrameSpec(table, rectWidth, rectHeight, page, num);
    var w, h := f.width as real, f.height as real;
    var path := FlightPath(depLoc, destLoc, num.slerp);
    var route := RouteSpec(table, page, num, w, h);
    assert route.0 == PathOps(path, w, h);
    var dots := [ClearRect(rectWidth, rectHeight)] + DotOps(table, w, h);
    DotOpsAt(table, w, h);
    PathOpsShape(path, w, h);
    assert f.ops[|dots|..] == route.0;
  }

  /** On a known route the plane is placed exactly when the progress parses
      to a number in [0, 101): the floor of the index stays in 0..100 on
      that range only. */
  lemma PlacedExactlyOnPath(table: seq<(string, MapPoint)>, rectWidth: real, rectHeight: real, page: Page,
                            num: Numerics, destination: string, departure: string, destLoc: MapPoint, depLoc: MapPoint)
    requires 0.0 <= rectWidth && 0.0 <= rectHeight
    requires Countries(page) == Some((destination, departure))
    requires Lookup(table, destination) == Some(destLoc) && Lookup(table, departure) == Some(depLoc)
    ensures var f := FrameSpec(table, rectWidth, rectHeight, page, num);
      var progress := num.toNumber(StripLast(page.fillWidth));
      f.outcome.Placed? <==> progress.Some? && 0.0 <= progress.value < 101.0
  {
    var f := FrameSpec(table, rectWidth, rectHeight, page, num);
    var w, h := f.width as real, f.height as real;
    var progress := num.toNumber(StripLast(page.fillWidth));
    var path := FlightPath(depLoc, destLoc, num.slerp);
    assert f.outcome == PlaneOutcome(path, progress, w, h, num.atan2);
    if progress.Some? {
      var p := progress.value;
      assert (p / 100.0) * (|path| - 1) as real == p;
    }
  }

  /** Within 0..100 percent the plane sits at sample PathIndex of the path,
      and at 100 percent its heading is 0. */
  lemma PlacedPose(table: seq<(string, MapPoint)>, rectWidth: real, rectHeight: real, page: Page, num: Numerics,
                   destination: string, departure: string, destLoc: MapPoint, depLoc: MapPoint, progress: real)
    requires 0.0 <= rectWidth && 0.0 <= rectHeight
    requires Countries(page) == Some((destination, departure))
    requires Lookup(table, destination) == Some(destLoc) && Lookup(table, departure) == Some(depLoc)
    requires num.toNumber(StripLast(page.fillWidth)) == Some(progress)
    requires 0.0 <= progress <= 100.0
    ensures var f := FrameSpec(table, rectWidth, rectHeight, page, num);
      var path := FlightPath(depLoc, destLoc, num.slerp);
      && 0 <= PathIndex(progress, |path|) < |path|
      && f.outcome == Placed(PoseAt(path, PathIndex(progress, |path|), f.width as real, f.height as real, num.atan2))
      && (progress == 100.0 ==> f.outcome.pose.degrees == 0.0)
  {
    var f := FrameSpec(table, rectWidth, rectHeight, page, num);
    var w, h := f.width as real, f.height as real;
    var path := FlightPath(depLoc, destLoc, num.slerp);
    assert f.outcome == PlaneOutcome(path, Some(progress), w, h, num.atan2);
    PathIndexInRange(progress, |path|);
    if progress == 100.0 {
      PathIndexLastOnlyAtArrival(progress, |path|);
      PoseAtLastIgnoresHeading(path, w, h, num.atan2, num.atan2);
    }
  }

  /** The flags of a page as the travel page shows them: the destination's
      flag file and then the departure's, in any directory. */
  lemma CountriesOfFlagFiles(page: Page, dir: string, destFile: string, destination: string,
                             depFile: string, departure: string)
    requires FlagFile(destFile, destination) && FlagFile(depFile, departure)
    requires page.flagSources == [dir + "/" + destFile, dir + "/" + depFile] && page.fillHeadLeft == ""
    ensures Countries(page) == Some((destination, departure))
  {
    CountryNameOfFlagFile(dir, destFile, destination);
    CountryNameOfFlagFile(dir, depFile, departure);
  }

  /** Halfway along any known route the plane is at sample 50 of its path. */
  lemma HalfwayAlongRoute(table: seq<(string, MapPoint)>, rectWidth: real, rectHeight: real, page: Page,
                          num: Numerics, destination: string, departure: string, destLoc: MapPoint, depLoc: MapPoint)
    requires 0.0 <= rectWidth && 0.0 <= rectHeight
    requires Countries(page) == Some((destination, departure))
    requires Lookup(table, destination) == Some(destLoc) && Lookup(table, departure) == Some(depLoc)
    requires num.toNumber(StripLast(page.fillWidth)) == Some(50.0)
    ensures var f := FrameSpec(table, rectWidth, rectHeight, page, num);
      f.outcome == Placed(PoseAt(FlightPath(depLoc, destLoc, num.slerp), 50, f.width as real, f.height as real, num.atan2))
  {
    PlacedPose(table, rectWidth, rectHeight, page, num, destination, departure, destLoc, depLoc, 50.0);
    PathIndexHalfway();
  }

  /** The fill's `width` style "50%" reads as 50 percent. */
  lemma HalfwayProgress(num: Numerics)
    requires num.toNumber("50") == Some(50.0)
    ensures num.toNumber(StripLast("50%")) == Some(50.0)
  {
    StripPercent("50");
    assert "50" + "%" == "50%";
  }

  /** The page's usual state halfway from Torn to Japan: the destination's
      flag first, no `left` style on the fill head, 50% progress.  The
      plane sits at sample 50 of the path from Torn to Japan, wherever the
      flag images are served from. */
  lemma HalfwayTornToJapan(rectWidth: real, rectHeight: real, num: Numerics, dir: string,
                           japanFile: string, tornFile: string)
    requires 0.0 <= rectWidth && 0.0 <= rectHeight
    requires num.toNumber("50") == Some(50.0)
    requires FlagFile(japanFile, "japan") && FlagFile(tornFile, "torn")
    ensures var f := FrameSpec(LOCATIONS, rectWidth, rectHeight,
                               Page("50%", [dir + "/" + japanFile, dir + "/" + tornFile], ""), num);
      f.outcome == Placed(PoseAt(FlightPath(MapPoint(51.0, 47.0), MapPoint(16.0, 42.0), num.slerp), 50,
                                 f.width as real, f.height as real, num.atan2))
  {
    var page := Page("50%", [dir + "/" + japanFile, dir + "/" + tornFile], "");
    CountriesOfFlagFiles(page, dir, japanFile, "japan", tornFile, "torn");
    LookupTorn();
    LookupJapan();
    HalfwayProgress(num);
    HalfwayAlongRoute(LOCATIONS, rectWidth, rectHeight, page, num, "japan", "torn",
                      MapPoint(16.0, 42.0), MapPoint(51.0, 47.0));
  }

  /** With a `left` style on the fill head the flags come in the other order
      and the frame is the same. */
  lemma ReversedFlagsSameFrame(table: seq<(string, MapPoint)>, rectWidth: real, rectHeight: real, num: Numerics,
                               progress: string, destination: string, departure: string, left: string)
    requires 0.0 <= rectWidth && 0.0 <= rectHeight
    requires left != ""
    ensures FrameSpec(table, rectWidth, rectHeight, Page(progress, [departure, destination], left), num)
         == FrameSpec(table, rectWidth, rectHeight, Page(progress, [destination, departure], ""), num)
  {
    OrderedPair(departure, destination, left);
    OrderedPair(destination, departure, "");
  }
}
