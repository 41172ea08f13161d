/** The equirectangular projection between the map image and the globe.

    Map coordinates are percentages of the map image: x grows to the right
    and y grows downwards, both 0..100 on the image.  Geographic
    coordinates are degrees.  The conversion is linear in both directions
    and never clamps, so points off the image extrapolate.  All arithmetic
    is over `real`, so the two maps are exact inverses. */
module Projection {

  /** A position on the map image, in percent of its width and height. */
  datatype MapPoint = MapPoint(x: real, y: real)

  /** A position on the globe in degrees. */
  datatype GeoPoint = GeoPoint(lat: real, lon: real)

  /** The value of JavaScript's `Math.PI` (the double nearest to pi). */
  const PI: real := 3.141592653589793

  /** x in 0..100 spans longitude -180..180; y in 0..100 spans latitude 90..-90. */
  function MapToLatLon(p: MapPoint): (g: GeoPoint)
    ensures 0.0 <= p.x <= 100.0 ==> -180.0 <= g.lon <= 180.0
    ensures 0.0 <= p.y <= 100.0 ==> -90.0 <= g.lat <= 90.0
    ensures p.x == 0.0 ==> g.lon == -180.0
    ensures p.x == 100.0 ==> g.lon == 180.0
    ensures p.y == 0.0 ==> g.lat == 90.0
    ensures p.y == 100.0 ==> g.lat == -90.0
  {
    var lon := (p.x / 100.0) * 360.0 - 180.0;
    var lat := 90.0 - (p.y / 100.0) * 180.0;
    GeoPoint(lat, lon)
  }

  /** The way back: longitude -180..180 to x 0..100, latitude 90..-90 to y 0..100. */
  function LatLonToMap(g: GeoPoint): (p: MapPoint)
    ensures -180.0 <= g.lon <= 180.0 ==> 0.0 <= p.x <= 100.0
    ensures -90.0 <= g.lat <= 90.0 ==> 0.0 <= p.y <= 100.0
    ensures g.lat == 90.0 ==> p.y == 0.0
    ensures g.lat == -90.0 ==> p.y == 100.0
    ensures g.lon == -180.0 ==> p.x == 0.0
    ensures g.lon == 180.0 ==> p.x == 100.0
  {
    var x := ((g.lon + 180.0) / 360.0) * 100.0;
    var y := ((90.0 - g.lat) / 180.0) * 100.0;
    MapPoint(x, y)
  }

  /** `toRad` and `toDeg`. */
  function ToRad(deg: real): (rad: real)
    ensures deg == 180.0 ==> rad == PI
    ensures deg == 0.0 ==> rad == 0.0
  {
    deg * PI / 180.0
  }

  function ToDeg(rad: real): (deg: real)
    ensures rad == PI ==> deg == 180.0
    ensures rad == 0.0 ==> deg == 0.0
  {
    rad * 180.0 / PI
  }

  /** The projection followed by its inverse gives back every map point,
      on the image or off it. */
  lemma MapRoundTrip(p: MapPoint)
    ensures LatLonToMap(MapToLatLon(p)) == p
  {
  }

  /** The inverse followed by the projection gives back every geographic point. */
  lemma GeoRoundTrip(g: GeoPoint)
    ensures MapToLatLon(LatLonToMap(g)) == g
  {
  }

  /** So the projection is one-to-one: distinct map points never share a
      geographic position. */
  lemma MapToLatLonInjective(p: MapPoint, q: MapPoint)
    requires MapToLatLon(p) == MapToLatLon(q)
    ensures p == q
  {
    MapRoundTrip(p);
    MapRoundTrip(q);
  }

  function MapLerp(p: MapPoint, q: MapPoint, t: real): MapPoint {
    MapPoint(p.x + t * (q.x - p.x), p.y + t * (q.y - p.y))
  }

  function GeoLerp(g: GeoPoint, h: GeoPoint, t: real): GeoPoint {
    GeoPoint(g.lat + t * (h.lat - g.lat), g.lon + t * (h.lon - g.lon))
  }

  /** The projection is affine with no clamping: it carries every
      interpolation between two map points, including extrapolation
      (t outside 0..1), to the same interpolation of their images. */
  lemma MapToLatLonAffine(p: MapPoint, q: MapPoint, t: real)
    ensures MapToLatLon(MapLerp(p, q, t)) == GeoLerp(MapToLatLon(p), MapToLatLon(q), t)
  {
  }

  /** The inverse is affine in the same sense. */
  lemma LatLonToMapAffine(g: GeoPoint, h: GeoPoint, t: real)
    ensures LatLonToMap(GeoLerp(g, h, t)) == MapLerp(LatLonToMap(g), LatLonToMap(h), t)
  {
  }

  /** The defining location of the table, Torn at (51, 47), lies at 5.4 N 3.6 E. */
  lemma TornCoordinates()
    ensures MapToLatLon(MapPoint(51.0, 47.0)) == GeoPoint(5.4, 3.6)
  {
  }

  /** The two angle conversions are inverse to each other. */
  lemma DegreesRadiansRoundTrip(deg: real, rad: real)
    ensures ToDeg(ToRad(deg)) == deg
    ensures ToRad(ToDeg(rad)) == rad
  {
  }
}
