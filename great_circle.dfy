/** The shape of the great-circle path: one sample per index 0..numPoints,
    each taken at fraction index/numPoints of the way from start to end.

    The spherical interpolation that turns a fraction into a point (arcsine,
    sines, cosines and arctangents on 64-bit floats) is not expressible
    here; it enters the model as a `Slerp`, a function the caller supplies,
    applied to the endpoints converted to radians. */
module GreatCircle {
  import opened Projection

  /** A position on the sphere in radians. */
  datatype SpherePoint = SpherePoint(lat: real, lon: real)

  /** The fraction `i / numPoints` as JavaScript computes it for the loop's
      indices: a ratio, or NaN for 0 / 0. */
  datatype Fraction = Ratio(value: real) | NotANumber

  /** The spherical interpolation of one sample: both endpoints in radians
      and the fraction, to the sample in radians. */
  type Slerp = (SpherePoint, SpherePoint, Fraction) -> SpherePoint

  /** `i / numPoints` for an index the loop reaches. */
  function FractionOf(i: int, numPoints: int): (f: Fraction)
    requires 0 <= i <= numPoints
    ensures f.NotANumber? <==> numPoints == 0
    ensures f.Ratio? ==> 0.0 <= f.value <= 1.0
    ensures f.Ratio? && i == 0 ==> f.value == 0.0
    ensures f.Ratio? && i == numPoints ==> f.value == 1.0
  {
    if numPoints == 0 then NotANumber else Ratio(i as real / numPoints as real)
  }

  /** The fractions grow strictly with the index, so the samples are taken
      in order from the start towards the end. */
  lemma FractionIncreasing(i: int, j: int, numPoints: int)
    requires 0 <= i < j <= numPoints
    ensures FractionOf(i, numPoints).Ratio? && FractionOf(j, numPoints).Ratio?
    ensures FractionOf(i, numPoints).value < FractionOf(j, numPoints).value
  {
    var n := numPoints as real;
    assert i as real / n < j as real / n by {
      assert (j as real / n - i as real / n) * n == j as real - i as real;
    }
  }

  function ToSphere(g: GeoPoint): SpherePoint {
    SpherePoint(ToRad(g.lat), ToRad(g.lon))
  }

  /** One sample of the path, back in degrees. */
  function Sample(start: GeoPoint, end: GeoPoint, f: Fraction, slerp: Slerp): GeoPoint {
    var p := slerp(ToSphere(start), ToSphere(end), f);
    GeoPoint(ToDeg(p.lat), ToDeg(p.lon))
  }

  /** The number of samples: indices 0..numPoints, none when numPoints is negative. */
  function PathLength(numPoints: int): nat {
    if numPoints < 0 then 0 else numPoints + 1
  }

  /** The path as a value: sample k is taken at fraction k / numPoints. */
  function Path(start: GeoPoint, end: GeoPoint, numPoints: int, slerp: Slerp): seq<GeoPoint> {
    seq(PathLength(numPoints), k requires 0 <= k < PathLength(numPoints) =>
      Sample(start, end, FractionOf(k, numPoints), slerp))
  }

  /** The loop that pushes one sample per index onto `points`. */
  method GreatCirclePath(start: GeoPoint, end: GeoPoint, numPoints: int, slerp: Slerp)
    returns (points: seq<GeoPoint>)
    ensures |points| == PathLength(numPoints)
    ensures forall k :: 0 <= k < |points| ==>
      points[k] == Sample(start, end, FractionOf(k, numPoints), slerp)
    ensures points == Path(start, end, numPoints, slerp)
  {
    var lat1 := ToRad(start.lat);
    var lon1 := ToRad(start.lon);
    var lat2 := ToRad(end.lat);
    var lon2 := ToRad(end.lon);
    points := [];
    var i := 0;
    while i <= numPoints
      invariant 0 <= i <= PathLength(numPoints)
      invariant |points| == i
      invariant forall k :: 0 <= k < i ==>
        points[k] == Sample(start, end, FractionOf(k, numPoints), slerp)
      decreases numPoints - i
    {
      var fraction := FractionOf(i, numPoints);
      var p := slerp(SpherePoint(lat1, lon1), SpherePoint(lat2, lon2), fraction);
      points := points + [GeoPoint(ToDeg(p.lat), ToDeg(p.lon))];
      i := i + 1;
    }
  }

  /** With at least one step, the first sample is taken at fraction 0 and
      the last at fraction 1: the path runs from the start's sample to the
      end's, whatever the interpolation. */
  lemma PathEnds(start: GeoPoint, end: GeoPoint, numPoints: int, slerp: Slerp)
    requires numPoints >= 1
    ensures |Path(start, end, numPoints, slerp)| == numPoints + 1
    ensures Path(start, end, numPoints, slerp)[0] == Sample(start, end, Ratio(0.0), slerp)
    ensures Path(start, end, numPoints, slerp)[numPoints] == Sample(start, end, Ratio(1.0), slerp)
  {
  }

  /** No steps at all: the single sample is taken at NaN. */
  lemma PathWithoutSteps(start: GeoPoint, end: GeoPoint, slerp: Slerp)
    ensures Path(start, end, 0, slerp) == [Sample(start, end, NotANumber, slerp)]
  {
  }

  /** The samples are taken at strictly increasing fractions along the path. */
  lemma PathOrdered(start: GeoPoint, end: GeoPoint, numPoints: int, slerp: Slerp, i: int, j: int)
    requires 0 <= i < j < PathLength(numPoints)
    ensures exists fi: real, fj: real ::
              && fi < fj
              && Path(start, end, numPoints, slerp)[i] == Sample(start, end, Ratio(fi), slerp)
              && Path(start, end, numPoints, slerp)[j] == Sample(start, end, Ratio(fj), slerp)
  {
    FractionIncreasing(i, j, numPoints);
    var fi := FractionOf(i, numPoints).value;
    var fj := FractionOf(j, numPoints).value;
    assert Path(start, end, numPoints, slerp)[i] == Sample(start, end, Ratio(fi), slerp);
    assert Path(start, end, numPoints, slerp)[j] == Sample(start, end, Ratio(fj), slerp);
  }
}
