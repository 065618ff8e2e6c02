/** The distance-estimation step of the frame loop in Src/laser.cpp
    (lines 65-86): the guard chain that decides whether a frame yields an
    estimate, the centroid of the first contour, and the table lookup.
    Contour extraction and image moments are computed by the imaging
    library; here the number of contours and the first contour's moments
    are inputs. */
module Rangefinder {
  import opened Wrappers
  import opened Calibration
  import opened Interpolation

  /** Zeroth and first image moments of a contour. */
  datatype Moments = Moments(m00: real, m10: real, m01: real)

  /** A position in the frame, in pixels. */
  datatype Point = Point(x: real, y: real)

  /** What a frame yields when every guard passes: where the laser dot is
      and how far away it is, in centimetres. */
  datatype Reading = Reading(dot: Point, distance: real)

  /** The centroid of a region, defined only when its area moment is
      positive (lines 70-74): the point whose coordinates, scaled by the
      area, give the first moments. */
  function Centroid(m: Moments): (c: Option<Point>)
    ensures c.Some? <==> m.m00 > 0.0
    ensures c.Some? ==> c.value.x * m.m00 == m.m10 && c.value.y * m.m00 == m.m01
  {
    if m.m00 > 0.0 then Some(Point(m.m10 / m.m00, m.m01 / m.m00)) else None
  }

  /** The guard chain of lines 65-77 over an arbitrary valid table: an
      estimate exists exactly when there is a contour, the first contour has
      positive area, and its centroid row is strictly inside the table's
      domain; it then carries the centroid and the table's distance. */
  function EstimateWith(contourCount: nat, m: Moments, pixel: seq<real>, cm: seq<real>): (r: Option<Reading>)
    requires ValidTable(pixel, cm)
    ensures r.Some? <==> contourCount > 0 && m.m00 > 0.0 && pixel[0] < m.m01 / m.m00 < pixel[|pixel| - 1]
    ensures r.Some? ==> Centroid(m) == Some(r.value.dot)
    ensures r.Some? ==> Lookup(r.value.dot.y, pixel, cm) == Some(r.value.distance)
  {
    if contourCount == 0 then None
    else
      match Centroid(m)
      case None => None
      case Some(p) =>
        match Lookup(p.y, pixel, cm)
        case None => None
        case Some(d) => Some(Reading(p, d))
  }

  /** The program's estimate with its built-in calibration table. Every
      distance it reports lies strictly between 20 and 100 centimetres. */
  function Estimate(contourCount: nat, m00: real, m10: real, m01: real): (r: Option<Reading>)
    ensures r.Some? <==> contourCount > 0 && m00 > 0.0 && 42.0 < m01 / m00 < 171.0
    ensures r.Some? ==> Centroid(Moments(m00, m10, m01)) == Some(r.value.dot)
    ensures r.Some? ==> Lookup(r.value.dot.y, Pixel, Cm) == Some(r.value.distance)
    ensures r.Some? ==> 20.0 < r.value.distance < 100.0
  {
    ConstantTablesValid();
    var r := EstimateWith(contourCount, Moments(m00, m10, m01), Pixel, Cm);
    if r.Some? then
      LookupWithinDistances(r.value.dot.y, Pixel, Cm);
      r
    else
      r
  }

  /** Worked values of the built-in table: a breakpoint row gives its
      measured distance exactly, a row inside a segment interpolates on
      that segment, and both ends of the domain are excluded. */
  lemma ConstantTableExamples()
    ensures Lookup(94.0, Pixel, Cm) == Some(30.0)
    ensures Lookup(108.0, Pixel, Cm) == Some(35.0)
    ensures Lookup(168.0, Pixel, Cm) == Some(90.0)
    ensures Lookup(42.0, Pixel, Cm) == None
    ensures Lookup(171.0, Pixel, Cm) == None
  {
  }

  /** A frame whose first contour has area 2 and first moments (640, 188)
      has its dot at (320, 94) and reads 30 cm; the same moments with no
      contour, or with zero area, give nothing. */
  lemma EstimateExamples()
    ensures Estimate(1, 2.0, 640.0, 188.0) == Some(Reading(Point(320.0, 94.0), 30.0))
    ensures Estimate(0, 2.0, 640.0, 188.0) == None
    ensures Estimate(1, 0.0, 640.0, 188.0) == None
  {
  }
}
