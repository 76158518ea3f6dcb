/**
 * Geographic points and the geodesic primitives the system borrows from PostGIS
 * (ST_Distance, ST_DWithin, ST_Length, ST_Intersection of a buffer) and from the
 * haversine formula used at ingestion. Their floating-point geometry is not modelled:
 * each primitive is an arbitrary function, and the only thing assumed of it is that
 * it never returns a negative length.
 */
module Geo {

  /** A WGS84 position. Coordinates are reals; the model never computes with them. */
  datatype LatLng = LatLng(lat: real, lng: real)

  /** A polyline (a route or a segment), vertex by vertex. */
  type Line = seq<LatLng>

  datatype Geodesy = Geodesy(
    /** ST_Distance between two points, in metres. */
    pointToPoint: (LatLng, LatLng) -> real,
    /** ST_Distance from a point to the nearest point of a polyline. */
    pointToLine: (LatLng, Line) -> real,
    /** ST_Distance between two polylines (what ST_DWithin compares). */
    lineToLine: (Line, Line) -> real,
    /** ST_Length(ST_Intersection(ST_Buffer(route, tol), segment)). */
    bufferedOverlap: (Line, real, Line) -> real,
    /** ST_Length of a polyline. */
    length: Line -> real,
    /** haversineDistance(lat1, lng1, lat2, lng2) of the ingestion code. */
    haversine: (real, real, real, real) -> real)

  /** Every primitive returns a non-negative length. */
  ghost predicate NonNegative(g: Geodesy) {
    && (forall a, b :: g.pointToPoint(a, b) >= 0.0)
    && (forall p, l :: g.pointToLine(p, l) >= 0.0)
    && (forall l1, l2 :: g.lineToLine(l1, l2) >= 0.0)
    && (forall r, t, s :: g.bufferedOverlap(r, t, s) >= 0.0)
    && (forall l :: g.length(l) >= 0.0)
    && (forall a, b, c, d :: g.haversine(a, b, c, d) >= 0.0)
  }

  /** ST_DWithin(point, line, tol): the point lies within `tol` metres of the line. */
  predicate PointWithin(g: Geodesy, p: LatLng, line: Line, tol: real) {
    g.pointToLine(p, line) <= tol
  }

  /** ST_DWithin(line1, line2, tol). */
  predicate LinesWithin(g: Geodesy, l1: Line, l2: Line, tol: real) {
    g.lineToLine(l1, l2) <= tol
  }
}
