/**
 * The matching algorithms that run inside the database as SQL functions:
 *  - find_route_parts_matching_segment: which stored routes follow a favourite segment,
 *  - find_route_parts_matching_segment_by_name: the looser variant looked up by segment name,
 *  - find_segment_point_indices: the first and last sample of a route near the segment,
 *  - get_activity_segment_metrics: heart rate, speed, distance and climb over those samples,
 *  - get_segment_metrics: a segment's own length and stored climb.
 * Geodesic primitives come from `Geodesy`; everything else is the set and aggregate logic of the SQL.
 */
module Matching {
  import opened Wrappers
  import opened Geo
  import opened Samples

  /** One `favorite_segments` row, as far as the matching functions read it. */
  datatype SegmentRow = SegmentRow(
    id: int, athleteId: int, name: string, description: Option<string>,
    line: Line, elevationGain: Option<real>)

  /** One `activity_geometries` row: the full route of one activity. */
  datatype RouteGeometry = RouteGeometry(activityId: int, athleteId: int, route: Line)

  /** A SegmentMatchResult: one row returned by a matching function. */
  datatype MatchRow = MatchRow(
    activityId: int, segmentId: int, segmentName: Option<string>,
    minDistance: real, overlapLength: real, overlapPct: real)

  // ---------------------------------------------------------------------------
  // Result ordering: ORDER BY min_distance_m, <tie key> DESC

  datatype TieBreak = ByOverlapLength | ByOverlapPercentage

  function TieKey(r: MatchRow, tie: TieBreak): real {
    match tie
    case ByOverlapLength => r.overlapLength
    case ByOverlapPercentage => r.overlapPct
  }

  /** `a` may be listed before `b`: smaller min distance first, then larger tie key first. */
  predicate RowBefore(a: MatchRow, b: MatchRow, tie: TieBreak) {
    a.minDistance < b.minDistance || (a.minDistance == b.minDistance && TieKey(a, tie) >= TieKey(b, tie))
  }

  predicate RowsSorted(rows: seq<MatchRow>, tie: TieBreak) {
    forall i, j :: 0 <= i < j < |rows| ==> RowBefore(rows[i], rows[j], tie)
  }

  /** Prepending a row that may precede every row of a sorted list keeps it sorted. */
  lemma ConsRowsSorted(r: MatchRow, rows: seq<MatchRow>, tie: TieBreak)
    requires RowsSorted(rows, tie)
    requires forall j :: 0 <= j < |rows| ==> RowBefore(r, rows[j], tie)
    ensures RowsSorted([r] + rows, tie)
  {
    var res := [r] + rows;
    forall i, j | 0 <= i < j < |res| ensures RowBefore(res[i], res[j], tie) {
      assert res[j] == rows[j - 1];
      if i > 0 {
        assert res[i] == rows[i - 1];
      }
    }
  }

  /** A row that may precede both the inserted row and every row of the rest may precede every row of the insertion. */
  lemma BeforeAllInserted(first: MatchRow, r: MatchRow, rest: seq<MatchRow>, tail: seq<MatchRow>, tie: TieBreak)
    requires multiset(tail) == multiset(rest) + multiset{r}
    requires RowBefore(first, r, tie)
    requires forall j :: 0 <= j < |rest| ==> RowBefore(first, rest[j], tie)
    ensures forall j :: 0 <= j < |tail| ==> RowBefore(first, tail[j], tie)
  {
    forall j | 0 <= j < |tail| ensures RowBefore(first, tail[j], tie) {
      assert tail[j] in multiset(tail);
      if tail[j] != r {
        assert tail[j] in multiset(rest);
        assert tail[j] in rest;
        var k :| 0 <= k < |rest| && rest[k] == tail[j];
      }
    }
  }

  function InsertRow(r: MatchRow, rows: seq<MatchRow>, tie: TieBreak): (res: seq<MatchRow>)
    requires RowsSorted(rows, tie)
    ensures RowsSorted(res, tie)
    ensures multiset(res) == multiset(rows) + multiset{r}
  {
    if rows == [] then [r]
    else if RowBefore(r, rows[0], tie) then
      assert forall j :: 0 <= j < |rows| ==> RowBefore(r, rows[j], tie) by {
        forall j | 0 <= j < |rows| ensures RowBefore(r, rows[j], tie) {
          if j > 0 {
            assert RowBefore(rows[0], rows[j], tie);
          }
        }
      }
      ConsRowsSorted(r, rows, tie);
      [r] + rows
    else
      var rest := rows[1..];
      var tail := InsertRow(r, rest, tie);
      assert forall j :: 0 <= j < |rest| ==> RowBefore(rows[0], rest[j], tie) by {
        forall j | 0 <= j < |rest| ensures RowBefore(rows[0], rest[j], tie) {
          assert rest[j] == rows[j + 1];
        }
      }
      BeforeAllInserted(rows[0], r, rest, tail, tie);
      ConsRowsSorted(rows[0], tail, tie);
      assert rows == [rows[0]] + rest;
      [rows[0]] + tail
  }

  /** The database's ORDER BY. Rows that tie on both keys keep their input order, one of the orders SQL allows. */
  function SortRows(rows: seq<MatchRow>, tie: TieBreak): (res: seq<MatchRow>)
    ensures RowsSorted(res, tie)
    ensures multiset(res) == multiset(rows)
  {
    if rows == [] then []
    else
      assert rows == [rows[0]] + rows[1..];
      InsertRow(rows[0], SortRows(rows[1..], tie), tie)
  }

  // ---------------------------------------------------------------------------
  // find_route_parts_matching_segment

  /** ST_Distance from each segment vertex (ST_DumpPoints) to the route. */
  function VertexDistances(g: Geodesy, segment: Line, route: Line): (ds: seq<real>)
    ensures |ds| == |segment|
    ensures forall i :: 0 <= i < |segment| ==> ds[i] == g.pointToLine(segment[i], route)
  {
    if segment == [] then [] else [g.pointToLine(segment[0], route)] + VertexDistances(g, segment[1..], route)
  }

  /** COUNT(CASE WHEN point_dist <= tolerance THEN 1 END). */
  function CountWithin(ds: seq<real>, tol: real): nat {
    if ds == [] then 0 else (if ds[0] <= tol then 1 else 0) + CountWithin(ds[1..], tol)
  }

  /** The HAVING clause: the count of close vertices equals the count of all vertices exactly when every vertex is close. */
  lemma {:induction false} CountWithinIsAll(ds: seq<real>, tol: real)
    ensures CountWithin(ds, tol) <= |ds|
    ensures CountWithin(ds, tol) == |ds| <==> forall i :: 0 <= i < |ds| ==> ds[i] <= tol
  {
    if ds != [] {
      CountWithinIsAll(ds[1..], tol);
      assert forall i :: 1 <= i < |ds| ==> ds[i] == ds[1..][i - 1];
    }
  }

  /** MAX(point_dist). */
  function MaxOf(ds: seq<real>): (m: real)
    requires |ds| > 0
    ensures forall i :: 0 <= i < |ds| ==> ds[i] <= m
    ensures exists i :: 0 <= i < |ds| && ds[i] == m
  {
    if |ds| == 1 then ds[0]
    else
      var m0 := MaxOf(ds[..|ds| - 1]);
      assert forall i :: 0 <= i < |ds| - 1 ==> ds[i] == ds[..|ds| - 1][i];
      if ds[|ds| - 1] > m0 then ds[|ds| - 1] else m0
  }

  /** The GROUP BY ... HAVING filter: the segment has vertices and all of them are within tolerance of the route. */
  predicate CoversAllVertices(g: Geodesy, segment: Line, route: Line, tol: real) {
    |segment| > 0 && CountWithin(VertexDistances(g, segment, route), tol) == |segment|
  }

  /** LEAST(overlap / length * 100, 100) when the segment has length, else 0. */
  function OverlapPercentage(overlap: real, segLength: real): (pct: real)
    ensures overlap >= 0.0 ==> 0.0 <= pct <= 100.0
    ensures segLength > 0.0 ==> (pct == 100.0 <==> overlap >= segLength)
    ensures segLength > 0.0 && overlap > 0.0 ==> pct > 0.0
  {
    if segLength > 0.0 then
      var raw := overlap / segLength * 100.0;
      assert overlap >= segLength <==> raw >= 100.0 by {
        assert overlap / segLength * segLength == overlap;
      }
      if raw < 100.0 then raw else 100.0
    else 0.0
  }

  /** The row one stored route contributes, if it passes every filter of the query. */
  function MatchFor(g: Geodesy, segment: Line, segmentId: int, segLength: real, tol: real, geom: RouteGeometry): Option<MatchRow> {
    if LinesWithin(g, geom.route, segment, tol) && CoversAllVertices(g, segment, geom.route, tol) then
      var overlap := g.bufferedOverlap(geom.route, tol, segment);
      if overlap > 0.0 then
        Some(MatchRow(geom.activityId, segmentId, None,
                      MaxOf(VertexDistances(g, segment, geom.route)), overlap,
                      OverlapPercentage(overlap, segLength)))
      else None
    else None
  }

  function UnorderedMatches(g: Geodesy, segment: Line, segmentId: int, segLength: real, tol: real,
                            geoms: seq<RouteGeometry>): seq<MatchRow>
  {
    if geoms == [] then []
    else
      var m := MatchFor(g, segment, segmentId, segLength, tol, geoms[0]);
      (if m.Some? then [m.value] else []) + UnorderedMatches(g, segment, segmentId, segLength, tol, geoms[1..])
  }

  /** find_route_parts_matching_segment over every stored route; a missing segment yields no rows. */
  function FindRoutePartsMatchingSegment(g: Geodesy, segment: Option<Line>, segmentId: int, tol: real,
                                         geoms: seq<RouteGeometry>): (rows: seq<MatchRow>)
    ensures RowsSorted(rows, ByOverlapLength)
    ensures segment.None? ==> rows == []
  {
    if segment.None? then []
    else SortRows(UnorderedMatches(g, segment.value, segmentId, g.length(segment.value), tol, geoms), ByOverlapLength)
  }

  lemma {:induction false} UnorderedMatchesSound(g: Geodesy, segment: Line, segmentId: int, segLength: real, tol: real,
                                                 geoms: seq<RouteGeometry>, r: MatchRow)
    requires r in UnorderedMatches(g, segment, segmentId, segLength, tol, geoms)
    ensures exists geom :: geom in geoms && MatchFor(g, segment, segmentId, segLength, tol, geom) == Some(r)
  {
    if geoms != [] {
      var m := MatchFor(g, segment, segmentId, segLength, tol, geoms[0]);
      if !(m.Some? && r == m.value) {
        UnorderedMatchesSound(g, segment, segmentId, segLength, tol, geoms[1..], r);
      }
    }
  }

  lemma {:induction false} UnorderedMatchesComplete(g: Geodesy, segment: Line, segmentId: int, segLength: real, tol: real,
                                                    geoms: seq<RouteGeometry>, geom: RouteGeometry)
    requires geom in geoms
    requires MatchFor(g, segment, segmentId, segLength, tol, geom).Some?
    ensures MatchFor(g, segment, segmentId, segLength, tol, geom).value in UnorderedMatches(g, segment, segmentId, segLength, tol, geoms)
  {
    if geoms[0] != geom {
      UnorderedMatchesComplete(g, segment, segmentId, segLength, tol, geoms[1..], geom);
    }
  }

  /** What one route's row promises: all vertices close, min distance the largest of them, positive overlap. */
  lemma MatchForSound(g: Geodesy, line: Line, segmentId: int, segLength: real, tol: real, geom: RouteGeometry, r: MatchRow)
    requires MatchFor(g, line, segmentId, segLength, tol, geom) == Some(r)
    ensures r.activityId == geom.activityId && r.segmentId == segmentId
    ensures LinesWithin(g, geom.route, line, tol)
    ensures forall i :: 0 <= i < |line| ==> g.pointToLine(line[i], geom.route) <= r.minDistance
    ensures exists i :: 0 <= i < |line| && g.pointToLine(line[i], geom.route) == r.minDistance
    ensures r.minDistance <= tol
    ensures r.overlapLength == g.bufferedOverlap(geom.route, tol, line)
    ensures r.overlapLength > 0.0
    ensures 0.0 <= r.overlapPct <= 100.0
    ensures r.overlapPct == OverlapPercentage(r.overlapLength, segLength)
  {
    var ds := VertexDistances(g, line, geom.route);
    CountWithinIsAll(ds, tol);
    assert r.minDistance == MaxOf(ds);
  }

  /**
   * Every returned row comes from a stored route all of whose segment vertices lie within
   * tolerance; its min_distance_m is the largest vertex distance, hence at most the tolerance;
   * its overlap is positive and its percentage lies in [0, 100].
   */
  lemma MatchesAreSound(g: Geodesy, segment: Option<Line>, segmentId: int, tol: real, geoms: seq<RouteGeometry>, r: MatchRow)
    requires r in FindRoutePartsMatchingSegment(g, segment, segmentId, tol, geoms)
    ensures segment.Some?
    ensures exists geom :: geom in geoms && geom.activityId == r.activityId
                           && LinesWithin(g, geom.route, segment.value, tol)
                           && (forall i :: 0 <= i < |segment.value| ==> g.pointToLine(segment.value[i], geom.route) <= r.minDistance)
                           && (exists i :: 0 <= i < |segment.value| && g.pointToLine(segment.value[i], geom.route) == r.minDistance)
                           && r.overlapLength == g.bufferedOverlap(geom.route, tol, segment.value)
    ensures r.segmentId == segmentId
    ensures r.minDistance <= tol
    ensures r.overlapLength > 0.0
    ensures 0.0 <= r.overlapPct <= 100.0
    ensures r.overlapPct == OverlapPercentage(r.overlapLength, g.length(segment.value))
  {
    var geom := SourceRoute(g, segment, segmentId, tol, geoms, r);
    MatchForSound(g, segment.value, segmentId, g.length(segment.value), tol, geom, r);
  }

  /** The stored route a returned row comes from. */
  lemma SourceRoute(g: Geodesy, segment: Option<Line>, segmentId: int, tol: real, geoms: seq<RouteGeometry>, r: MatchRow)
    returns (geom: RouteGeometry)
    requires r in FindRoutePartsMatchingSegment(g, segment, segmentId, tol, geoms)
    ensures segment.Some? && geom in geoms
    ensures MatchFor(g, segment.value, segmentId, g.length(segment.value), tol, geom) == Some(r)
  {
    var line := segment.value;
    var len := g.length(line);
    var unordered := UnorderedMatches(g, line, segmentId, len, tol, geoms);
    assert r in multiset(unordered);
    UnorderedMatchesSound(g, line, segmentId, len, tol, geoms, r);
    geom :| geom in geoms && MatchFor(g, line, segmentId, len, tol, geom) == Some(r);
  }

  /** Every stored route that passes the query's filters is returned. */
  lemma MatchesAreComplete(g: Geodesy, line: Line, segmentId: int, tol: real, geoms: seq<RouteGeometry>, geom: RouteGeometry)
    requires geom in geoms
    requires LinesWithin(g, geom.route, line, tol)
    requires |line| > 0
    requires forall i :: 0 <= i < |line| ==> g.pointToLine(line[i], geom.route) <= tol
    requires g.bufferedOverlap(geom.route, tol, line) > 0.0
    ensures exists r :: r in FindRoutePartsMatchingSegment(g, Some(line), segmentId, tol, geoms) && r.activityId == geom.activityId
                        && r.segmentId == segmentId
                        && (forall i :: 0 <= i < |line| ==> g.pointToLine(line[i], geom.route) <= r.minDistance)
                        && (exists i :: 0 <= i < |line| && g.pointToLine(line[i], geom.route) == r.minDistance)
                        && r.overlapLength == g.bufferedOverlap(geom.route, tol, line)
                        && r.overlapPct == OverlapPercentage(r.overlapLength, g.length(line))
  {
    var ds := VertexDistances(g, line, geom.route);
    CountWithinIsAll(ds, tol);
    var m := MatchFor(g, line, segmentId, g.length(line), tol, geom);
    assert m.Some?;
    UnorderedMatchesComplete(g, line, segmentId, g.length(line), tol, geoms, geom);
    var unordered := UnorderedMatches(g, line, segmentId, g.length(line), tol, geoms);
    assert m.value in multiset(unordered);
    assert m.value in FindRoutePartsMatchingSegment(g, Some(line), segmentId, tol, geoms);
    MatchForSound(g, line, segmentId, g.length(line), tol, geom, m.value);
  }

  /** A single segment vertex beyond tolerance disqualifies a route, however close the other vertices are. */
  lemma OneFarVertexRejects(g: Geodesy, line: Line, segmentId: int, segLength: real, tol: real, geom: RouteGeometry, i: nat)
    requires i < |line|
    requires g.pointToLine(line[i], geom.route) > tol
    ensures MatchFor(g, line, segmentId, segLength, tol, geom).None?
  {
    CountWithinIsAll(VertexDistances(g, line, geom.route), tol);
  }

  // ---------------------------------------------------------------------------
  // find_route_parts_matching_segment_by_name

  /** The by-name row: distance is route-to-line, percentage is not clamped, and a zero overlap is kept. */
  function NamedMatchFor(g: Geodesy, seg: SegmentRow, tol: real, geom: RouteGeometry): Option<MatchRow> {
    if LinesWithin(g, geom.route, seg.line, tol) then
      var overlap := g.bufferedOverlap(geom.route, tol, seg.line);
      var len := g.length(seg.line);
      Some(MatchRow(geom.activityId, seg.id, Some(seg.name), g.lineToLine(geom.route, seg.line), overlap,
                    if len > 0.0 then overlap / len * 100.0 else 0.0))
    else None
  }

  function NamedMatchesForSegment(g: Geodesy, seg: SegmentRow, tol: real, geoms: seq<RouteGeometry>): seq<MatchRow> {
    if geoms == [] then []
    else
      var m := NamedMatchFor(g, seg, tol, geoms[0]);
      (if m.Some? then [m.value] else []) + NamedMatchesForSegment(g, seg, tol, geoms[1..])
  }

  function NamedMatchesUnordered(g: Geodesy, segments: seq<SegmentRow>, name: string, tol: real,
                                 geoms: seq<RouteGeometry>): seq<MatchRow>
  {
    if segments == [] then []
    else
      (if segments[0].name == name then NamedMatchesForSegment(g, segments[0], tol, geoms) else [])
      + NamedMatchesUnordered(g, segments[1..], name, tol, geoms)
  }

  /** find_route_parts_matching_segment_by_name: every segment with that name against every route near it. */
  function FindRoutePartsMatchingSegmentByName(g: Geodesy, segments: seq<SegmentRow>, name: string, tol: real,
                                               geoms: seq<RouteGeometry>): (rows: seq<MatchRow>)
    ensures RowsSorted(rows, ByOverlapPercentage)
  {
    SortRows(NamedMatchesUnordered(g, segments, name, tol, geoms), ByOverlapPercentage)
  }

  lemma {:induction false} NamedMatchesForSegmentSound(g: Geodesy, seg: SegmentRow, tol: real, geoms: seq<RouteGeometry>, r: MatchRow)
    requires r in NamedMatchesForSegment(g, seg, tol, geoms)
    ensures r.segmentName == Some(seg.name) && r.segmentId == seg.id && r.minDistance <= tol
  {
    if geoms != [] {
      var m := NamedMatchFor(g, seg, tol, geoms[0]);
      if !(m.Some? && r == m.value) {
        NamedMatchesForSegmentSound(g, seg, tol, geoms[1..], r);
      }
    }
  }

  lemma {:induction false} NamedMatchesUnorderedSound(g: Geodesy, segments: seq<SegmentRow>, name: string, tol: real,
                                                      geoms: seq<RouteGeometry>, r: MatchRow)
    requires r in NamedMatchesUnordered(g, segments, name, tol, geoms)
    ensures r.segmentName == Some(name) && r.minDistance <= tol
  {
    if segments != [] {
      if segments[0].name == name && r in NamedMatchesForSegment(g, segments[0], tol, geoms) {
        NamedMatchesForSegmentSound(g, segments[0], tol, geoms, r);
      } else {
        NamedMatchesUnorderedSound(g, segments[1..], name, tol, geoms, r);
      }
    }
  }

  /** Every by-name row names the requested segment and lies within tolerance of it. */
  lemma NamedMatchesAreSound(g: Geodesy, segments: seq<SegmentRow>, name: string, tol: real, geoms: seq<RouteGeometry>, r: MatchRow)
    requires r in FindRoutePartsMatchingSegmentByName(g, segments, name, tol, geoms)
    ensures r.segmentName == Some(name)
    ensures r.minDistance <= tol
  {
    assert r in multiset(NamedMatchesUnordered(g, segments, name, tol, geoms));
    NamedMatchesUnorderedSound(g, segments, name, tol, geoms, r);
  }

  lemma {:induction false} NamedMatchesForSegmentComplete(g: Geodesy, seg: SegmentRow, tol: real, geoms: seq<RouteGeometry>,
                                                          geom: RouteGeometry)
    requires geom in geoms && LinesWithin(g, geom.route, seg.line, tol)
    ensures NamedMatchFor(g, seg, tol, geom).Some?
    ensures NamedMatchFor(g, seg, tol, geom).value in NamedMatchesForSegment(g, seg, tol, geoms)
  {
    if geoms[0] != geom {
      NamedMatchesForSegmentComplete(g, seg, tol, geoms[1..], geom);
    }
  }

  lemma {:induction false} NamedMatchesUnorderedComplete(g: Geodesy, segments: seq<SegmentRow>, name: string, tol: real,
                                                         geoms: seq<RouteGeometry>, seg: SegmentRow, geom: RouteGeometry)
    requires seg in segments && seg.name == name
    requires geom in geoms && LinesWithin(g, geom.route, seg.line, tol)
    ensures NamedMatchFor(g, seg, tol, geom).Some?
    ensures NamedMatchFor(g, seg, tol, geom).value in NamedMatchesUnordered(g, segments, name, tol, geoms)
  {
    if segments[0] == seg {
      NamedMatchesForSegmentComplete(g, seg, tol, geoms, geom);
    } else {
      NamedMatchesUnorderedComplete(g, segments[1..], name, tol, geoms, seg, geom);
      NamedMatchesForSegmentComplete(g, seg, tol, geoms, geom);
    }
  }

  /**
   * Every stored route within tolerance of a segment with the requested name is returned, as
   * that segment's row: its id and name, the route-to-line distance and the overlap.
   */
  lemma NamedMatchesAreComplete(g: Geodesy, segments: seq<SegmentRow>, name: string, tol: real, geoms: seq<RouteGeometry>,
                                seg: SegmentRow, geom: RouteGeometry)
    requires seg in segments && seg.name == name
    requires geom in geoms && LinesWithin(g, geom.route, seg.line, tol)
    ensures exists r :: r in FindRoutePartsMatchingSegmentByName(g, segments, name, tol, geoms)
                        && r.activityId == geom.activityId && r.segmentId == seg.id && r.segmentName == Some(name)
                        && r.minDistance == g.lineToLine(geom.route, seg.line)
                        && r.overlapLength == g.bufferedOverlap(geom.route, tol, seg.line)
  {
    NamedMatchesUnorderedComplete(g, segments, name, tol, geoms, seg, geom);
    var r := NamedMatchFor(g, seg, tol, geom).value;
    assert r in multiset(NamedMatchesUnordered(g, segments, name, tol, geoms));
    assert r in FindRoutePartsMatchingSegmentByName(g, segments, name, tol, geoms);
  }

  /** Unlike the id-based query, the by-name percentage is not clamped: an overlap longer than the segment exceeds 100. */
  lemma NamedPercentageUnclamped(g: Geodesy, seg: SegmentRow, tol: real, geom: RouteGeometry)
    requires LinesWithin(g, geom.route, seg.line, tol)
    requires 0.0 < g.length(seg.line) < g.bufferedOverlap(geom.route, tol, seg.line)
    ensures NamedMatchFor(g, seg, tol, geom).value.overlapPct > 100.0
  {
    var overlap := g.bufferedOverlap(geom.route, tol, seg.line);
    var len := g.length(seg.line);
    var q := overlap / len;
    assert q * len == overlap;
    if q <= 1.0 {
      assert false;
    }
  }

  // ---------------------------------------------------------------------------
  // find_segment_point_indices and get_activity_segment_metrics

  /** The sample is one of the athlete's samples of that activity and lies within tolerance of the segment. */
  predicate OnSegment(g: Geodesy, line: Line, tol: real, activityId: int, athleteId: int, s: PointSample) {
    s.activityId == activityId && s.athleteId == athleteId && PointWithin(g, s.location, line, tol)
  }

  /** The WHERE clause shared by both queries, keeping table order. */
  function SelectOnSegment(g: Geodesy, line: Line, tol: real, activityId: int, athleteId: int,
                           rows: seq<PointSample>): (sel: seq<PointSample>)
    ensures forall s :: s in sel <==> s in rows && OnSegment(g, line, tol, activityId, athleteId, s)
    ensures |sel| <= |rows|
  {
    if rows == [] then []
    else
      (if OnSegment(g, line, tol, activityId, athleteId, rows[0]) then [rows[0]] else [])
      + SelectOnSegment(g, line, tol, activityId, athleteId, rows[1..])
  }

  function MinIndex(sel: seq<PointSample>): (m: int)
    requires |sel| > 0
    ensures forall i :: 0 <= i < |sel| ==> m <= sel[i].pointIndex
    ensures exists i :: 0 <= i < |sel| && sel[i].pointIndex == m
  {
    if |sel| == 1 then sel[0].pointIndex
    else
      var m0 := MinIndex(sel[1..]);
      assert forall i :: 1 <= i < |sel| ==> sel[i] == sel[1..][i - 1];
      if sel[0].pointIndex < m0 then sel[0].pointIndex else m0
  }

  function MaxIndex(sel: seq<PointSample>): (m: int)
    requires |sel| > 0
    ensures forall i :: 0 <= i < |sel| ==> sel[i].pointIndex <= m
    ensures exists i :: 0 <= i < |sel| && sel[i].pointIndex == m
  {
    if |sel| == 1 then sel[0].pointIndex
    else
      var m0 := MaxIndex(sel[1..]);
      assert forall i :: 1 <= i < |sel| ==> sel[i] == sel[1..][i - 1];
      if sel[0].pointIndex > m0 then sel[0].pointIndex else m0
  }

  datatype IndexRange = IndexRange(start: int, end: int)

  /**
   * find_segment_point_indices: MIN and MAX point_index over the samples on the segment.
   * None stands for the NULL pair the query yields when no sample qualifies or the segment is missing.
   */
  function FindSegmentPointIndices(g: Geodesy, segment: Option<Line>, tol: real, activityId: int, athleteId: int,
                                   rows: seq<PointSample>): (r: Option<IndexRange>)
    ensures r.Some? <==> segment.Some? && exists s :: s in rows && OnSegment(g, segment.value, tol, activityId, athleteId, s)
    ensures r.Some? ==> r.value.start <= r.value.end
    ensures r.Some? ==> forall s :: s in rows && OnSegment(g, segment.value, tol, activityId, athleteId, s)
                                    ==> r.value.start <= s.pointIndex <= r.value.end
    ensures r.Some? ==> exists s :: s in rows && OnSegment(g, segment.value, tol, activityId, athleteId, s)
                                    && s.pointIndex == r.value.start
    ensures r.Some? ==> exists s :: s in rows && OnSegment(g, segment.value, tol, activityId, athleteId, s)
                                    && s.pointIndex == r.value.end
  {
    if segment.None? then None
    else
      var sel := SelectOnSegment(g, segment.value, tol, activityId, athleteId, rows);
      if |sel| == 0 then
        assert forall s :: s in rows && OnSegment(g, segment.value, tol, activityId, athleteId, s) ==> s in sel;
        None
      else
        assert sel[0] in sel;
        var lo := MinIndex(sel);
        var hi := MaxIndex(sel);
        assert forall s :: s in sel ==> lo <= s.pointIndex <= hi by {
          forall s | s in sel ensures lo <= s.pointIndex <= hi {
            var i :| 0 <= i < |sel| && sel[i] == s;
          }
        }
        Some(IndexRange(lo, hi))
  }

  /** Prepending a sample whose index is at most every index of an ordered run keeps it ordered. */
  lemma ConsIndexOrdered(s: PointSample, run: seq<PointSample>)
    requires IndexOrdered(run)
    requires forall j :: 0 <= j < |run| ==> s.pointIndex <= run[j].pointIndex
    ensures IndexOrdered([s] + run)
  {
    var res := [s] + run;
    forall i, j | 0 <= i < j < |res| ensures res[i].pointIndex <= res[j].pointIndex {
      assert res[j] == run[j - 1];
      if i > 0 {
        assert res[i] == run[i - 1];
      }
    }
  }

  /** An index at most the inserted sample's and every index of the rest is at most every index of the insertion. */
  lemma IndexBelowInserted(first: int, s: PointSample, rest: seq<PointSample>, tail: seq<PointSample>)
    requires multiset(tail) == multiset(rest) + multiset{s}
    requires first <= s.pointIndex
    requires forall j :: 0 <= j < |rest| ==> first <= rest[j].pointIndex
    ensures forall j :: 0 <= j < |tail| ==> first <= tail[j].pointIndex
  {
    forall j | 0 <= j < |tail| ensures first <= tail[j].pointIndex {
      assert tail[j] in multiset(tail);
      if tail[j] != s {
        assert tail[j] in multiset(rest);
        assert tail[j] in rest;
        var k :| 0 <= k < |rest| && rest[k] == tail[j];
      }
    }
  }

  /** Stable insertion of one sample into a run sorted by point_index. */
  function InsertByIndex(s: PointSample, run: seq<PointSample>): (res: seq<PointSample>)
    requires IndexOrdered(run)
    ensures IndexOrdered(res)
    ensures multiset(res) == multiset(run) + multiset{s}
  {
    if run == [] then [s]
    else if s.pointIndex <= run[0].pointIndex then
      ConsIndexOrdered(s, run);
      [s] + run
    else
      var rest := run[1..];
      var tail := InsertByIndex(s, rest);
      assert forall j :: 0 <= j < |rest| ==> run[0].pointIndex <= rest[j].pointIndex by {
        forall j | 0 <= j < |rest| ensures run[0].pointIndex <= rest[j].pointIndex {
          assert rest[j] == run[j + 1];
        }
      }
      IndexBelowInserted(run[0].pointIndex, s, rest, tail);
      ConsIndexOrdered(run[0], tail);
      assert run == [run[0]] + rest;
      [run[0]] + tail
  }

  predicate IndexOrdered(run: seq<PointSample>) {
    forall i, j :: 0 <= i < j < |run| ==> run[i].pointIndex <= run[j].pointIndex
  }

  /** ORDER BY point_index: the order in which LAG sees the selected samples. */
  function OrderByIndex(run: seq<PointSample>): (res: seq<PointSample>)
    ensures IndexOrdered(res)
    ensures multiset(res) == multiset(run)
  {
    if run == [] then []
    else
      assert run == [run[0]] + run[1..];
      InsertByIndex(run[0], OrderByIndex(run[1..]))
  }

  function HeartRates(run: seq<PointSample>): (hrs: seq<Option<real>>)
    ensures |hrs| == |run|
    ensures forall i :: 0 <= i < |run| ==> hrs[i] == (if run[i].heartrate.Some? then Some(run[i].heartrate.value as real) else None)
  {
    if run == [] then []
    else [if run[0].heartrate.Some? then Some(run[0].heartrate.value as real) else None] + HeartRates(run[1..])
  }

  function Speeds(run: seq<PointSample>): (sps: seq<Option<real>>)
    ensures |sps| == |run|
    ensures forall i :: 0 <= i < |run| ==> sps[i] == run[i].speed
  {
    if run == [] then [] else [run[0].speed] + Speeds(run[1..])
  }

  datatype ActivitySegmentMetrics = ActivitySegmentMetrics(avgHr: real, avgSpeed: real, distance: real, elevationGain: real)

  /** The aggregates over one run of samples: AVG heart rate and speed, summed hops, summed rises, each defaulting to 0. */
  function MetricsOf(g: Geodesy, run: seq<PointSample>): (m: ActivitySegmentMetrics)
    ensures m.elevationGain >= 0.0
    ensures |run| < 2 ==> m.distance == 0.0 && m.elevationGain == 0.0
    ensures (forall i :: 0 <= i < |run| ==> run[i].heartrate.None?) ==> m.avgHr == 0.0
    ensures (forall i :: 0 <= i < |run| ==> run[i].speed.None?) ==> m.avgSpeed == 0.0
  {
    AbsentAveragesAreNone(run);
    ActivitySegmentMetrics(
      Average(HeartRates(run)).GetOr(0.0),
      Average(Speeds(run)).GetOr(0.0),
      PathLength(g, Locations(run)),
      PositiveGain(Altitudes(run)))
  }

  /** AVG over a column with no value is NULL, for the heart-rate and the speed column. */
  lemma AbsentAveragesAreNone(run: seq<PointSample>)
    ensures (forall i :: 0 <= i < |run| ==> run[i].heartrate.None?) ==> Average(HeartRates(run)).None?
    ensures (forall i :: 0 <= i < |run| ==> run[i].speed.None?) ==> Average(Speeds(run)).None?
  {
    var hrs, sps := HeartRates(run), Speeds(run);
    if forall i :: 0 <= i < |run| ==> run[i].heartrate.None? {
      assert forall i :: 0 <= i < |hrs| ==> hrs[i].None?;
    }
    if forall i :: 0 <= i < |run| ==> run[i].speed.None? {
      assert forall i :: 0 <= i < |sps| ==> sps[i].None?;
    }
  }

  /** The samples `get_activity_segment_metrics` aggregates, in the order LAG sees them. */
  function SegmentRun(g: Geodesy, segment: Option<Line>, tol: real, activityId: int, athleteId: int,
                      rows: seq<PointSample>): (run: seq<PointSample>)
    ensures IndexOrdered(run)
    ensures forall s :: s in run <==> segment.Some? && s in rows && OnSegment(g, segment.value, tol, activityId, athleteId, s)
  {
    if segment.None? then []
    else
      var sel := SelectOnSegment(g, segment.value, tol, activityId, athleteId, rows);
      var run := OrderByIndex(sel);
      assert forall s :: s in run <==> s in sel by {
        forall s ensures s in run <==> s in sel {
          assert s in run <==> s in multiset(run);
          assert s in sel <==> s in multiset(sel);
        }
      }
      run
  }

  /**
   * get_activity_segment_metrics: aggregates over the samples on the segment, in point_index
   * order; LAG pairs each selected sample with the previous SELECTED one. Each value is
   * COALESCEd to 0. The resolved start/end indices play no part.
   */
  function GetActivitySegmentMetrics(g: Geodesy, segment: Option<Line>, tol: real, activityId: int, athleteId: int,
                                     rows: seq<PointSample>): (m: ActivitySegmentMetrics)
    ensures segment.None? ==> m == ActivitySegmentMetrics(0.0, 0.0, 0.0, 0.0)
    ensures m.elevationGain >= 0.0
    ensures segment.Some? && (forall s :: s in rows ==> !OnSegment(g, segment.value, tol, activityId, athleteId, s))
            ==> m == ActivitySegmentMetrics(0.0, 0.0, 0.0, 0.0)
  {
    var run := SegmentRun(g, segment, tol, activityId, athleteId, rows);
    assert run != [] ==> run[0] in run;
    MetricsOf(g, run)
  }

  /** The heart rates of a run all lie in [lo, hi] when its samples' do. */
  lemma HeartRatesWithin(run: seq<PointSample>, lo: int, hi: int)
    requires forall s :: s in run && s.heartrate.Some? ==> lo <= s.heartrate.value <= hi
    ensures forall i :: 0 <= i < |HeartRates(run)| && HeartRates(run)[i].Some?
                        ==> lo as real <= HeartRates(run)[i].value <= hi as real
  {
    var hrs := HeartRates(run);
    forall i | 0 <= i < |hrs| && hrs[i].Some? ensures lo as real <= hrs[i].value <= hi as real {
      assert run[i] in run;
    }
  }

  /** The average heart rate of a run: 0 with no heart rate, otherwise within the samples' bounds. */
  lemma AverageHeartRateBounds(run: seq<PointSample>, lo: int, hi: int)
    requires forall s :: s in run && s.heartrate.Some? ==> lo <= s.heartrate.value <= hi
    ensures (forall s :: s in run ==> s.heartrate.None?) ==> Average(HeartRates(run)).GetOr(0.0) == 0.0
    ensures (exists s :: s in run && s.heartrate.Some?) ==> lo as real <= Average(HeartRates(run)).GetOr(0.0) <= hi as real
  {
    var hrs := HeartRates(run);
    if exists s :: s in run && s.heartrate.Some? {
      var s :| s in run && s.heartrate.Some?;
      var i :| 0 <= i < |run| && run[i] == s;
      assert hrs[i].Some?;
      HeartRatesWithin(run, lo, hi);
      AverageWithinBounds(hrs, lo as real, hi as real);
    } else {
      forall i | 0 <= i < |hrs| ensures hrs[i].None? {
        assert run[i] in run;
      }
    }
  }

  /** Bounds of the aggregates over any run. */
  lemma MetricsOfBounds(g: Geodesy, run: seq<PointSample>, lo: int, hi: int)
    requires NonNegative(g)
    requires forall s :: s in run && s.heartrate.Some? ==> lo <= s.heartrate.value <= hi
    ensures MetricsOf(g, run).distance >= 0.0 && MetricsOf(g, run).elevationGain >= 0.0
    ensures (forall s :: s in run ==> s.heartrate.None?) ==> MetricsOf(g, run).avgHr == 0.0
    ensures (exists s :: s in run && s.heartrate.Some?) ==> lo as real <= MetricsOf(g, run).avgHr <= hi as real
  {
    PathLengthNonNegative(g, Locations(run));
    AverageHeartRateBounds(run, lo, hi);
  }

  /**
   * The metrics are never negative, and the average heart rate is 0 when no selected sample
   * carries one and otherwise lies between the smallest and largest heart rate on the segment.
   */
  lemma ActivitySegmentMetricsBounds(g: Geodesy, line: Line, tol: real, activityId: int, athleteId: int,
                                     rows: seq<PointSample>, lo: int, hi: int)
    requires NonNegative(g)
    requires forall s :: s in rows && OnSegment(g, line, tol, activityId, athleteId, s) && s.heartrate.Some?
                         ==> lo <= s.heartrate.value <= hi
    ensures GetActivitySegmentMetrics(g, Some(line), tol, activityId, athleteId, rows).distance >= 0.0
    ensures GetActivitySegmentMetrics(g, Some(line), tol, activityId, athleteId, rows).elevationGain >= 0.0
    ensures (forall s :: s in rows && OnSegment(g, line, tol, activityId, athleteId, s) ==> s.heartrate.None?)
            ==> GetActivitySegmentMetrics(g, Some(line), tol, activityId, athleteId, rows).avgHr == 0.0
    ensures (exists s :: s in rows && OnSegment(g, line, tol, activityId, athleteId, s) && s.heartrate.Some?)
            ==> lo as real <= GetActivitySegmentMetrics(g, Some(line), tol, activityId, athleteId, rows).avgHr <= hi as real
  {
    var run := SegmentRun(g, Some(line), tol, activityId, athleteId, rows);
    MetricsOfBounds(g, run, lo, hi);
  }

  lemma HeartRatesAppend(a: seq<PointSample>, b: seq<PointSample>)
    ensures HeartRates(a + b) == HeartRates(a) + HeartRates(b)
  {
    var l, r := HeartRates(a + b), HeartRates(a) + HeartRates(b);
    assert |l| == |r|;
    forall i | 0 <= i < |l| ensures l[i] == r[i] {
      if i < |a| { assert (a + b)[i] == a[i]; } else { assert (a + b)[i] == b[i - |a|]; }
    }
  }

  /** A sample missing its heart rate does not pull the segment's average heart rate down. */
  lemma MissingHeartRateIgnored(g: Geodesy, a: seq<PointSample>, s: PointSample, b: seq<PointSample>)
    requires s.heartrate.None?
    ensures MetricsOf(g, a + [s] + b).avgHr == MetricsOf(g, a + b).avgHr
  {
    var none: seq<Option<real>> := [None];
    HeartRatesAppend(a + [s], b);
    HeartRatesAppend(a, [s]);
    HeartRatesAppend(a, b);
    assert HeartRates([s]) == none;
    AverageIgnoresAbsent(HeartRates(a), HeartRates(b));
  }

  // ---------------------------------------------------------------------------
  // get_segment_metrics

  datatype SegmentMetrics = SegmentMetrics(distance: real, elevationGain: real)

  /** The segment's own length and its stored climb (0 when none was stored); no row when the segment is missing. */
  function GetSegmentMetrics(g: Geodesy, segment: Option<SegmentRow>): (m: Option<SegmentMetrics>)
    ensures m.Some? <==> segment.Some?
    ensures m.Some? ==> m.value.distance == g.length(segment.value.line)
    ensures m.Some? && segment.value.elevationGain.None? ==> m.value.elevationGain == 0.0
  {
    if segment.None? then None
    else Some(SegmentMetrics(g.length(segment.value.line), segment.value.elevationGain.GetOr(0.0)))
  }
}
