/**
 * Storing a fetched activity: the summary row, the route geometry (through the
 * make_route_geog_from_lonlat helper, or a WKT fallback when the helper fails) and one
 * point sample per time-stream position that has a location, with the running haversine
 * distance. The database is a value `Db` of three tables; `ActivityStore` holds it as
 * fields that its methods update. Statement failures are given as `Faults`.
 */
module Ingest {
  import opened Wrappers
  import opened Geo
  import opened Samples
  import opened Streams
  import opened Matching

  // ---------------------------------------------------------------------------
  // Point samples built from the streams

  /** The i-th value of an optional stream: present exactly when the stream is long enough. */
  function At<T>(s: seq<T>, i: int): Option<T> {
    if 0 <= i < |s| then Some(s[i]) else None
  }

  /** Position i has a location: the latlng stream reaches it and holds at least two values there. */
  predicate Located(ss: StreamSet, i: int) {
    0 <= i < |ss.latlng| && |ss.latlng[i]| >= 2
  }

  function PositionAt(ss: StreamSet, i: int): LatLng
    requires Located(ss, i)
  {
    LatLng(ss.latlng[i][0], ss.latlng[i][1])
  }

  /** The locations of the located positions before n, in stream order. */
  function Track(ss: StreamSet, n: nat): seq<LatLng> {
    if n == 0 then []
    else Track(ss, n - 1) + (if Located(ss, n - 1) then [PositionAt(ss, n - 1)] else [])
  }

  function Hop(g: Geodesy, a: LatLng, b: LatLng): real {
    g.haversine(a.lat, a.lng, b.lat, b.lng)
  }

  /** Sum of the haversine distances between consecutive points. */
  function HaversinePath(g: Geodesy, pts: seq<LatLng>): real {
    if |pts| < 2 then 0.0
    else HaversinePath(g, pts[..|pts| - 1]) + Hop(g, pts[|pts| - 2], pts[|pts| - 1])
  }

  /** The row stored for located position i. */
  function SampleAt(g: Geodesy, a: ActivitySummary, ss: StreamSet, i: nat): PointSample
    requires i < |ss.time| && Located(ss, i)
  {
    PointSample(a.id, a.athleteId, i, ss.time[i], PositionAt(ss, i),
      At(ss.altitude, i), At(ss.heartrate, i), At(ss.speed, i), At(ss.watts, i),
      At(ss.cadence, i), At(ss.grade, i), At(ss.moving, i),
      Some(HaversinePath(g, Track(ss, i + 1))))
  }

  /** The rows stored for the time-stream positions before n; positions without a location are skipped. */
  function SampleRows(g: Geodesy, a: ActivitySummary, ss: StreamSet, n: nat): (rows: seq<PointSample>)
    requires n <= |ss.time|
    ensures forall k :: 0 <= k < |rows| ==> 0 <= rows[k].pointIndex < n && Located(ss, rows[k].pointIndex)
  {
    if n == 0 then []
    else SampleRows(g, a, ss, n - 1) + (if Located(ss, n - 1) then [SampleAt(g, a, ss, n - 1)] else [])
  }

  /** Each row is the row of the located position it records. */
  lemma {:induction false} SampleRowsAreRows(g: Geodesy, a: ActivitySummary, ss: StreamSet, n: nat)
    requires n <= |ss.time|
    ensures forall k :: 0 <= k < |SampleRows(g, a, ss, n)| ==>
      SampleRows(g, a, ss, n)[k] == SampleAt(g, a, ss, SampleRows(g, a, ss, n)[k].pointIndex)
  {
    if n > 0 {
      SampleRowsAreRows(g, a, ss, n - 1);
      var prev := SampleRows(g, a, ss, n - 1);
      var rows := SampleRows(g, a, ss, n);
      forall k | 0 <= k < |rows|
        ensures rows[k] == SampleAt(g, a, ss, rows[k].pointIndex)
      {
        if k < |prev| {
          assert rows[k] == prev[k];
        } else {
          assert rows == prev + [SampleAt(g, a, ss, n - 1)];
        }
      }
    }
  }

  /** The rows up to n + 1 are the rows up to n, then the row of position n when it has a location. */
  lemma SampleRowsStep(g: Geodesy, a: ActivitySummary, ss: StreamSet, n: nat)
    requires n < |ss.time|
    ensures Located(ss, n) ==> SampleRows(g, a, ss, n + 1) == SampleRows(g, a, ss, n) + [SampleAt(g, a, ss, n)]
    ensures !Located(ss, n) ==> SampleRows(g, a, ss, n + 1) == SampleRows(g, a, ss, n)
  {
  }

  /** Point indices strictly increase. */
  lemma {:induction false} SampleRowsIncreasing(g: Geodesy, a: ActivitySummary, ss: StreamSet, n: nat)
    requires n <= |ss.time|
    ensures forall j, k :: 0 <= j < k < |SampleRows(g, a, ss, n)| ==>
      SampleRows(g, a, ss, n)[j].pointIndex < SampleRows(g, a, ss, n)[k].pointIndex
  {
    if n > 0 {
      SampleRowsIncreasing(g, a, ss, n - 1);
      SampleRowsStep(g, a, ss, n - 1);
      var prev := SampleRows(g, a, ss, n - 1);
      var rows := SampleRows(g, a, ss, n);
      forall j, k | 0 <= j < k < |rows|
        ensures rows[j].pointIndex < rows[k].pointIndex
      {
        assert rows[j] == prev[j];
        if k < |prev| {
          assert rows[k] == prev[k];
        } else {
          assert rows[k].pointIndex == n - 1;
        }
      }
    }
  }

  /** No located position before n is skipped. */
  lemma {:induction false} SampleRowsCover(g: Geodesy, a: ActivitySummary, ss: StreamSet, n: nat)
    requires n <= |ss.time|
    ensures forall i :: 0 <= i < n && Located(ss, i) ==>
      exists k :: 0 <= k < |SampleRows(g, a, ss, n)| && SampleRows(g, a, ss, n)[k].pointIndex == i
  {
    if n > 0 {
      SampleRowsCover(g, a, ss, n - 1);
      SampleRowsStep(g, a, ss, n - 1);
      var prev := SampleRows(g, a, ss, n - 1);
      var rows := SampleRows(g, a, ss, n);
      forall i | 0 <= i < n && Located(ss, i)
        ensures exists k :: 0 <= k < |rows| && rows[k].pointIndex == i
      {
        if i == n - 1 {
          assert rows[|prev|].pointIndex == i;
        } else {
          var k :| 0 <= k < |prev| && prev[k].pointIndex == i;
          assert rows[k] == prev[k];
        }
      }
    }
  }

  /** Point indices strictly increase, and no located position before n is skipped. */
  lemma SampleRowsIndexed(g: Geodesy, a: ActivitySummary, ss: StreamSet, n: nat)
    requires n <= |ss.time|
    ensures var rows := SampleRows(g, a, ss, n);
      && (forall j, k :: 0 <= j < k < |rows| ==> rows[j].pointIndex < rows[k].pointIndex)
      && (forall i :: 0 <= i < n && Located(ss, i) ==> exists k :: 0 <= k < |rows| && rows[k].pointIndex == i)
  {
    SampleRowsIncreasing(g, a, ss, n);
    SampleRowsCover(g, a, ss, n);
  }

  /** The sensor columns of a row are present exactly when their stream reaches the row's position. */
  lemma SensorColumnsPresentIff(g: Geodesy, a: ActivitySummary, ss: StreamSet, k: nat)
    requires k < |SampleRows(g, a, ss, |ss.time|)|
    ensures var r := SampleRows(g, a, ss, |ss.time|)[k];
      && r.activityId == a.id && r.athleteId == a.athleteId && r.time == ss.time[r.pointIndex]
      && r.location == LatLng(ss.latlng[r.pointIndex][0], ss.latlng[r.pointIndex][1])
      && (r.altitude.Some? <==> r.pointIndex < |ss.altitude|)
      && (r.heartrate.Some? <==> r.pointIndex < |ss.heartrate|)
      && (r.heartrate.Some? ==> r.heartrate.value == ss.heartrate[r.pointIndex])
      && (r.speed.Some? <==> r.pointIndex < |ss.speed|)
      && (r.watts.Some? <==> r.pointIndex < |ss.watts|)
      && (r.cadence.Some? <==> r.pointIndex < |ss.cadence|)
      && (r.grade.Some? <==> r.pointIndex < |ss.grade|)
      && (r.moving.Some? <==> r.pointIndex < |ss.moving|)
  {
    SampleRowsAreRows(g, a, ss, |ss.time|);
  }

  lemma {:induction false} TrackIsLocations(g: Geodesy, a: ActivitySummary, ss: StreamSet, n: nat)
    requires n <= |ss.time|
    ensures Track(ss, n) == Locations(SampleRows(g, a, ss, n))
  {
    if n > 0 {
      TrackIsLocations(g, a, ss, n - 1);
      var prev := SampleRows(g, a, ss, n - 1);
      if Located(ss, n - 1) {
        var row := SampleAt(g, a, ss, n - 1);
        var rows := prev + [row];
        assert SampleRows(g, a, ss, n) == rows;
        assert rows[..|rows| - 1] == prev;
        assert Locations(rows) == Locations(prev) + [row.location];
        assert Track(ss, n) == Track(ss, n - 1) + [PositionAt(ss, n - 1)];
      } else {
        assert SampleRows(g, a, ss, n) == prev;
        assert Track(ss, n) == Track(ss, n - 1);
      }
    }
  }

  /**
   * The cumulative distance of a row is the haversine length of the path through the
   * locations of all rows up to and including it.
   */
  lemma {:induction false} CumulativeIsDistanceSoFar(g: Geodesy, a: ActivitySummary, ss: StreamSet, n: nat)
    requires n <= |ss.time|
    ensures forall k :: 0 <= k < |SampleRows(g, a, ss, n)| ==>
      SampleRows(g, a, ss, n)[k].cumulativeDistance == Some(HaversinePath(g, Locations(SampleRows(g, a, ss, n)[..k + 1])))
  {
    if n > 0 {
      CumulativeIsDistanceSoFar(g, a, ss, n - 1);
      var prev := SampleRows(g, a, ss, n - 1);
      var rows := SampleRows(g, a, ss, n);
      forall k | 0 <= k < |rows|
        ensures rows[k].cumulativeDistance == Some(HaversinePath(g, Locations(rows[..k + 1])))
      {
        if k < |prev| {
          assert rows[k] == prev[k];
          assert rows[..k + 1] == prev[..k + 1];
        } else {
          assert rows == prev + [SampleAt(g, a, ss, n - 1)];
          assert rows[..k + 1] == rows;
          TrackIsLocations(g, a, ss, n);
        }
      }
    }
  }

  lemma {:induction false} HaversinePathPrefix(g: Geodesy, pts: seq<LatLng>, m: nat)
    requires NonNegative(g) && m <= |pts|
    ensures HaversinePath(g, pts[..m]) <= HaversinePath(g, pts)
  {
    if m == |pts| {
      assert pts[..m] == pts;
    } else if |pts| >= 2 {
      var init := pts[..|pts| - 1];
      HaversinePathPrefix(g, init, m);
      assert init[..m] == pts[..m];
      assert Hop(g, pts[|pts| - 2], pts[|pts| - 1]) >= 0.0;
    }
  }

  /** Every row carries a cumulative distance, and it never decreases along the rows. */
  predicate DistancesNonDecreasing(rows: seq<PointSample>) {
    && (forall k :: 0 <= k < |rows| ==> rows[k].cumulativeDistance.Some?)
    && (forall j, k :: 0 <= j < k < |rows| ==> rows[j].cumulativeDistance.value <= rows[k].cumulativeDistance.value)
  }

  lemma PathSoFarGrows(g: Geodesy, rows: seq<PointSample>, j: nat, k: nat)
    requires NonNegative(g) && j < k < |rows|
    ensures HaversinePath(g, Locations(rows[..j + 1])) <= HaversinePath(g, Locations(rows[..k + 1]))
  {
    var longer := Locations(rows[..k + 1]);
    assert longer[..j + 1] == Locations(rows[..j + 1]);
    HaversinePathPrefix(g, longer, j + 1);
  }

  /** With non-negative haversine distances, the cumulative distance starts at 0 and never decreases. */
  lemma CumulativeNonDecreasing(g: Geodesy, a: ActivitySummary, ss: StreamSet)
    requires NonNegative(g)
    ensures DistancesNonDecreasing(SampleRows(g, a, ss, |ss.time|))
    ensures |SampleRows(g, a, ss, |ss.time|)| > 0 ==> SampleRows(g, a, ss, |ss.time|)[0].cumulativeDistance == Some(0.0)
  {
    var rows := SampleRows(g, a, ss, |ss.time|);
    CumulativeIsDistanceSoFar(g, a, ss, |ss.time|);
    forall j, k | 0 <= j < k < |rows|
      ensures rows[j].cumulativeDistance.value <= rows[k].cumulativeDistance.value
    {
      PathSoFarGrows(g, rows, j, k);
    }
  }

  /** Appending a point adds the hop from the previous last point, if there was one. */
  lemma PathExtend(g: Geodesy, track: seq<LatLng>, p: LatLng)
    ensures HaversinePath(g, track + [p])
            == HaversinePath(g, track) + (if |track| == 0 then 0.0 else Hop(g, track[|track| - 1], p))
  {
    var next := track + [p];
    assert next[..|next| - 1] == track;
  }

  /**
   * The sample loop of InsertPointSamples and ReplacePointSamples: one pass over the time
   * stream carrying the previous location and the running distance.
   */
  method BuildSamples(g: Geodesy, a: ActivitySummary, ss: StreamSet) returns (rows: seq<PointSample>)
    ensures rows == SampleRows(g, a, ss, |ss.time|)
  {
    rows := [];
    var cumulative := 0.0;
    var prevLat, prevLng := 0.0, 0.0;
    var hasPrev := false;
    var i := 0;
    while i < |ss.time|
      invariant 0 <= i <= |ss.time|
      invariant rows == SampleRows(g, a, ss, i)
      invariant hasPrev <==> Track(ss, i) != []
      invariant hasPrev ==> Track(ss, i)[|Track(ss, i)| - 1] == LatLng(prevLat, prevLng)
      invariant cumulative == HaversinePath(g, Track(ss, i))
    {
      ghost var track := Track(ss, i);
      if i < |ss.latlng| && |ss.latlng[i]| >= 2 {
        var lat, lng := ss.latlng[i][0], ss.latlng[i][1];
        assert Track(ss, i + 1) == track + [LatLng(lat, lng)];
        PathExtend(g, track, LatLng(lat, lng));
        if hasPrev {
          cumulative := cumulative + g.haversine(prevLat, prevLng, lat, lng);
        }
        assert cumulative == HaversinePath(g, Track(ss, i + 1));
        prevLat, prevLng, hasPrev := lat, lng, true;
        rows := rows + [PointSample(a.id, a.athleteId, i, ss.time[i], LatLng(lat, lng),
          At(ss.altitude, i), At(ss.heartrate, i), At(ss.speed, i), At(ss.watts, i),
          At(ss.cadence, i), At(ss.grade, i), At(ss.moving, i), Some(cumulative))];
      } else {
        assert Track(ss, i + 1) == track;
      }
      i := i + 1;
    }
  }

  // ---------------------------------------------------------------------------
  // Route geometry

  /** Every point has at least the two values [lat, lng] that the split loop indexes. */
  predicate AllPairs(points: seq<seq<real>>) {
    forall i :: 0 <= i < |points| ==> |points[i]| >= 2
  }

  /** The route the [lat, lng] points describe. */
  function Route(points: seq<seq<real>>): (r: Line)
    requires AllPairs(points)
    ensures |r| == |points|
  {
    seq(|points|, i requires 0 <= i < |points| => LatLng(points[i][0], points[i][1]))
  }

  /** make_route_geog_from_lonlat(lons, lats): vertex i is (lons[i], lats[i]). */
  function RouteFromLonLat(lons: seq<real>, lats: seq<real>): (r: Line)
    requires |lons| == |lats|
    ensures |r| == |lons|
  {
    seq(|lons|, i requires 0 <= i < |lons| => LatLng(lats[i], lons[i]))
  }

  /**
   * The split loop: lons[i] = point[1], lats[i] = point[0]. A point with fewer than two
   * values makes the indexing panic (ok = false); otherwise the two arrays rebuild the route.
   */
  method SplitLatLng(points: seq<seq<real>>) returns (lons: seq<real>, lats: seq<real>, ok: bool)
    ensures ok <==> AllPairs(points)
    ensures ok ==> |lons| == |points| && |lats| == |points|
    ensures ok ==> forall i :: 0 <= i < |points| ==> lons[i] == points[i][1] && lats[i] == points[i][0]
    ensures ok ==> RouteFromLonLat(lons, lats) == Route(points)
  {
    var lonArr := new real[|points|];
    var latArr := new real[|points|];
    var i := 0;
    while i < |points|
      invariant 0 <= i <= |points|
      invariant forall j :: 0 <= j < i ==> |points[j]| >= 2 && lonArr[j] == points[j][1] && latArr[j] == points[j][0]
    {
      if |points[i]| < 2 {
        return [], [], false;
      }
      lonArr[i] := points[i][1];
      latArr[i] := points[i][0];
      i := i + 1;
    }
    lons, lats, ok := lonArr[..], latArr[..], true;
  }

  /** One "x y" pair of a WKT LINESTRING; WKT puts the longitude first. */
  datatype WktPoint = WktPoint(x: real, y: real)

  /** ST_GeogFromText of a LINESTRING: x is read as longitude, y as latitude. */
  function WktRoute(pts: seq<WktPoint>): (r: Line)
    ensures |r| == |pts|
  {
    seq(|pts|, i requires 0 <= i < |pts| => LatLng(pts[i].y, pts[i].x))
  }

  /** The fallback LINESTRING as the source formats it: coord[0] then coord[1], i.e. latitude first. */
  function FallbackWktAsWritten(points: seq<seq<real>>): (w: seq<WktPoint>)
    requires AllPairs(points)
    ensures |w| == |points|
  {
    seq(|points|, i requires 0 <= i < |points| => WktPoint(points[i][0], points[i][1]))
  }

  /** The as-written fallback stores every vertex with latitude and longitude exchanged. */
  lemma FallbackAsWrittenSwapsCoordinates(points: seq<seq<real>>)
    requires AllPairs(points)
    ensures forall i :: 0 <= i < |points| ==>
      WktRoute(FallbackWktAsWritten(points))[i] == LatLng(points[i][1], points[i][0])
  {
  }

  /** Two points are enough to show that the as-written fallback stores a different route than the helper. */
  lemma FallbackAsWrittenMisplacesRoute()
    ensures var pts := [[1.0, 2.0], [3.0, 4.0]];
      AllPairs(pts) && WktRoute(FallbackWktAsWritten(pts)) != Route(pts)
  {
    var pts := [[1.0, 2.0], [3.0, 4.0]];
    assert WktRoute(FallbackWktAsWritten(pts))[0] == LatLng(2.0, 1.0);
    assert Route(pts)[0] == LatLng(1.0, 2.0);
  }

  /** The fallback LINESTRING written longitude first, as WKT requires. */
  function FallbackWkt(points: seq<seq<real>>): (w: seq<WktPoint>)
    requires AllPairs(points)
    ensures |w| == |points|
  {
    seq(|points|, i requires 0 <= i < |points| => WktPoint(points[i][1], points[i][0]))
  }

  /** With longitude first, the fallback stores exactly the route the helper would have stored. */
  lemma FallbackMatchesHelper(points: seq<seq<real>>, lons: seq<real>, lats: seq<real>)
    requires AllPairs(points) && |lons| == |points| && |lats| == |points|
    requires forall i :: 0 <= i < |points| ==> lons[i] == points[i][1] && lats[i] == points[i][0]
    ensures WktRoute(FallbackWkt(points)) == RouteFromLonLat(lons, lats) == Route(points)
  {
  }

  /**
   * The route a successful geometry write stores: the helper's when its INSERT succeeds,
   * otherwise the fallback's as the source writes it, each vertex with its two coordinates exchanged.
   */
  function StoredRoute(points: seq<seq<real>>, helperFails: bool): (r: Line)
    requires AllPairs(points)
    ensures !helperFails ==> r == Route(points)
    ensures |r| == |points|
    ensures helperFails ==> forall i :: 0 <= i < |points| ==> r[i] == LatLng(points[i][1], points[i][0])
  {
    if helperFails then WktRoute(FallbackWktAsWritten(points)) else Route(points)
  }

  // ---------------------------------------------------------------------------
  // The three tables and the operations on them

  datatype Db = Db(
    summaries: map<int, ActivitySummary>,
    geometries: map<int, RouteGeometry>,
    samples: seq<PointSample>)

  /**
   * Which statements fail: the ActivityExists query of the plain summary, geometry and sample
   * inserts, the summary INSERT, the helper-based geometry INSERT, its WKT fallback, the sample
   * transaction.
   */
  datatype Faults = Faults(summaryCheckFails: bool, summaryFails: bool, geometryCheckFails: bool, helperFails: bool,
                           fallbackFails: bool, samplesCheckFails: bool, txFails: bool)

  const NoFaults := Faults(false, false, false, false, false, false, false)

  datatype IngestError =
    | AlreadyExists(id: int)
    | NoSuchActivity(id: int)
    | TooFewPoints
    | NoTimeStream
    | IndexPanic
    | DbFailure
    | ExistsCheckFailed

  /** The foreign and primary keys: geometries and samples belong to stored summaries; one geometry per activity. */
  ghost predicate Consistent(db: Db) {
    && (forall k :: k in db.geometries ==> k in db.summaries && db.geometries[k].activityId == k)
    && (forall s :: s in db.samples ==> s.activityId in db.summaries)
  }

  /** InsertActivitySummary: a failing existence check is an error, and an existing id is refused. */
  function SummaryInserted(db: Db, a: ActivitySummary, checkFails: bool, fails: bool): (Db, Option<IngestError>) {
    if checkFails then (db, Some(ExistsCheckFailed))
    else if a.id in db.summaries then (db, Some(AlreadyExists(a.id)))
    else if fails then (db, Some(DbFailure))
    else (db.(summaries := db.summaries[a.id := a]), None)
  }

  /** InsertActivitySummaryUpsert: ON CONFLICT (id) DO UPDATE. */
  function SummaryUpserted(db: Db, a: ActivitySummary, fails: bool): (Db, Option<IngestError>) {
    if fails then (db, Some(DbFailure)) else (db.(summaries := db.summaries[a.id := a]), None)
  }

  /**
   * InsertActivityGeometry (upsert = false) and InsertActivityGeometryUpsert (upsert = true).
   * Only the plain insert checks that the summary exists; a key conflict (plain insert) or a
   * missing summary (upsert, foreign key) makes both the helper INSERT and the fallback fail.
   */
  function GeometryStored(db: Db, athleteId: int, activityId: int, points: seq<seq<real>>, f: Faults, upsert: bool)
    : (Db, Option<IngestError>)
  {
    if !upsert && f.geometryCheckFails then (db, Some(ExistsCheckFailed))
    else if !upsert && activityId !in db.summaries then (db, Some(NoSuchActivity(activityId)))
    else if |points| < 2 then (db, Some(TooFewPoints))
    else if !AllPairs(points) then (db, Some(IndexPanic))
    else if (!upsert && activityId in db.geometries) || activityId !in db.summaries then (db, Some(DbFailure))
    else if f.helperFails && f.fallbackFails then (db, Some(DbFailure))
    else (db.(geometries := db.geometries[activityId := RouteGeometry(activityId, athleteId, StoredRoute(points, f.helperFails))]), None)
  }

  /** The stored samples of other activities, in order (DELETE FROM point_samples WHERE activity_id = id keeps these). */
  function OtherActivities(rows: seq<PointSample>, id: int): (r: seq<PointSample>)
    ensures forall s :: s in r <==> s in rows && s.activityId != id
  {
    if rows == [] then []
    else (if rows[0].activityId != id then [rows[0]] else []) + OtherActivities(rows[1..], id)
  }

  /** The stored samples of activity id, in order. */
  function SamplesFor(rows: seq<PointSample>, id: int): (r: seq<PointSample>)
    ensures forall s :: s in r <==> s in rows && s.activityId == id
  {
    if rows == [] then []
    else (if rows[0].activityId == id then [rows[0]] else []) + SamplesFor(rows[1..], id)
  }

  /** InsertPointSamples: the existence check first, then all rows in one transaction, or none. */
  function SamplesInserted(db: Db, g: Geodesy, a: ActivitySummary, ss: StreamSet, checkFails: bool, txFails: bool)
    : (Db, Option<IngestError>)
  {
    if checkFails then (db, Some(ExistsCheckFailed))
    else if a.id !in db.summaries then (db, Some(NoSuchActivity(a.id)))
    else if |ss.time| == 0 then (db, Some(NoTimeStream))
    else if txFails then (db, Some(DbFailure))
    else (db.(samples := db.samples + SampleRows(g, a, ss, |ss.time|)), None)
  }

  /**
   * ReplacePointSamples: delete the activity's rows and insert the new ones in one
   * transaction. There is no existence check: a row for a missing summary violates the
   * foreign key and rolls the whole transaction back.
   */
  function SamplesReplaced(db: Db, g: Geodesy, a: ActivitySummary, ss: StreamSet, txFails: bool)
    : (Db, Option<IngestError>)
  {
    var rows := SampleRows(g, a, ss, |ss.time|);
    if |ss.time| == 0 then (db, Some(NoTimeStream))
    else if txFails || (rows != [] && a.id !in db.summaries) then (db, Some(DbFailure))
    else (db.(samples := OtherActivities(db.samples, a.id) + rows), None)
  }

  /** InsertBikeActivity: summary, then the geometry when there is a latlng stream, then the samples; the first error stops it. */
  function BikeActivityInserted(db: Db, g: Geodesy, a: ActivitySummary, ss: StreamSet, f: Faults)
    : (Db, Option<IngestError>)
  {
    var s := SummaryInserted(db, a, f.summaryCheckFails, f.summaryFails);
    if s.1.Some? then s
    else
      var geo := if |ss.latlng| > 0 then GeometryStored(s.0, a.athleteId, a.id, ss.latlng, f, false) else (s.0, None);
      if geo.1.Some? then geo
      else SamplesInserted(geo.0, g, a, ss, f.samplesCheckFails, f.txFails)
  }

  /** InsertBikeActivityUpsert: the same three steps with their overwriting variants. */
  function BikeActivityUpserted(db: Db, g: Geodesy, a: ActivitySummary, ss: StreamSet, f: Faults)
    : (Db, Option<IngestError>)
  {
    var s := SummaryUpserted(db, a, f.summaryFails);
    if s.1.Some? then s
    else
      var geo := if |ss.latlng| > 0 then GeometryStored(s.0, a.athleteId, a.id, ss.latlng, f, true) else (s.0, None);
      if geo.1.Some? then geo
      else SamplesReplaced(geo.0, g, a, ss, f.txFails)
  }

  // ---------------------------------------------------------------------------
  // Properties of the operations

  lemma SampleRowsBelongTo(g: Geodesy, a: ActivitySummary, ss: StreamSet)
    ensures forall s :: s in SampleRows(g, a, ss, |ss.time|) ==> s.activityId == a.id
  {
    SampleRowsAreRows(g, a, ss, |ss.time|);
  }

  /** Storing a route keeps the keys: it is written only under a stored summary, keyed by its activity. */
  lemma GeometryKeepsKeys(db: Db, athleteId: int, activityId: int, points: seq<seq<real>>, f: Faults, upsert: bool)
    requires Consistent(db)
    ensures Consistent(GeometryStored(db, athleteId, activityId, points, f, upsert).0)
  {
  }

  /** Inserting or replacing the samples keeps the keys: every new row belongs to the activity, whose summary is stored. */
  lemma SamplesKeepKeys(db: Db, g: Geodesy, a: ActivitySummary, ss: StreamSet, checkFails: bool, txFails: bool)
    requires Consistent(db)
    ensures Consistent(SamplesInserted(db, g, a, ss, checkFails, txFails).0)
    ensures Consistent(SamplesReplaced(db, g, a, ss, txFails).0)
  {
    SampleRowsBelongTo(g, a, ss);
  }

  /** Both insert paths keep the keys consistent. */
  lemma OperationsKeepKeys(db: Db, g: Geodesy, a: ActivitySummary, ss: StreamSet, f: Faults)
    requires Consistent(db)
    ensures Consistent(BikeActivityInserted(db, g, a, ss, f).0)
    ensures Consistent(BikeActivityUpserted(db, g, a, ss, f).0)
  {
    var s := SummaryInserted(db, a, f.summaryCheckFails, f.summaryFails);
    if s.1.None? {
      GeometryKeepsKeys(s.0, a.athleteId, a.id, ss.latlng, f, false);
      var geo := if |ss.latlng| > 0 then GeometryStored(s.0, a.athleteId, a.id, ss.latlng, f, false) else (s.0, None);
      SamplesKeepKeys(geo.0, g, a, ss, f.samplesCheckFails, f.txFails);
    }
    var u := SummaryUpserted(db, a, f.summaryFails);
    if u.1.None? {
      GeometryKeepsKeys(u.0, a.athleteId, a.id, ss.latlng, f, true);
      var geo := if |ss.latlng| > 0 then GeometryStored(u.0, a.athleteId, a.id, ss.latlng, f, true) else (u.0, None);
      SamplesKeepKeys(geo.0, g, a, ss, f.samplesCheckFails, f.txFails);
    }
  }

  /** Inserting an activity whose summary is already stored is refused (or fails its check) and changes nothing. */
  lemma InsertExistingRejected(db: Db, g: Geodesy, a: ActivitySummary, ss: StreamSet, f: Faults)
    requires a.id in db.summaries
    ensures BikeActivityInserted(db, g, a, ss, f)
            == (db, Some(if f.summaryCheckFails then ExistsCheckFailed else AlreadyExists(a.id)))
  {
  }

  /** After a successful insert the summary is stored, so inserting the same activity again is refused. */
  lemma InsertTwiceRejected(db: Db, g: Geodesy, a: ActivitySummary, ss: StreamSet, f: Faults, f2: Faults)
    requires BikeActivityInserted(db, g, a, ss, f).1.None?
    ensures var once := BikeActivityInserted(db, g, a, ss, f).0;
      a.id in once.summaries
      && BikeActivityInserted(once, g, a, ss, f2)
         == (once, Some(if f2.summaryCheckFails then ExistsCheckFailed else AlreadyExists(a.id)))
  {
  }

  lemma {:induction false} OtherActivitiesAppend(x: seq<PointSample>, y: seq<PointSample>, id: int)
    ensures OtherActivities(x + y, id) == OtherActivities(x, id) + OtherActivities(y, id)
  {
    if x == [] {
      assert x + y == y;
    } else {
      var xy := x + y;
      assert xy[0] == x[0];
      assert xy[1..] == x[1..] + y;
      OtherActivitiesAppend(x[1..], y, id);
      var head := if x[0].activityId != id then [x[0]] else [];
      assert OtherActivities(xy, id) == head + OtherActivities(x[1..] + y, id);
    }
  }

  lemma {:induction false} SamplesForAppend(x: seq<PointSample>, y: seq<PointSample>, id: int)
    ensures SamplesFor(x + y, id) == SamplesFor(x, id) + SamplesFor(y, id)
  {
    if x == [] {
      assert x + y == y;
    } else {
      var xy := x + y;
      assert xy[0] == x[0];
      assert xy[1..] == x[1..] + y;
      SamplesForAppend(x[1..], y, id);
      var head := if x[0].activityId == id then [x[0]] else [];
      assert SamplesFor(xy, id) == head + SamplesFor(x[1..] + y, id);
    }
  }

  lemma {:induction false} FilterOwnRows(rows: seq<PointSample>, id: int)
    requires forall s :: s in rows ==> s.activityId == id
    ensures OtherActivities(rows, id) == [] && SamplesFor(rows, id) == rows
  {
    if rows != [] {
      assert rows[0] in rows;
      FilterOwnRows(rows[1..], id);
    }
  }

  lemma {:induction false} FilterOthersTwice(rows: seq<PointSample>, id: int)
    ensures OtherActivities(OtherActivities(rows, id), id) == OtherActivities(rows, id)
    ensures SamplesFor(OtherActivities(rows, id), id) == []
  {
    if rows != [] {
      FilterOthersTwice(rows[1..], id);
      var head := if rows[0].activityId != id then [rows[0]] else [];
      OtherActivitiesAppend(head, OtherActivities(rows[1..], id), id);
      SamplesForAppend(head, OtherActivities(rows[1..], id), id);
    }
  }

  /** Replacing the samples leaves the activity with exactly the new rows and every other activity's rows as they were. */
  lemma ReplaceSetsActivityRows(db: Db, g: Geodesy, a: ActivitySummary, ss: StreamSet, txFails: bool)
    requires SamplesReplaced(db, g, a, ss, txFails).1.None?
    ensures var after := SamplesReplaced(db, g, a, ss, txFails).0;
      && SamplesFor(after.samples, a.id) == SampleRows(g, a, ss, |ss.time|)
      && OtherActivities(after.samples, a.id) == OtherActivities(db.samples, a.id)
  {
    var rows := SampleRows(g, a, ss, |ss.time|);
    SampleRowsBelongTo(g, a, ss);
    FilterOwnRows(rows, a.id);
    FilterOthersTwice(db.samples, a.id);
    OtherActivitiesAppend(OtherActivities(db.samples, a.id), rows, a.id);
    SamplesForAppend(OtherActivities(db.samples, a.id), rows, a.id);
  }

  /** With no failing statement, upserting an activity twice leaves the database as upserting it once. */
  lemma UpsertIdempotent(db: Db, g: Geodesy, a: ActivitySummary, ss: StreamSet)
    ensures var once := BikeActivityUpserted(db, g, a, ss, NoFaults);
      BikeActivityUpserted(once.0, g, a, ss, NoFaults) == once
  {
    var once := BikeActivityUpserted(db, g, a, ss, NoFaults);
    var s1 := SummaryUpserted(db, a, false).0;
    var g1 := if |ss.latlng| > 0 then GeometryStored(s1, a.athleteId, a.id, ss.latlng, NoFaults, true) else (s1, None);
    var rows := SampleRows(g, a, ss, |ss.time|);
    // The second summary upsert writes what is already there.
    assert once.0.summaries[a.id := a] == once.0.summaries;
    var s2 := SummaryUpserted(once.0, a, false).0;
    assert s2 == once.0;
    if g1.1.None? && |ss.latlng| > 0 {
      var route := RouteGeometry(a.id, a.athleteId, StoredRoute(ss.latlng, false));
      assert once.0.geometries[a.id := route] == once.0.geometries;
    }
    if once.1.None? {
      ReplaceTwiceSame(g1.0, g, a, ss);
    }
  }

  /** Replacing an activity's samples a second time with the same streams changes nothing. */
  lemma ReplaceTwiceSame(db: Db, g: Geodesy, a: ActivitySummary, ss: StreamSet)
    requires SamplesReplaced(db, g, a, ss, false).1.None?
    ensures var once := SamplesReplaced(db, g, a, ss, false).0;
      SamplesReplaced(once, g, a, ss, false) == (once, None)
  {
    var rows := SampleRows(g, a, ss, |ss.time|);
    var others := OtherActivities(db.samples, a.id);
    var once := SamplesReplaced(db, g, a, ss, false).0;
    assert once == db.(samples := others + rows);
    assert OtherActivities(once.samples, a.id) == others by {
      SampleRowsBelongTo(g, a, ss);
      FilterOwnRows(rows, a.id);
      FilterOthersTwice(db.samples, a.id);
      OtherActivitiesAppend(others, rows, a.id);
      assert others + [] == others;
    }
  }

  /**
   * A successful upsert stores the summary, the route of the latlng stream (when there is
   * one: the helper's route, or the fallback's swapped one when the helper fails) and exactly
   * the built rows for the activity.
   */
  lemma UpsertStoresActivity(db: Db, g: Geodesy, a: ActivitySummary, ss: StreamSet, f: Faults)
    requires BikeActivityUpserted(db, g, a, ss, f).1.None?
    ensures var after := BikeActivityUpserted(db, g, a, ss, f).0;
      && after.summaries == db.summaries[a.id := a]
      && (ss.latlng != [] ==>
            (AllPairs(ss.latlng) && |ss.latlng| >= 2
             && after.geometries == db.geometries[a.id := RouteGeometry(a.id, a.athleteId, StoredRoute(ss.latlng, f.helperFails))]))
      && (ss.latlng == [] ==> after.geometries == db.geometries)
      && SamplesFor(after.samples, a.id) == SampleRows(g, a, ss, |ss.time|)
  {
    var s := SummaryUpserted(db, a, f.summaryFails);
    var geo := if |ss.latlng| > 0 then GeometryStored(s.0, a.athleteId, a.id, ss.latlng, f, true) else (s.0, None);
    ReplaceSetsActivityRows(geo.0, g, a, ss, f.txFails);
  }

  // ---------------------------------------------------------------------------
  // The store

  class ActivityStore {
    var summaries: map<int, ActivitySummary>
    var geometries: map<int, RouteGeometry>
    var samples: seq<PointSample>

    constructor ()
      ensures State() == Db(map[], map[], [])
    {
      summaries, geometries, samples := map[], map[], [];
    }

    function State(): Db
      reads this
    {
      Db(summaries, geometries, samples)
    }

    method InsertActivitySummary(a: ActivitySummary, checkFails: bool, fails: bool) returns (err: Option<IngestError>)
      modifies this
      ensures (State(), err) == SummaryInserted(old(State()), a, checkFails, fails)
    {
      if checkFails {
        return Some(ExistsCheckFailed);
      }
      if a.id in summaries {
        return Some(AlreadyExists(a.id));
      }
      if fails {
        return Some(DbFailure);
      }
      summaries := summaries[a.id := a];
      return None;
    }

    method InsertActivitySummaryUpsert(a: ActivitySummary, fails: bool) returns (err: Option<IngestError>)
      modifies this
      ensures (State(), err) == SummaryUpserted(old(State()), a, fails)
    {
      if fails {
        return Some(DbFailure);
      }
      summaries := summaries[a.id := a];
      return None;
    }

    /** The geometry insert: the helper statement, and when it fails the WKT fallback as written (latitude first). */
    method StoreGeometry(athleteId: int, activityId: int, points: seq<seq<real>>, f: Faults, upsert: bool)
      returns (err: Option<IngestError>)
      modifies this
      ensures (State(), err) == GeometryStored(old(State()), athleteId, activityId, points, f, upsert)
    {
      if !upsert && f.geometryCheckFails {
        return Some(ExistsCheckFailed);
      }
      if !upsert && activityId !in summaries {
        return Some(NoSuchActivity(activityId));
      }
      if |points| < 2 {
        return Some(TooFewPoints);
      }
      var lons, lats, ok := SplitLatLng(points);
      if !ok {
        return Some(IndexPanic);
      }
      var conflict := (!upsert && activityId in geometries) || activityId !in summaries;
      if !f.helperFails && !conflict {
        geometries := geometries[activityId := RouteGeometry(activityId, athleteId, RouteFromLonLat(lons, lats))];
      } else if !f.fallbackFails && !conflict {
        geometries := geometries[activityId := RouteGeometry(activityId, athleteId, WktRoute(FallbackWktAsWritten(points)))];
      } else {
        return Some(DbFailure);
      }
      return None;
    }

    method InsertPointSamples(g: Geodesy, a: ActivitySummary, ss: StreamSet, checkFails: bool, txFails: bool)
      returns (err: Option<IngestError>)
      modifies this
      ensures (State(), err) == SamplesInserted(old(State()), g, a, ss, checkFails, txFails)
    {
      if checkFails {
        return Some(ExistsCheckFailed);
      }
      if a.id !in summaries {
        return Some(NoSuchActivity(a.id));
      }
      if |ss.time| == 0 {
        return Some(NoTimeStream);
      }
      var rows := BuildSamples(g, a, ss);
      if txFails {
        return Some(DbFailure);
      }
      samples := samples + rows;
      return None;
    }

    method ReplacePointSamples(g: Geodesy, a: ActivitySummary, ss: StreamSet, txFails: bool)
      returns (err: Option<IngestError>)
      modifies this
      ensures (State(), err) == SamplesReplaced(old(State()), g, a, ss, txFails)
    {
      if |ss.time| == 0 {
        return Some(NoTimeStream);
      }
      var rows := BuildSamples(g, a, ss);
      if txFails || (rows != [] && a.id !in summaries) {
        return Some(DbFailure);
      }
      samples := OtherActivities(samples, a.id) + rows;
      return None;
    }

    method InsertBikeActivity(g: Geodesy, b: BikeActivity, f: Faults) returns (err: Option<IngestError>)
      modifies this
      ensures (State(), err) == BikeActivityInserted(old(State()), g, b.summary, b.Streams(), f)
    {
      var a, ss := b.summary, b.Streams();
      err := InsertActivitySummary(a, f.summaryCheckFails, f.summaryFails);
      if err.Some? {
        return;
      }
      if |ss.latlng| > 0 {
        err := StoreGeometry(a.athleteId, a.id, ss.latlng, f, false);
        if err.Some? {
          return;
        }
      }
      err := InsertPointSamples(g, a, ss, f.samplesCheckFails, f.txFails);
    }

    method InsertBikeActivityUpsert(g: Geodesy, b: BikeActivity, f: Faults) returns (err: Option<IngestError>)
      modifies this
      ensures (State(), err) == BikeActivityUpserted(old(State()), g, b.summary, b.Streams(), f)
    {
      var a, ss := b.summary, b.Streams();
      err := InsertActivitySummaryUpsert(a, f.summaryFails);
      if err.Some? {
        return;
      }
      if |ss.latlng| > 0 {
        err := StoreGeometry(a.athleteId, a.id, ss.latlng, f, true);
        if err.Some? {
          return;
        }
      }
      err := ReplacePointSamples(g, a, ss, f.txFails);
    }
  }
}
