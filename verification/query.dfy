/**
 * The read side: heart-rate zones, graph series over an activity's samples (whole or the
 * segment window), the existence map used when syncing, and the list of activities that
 * match a favourite segment: served from the match cache while it is fresh, recomputed and
 * re-cached otherwise, merged with the athlete's activity summaries and cached segment
 * metrics, and ranked in place by the requested key.
 */
module Query {
  import opened Wrappers
  import opened Geo
  import opened Samples
  import opened Streams
  import opened Matching
  import opened Cache

  // ---------------------------------------------------------------------------
  // Heart-rate zones

  datatype HRZone = HRZone(min: int, max: int)

  predicate InZone(hr: int, z: HRZone) {
    z.min <= hr <= z.max
  }

  /** The first zone at or after i that contains hr, 1-based; None when none does. */
  function FirstZoneFrom(hr: int, zones: seq<HRZone>, i: nat): (r: Option<nat>)
    requires i <= |zones|
    ensures r.Some? ==> i < r.value <= |zones| && InZone(hr, zones[r.value - 1])
    ensures r.Some? ==> forall j :: i <= j < r.value - 1 ==> !InZone(hr, zones[j])
    ensures r.None? <==> forall j :: i <= j < |zones| ==> !InZone(hr, zones[j])
    decreases |zones| - i
  {
    if i == |zones| then None
    else if InZone(hr, zones[i]) then Some(i + 1)
    else FirstZoneFrom(hr, zones, i + 1)
  }

  /**
   * calculateHRZone: the 1-based index of the first zone containing hr; the number of zones
   * when none contains it (even below the lowest); 0 without zones.
   */
  function CalculateHRZone(hr: int, zones: Option<seq<HRZone>>): (z: int)
    ensures zones.None? || zones.value == [] ==> z == 0
    ensures zones.Some? && zones.value != [] ==> 1 <= z <= |zones.value|
    ensures zones.Some? && 1 <= z <= |zones.value| && InZone(hr, zones.value[z - 1]) ==>
              forall j :: 0 <= j < z - 1 ==> !InZone(hr, zones.value[j])
    ensures zones.Some? && (exists j :: 0 <= j < |zones.value| && InZone(hr, zones.value[j])) ==>
              1 <= z <= |zones.value| && InZone(hr, zones.value[z - 1])
    ensures zones.Some? && zones.value != [] && (forall j :: 0 <= j < |zones.value| ==> !InZone(hr, zones.value[j])) ==>
              z == |zones.value|
  {
    if zones.None? || |zones.value| == 0 then 0
    else
      match FirstZoneFrom(hr, zones.value, 0)
      case Some(i) => i
      case None => |zones.value|
  }

  // ---------------------------------------------------------------------------
  // Graph series

  datatype GraphMetric = SpeedSeries | HeartrateSeries | HeightSeries | CadenceSeries

  datatype GraphPoint = GraphPoint(time: int, value: real, zone: Option<int>, distance: Option<real>)

  datatype GraphData = GraphData(
    speed: seq<GraphPoint>, heartrate: seq<GraphPoint>, height: seq<GraphPoint>, cadence: seq<GraphPoint>)

  /** The sample's value for a series, when present. */
  function ValueOf(s: PointSample, m: GraphMetric): Option<real> {
    match m
    case SpeedSeries => s.speed
    case HeartrateSeries => if s.heartrate.Some? then Some(s.heartrate.value as real) else None
    case HeightSeries => s.altitude
    case CadenceSeries => if s.cadence.Some? then Some(s.cadence.value as real) else None
  }

  /** The point a sample contributes to a series: none when its value is absent. */
  function PointFor(s: PointSample, m: GraphMetric, includeZones: bool, zones: Option<seq<HRZone>>): Option<GraphPoint> {
    match ValueOf(s, m)
    case None => None
    case Some(v) =>
      var zone := if m == HeartrateSeries && includeZones && zones.Some? then Some(CalculateHRZone(s.heartrate.value, zones)) else None;
      Some(GraphPoint(s.time, v, zone, s.cumulativeDistance))
  }

  /** One series over the samples, in sample order. */
  function Series(samples: seq<PointSample>, m: GraphMetric, includeZones: bool, zones: Option<seq<HRZone>>): seq<GraphPoint> {
    if samples == [] then []
    else
      var last := PointFor(samples[|samples| - 1], m, includeZones, zones);
      Series(samples[..|samples| - 1], m, includeZones, zones) + (if last.Some? then [last.value] else [])
  }

  /** A metric's series when it was requested, and an empty series otherwise. */
  function SeriesIf(samples: seq<PointSample>, m: GraphMetric, requested: bool, includeZones: bool,
                    zones: Option<seq<HRZone>>): seq<GraphPoint> {
    if requested then Series(samples, m, includeZones, zones) else []
  }

  /** The four series; a series that was not requested stays empty. */
  function Graph(samples: seq<PointSample>, wanted: set<string>, includeZones: bool, zones: Option<seq<HRZone>>): GraphData {
    GraphData(
      SeriesIf(samples, SpeedSeries, "speed" in wanted, includeZones, zones),
      SeriesIf(samples, HeartrateSeries, "heartrate" in wanted, includeZones, zones),
      SeriesIf(samples, HeightSeries, "height" in wanted, includeZones, zones),
      SeriesIf(samples, CadenceSeries, "cadence" in wanted, includeZones, zones))
  }

  /** A series is built sample by sample: the series of a concatenation is the concatenation of the series. */
  lemma {:induction false} SeriesAppend(a: seq<PointSample>, b: seq<PointSample>, m: GraphMetric, includeZones: bool,
                                        zones: Option<seq<HRZone>>)
    ensures Series(a + b, m, includeZones, zones) == Series(a, m, includeZones, zones) + Series(b, m, includeZones, zones)
    decreases |b|
  {
    if b == [] {
      assert a + b == a;
    } else {
      var init := b[..|b| - 1];
      assert (a + b)[..|a + b| - 1] == a + init;
      SeriesAppend(a, init, m, includeZones, zones);
    }
  }

  /** One sample gives one point exactly when its value is present, carrying its time and cumulative distance. */
  lemma SeriesOfOne(s: PointSample, m: GraphMetric, includeZones: bool, zones: Option<seq<HRZone>>)
    ensures |Series([s], m, includeZones, zones)| == (if ValueOf(s, m).Some? then 1 else 0)
    ensures ValueOf(s, m).Some? ==>
      var p := Series([s], m, includeZones, zones)[0];
      p.time == s.time && p.value == ValueOf(s, m).value && p.distance == s.cumulativeDistance
  {
    assert [s][..0] == [];
  }

  /**
   * Zones: only heart-rate points carry one, exactly when zones were asked for and are
   * known, and it lies between 0 and the number of zones.
   */
  lemma {:induction false} SeriesZones(samples: seq<PointSample>, m: GraphMetric, includeZones: bool,
                                       zones: Option<seq<HRZone>>)
    ensures forall p :: p in Series(samples, m, includeZones, zones) ==>
      (p.zone.Some? <==> m == HeartrateSeries && includeZones && zones.Some?)
      && (p.zone.Some? ==> 0 <= p.zone.value <= |zones.value|)
  {
    if samples != [] {
      SeriesZones(samples[..|samples| - 1], m, includeZones, zones);
    }
  }

  /** The requested metric names, as the set the graph loop consults. */
  method WantedSet(metrics: seq<string>) returns (wanted: set<string>)
    ensures wanted == set m | m in metrics
  {
    wanted := {};
    var n := 0;
    while n < |metrics|
      invariant 0 <= n <= |metrics|
      invariant wanted == set m | m in metrics[..n]
    {
      wanted := wanted + {metrics[n]};
      assert metrics[..n + 1] == metrics[..n] + [metrics[n]];
      n := n + 1;
    }
    assert metrics[..n] == metrics;
  }

  /** What one sample adds to a series: its point, when the series was requested and the value is present. */
  function Added(s: PointSample, m: GraphMetric, requested: bool, includeZones: bool, zones: Option<seq<HRZone>>)
    : seq<GraphPoint>
  {
    var p := PointFor(s, m, includeZones, zones);
    if requested && p.Some? then [p.value] else []
  }

  /** The body of the graph loop: one sample's contribution to each requested series. */
  method AddSample(speed: seq<GraphPoint>, heartrate: seq<GraphPoint>, height: seq<GraphPoint>, cadence: seq<GraphPoint>,
                   s: PointSample, wanted: set<string>, includeZones: bool, zones: Option<seq<HRZone>>)
    returns (speed': seq<GraphPoint>, heartrate': seq<GraphPoint>, height': seq<GraphPoint>, cadence': seq<GraphPoint>)
    ensures speed' == speed + Added(s, SpeedSeries, "speed" in wanted, includeZones, zones)
    ensures heartrate' == heartrate + Added(s, HeartrateSeries, "heartrate" in wanted, includeZones, zones)
    ensures height' == height + Added(s, HeightSeries, "height" in wanted, includeZones, zones)
    ensures cadence' == cadence + Added(s, CadenceSeries, "cadence" in wanted, includeZones, zones)
  {
    speed', heartrate', height', cadence' := speed, heartrate, height, cadence;
    if "speed" in wanted && s.speed.Some? {
      speed' := speed' + [GraphPoint(s.time, s.speed.value, None, s.cumulativeDistance)];
    }
    if "heartrate" in wanted && s.heartrate.Some? {
      var zone := None;
      if includeZones && zones.Some? {
        zone := Some(CalculateHRZone(s.heartrate.value, zones));
      }
      heartrate' := heartrate' + [GraphPoint(s.time, s.heartrate.value as real, zone, s.cumulativeDistance)];
    }
    if "height" in wanted && s.altitude.Some? {
      height' := height' + [GraphPoint(s.time, s.altitude.value, None, s.cumulativeDistance)];
    }
    if "cadence" in wanted && s.cadence.Some? {
      cadence' := cadence' + [GraphPoint(s.time, s.cadence.value as real, None, s.cumulativeDistance)];
    }
  }

  /** The series over samples[..i + 1] for a requested metric, else empty. */
  lemma SeriesStep(samples: seq<PointSample>, i: int, m: GraphMetric, requested: bool, includeZones: bool,
                   zones: Option<seq<HRZone>>)
    requires 0 <= i < |samples|
    ensures SeriesIf(samples[..i + 1], m, requested, includeZones, zones)
      == SeriesIf(samples[..i], m, requested, includeZones, zones) + Added(samples[i], m, requested, includeZones, zones)
  {
    assert samples[..i + 1][..i] == samples[..i];
  }

  /** The graph loop of GetGraphDataForActivity and GetGraphDataForSegmentInActivity. */
  method BuildGraph(samples: seq<PointSample>, metrics: seq<string>, includeZones: bool, zones: Option<seq<HRZone>>)
    returns (r: GraphData)
    ensures r == Graph(samples, (set m | m in metrics), includeZones, zones)
  {
    var wanted := WantedSet(metrics);
    var speed, heartrate, height, cadence := [], [], [], [];
    var i := 0;
    while i < |samples|
      invariant 0 <= i <= |samples|
      invariant speed == SeriesIf(samples[..i], SpeedSeries, "speed" in wanted, includeZones, zones)
      invariant heartrate == SeriesIf(samples[..i], HeartrateSeries, "heartrate" in wanted, includeZones, zones)
      invariant height == SeriesIf(samples[..i], HeightSeries, "height" in wanted, includeZones, zones)
      invariant cadence == SeriesIf(samples[..i], CadenceSeries, "cadence" in wanted, includeZones, zones)
    {
      speed, heartrate, height, cadence := AddSample(speed, heartrate, height, cadence, samples[i], wanted, includeZones, zones);
      SeriesStep(samples, i, SpeedSeries, "speed" in wanted, includeZones, zones);
      SeriesStep(samples, i, HeartrateSeries, "heartrate" in wanted, includeZones, zones);
      SeriesStep(samples, i, HeightSeries, "height" in wanted, includeZones, zones);
      SeriesStep(samples, i, CadenceSeries, "cadence" in wanted, includeZones, zones);
      i := i + 1;
    }
    assert samples[..i] == samples;
    r := GraphData(speed, heartrate, height, cadence);
  }

  /** GetPointSamplesForActivity: the athlete's samples of the activity, ORDER BY point_index. */
  function ActivitySamples(rows: seq<PointSample>, athleteId: int, activityId: int): (r: seq<PointSample>)
    ensures IndexOrdered(r)
    ensures forall s :: s in r <==> s in rows && s.athleteId == athleteId && s.activityId == activityId
  {
    var sel := SamplesOf(rows, athleteId, activityId);
    var r := OrderByIndex(sel);
    assert forall s :: s in r <==> s in sel by {
      forall s ensures s in r <==> s in sel {
        assert s in r <==> s in multiset(r);
        assert s in sel <==> s in multiset(sel);
      }
    }
    r
  }

  function SamplesOf(rows: seq<PointSample>, athleteId: int, activityId: int): (r: seq<PointSample>)
    ensures forall s :: s in r <==> s in rows && s.athleteId == athleteId && s.activityId == activityId
  {
    if rows == [] then []
    else
      (if rows[0].athleteId == athleteId && rows[0].activityId == activityId then [rows[0]] else [])
      + SamplesOf(rows[1..], athleteId, activityId)
  }

  /** The samples whose point index lies in [start, end], both ends included, in their order. */
  function InRange(samples: seq<PointSample>, start: int, end: int): (r: seq<PointSample>)
    ensures forall s :: s in r <==> s in samples && start <= s.pointIndex <= end
  {
    if samples == [] then []
    else
      InRange(samples[..|samples| - 1], start, end)
      + (if start <= samples[|samples| - 1].pointIndex <= end then [samples[|samples| - 1]] else [])
  }

  /** Filtering keeps the order: an index-ordered list stays index-ordered. */
  lemma {:induction false} InRangeKeepsOrder(samples: seq<PointSample>, start: int, end: int)
    requires IndexOrdered(samples)
    ensures IndexOrdered(InRange(samples, start, end))
  {
    if samples != [] {
      var init := samples[..|samples| - 1];
      var last := samples[|samples| - 1];
      assert IndexOrdered(init);
      InRangeKeepsOrder(init, start, end);
      var r := InRange(init, start, end);
      forall s | s in r ensures s.pointIndex <= last.pointIndex {
        var k :| 0 <= k < |init| && init[k] == s;
      }
    }
  }

  /** The filter loop of GetGraphDataForSegmentInActivity. */
  method FilterRange(samples: seq<PointSample>, start: int, end: int) returns (r: seq<PointSample>)
    ensures r == InRange(samples, start, end)
  {
    r := [];
    var i := 0;
    while i < |samples|
      invariant 0 <= i <= |samples|
      invariant r == InRange(samples[..i], start, end)
    {
      assert samples[..i + 1][..i] == samples[..i];
      if samples[i].pointIndex >= start && samples[i].pointIndex <= end {
        r := r + [samples[i]];
      }
      i := i + 1;
    }
    assert samples[..i] == samples;
  }

  /** The fixed tolerance, in metres, at which the segment graph resolves its index range. */
  const GraphTolerance: real := 15.0

  /** GetGraphDataForActivity: the samples query (samplesFail when it or a row scan fails), then the graph. */
  method GetGraphDataForActivity(rows: seq<PointSample>, athleteId: int, activityId: int, metrics: seq<string>,
                                 includeZones: bool, zones: Option<seq<HRZone>>, samplesFail: bool)
    returns (r: Result<GraphData, string>)
    ensures r.Err? <==> samplesFail
    ensures r.Ok? ==> r.value == Graph(ActivitySamples(rows, athleteId, activityId), (set m | m in metrics), includeZones, zones)
  {
    if samplesFail {
      return Err("failed to query point samples");
    }
    var samples := ActivitySamples(rows, athleteId, activityId);
    var graph := BuildGraph(samples, metrics, includeZones, zones);
    return Ok(graph);
  }

  /**
   * GetGraphDataForSegmentInActivity: the index range at tolerance 15 (an error when its query
   * fails or the range is NULL, which the scan cannot tell apart), then the samples query, then
   * the graph over the activity's samples inside that range.
   */
  method GetGraphDataForSegmentInActivity(g: Geodesy, segment: Option<Line>, rows: seq<PointSample>, athleteId: int,
                                          activityId: int, metrics: seq<string>, includeZones: bool,
                                          zones: Option<seq<HRZone>>, indexQueryFails: bool, samplesFail: bool)
    returns (r: Result<GraphData, string>)
    ensures var range := FindSegmentPointIndices(g, segment, GraphTolerance, activityId, athleteId, rows);
      && (r.Err? <==> indexQueryFails || range.None? || samplesFail)
      && (r.Ok? ==> r.value == Graph(InRange(ActivitySamples(rows, athleteId, activityId), range.value.start, range.value.end),
                                     (set m | m in metrics), includeZones, zones))
  {
    var range := FindSegmentPointIndices(g, segment, GraphTolerance, activityId, athleteId, rows);
    if indexQueryFails || range.None? {
      return Err("failed to find segment indices");
    }
    if samplesFail {
      return Err("failed to query point samples");
    }
    var samples := ActivitySamples(rows, athleteId, activityId);
    var window := FilterRange(samples, range.value.start, range.value.end);
    var graph := BuildGraph(window, metrics, includeZones, zones);
    return Ok(graph);
  }

  /** The segment window holds every sample of the activity that lies on the segment, in point-index order. */
  lemma SegmentWindowCoversSegment(g: Geodesy, line: Line, rows: seq<PointSample>, athleteId: int, activityId: int)
    requires FindSegmentPointIndices(g, Some(line), GraphTolerance, activityId, athleteId, rows).Some?
    ensures var range := FindSegmentPointIndices(g, Some(line), GraphTolerance, activityId, athleteId, rows).value;
      var window := InRange(ActivitySamples(rows, athleteId, activityId), range.start, range.end);
      && IndexOrdered(window)
      && forall s :: s in rows && OnSegment(g, line, GraphTolerance, activityId, athleteId, s) ==> s in window
  {
    var range := FindSegmentPointIndices(g, Some(line), GraphTolerance, activityId, athleteId, rows).value;
    InRangeKeepsOrder(ActivitySamples(rows, athleteId, activityId), range.start, range.end);
  }

  // ---------------------------------------------------------------------------
  // Existence of activities

  /** The query's rows: the requested ids that are stored, in request order. */
  function StoredAmong(ids: seq<int>, stored: set<int>): (r: seq<int>)
    ensures forall i :: i in r <==> i in ids && i in stored
  {
    if ids == [] then []
    else (if ids[0] in stored then [ids[0]] else []) + StoredAmong(ids[1..], stored)
  }

  /**
   * ActivitiesExist: the query returns the requested ids that are stored; the map sets those
   * to true and then fills in false for the rest. Empty input answers without a query.
   */
  method ActivitiesExist(ids: seq<int>, stored: set<int>, queryFails: bool) returns (r: Result<map<int, bool>, string>)
    ensures r.Err? <==> queryFails && ids != []
    ensures r.Ok? ==> r.value.Keys == set i | i in ids
    ensures r.Ok? ==> forall i :: i in r.value ==> (r.value[i] <==> i in stored)
  {
    if |ids| == 0 {
      return Ok(map[]);
    }
    if queryFails {
      return Err("failed to check existing activities");
    }
    var found := StoredAmong(ids, stored);
    var existsMap := MarkFound(found);
    existsMap := FillMissing(ids, stored, existsMap);
    return Ok(existsMap);
  }

  /** The rows loop of ActivitiesExist: every returned id is mapped to true. */
  method MarkFound(found: seq<int>) returns (existsMap: map<int, bool>)
    ensures existsMap.Keys == set i | i in found
    ensures forall i :: i in existsMap ==> existsMap[i]
  {
    existsMap := map[];
    var t := 0;
    while t < |found|
      invariant 0 <= t <= |found|
      invariant existsMap.Keys == set i | i in found[..t]
      invariant forall i :: i in existsMap ==> existsMap[i]
    {
      existsMap := existsMap[found[t] := true];
      assert found[..t + 1] == found[..t] + [found[t]];
      t := t + 1;
    }
    assert found[..t] == found;
  }

  /** The fill-in loop of ActivitiesExist: a requested id not mapped to true is mapped to false. */
  method FillMissing(ids: seq<int>, stored: set<int>, marked: map<int, bool>) returns (existsMap: map<int, bool>)
    requires forall i :: i in marked ==> (marked[i] <==> i in stored)
    requires forall i :: i in marked ==> i in ids
    requires forall i :: i in ids && i in stored ==> i in marked
    ensures existsMap.Keys == set i | i in ids
    ensures forall i :: i in existsMap ==> (existsMap[i] <==> i in stored)
  {
    existsMap := marked;
    var n := 0;
    while n < |ids|
      invariant 0 <= n <= |ids|
      invariant existsMap.Keys == marked.Keys + set i | i in ids[..n]
      invariant forall i :: i in existsMap ==> (existsMap[i] <==> i in stored)
    {
      var id := ids[n];
      if !(id in existsMap && existsMap[id]) {
        existsMap := existsMap[id := false];
      }
      assert ids[..n + 1] == ids[..n] + [id];
      n := n + 1;
    }
    assert ids[..n] == ids;
    forall i | i in marked ensures i in set j | j in ids {
      assert i in ids;
    }
  }

  /** The loop of GetExistingActivityIDs over the existence map: the ids mapped to true. */
  method TrueKeys(existsMap: map<int, bool>) returns (existing: set<int>)
    ensures existing == set i | i in existsMap && existsMap[i]
  {
    existing := {};
    var items := existsMap.Items;
    while items != {}
      invariant items <= existsMap.Items
      invariant existing == set i | i in existsMap && existsMap[i] && (i, true) !in items
      decreases items
    {
      var item :| item in items;
      var (id, present) := item;
      if present {
        existing := existing + {id};
      }
      items := items - {item};
    }
  }

  /** GetExistingActivityIDs: the requested ids that are stored. */
  method GetExistingActivityIDs(ids: seq<int>, stored: set<int>, queryFails: bool) returns (r: Result<set<int>, string>)
    ensures r.Err? <==> queryFails && ids != []
    ensures r.Ok? ==> r.value == set i | i in ids && i in stored
  {
    var m := ActivitiesExist(ids, stored, queryFails);
    if m.Err? {
      return Err(m.error);
    }
    var existing := TrueKeys(m.value);
    forall i ensures i in existing <==> i in ids && i in stored {
      assert i in m.value <==> i in m.value.Keys;
    }
    return Ok(existing);
  }

  // ---------------------------------------------------------------------------
  // Activities matching a segment

  /** An ActivityWithMatch: the summary, its match fields, and the segment metrics of its cache entry. */
  datatype ActivityWithMatch = ActivityWithMatch(
    summary: ActivitySummary,
    minDistance: real, overlapLength: real, overlapPct: real,
    segAvgHr: Option<real>, segAvgSpeed: Option<real>, segDistance: Option<real>, segElevation: Option<real>)

  /** GetActivitiesByIDs: the athlete's summaries whose id is requested, in table order. */
  function ActivitiesByIds(table: seq<ActivitySummary>, athleteId: int, ids: set<int>): (r: seq<ActivitySummary>)
    ensures forall a :: a in r <==> a in table && a.athleteId == athleteId && a.id in ids
  {
    if table == [] then []
    else
      (if table[0].athleteId == athleteId && table[0].id in ids then [table[0]] else [])
      + ActivitiesByIds(table[1..], athleteId, ids)
  }

  function MatchIds(matches: seq<MatchRow>): set<int> {
    set r | r in matches :: r.activityId
  }

  /** The metrics lookup for one activity; a failed lookup counts as no entry. */
  function CachedEntry(entries: map<Key, Entry>, segmentId: int, tol: real, lookupFails: set<int>, activityId: int)
    : (r: Option<Entry>)
    ensures r.Some? <==> activityId !in lookupFails && Key(segmentId, activityId, tol) in entries
    ensures r.Some? ==> r.value == entries[Key(segmentId, activityId, tol)]
  {
    var k := Key(segmentId, activityId, tol);
    if activityId !in lookupFails && k in entries then Some(entries[k]) else None
  }

  function Combine(a: ActivitySummary, m: MatchRow, c: Option<Entry>): ActivityWithMatch {
    ActivityWithMatch(a, m.minDistance, m.overlapLength, m.overlapPct,
      if c.Some? then c.value.avgHr else None,
      if c.Some? then c.value.avgSpeed else None,
      if c.Some? then c.value.distance else None,
      if c.Some? then c.value.elevationGain else None)
  }

  /** The combination loop over the fetched summaries, before sorting. */
  function Merged(entries: map<Key, Entry>, fetched: seq<ActivitySummary>, matches: seq<MatchRow>, segmentId: int,
                  tol: real, lookupFails: set<int>): seq<ActivityWithMatch>
  {
    if fetched == [] then []
    else
      var init := Merged(entries, fetched[..|fetched| - 1], matches, segmentId, tol, lookupFails);
      var a := fetched[|fetched| - 1];
      match LastFor(matches, a.id)
      case None => init
      case Some(m) => init + [Combine(a, m, CachedEntry(entries, segmentId, tol, lookupFails, a.id))]
  }

  /**
   * Every merged item pairs a fetched summary with the last match for its id, and carries
   * the segment metrics of its cache entry exactly when a lookup found one.
   */
  lemma {:induction false} MergedSound(entries: map<Key, Entry>, fetched: seq<ActivitySummary>, matches: seq<MatchRow>,
                                       segmentId: int, tol: real, lookupFails: set<int>, x: ActivityWithMatch)
    requires x in Merged(entries, fetched, matches, segmentId, tol, lookupFails)
    ensures x.summary in fetched
    ensures LastFor(matches, x.summary.id).Some?
    ensures var m := LastFor(matches, x.summary.id).value;
      x.minDistance == m.minDistance && x.overlapLength == m.overlapLength && x.overlapPct == m.overlapPct
    ensures var c := CachedEntry(entries, segmentId, tol, lookupFails, x.summary.id);
      && (c.None? ==> x.segAvgHr.None? && x.segAvgSpeed.None? && x.segDistance.None? && x.segElevation.None?)
      && (c.Some? ==> x.segAvgHr == c.value.avgHr && x.segAvgSpeed == c.value.avgSpeed
                      && x.segDistance == c.value.distance && x.segElevation == c.value.elevationGain)
  {
    var init := fetched[..|fetched| - 1];
    var a := fetched[|fetched| - 1];
    if x in Merged(entries, init, matches, segmentId, tol, lookupFails) {
      MergedSound(entries, init, matches, segmentId, tol, lookupFails, x);
      assert x.summary in fetched by {
        var k :| 0 <= k < |init| && init[k] == x.summary;
        assert fetched[k] == x.summary;
      }
    }
  }

  /** Every fetched summary that has a match appears in the merge. */
  lemma {:induction false} MergedComplete(entries: map<Key, Entry>, fetched: seq<ActivitySummary>, matches: seq<MatchRow>,
                                          segmentId: int, tol: real, lookupFails: set<int>, a: ActivitySummary)
    requires a in fetched && LastFor(matches, a.id).Some?
    ensures exists x :: x in Merged(entries, fetched, matches, segmentId, tol, lookupFails) && x.summary == a
  {
    var init := fetched[..|fetched| - 1];
    if a == fetched[|fetched| - 1] {
      var x := Combine(a, LastFor(matches, a.id).value, CachedEntry(entries, segmentId, tol, lookupFails, a.id));
      assert x in Merged(entries, fetched, matches, segmentId, tol, lookupFails);
    } else {
      assert a in init by {
        var k :| 0 <= k < |fetched| && fetched[k] == a;
        assert k < |fetched| - 1;
        assert init[k] == a;
      }
      MergedComplete(entries, init, matches, segmentId, tol, lookupFails, a);
      var x :| x in Merged(entries, init, matches, segmentId, tol, lookupFails) && x.summary == a;
      assert x in Merged(entries, fetched, matches, segmentId, tol, lookupFails);
    }
  }

  // ---------------------------------------------------------------------------
  // Ranking

  datatype SortBy = ByAvgHr | ByAvgSpeed | ByTotalTime | ByDate | ByMinDistance

  function SortByOf(s: string): SortBy {
    if s == "avg_hr" then ByAvgHr
    else if s == "avg_speed" then ByAvgSpeed
    else if s == "total_time" then ByTotalTime
    else if s == "date" then ByDate
    else ByMinDistance
  }

  /** The HR ranking value: the segment value when present (even 0), else the activity average when positive, else 0. */
  function HrKey(x: ActivityWithMatch): (k: real)
    ensures x.segAvgHr.Some? ==> k == x.segAvgHr.value
    ensures x.segAvgHr.None? && x.summary.averageHeartrate > 0.0 ==> k == x.summary.averageHeartrate
    ensures x.segAvgHr.None? && x.summary.averageHeartrate <= 0.0 ==> k == 0.0
  {
    if x.segAvgHr.Some? then x.segAvgHr.value
    else if x.summary.averageHeartrate > 0.0 then x.summary.averageHeartrate
    else 0.0
  }

  /** The speed ranking value, with the same fallback. */
  function SpeedKey(x: ActivityWithMatch): (k: real)
    ensures x.segAvgSpeed.Some? ==> k == x.segAvgSpeed.value
    ensures x.segAvgSpeed.None? && x.summary.averageSpeed > 0.0 ==> k == x.summary.averageSpeed
    ensures x.segAvgSpeed.None? && x.summary.averageSpeed <= 0.0 ==> k == 0.0
  {
    if x.segAvgSpeed.Some? then x.segAvgSpeed.value
    else if x.summary.averageSpeed > 0.0 then x.summary.averageSpeed
    else 0.0
  }

  /** Every ordering is "larger key first"; the default (smaller min distance first) uses the negated distance. */
  function SortKey(x: ActivityWithMatch, order: SortBy): real {
    match order
    case ByAvgHr => HrKey(x)
    case ByAvgSpeed => SpeedKey(x)
    case ByTotalTime => x.summary.elapsedTime
    case ByDate => x.summary.startTime as real
    case ByMinDistance => -x.minDistance
  }

  /** No later item would have been placed before an earlier one by the comparison the source passes to sort.Slice. */
  predicate SortedByKey(xs: seq<ActivityWithMatch>, order: SortBy) {
    forall i, j :: 0 <= i < j < |xs| ==> SortKey(xs[i], order) >= SortKey(xs[j], order)
  }

  /** The default ranking is best match first, and the time and date rankings are descending. */
  lemma RankingMeaning(xs: seq<ActivityWithMatch>, order: SortBy)
    requires SortedByKey(xs, order)
    ensures order == ByMinDistance ==> forall i, j :: 0 <= i < j < |xs| ==> xs[i].minDistance <= xs[j].minDistance
    ensures order == ByTotalTime ==> forall i, j :: 0 <= i < j < |xs| ==> xs[i].summary.elapsedTime >= xs[j].summary.elapsedTime
    ensures order == ByDate ==> forall i, j :: 0 <= i < j < |xs| ==> xs[i].summary.startTime >= xs[j].summary.startTime
  {
    if order == ByMinDistance {
      forall i, j | 0 <= i < j < |xs| ensures xs[i].minDistance <= xs[j].minDistance {
        assert SortKey(xs[i], order) >= SortKey(xs[j], order);
      }
    }
    if order == ByDate {
      forall i, j | 0 <= i < j < |xs| ensures xs[i].summary.startTime >= xs[j].summary.startTime {
        assert SortKey(xs[i], order) >= SortKey(xs[j], order);
      }
    }
  }

  /** The first n items of the array are ranked. */
  ghost predicate RankedUpTo(a: array<ActivityWithMatch>, n: int, order: SortBy)
    requires 0 <= n <= a.Length
    reads a
  {
    forall p, q :: 0 <= p < q < n ==> SortKey(a[p], order) >= SortKey(a[q], order)
  }

  /** Exchanges a[j - 1] and a[j]. */
  method SwapDown(a: array<ActivityWithMatch>, j: int)
    requires 0 < j < a.Length
    modifies a
    ensures a[j - 1] == old(a[j]) && a[j] == old(a[j - 1])
    ensures forall q :: 0 <= q < a.Length && q != j - 1 && q != j ==> a[q] == old(a[q])
    ensures multiset(a[..]) == multiset(old(a[..]))
  {
    a[j - 1], a[j] := a[j], a[j - 1];
  }

  /** Moves a[i] left past every item with a smaller key; a[..i] was already ranked. */
  method InsertAt(a: array<ActivityWithMatch>, i: int, order: SortBy)
    requires 0 <= i < a.Length
    requires RankedUpTo(a, i, order)
    modifies a
    ensures RankedUpTo(a, i + 1, order)
    ensures multiset(a[..]) == multiset(old(a[..]))
    ensures forall q :: i < q < a.Length ==> a[q] == old(a[q])
  {
    var j := i;
    while j > 0 && SortKey(a[j - 1], order) < SortKey(a[j], order)
      invariant 0 <= j <= i
      invariant multiset(a[..]) == multiset(old(a[..]))
      invariant forall q :: i < q < a.Length ==> a[q] == old(a[q])
      invariant forall p, q :: 0 <= p < q <= i && p != j && q != j ==> SortKey(a[p], order) >= SortKey(a[q], order)
      invariant forall q :: j < q <= i ==> SortKey(a[j], order) > SortKey(a[q], order)
    {
      SwapDown(a, j);
      j := j - 1;
    }
  }

  /** sortActivitiesWithMatches: reorders the items in place, larger key first. */
  method SortActivities(a: array<ActivityWithMatch>, sortBy: string)
    modifies a
    ensures SortedByKey(a[..], SortByOf(sortBy))
    ensures multiset(a[..]) == multiset(old(a[..]))
  {
    var order := SortByOf(sortBy);
    var i := 0;
    while i < a.Length
      invariant 0 <= i <= a.Length
      invariant RankedUpTo(a, i, order)
      invariant multiset(a[..]) == multiset(old(a[..]))
    {
      InsertAt(a, i, order);
      i := i + 1;
    }
    assert RankedUpTo(a, a.Length, order);
  }

  /** The first loop of getActivitiesWithMatchesWithTolerance: the ids in order, and the last match per id. */
  method LatestMatches(matches: seq<MatchRow>) returns (ids: seq<int>, matchMap: map<int, MatchRow>)
    ensures (set id | id in ids) == MatchIds(matches)
    ensures forall id :: id in matchMap <==> LastFor(matches, id).Some?
    ensures forall id :: id in matchMap ==> matchMap[id] == LastFor(matches, id).value
  {
    ids, matchMap := [], map[];
    var i := 0;
    while i < |matches|
      invariant 0 <= i <= |matches|
      invariant |ids| == i && forall k :: 0 <= k < i ==> ids[k] == matches[k].activityId
      invariant forall id :: id in matchMap <==> LastFor(matches[..i], id).Some?
      invariant forall id :: id in matchMap ==> matchMap[id] == LastFor(matches[..i], id).value
    {
      assert matches[..i + 1][..i] == matches[..i];
      ids := ids + [matches[i].activityId];
      matchMap := matchMap[matches[i].activityId := matches[i]];
      i := i + 1;
    }
    assert matches[..i] == matches;
    forall id ensures id in ids <==> id in MatchIds(matches) {
      if id in ids {
        var k :| 0 <= k < |ids| && ids[k] == id;
        assert matches[k] in matches;
      }
      if id in MatchIds(matches) {
        var r :| r in matches && r.activityId == id;
        var k :| 0 <= k < |matches| && matches[k] == r;
        assert ids[k] == id;
      }
    }
  }

  /** The metrics lookups: one per id; an id whose lookup fails or finds nothing gets no entry. */
  method LookupMetrics(cache: MatchCache, ids: seq<int>, segmentId: int, tol: real, lookupFails: set<int>)
    returns (cachedMetrics: map<int, Entry>)
    ensures forall id :: id in cachedMetrics ==> CachedEntry(cache.entries, segmentId, tol, lookupFails, id) == Some(cachedMetrics[id])
    ensures forall id :: id in ids && CachedEntry(cache.entries, segmentId, tol, lookupFails, id).Some? ==> id in cachedMetrics
  {
    cachedMetrics := map[];
    var n := 0;
    while n < |ids|
      invariant 0 <= n <= |ids|
      invariant forall id :: id in cachedMetrics ==> CachedEntry(cache.entries, segmentId, tol, lookupFails, id) == Some(cachedMetrics[id])
      invariant forall id :: id in ids[..n] && CachedEntry(cache.entries, segmentId, tol, lookupFails, id).Some? ==> id in cachedMetrics
    {
      var id := ids[n];
      var cached := cache.GetCachedSegmentActivityMetrics(Key(segmentId, id, tol), id in lookupFails);
      if cached.Ok? && cached.value.Some? {
        cachedMetrics := cachedMetrics[id := cached.value.value];
      }
      assert ids[..n + 1] == ids[..n] + [id];
      n := n + 1;
    }
    assert ids[..n] == ids;
  }

  /** The combination loop: fetched summaries with a match, with their metrics when an entry was found. */
  method CombineFetched(entries: map<Key, Entry>, fetched: seq<ActivitySummary>, matches: seq<MatchRow>,
                        matchMap: map<int, MatchRow>, cachedMetrics: map<int, Entry>,
                        segmentId: int, tol: real, lookupFails: set<int>) returns (combined: seq<ActivityWithMatch>)
    requires forall id :: id in matchMap <==> LastFor(matches, id).Some?
    requires forall id :: id in matchMap ==> matchMap[id] == LastFor(matches, id).value
    requires forall id :: id in cachedMetrics ==> CachedEntry(entries, segmentId, tol, lookupFails, id) == Some(cachedMetrics[id])
    requires forall a :: a in fetched && CachedEntry(entries, segmentId, tol, lookupFails, a.id).Some? ==> a.id in cachedMetrics
    ensures combined == Merged(entries, fetched, matches, segmentId, tol, lookupFails)
  {
    combined := [];
    var j := 0;
    while j < |fetched|
      invariant 0 <= j <= |fetched|
      invariant combined == Merged(entries, fetched[..j], matches, segmentId, tol, lookupFails)
    {
      var a := fetched[j];
      assert fetched[..j + 1][..j] == fetched[..j];
      if a.id in matchMap {
        var m := matchMap[a.id];
        var c := if a.id in cachedMetrics then Some(cachedMetrics[a.id]) else None;
        assert c == CachedEntry(entries, segmentId, tol, lookupFails, a.id);
        combined := combined + [Combine(a, m, c)];
      }
      j := j + 1;
    }
    assert fetched[..j] == fetched;
  }

  /**
   * getActivitiesWithMatchesWithTolerance: the last match per activity id, the athlete's
   * summaries for those ids (an error when that fetch fails), one metrics lookup per id (a
   * failed lookup is ignored), the combination loop, then the ranking.
   */
  method MergeWithMatches(cache: MatchCache, table: seq<ActivitySummary>, athleteId: int, matches: seq<MatchRow>,
                          sortBy: string, segmentId: int, tol: real, lookupFails: set<int>, fetchFails: bool)
    returns (r: Result<seq<ActivityWithMatch>, string>)
    ensures matches == [] ==> r == Ok([])
    ensures r.Err? <==> matches != [] && fetchFails
    ensures r.Ok? ==> SortedByKey(r.value, SortByOf(sortBy))
    ensures r.Ok? ==> multiset(r.value) == multiset(Merged(cache.entries, ActivitiesByIds(table, athleteId, MatchIds(matches)),
                                                           matches, segmentId, tol, lookupFails))
  {
    if |matches| == 0 {
      return Ok([]);
    }
    var ids, matchMap := LatestMatches(matches);
    if fetchFails {
      return Err("failed to get activities");
    }
    var fetched := ActivitiesByIds(table, athleteId, set id | id in ids);
    var cachedMetrics := LookupMetrics(cache, ids, segmentId, tol, lookupFails);
    var combined := CombineFetched(cache.entries, fetched, matches, matchMap, cachedMetrics, segmentId, tol, lookupFails);
    var arr := new ActivityWithMatch[|combined|](k requires 0 <= k < |combined| => combined[k]);
    assert arr[..] == combined;
    SortActivities(arr, sortBy);
    return Ok(arr[..]);
  }

  // ---------------------------------------------------------------------------
  // The freshness rule

  /** Cache entries younger than this many seconds are served without recomputing. */
  const FreshSeconds: int := 3600

  /** Some entry of the segment at this tolerance was cached less than an hour ago (so the newest one was). */
  ghost predicate FreshEntryExists(entries: map<Key, Entry>, segmentId: int, tol: real, now: int) {
    exists k :: k in entries && k.segmentId == segmentId && k.tolerance == tol && now - entries[k].cachedAt < FreshSeconds
  }

  /** Which reads and writes of GetActivitiesForSegment fail. */
  datatype SegmentQueryFaults = SegmentQueryFaults(
    cachedReadFails: bool, newestReadFails: bool, matcherFails: bool, cacheWriteFailAt: Option<nat>,
    fetchFails: bool, lookupFails: set<int>)

  /**
   * GetActivitiesForSegment. Unless forced, the cached rows are used when they can be read,
   * are not empty and the newest is under an hour old. Otherwise the matcher runs (a failing
   * matcher is an error, before any cache write) and its rows are cached; a failed cache write
   * is ignored. The rows used are then merged and ranked.
   */
  method GetActivitiesForSegment(cache: MatchCache, g: Geodesy, segment: Option<Line>, segLength: Option<real>,
                                 geoms: seq<RouteGeometry>, table: seq<ActivitySummary>, athleteId: int,
                                 segmentId: int, tol: real, sortBy: string, force: bool, now: int,
                                 f: SegmentQueryFaults)
    returns (r: Result<seq<ActivityWithMatch>, string>, ghost fromCache: bool, ghost used: seq<MatchRow>)
    modifies cache
    ensures fromCache <==> !force && !f.cachedReadFails && !f.newestReadFails
                           && FreshEntryExists(old(cache.entries), segmentId, tol, now)
    ensures fromCache ==> cache.entries == old(cache.entries)
    ensures fromCache ==> forall m :: m in used <==>
              exists k :: k in cache.entries && cache.Selected(k, segmentId, tol) && m == RowOf(k, cache.entries[k])
    ensures !fromCache && f.matcherFails ==> r.Err? && cache.entries == old(cache.entries)
    ensures !fromCache && !f.matcherFails ==> used == FindRoutePartsMatchingSegment(g, segment, segmentId, tol, geoms)
    ensures !fromCache && !f.matcherFails ==> var len := segLength.GetOr(0.0);
              cache.entries == if f.cacheWriteFailAt.Some? && f.cacheWriteFailAt.value < |used|
                               then UpsertAll(old(cache.entries), segmentId, tol, used[..f.cacheWriteFailAt.value], len, now)
                               else UpsertAll(old(cache.entries), segmentId, tol, used, len, now)
    ensures r.Err? <==> (!fromCache && f.matcherFails) || ((fromCache || !f.matcherFails) && used != [] && f.fetchFails)
    ensures r.Ok? ==> SortedByKey(r.value, SortByOf(sortBy))
    ensures r.Ok? ==> multiset(r.value) == multiset(Merged(cache.entries, ActivitiesByIds(table, athleteId, MatchIds(used)),
                                                           used, segmentId, tol, f.lookupFails))
  {
    if !force && !f.cachedReadFails {
      var cached := cache.CachedSegmentMatches(segmentId, tol);
      if |cached| > 0 && !f.newestReadFails {
        var newest := cache.NewestCachedAt(segmentId, tol);
        assert newest.Some? by {
          var c := cached[0];
          assert c in cached;
        }
        if now - newest.value < FreshSeconds {
          r := MergeWithMatches(cache, table, athleteId, cached, sortBy, segmentId, tol, f.lookupFails, f.fetchFails);
          fromCache, used := true, cached;
          return;
        }
        assert !FreshEntryExists(cache.entries, segmentId, tol, now);
      } else if |cached| == 0 {
        assert forall k :: k in cache.entries && cache.Selected(k, segmentId, tol) ==> RowOf(k, cache.entries[k]) in cached;
        assert !FreshEntryExists(cache.entries, segmentId, tol, now);
      }
    }
    fromCache := false;
    if f.matcherFails {
      r, used := Err("failed to find matching activities"), [];
      return;
    }
    var matches := FindRoutePartsMatchingSegment(g, segment, segmentId, tol, geoms);
    var _ := cache.CacheSegmentActivityMatches(segmentId, tol, matches, segLength, now, f.cacheWriteFailAt);
    r := MergeWithMatches(cache, table, athleteId, matches, sortBy, segmentId, tol, f.lookupFails, f.fetchFails);
    used := matches;
  }

  /**
   * Served from the cache, every item carries the match fields stored under its own key,
   * and every cached activity of the athlete that is in the table is listed.
   */
  lemma CachedRowsGiveStoredFields(entries: map<Key, Entry>, used: seq<MatchRow>, table: seq<ActivitySummary>,
                                   athleteId: int, segmentId: int, tol: real, lookupFails: set<int>,
                                   x: ActivityWithMatch)
    requires forall r :: r in used <==> exists k :: k in entries && k.segmentId == segmentId && k.tolerance == tol
                                                    && r == RowOf(k, entries[k])
    requires x in Merged(entries, ActivitiesByIds(table, athleteId, MatchIds(used)), used, segmentId, tol, lookupFails)
    ensures x.summary in table && x.summary.athleteId == athleteId
    ensures Key(segmentId, x.summary.id, tol) in entries
    ensures var e := entries[Key(segmentId, x.summary.id, tol)];
      x.minDistance == e.minDistance && x.overlapLength == e.overlapLength && x.overlapPct == e.overlapPct
  {
    var fetched := ActivitiesByIds(table, athleteId, MatchIds(used));
    MergedSound(entries, fetched, used, segmentId, tol, lookupFails, x);
    var m := LastFor(used, x.summary.id).value;
    var k :| k in entries && k.segmentId == segmentId && k.tolerance == tol && m == RowOf(k, entries[k]);
    assert k == Key(segmentId, x.summary.id, tol);
  }
}
