/**
 * The web handlers' own logic: pagination of the activities page, validation and slicing
 * when a segment is cut from an activity, the cache-or-compute flows of the indices and
 * metrics endpoints, query-parameter defaults, ownership checks, and the routing of
 * /api/segments/{id}/... paths. Query parameters arrive already parsed: None stands for a
 * parameter that is absent or does not parse.
 */
module Server {
  import opened Wrappers
  import opened Geo
  import opened Samples
  import opened Matching
  import opened Cache
  import opened Segments
  import Ingest
  import Query

  // ---------------------------------------------------------------------------
  // Pagination

  const DefaultPerPage: int := 20
  const MaxPerPage: int := 100

  /** The page parameter: taken when positive, else 1. */
  function PageParam(p: Option<int>): (page: int)
    ensures page >= 1
    ensures p.Some? && p.value > 0 ==> page == p.value
    ensures !(p.Some? && p.value > 0) ==> page == 1
  {
    if p.Some? && p.value > 0 then p.value else 1
  }

  /** The per_page parameter: taken when in 1..100, else 20. */
  function PerPageParam(p: Option<int>): (perPage: int)
    ensures 1 <= perPage <= MaxPerPage
    ensures p.Some? && 0 < p.value <= MaxPerPage ==> perPage == p.value
    ensures !(p.Some? && 0 < p.value <= MaxPerPage) ==> perPage == DefaultPerPage
  {
    if p.Some? && p.value > 0 && p.value <= MaxPerPage then p.value else DefaultPerPage
  }

  datatype Page = Page(page: int, perPage: int, totalPages: int, start: int, end: int, hasNext: bool, hasPrev: bool)

  /** renderActivitiesPageWithReq's arithmetic over the number of activities. */
  function Paginate(total: nat, pageParam: Option<int>, perPageParam: Option<int>): (p: Page)
    ensures p.perPage == PerPageParam(perPageParam)
    ensures p.totalPages >= 1
    ensures p.page == if PageParam(pageParam) <= p.totalPages then PageParam(pageParam) else p.totalPages
    ensures 1 <= p.page <= p.totalPages
    ensures p.hasNext <==> p.page < p.totalPages
    ensures p.hasPrev <==> p.page > 1
  {
    var perPage := PerPageParam(perPageParam);
    var pages := (total + perPage - 1) / perPage;
    var totalPages := if pages == 0 then 1 else pages;
    var page := if PageParam(pageParam) > totalPages then totalPages else PageParam(pageParam);
    var startIdx := (page - 1) * perPage;
    var endIdx := if startIdx + perPage > total then total else startIdx + perPage;
    Page(page, perPage, totalPages, startIdx, endIdx, page < totalPages, page > 1)
  }

  /**
   * The page count is the least number of pages that hold every activity (at least one),
   * and the shown range is the clamped page's slice: never empty when there are activities,
   * never longer than a page, and inside the list.
   */
  lemma PageBounds(total: nat, pageParam: Option<int>, perPageParam: Option<int>)
    ensures var p := Paginate(total, pageParam, perPageParam);
      && (total == 0 ==> p.totalPages == 1)
      && (total > 0 ==> (p.totalPages - 1) * p.perPage < total <= p.totalPages * p.perPage)
      && 0 <= p.start <= p.end <= total
      && p.start == (p.page - 1) * p.perPage
      && (total > 0 ==> p.start < p.end)
      && p.end - p.start <= p.perPage
      && (p.end == total || p.end == p.start + p.perPage)
  {
    var p := Paginate(total, pageParam, perPageParam);
    var n := p.perPage;
    CeilingDivision(total, n);
    MulMono(0, p.page - 1, n);
    MulMono(p.page - 1, p.totalPages - 1, n);
  }

  /** (total + n - 1) / n is the least number of n-sized pages holding total items. */
  lemma CeilingDivision(total: nat, n: int)
    requires n >= 1
    ensures var q := (total + n - 1) / n;
      q >= 0 && (total == 0 ==> q == 0) && (total > 0 ==> (q - 1) * n < total <= q * n)
  {
    var q := (total + n - 1) / n;
    var r := (total + n - 1) % n;
    assert q * n + r == total + n - 1;
    assert (q - 1) * n == q * n - n;
    if total == 0 {
      assert (n - 1) / n == 0;
    }
  }

  lemma MulMono(a: int, b: int, n: int)
    ensures a <= b && n >= 0 ==> a * n <= b * n
  {
    assert b * n - a * n == (b - a) * n;
  }

  lemma DivisionPinned(i: int, n: int, k: int)
    requires n >= 1 && k * n <= i < (k + 1) * n
    ensures i / n == k
  {
    var d := i / n;
    assert d * n + i % n == i;
    assert (d + 1) * n == d * n + n;
    MulMono(d + 1, k, n);
    MulMono(k + 1, d, n);
  }

  /** The activities shown on the page. */
  function PageItems<T>(items: seq<T>, pageParam: Option<int>, perPageParam: Option<int>): (shown: seq<T>)
    ensures |shown| <= PerPageParam(perPageParam)
    ensures |items| > 0 ==> |shown| > 0
  {
    var p := Paginate(|items|, pageParam, perPageParam);
    PageBounds(|items|, pageParam, perPageParam);
    items[p.start..p.end]
  }

  /** Every activity is shown on the page its index falls in, which exists. */
  lemma EveryItemOnItsPage(total: nat, perPageParam: Option<int>, i: int)
    requires 0 <= i < total
    ensures var own := i / PerPageParam(perPageParam) + 1;
      var p := Paginate(total, Some(own), perPageParam);
      && own <= p.totalPages && p.page == own && p.start <= i < p.end
  {
    var n := PerPageParam(perPageParam);
    var own := i / n + 1;
    var p := Paginate(total, Some(own), perPageParam);
    PageBounds(total, Some(own), perPageParam);
    IndexPage(i, n, total, p.totalPages);
    assert p.page == own;
  }

  /** The page index of item i is below the page count, and its page spans i. */
  lemma IndexPage(i: int, n: int, total: int, pages: int)
    requires n >= 1 && 0 <= i < total <= pages * n
    ensures 0 <= i / n < pages
    ensures (i / n) * n <= i < (i / n) * n + n
  {
    var d := i / n;
    assert d * n + i % n == i;
    MulMono(pages, d, n);
    MulMono(d + 1, 0, n);
    assert (d + 1) * n == d * n + n;
  }

  /** No other page shows it. */
  lemma NoItemOnTwoPages(total: nat, pageParam: Option<int>, perPageParam: Option<int>, i: int)
    ensures var p := Paginate(total, pageParam, perPageParam);
      p.start <= i < p.end ==> p.page == i / PerPageParam(perPageParam) + 1
  {
    var n := PerPageParam(perPageParam);
    var p := Paginate(total, pageParam, perPageParam);
    PageBounds(total, pageParam, perPageParam);
    if p.start <= i < p.end {
      InsidePageSlice(i, n, p.page, p.start, p.end);
    }
  }

  /** An index inside the slice of page `page` falls in that page. */
  lemma InsidePageSlice(i: int, n: int, page: int, start: int, end: int)
    requires n >= 1 && start == (page - 1) * n && end - start <= n && start <= i < end
    ensures i / n == page - 1
  {
    assert (page - 1 + 1) * n == (page - 1) * n + n;
    DivisionPinned(i, n, page - 1);
  }

  // ---------------------------------------------------------------------------
  // Cutting a segment out of an activity

  datatype CreateRequest = CreateRequest(name: string, description: string, activityId: int, startIndex: int, endIndex: int)

  /** The checks made before the samples are fetched. */
  predicate WellFormed(req: CreateRequest) {
    req.name != "" && req.startIndex >= 0 && req.endIndex >= 0 && req.startIndex < req.endIndex
  }

  /** The check against the number of samples the activity has. */
  predicate WithinSamples(req: CreateRequest, n: int) {
    !(req.startIndex >= n || req.endIndex > n)
  }

  /** The [lat, lng] pairs the handler builds from samples. */
  function PointsOf(samples: seq<PointSample>): (points: seq<seq<real>>)
    ensures |points| == |samples|
    ensures forall i :: 0 <= i < |samples| ==> points[i] == [samples[i].location.lat, samples[i].location.lng]
  {
    seq(|samples|, i requires 0 <= i < |samples| => [samples[i].location.lat, samples[i].location.lng])
  }

  /** An accepted request slices safely: it is exactly a non-empty range [start, end) of the samples. */
  lemma AcceptedIsRange(req: CreateRequest, n: int)
    ensures WellFormed(req) && WithinSamples(req, n) <==>
              req.name != "" && 0 <= req.startIndex < req.endIndex <= n
  {
  }

  /** The segment cut from a window is the line through the window's locations, with the window's gain. */
  lemma CutSegmentFollowsSamples(window: seq<PointSample>)
    ensures Ingest.AllPairs(PointsOf(window))
    ensures Ingest.Route(PointsOf(window)) == Locations(window)
  {
  }

  /** A one-sample window passes the handler's checks but is refused by the insert. */
  lemma OneSampleWindowRefused(t: SegmentTable, m: map<Key, Entry>, userId: int, req: CreateRequest,
                               window: seq<PointSample>, f: SegmentFaults)
    requires |window| == 1
    ensures Inserted(t, m, userId, req.name, req.description, PointsOf(window), window, f).result == Err(TooFewPoints)
  {
  }

  /** The slicing loop: the samples [start, end) and their [lat, lng] pairs. */
  method CutWindow(samples: seq<PointSample>, start: int, end: int)
    returns (latLngData: seq<seq<real>>, segmentSamples: seq<PointSample>)
    requires 0 <= start <= end <= |samples|
    ensures segmentSamples == samples[start..end]
    ensures latLngData == PointsOf(segmentSamples)
  {
    latLngData, segmentSamples := [], [];
    var i := start;
    while i < end
      invariant start <= i <= end
      invariant segmentSamples == samples[start..i]
      invariant |latLngData| == |segmentSamples|
      invariant forall j :: 0 <= j < |latLngData| ==>
                  latLngData[j] == [segmentSamples[j].location.lat, segmentSamples[j].location.lng]
    {
      latLngData := latLngData + [[samples[i].location.lat, samples[i].location.lng]];
      segmentSamples := segmentSamples + [samples[i]];
      i := i + 1;
    }
    assert latLngData == PointsOf(segmentSamples);
  }

  /**
   * The POST branch of handleSegmentsAPI: 400 for a malformed request, 404 when the
   * samples cannot be read, 400 when the range exceeds them, otherwise the insert of the
   * window [start, end): 200 with the segment, or 500.
   */
  method CreateSegment(store: SegmentStore, cache: MatchCache, userId: int, req: CreateRequest,
                       rows: seq<PointSample>, samplesFail: bool, f: SegmentFaults)
    returns (code: int, created: Option<FavoriteSegment>)
    modifies store
    ensures !WellFormed(req) ==> code == 400 && store.State() == old(store.State())
    ensures WellFormed(req) && samplesFail ==> code == 404 && store.State() == old(store.State())
    ensures var samples := Query.ActivitySamples(rows, userId, req.activityId);
      WellFormed(req) && !samplesFail && !WithinSamples(req, |samples|) ==>
        code == 400 && store.State() == old(store.State())
    ensures var samples := Query.ActivitySamples(rows, userId, req.activityId);
      WellFormed(req) && !samplesFail && WithinSamples(req, |samples|) ==>
        var window := samples[req.startIndex..req.endIndex];
        var o := Inserted(old(store.State()), cache.entries, userId, req.name, req.description, PointsOf(window), window, f);
        && store.State() == o.table
        && (code == 200 <==> o.result.Ok?)
        && (code == 200 ==> created == Some(o.result.value))
        && (code != 200 ==> code == 500)
  {
    created := None;
    if req.name == "" {
      return 400, None;
    }
    if req.startIndex < 0 || req.endIndex < 0 || req.startIndex >= req.endIndex {
      return 400, None;
    }
    if samplesFail {
      return 404, None;
    }
    var samples := Query.ActivitySamples(rows, userId, req.activityId);
    if req.startIndex >= |samples| || req.endIndex > |samples| {
      return 400, None;
    }
    var latLngData, segmentSamples := CutWindow(samples, req.startIndex, req.endIndex);
    var r := store.InsertFavoriteSegment(cache, userId, req.name, req.description, latLngData, segmentSamples, f);
    if r.Err? {
      return 500, None;
    }
    return 200, Some(r.value);
  }

  // ---------------------------------------------------------------------------
  // Parameter defaults

  const DefaultTolerance: real := 15.0

  /** tolerance: the parsed value when it parses, else 15 metres. */
  function ToleranceParam(parsed: Option<real>): (tol: real)
    ensures parsed.None? ==> tol == DefaultTolerance
    ensures parsed.Some? ==> tol == parsed.value
  {
    parsed.GetOr(DefaultTolerance)
  }

  /** sort: "distance" when empty. */
  function SortParam(s: string): (sortBy: string)
    ensures s == "" ==> sortBy == "distance"
    ensures s != "" ==> sortBy == s
  {
    if s == "" then "distance" else s
  }

  /** refresh: only the exact text "true" forces recomputation. */
  function RefreshParam(s: string): (force: bool)
    ensures force <==> s == "true"
  {
    s == "true"
  }

  /** An absent sort parameter ranks by min distance ascending, exactly as "distance" does. */
  lemma DefaultSortIsDistance()
    ensures Query.SortByOf(SortParam("")) == Query.ByMinDistance
    ensures Query.SortByOf("distance") == Query.ByMinDistance
  {
  }

  // ---------------------------------------------------------------------------
  // Cache-or-compute endpoints

  /**
   * GET /api/segments/{id}/activity/{activityId}/indices: a cached entry answers only when
   * both its indices are present; otherwise find_segment_point_indices is asked, and its
   * NULL pair (nothing on the segment) or a failure answers 500. The cache is only read.
   */
  method SegmentIndices(cache: MatchCache, g: Geodesy, segment: Option<Line>, rows: seq<PointSample>, userId: int,
                        segmentId: int, activityId: int, tolParam: Option<real>, cacheFails: bool, queryFails: bool)
    returns (code: int, range: Option<IndexRange>)
    ensures var tol := ToleranceParam(tolParam);
      var k := Key(segmentId, activityId, tol);
      var hit := !cacheFails && k in cache.entries && cache.entries[k].startIndex.Some? && cache.entries[k].endIndex.Some?;
      && (hit ==> code == 200 && range == Some(IndexRange(cache.entries[k].startIndex.value, cache.entries[k].endIndex.value)))
      && (!hit ==> var computed := FindSegmentPointIndices(g, segment, tol, activityId, userId, rows);
                   if queryFails || computed.None? then code == 500 && range.None?
                   else code == 200 && range == computed)
  {
    var tol := ToleranceParam(tolParam);
    var cached := cache.GetCachedSegmentActivityMetrics(Key(segmentId, activityId, tol), cacheFails);
    if cached.Ok? && cached.value.Some? && cached.value.value.startIndex.Some? && cached.value.value.endIndex.Some? {
      return 200, Some(IndexRange(cached.value.value.startIndex.value, cached.value.value.endIndex.value));
    }
    var computed := FindSegmentPointIndices(g, segment, tol, activityId, userId, rows);
    if queryFails || computed.None? {
      return 500, None;
    }
    return 200, computed;
  }

  /** Which reads and writes of the metrics endpoint fail. */
  datatype MetricsFaults = MetricsFaults(
    cacheReadFails: bool, computeFails: bool, indicesFail: bool, updateFails: bool, insertFails: bool)

  /** A cached entry answers the metrics endpoint only when it holds both averages. */
  predicate MetricsHit(e: Entry) {
    e.avgHr.Some? && e.avgSpeed.Some?
  }

  /** A hit's answer: the two averages, and distance and climb with 0 for a missing value. */
  function CachedAnswer(e: Entry): (a: ActivitySegmentMetrics)
    requires MetricsHit(e)
    ensures a.avgHr == e.avgHr.value && a.avgSpeed == e.avgSpeed.value
    ensures a.distance == e.distance.GetOr(0.0) && a.elevationGain == e.elevationGain.GetOr(0.0)
  {
    ActivitySegmentMetrics(e.avgHr.value, e.avgSpeed.value, e.distance.GetOr(0.0), e.elevationGain.GetOr(0.0))
  }

  const ZeroMetrics := ActivitySegmentMetrics(0.0, 0.0, 0.0, 0.0)

  /**
   * GET /api/segments/{id}/activity/{activityId}/metrics: a hit is answered from the cache;
   * otherwise the metrics are computed (a failure answers zeros), and they are written back
   * with the index range only when the range resolves. A failed write is ignored.
   */
  method SegmentActivityMetricsHandler(cache: MatchCache, g: Geodesy, segment: Option<Line>, rows: seq<PointSample>,
                                       userId: int, segmentId: int, activityId: int, tolParam: Option<real>, now: int,
                                       f: MetricsFaults)
    returns (answer: ActivitySegmentMetrics)
    modifies cache
    ensures var tol := ToleranceParam(tolParam);
      var k := Key(segmentId, activityId, tol);
      var hit := !f.cacheReadFails && k in old(cache.entries) && MetricsHit(old(cache.entries)[k]);
      && (hit ==> answer == CachedAnswer(old(cache.entries)[k]) && cache.entries == old(cache.entries))
      && (!hit && f.computeFails ==> answer == ZeroMetrics && cache.entries == old(cache.entries))
      && (!hit && !f.computeFails ==>
            var x := GetActivitySegmentMetrics(g, segment, tol, activityId, userId, rows);
            var range := FindSegmentPointIndices(g, segment, tol, activityId, userId, rows);
            && answer == x
            && (f.indicesFail || range.None? ==> cache.entries == old(cache.entries))
            && (!f.indicesFail && range.Some? ==>
                  var mx := Metrics(range.value.start, range.value.end, x.avgHr, x.avgSpeed, x.distance, x.elevationGain);
                  cache.entries == MetricsWritten(old(cache.entries), k, mx, now, f.updateFails, f.insertFails)))
  {
    var tol := ToleranceParam(tolParam);
    var k := Key(segmentId, activityId, tol);
    var cached := cache.GetCachedSegmentActivityMetrics(k, f.cacheReadFails);
    if cached.Ok? && cached.value.Some? && cached.value.value.avgHr.Some? && cached.value.value.avgSpeed.Some? {
      return CachedAnswer(cached.value.value);
    }
    if f.computeFails {
      return ZeroMetrics;
    }
    var x := GetActivitySegmentMetrics(g, segment, tol, activityId, userId, rows);
    var range := FindSegmentPointIndices(g, segment, tol, activityId, userId, rows);
    if !f.indicesFail && range.Some? {
      var mx := Metrics(range.value.start, range.value.end, x.avgHr, x.avgSpeed, x.distance, x.elevationGain);
      var _ := cache.CacheSegmentActivityMetrics(k, mx, now, f.updateFails, f.insertFails);
    }
    return x;
  }

  /** The cache after CacheSegmentActivityMetrics: UPDATE of an existing entry, or INSERT when the UPDATE errors. */
  function MetricsWritten(m: map<Key, Entry>, k: Key, x: Metrics, now: int, updateFails: bool, insertFails: bool)
    : (r: map<Key, Entry>)
    ensures r.Keys <= m.Keys + {k}
    ensures forall j :: j in m && j != k ==> j in r && r[j] == m[j]
    ensures updateFails && insertFails ==> r == m
    ensures updateFails && !insertFails ==> k in r
    ensures !updateFails ==> (k in r <==> k in m)
    ensures !(updateFails && insertFails) && k in r ==> r[k] == WithMetrics(r[k], x, now)
  {
    if !updateFails then (if k in m then m[k := WithMetrics(m[k], x, now)] else m)
    else if insertFails then m
    else m[k := if k in m then WithMetrics(m[k], x, now) else MetricsOnlyEntry(x, now)]
  }

  /** Once metrics are written back for a key, the next request for that key is a cache hit with the same answer. */
  lemma WrittenMetricsAnswerNextTime(m: map<Key, Entry>, k: Key, x: Metrics, now: int, updateFails: bool, insertFails: bool)
    requires !(updateFails && insertFails) && k in MetricsWritten(m, k, x, now, updateFails, insertFails)
    ensures var e := MetricsWritten(m, k, x, now, updateFails, insertFails)[k];
      MetricsHit(e) && CachedAnswer(e) == ActivitySegmentMetrics(x.avgHr, x.avgSpeed, x.distance, x.elevationGain)
      && e.startIndex == Some(x.startIndex) && e.endIndex == Some(x.endIndex)
  {
  }

  // ---------------------------------------------------------------------------
  // Ownership

  /**
   * GET /api/segments/{id}: 404 when no segment has the id, 403 when it belongs to another
   * athlete, otherwise 200 with the segment.
   */
  function SegmentGet(segments: map<int, FavoriteSegment>, userId: int, segmentId: int)
    : (r: (int, Option<FavoriteSegment>))
    ensures r.0 == 200 <==> segmentId in segments && segments[segmentId].athleteId == userId
    ensures r.0 == 200 ==> r.1 == Some(segments[segmentId])
    ensures r.0 != 200 ==> r.1.None?
    ensures r.0 == 404 <==> segmentId !in segments
    ensures r.0 == 403 <==> segmentId in segments && segments[segmentId].athleteId != userId
  {
    if segmentId !in segments then (404, None)
    else if segments[segmentId].athleteId != userId then (403, None)
    else (200, Some(segments[segmentId]))
  }

  /**
   * DELETE /api/segments/{id}: 404 and 403 as for GET, and neither touches the table or the
   * cache; otherwise the delete: 204, or 500 when it fails.
   */
  method DeleteSegmentHandler(store: SegmentStore, cache: MatchCache, userId: int, segmentId: int, f: SegmentFaults)
    returns (code: int)
    modifies store, cache
    ensures segmentId !in old(store.rows) ==> code == 404
    ensures segmentId in old(store.rows) && old(store.rows)[segmentId].athleteId != userId ==> code == 403
    ensures code == 404 || code == 403 ==> store.State() == old(store.State()) && cache.entries == old(cache.entries)
    ensures segmentId in old(store.rows) && old(store.rows)[segmentId].athleteId == userId ==>
      var o := Deleted(old(store.State()), old(cache.entries), segmentId, f);
      store.State() == o.table && cache.entries == o.cache && (code == 204 <==> o.result.Ok?) && (code != 204 ==> code == 500)
  {
    var (status, _) := SegmentGet(store.rows, userId, segmentId);
    if status != 200 {
      return status;
    }
    var r := store.DeleteFavoriteSegment(cache, segmentId, f);
    if r.Err? {
      return 500;
    }
    return 204;
  }

  /** Nobody deletes another athlete's segment: its row and the cache stay as they were. */
  lemma OwnerOnlyDeletes(segments: map<int, FavoriteSegment>, userId: int, segmentId: int)
    requires segmentId in segments && segments[segmentId].athleteId != userId
    ensures SegmentGet(segments, userId, segmentId).0 == 403
    ensures SegmentGet(segments, userId, segmentId).1.None?
  {
  }

  // ---------------------------------------------------------------------------
  // Routing of GET /api/segments/{id}/...

  predicate IsDigit(c: char) {
    '0' <= c <= '9'
  }

  function DigitValue(c: char): nat
    requires IsDigit(c)
  {
    c as int - '0' as int
  }

  predicate AllDigits(s: string) {
    forall i :: 0 <= i < |s| ==> IsDigit(s[i])
  }

  /** The text after an optional leading sign. */
  function Unsigned(s: string): string {
    if |s| > 0 && (s[0] == '+' || s[0] == '-') then s[1..] else s
  }

  /** The value of a run of decimal digits. */
  function DigitsValue(s: string): nat
    requires AllDigits(s)
  {
    if s == [] then 0 else DigitsValue(s[..|s| - 1]) * 10 + DigitValue(s[|s| - 1])
  }

  /** The text strconv.ParseInt(s, 10, 64) accepts: an optional sign, one or more digits, a value in int64 range. */
  predicate IsInt64Text(s: string) {
    && |Unsigned(s)| > 0
    && AllDigits(Unsigned(s))
    && DigitsValue(Unsigned(s)) <= (if |s| > 0 && s[0] == '-' then 0x8000_0000_0000_0000 else 0x7FFF_FFFF_FFFF_FFFF)
  }

  /** A single digit, signed or not, is an id; an empty or signed-only text and one with another character are not. */
  lemma Int64TextExamples()
    ensures IsInt64Text("1") && IsInt64Text("+1") && IsInt64Text("-1")
    ensures !IsInt64Text("") && !IsInt64Text("-") && !IsInt64Text("abc") && !IsInt64Text("1.5")
  {
    OneIsInt64Text();
    assert "+1"[1..] == "1" && "-1"[1..] == "1";
    assert "-"[1..] == "";
    NonDigitRefused("abc", 0);
    NonDigitRefused("1.5", 1);
  }

  /** An unsigned text with a character other than a digit is refused. */
  lemma NonDigitRefused(s: string, i: int)
    requires 0 <= i < |s| && s[0] != '+' && s[0] != '-' && !IsDigit(s[i])
    ensures !IsInt64Text(s)
  {
    assert Unsigned(s) == s;
    assert !IsDigit(Unsigned(s)[i]);
  }

  lemma OneIsInt64Text()
    ensures IsInt64Text("1")
  {
    assert "1"[..0] == "";
    assert DigitsValue("1") == 1;
  }

  /** Only the int64 range is accepted: a run of digits is an id exactly when its value is at most 2^63 - 1 (2^63 with a minus sign). */
  lemma Int64TextRange(digits: string)
    requires |digits| > 0 && AllDigits(digits)
    ensures IsInt64Text(digits) <==> DigitsValue(digits) <= 0x7FFF_FFFF_FFFF_FFFF
    ensures IsInt64Text("-" + digits) <==> DigitsValue(digits) <= 0x8000_0000_0000_0000
    ensures IsInt64Text("+" + digits) <==> DigitsValue(digits) <= 0x7FFF_FFFF_FFFF_FFFF
  {
    assert ("-" + digits)[1..] == digits;
    assert ("+" + digits)[1..] == digits;
  }

  datatype Endpoint =
    | MissingId        // no id after the prefix: 400
    | InvalidId        // an id that is not a base-10 int64: 400, before any route is chosen
    | SegmentGraph     // {id}/graph
    | SegmentSummary   // {id}/metrics
    | ActivityIndices  // {id}/activity/{activityId}/indices
    | ActivityMetrics  // {id}/activity/{activityId}/metrics
    | InvalidActivityId // {id}/activity/{activityId}/indices or /metrics whose activityId is not an int64: 400
    | SegmentMatches   // {id}/activities
    | SegmentItself    // {id} and anything not matched above
    | Panic            // an index past the end of the path parts

  /**
   * handleSegmentAPI's GET dispatch as written: the activity routes test len(parts) > 2 but
   * read parts[3], so a path with a numeric id and exactly three parts whose second is
   * "activity" panics.
   */
  function DispatchAsWritten(parts: seq<string>): (e: Endpoint)
    ensures e == InvalidId <==> |parts| > 0 && parts[0] != "" && !IsInt64Text(parts[0])
    ensures e == Panic <==> |parts| == 3 && IsInt64Text(parts[0]) && parts[1] == "activity"
    ensures e == InvalidActivityId <==>
              |parts| > 3 && IsInt64Text(parts[0]) && parts[1] == "activity" && (parts[3] == "indices" || parts[3] == "metrics")
              && !IsInt64Text(parts[2])
  {
    if |parts| == 0 || parts[0] == "" then MissingId
    else if !IsInt64Text(parts[0]) then InvalidId
    else if |parts| > 1 && parts[1] == "graph" then SegmentGraph
    else if |parts| > 1 && parts[1] == "metrics" then SegmentSummary
    else if |parts| > 2 && parts[1] == "activity" then
      (if |parts| <= 3 then Panic
       else if parts[3] == "indices" then (if IsInt64Text(parts[2]) then ActivityIndices else InvalidActivityId)
       else if parts[3] == "metrics" then (if IsInt64Text(parts[2]) then ActivityMetrics else InvalidActivityId)
       else SegmentItself)
    else if |parts| > 1 && parts[1] == "activities" then SegmentMatches
    else SegmentItself
  }

  /** /api/segments/1/activity/2 splits into ["1", "activity", "2"] and panics. */
  lemma DispatchAsWrittenPanics()
    ensures DispatchAsWritten(["1", "activity", "2"]) == Panic
  {
    OneIsInt64Text();
  }

  /** A non-numeric activity id on the indices route is answered 400. */
  lemma InvalidActivityIdRefused()
    ensures Dispatch(["1", "activity", "x", "indices"]) == InvalidActivityId
    ensures DispatchAsWritten(["1", "activity", "x", "metrics"]) == InvalidActivityId
  {
    OneIsInt64Text();
    NonDigitRefused("x", 0);
  }

  /** A non-numeric id is refused before routing, so the same path with the id "abc" does not panic. */
  lemma InvalidIdRefusedBeforeRouting()
    ensures DispatchAsWritten(["abc", "activity", "2"]) == InvalidId
    ensures Dispatch(["abc", "activity", "2", "indices"]) == InvalidId
  {
    NonDigitRefused("abc", 0);
  }

  /** The dispatch with the activity routes guarded by len(parts) > 3. */
  function Dispatch(parts: seq<string>): (e: Endpoint)
    ensures e != Panic
    ensures e == InvalidId <==> |parts| > 0 && parts[0] != "" && !IsInt64Text(parts[0])
    ensures e == ActivityIndices <==>
              |parts| > 3 && IsInt64Text(parts[0]) && parts[1] == "activity" && parts[3] == "indices" && IsInt64Text(parts[2])
    ensures e == ActivityMetrics <==>
              |parts| > 3 && IsInt64Text(parts[0]) && parts[1] == "activity" && parts[3] == "metrics" && IsInt64Text(parts[2])
    ensures e == InvalidActivityId <==>
              |parts| > 3 && IsInt64Text(parts[0]) && parts[1] == "activity" && (parts[3] == "indices" || parts[3] == "metrics")
              && !IsInt64Text(parts[2])
    ensures |parts| == 3 && IsInt64Text(parts[0]) && parts[1] == "activity" ==> e == SegmentItself
  {
    if |parts| == 0 || parts[0] == "" then MissingId
    else if !IsInt64Text(parts[0]) then InvalidId
    else if |parts| > 1 && parts[1] == "graph" then SegmentGraph
    else if |parts| > 1 && parts[1] == "metrics" then SegmentSummary
    else if |parts| > 3 && parts[1] == "activity" && parts[3] == "indices" then
      (if IsInt64Text(parts[2]) then ActivityIndices else InvalidActivityId)
    else if |parts| > 3 && parts[1] == "activity" && parts[3] == "metrics" then
      (if IsInt64Text(parts[2]) then ActivityMetrics else InvalidActivityId)
    else if |parts| > 1 && parts[1] == "activities" then SegmentMatches
    else SegmentItself
  }

  /** The guarded dispatch agrees with the written one on every path that does not panic. */
  lemma DispatchAgreesWhereNoPanic(parts: seq<string>)
    requires DispatchAsWritten(parts) != Panic
    ensures Dispatch(parts) == DispatchAsWritten(parts)
  {
  }
}
