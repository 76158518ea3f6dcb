/**
 * The segment/activity match cache (`segment_activity_matches`): one entry per
 * (segment, activity, tolerance) key, holding the match figures the matcher produced and,
 * once the metrics handler has run, the resolved sample range and segment metrics.
 * Every write stamps the entry with the current time, which the one-hour freshness rule reads.
 */
module Cache {
  import opened Wrappers
  import opened Matching

  /** The table's primary key. */
  datatype Key = Key(segmentId: int, activityId: int, tolerance: real)

  /** A SegmentActivityCacheEntry without its key columns: match fields always set, range and metrics optional. */
  datatype Entry = Entry(
    minDistance: real, overlapLength: real, overlapPct: real,
    startIndex: Option<int>, endIndex: Option<int>,
    avgHr: Option<real>, avgSpeed: Option<real>, distance: Option<real>, elevationGain: Option<real>,
    cachedAt: int)

  /** The values the metrics handler writes for one key. */
  datatype Metrics = Metrics(startIndex: int, endIndex: int, avgHr: real, avgSpeed: real, distance: real, elevationGain: real)

  function KeyOf(segmentId: int, tol: real, r: MatchRow): Key {
    Key(segmentId, r.activityId, tol)
  }

  /** The cached row as getCachedSegmentMatches reads it back (it does not read a segment name). */
  function RowOf(k: Key, e: Entry): MatchRow {
    MatchRow(k.activityId, k.segmentId, None, e.minDistance, e.overlapLength, e.overlapPct)
  }

  // ---------------------------------------------------------------------------
  // Upsert of match lists

  /**
   * The percentage that is stored: a given percentage of exactly 0 is recomputed from the
   * overlap when both the overlap and the segment length are positive; otherwise it is kept.
   */
  function StoredPercentage(given: real, overlap: real, segLength: real): (pct: real)
    ensures given != 0.0 || overlap <= 0.0 || segLength <= 0.0 ==> pct == given
    ensures given == 0.0 && overlap > 0.0 && segLength > 0.0 ==> pct > 0.0 && pct * segLength == overlap * 100.0
  {
    if given == 0.0 && overlap > 0.0 && segLength > 0.0 then
      assert overlap / segLength * segLength == overlap;
      overlap / segLength * 100.0
    else given
  }

  /**
   * One INSERT ... ON CONFLICT DO UPDATE: a new entry has only its match fields; an existing
   * one gets new match fields and timestamp and keeps its range and metrics.
   */
  function UpsertEntry(prev: Option<Entry>, r: MatchRow, segLength: real, now: int): (e: Entry)
    ensures e.minDistance == r.minDistance && e.overlapLength == r.overlapLength && e.cachedAt == now
    ensures e.overlapPct == StoredPercentage(r.overlapPct, r.overlapLength, segLength)
    ensures prev.Some? ==> e.(minDistance := 0.0, overlapLength := 0.0, overlapPct := 0.0, cachedAt := 0)
                           == prev.value.(minDistance := 0.0, overlapLength := 0.0, overlapPct := 0.0, cachedAt := 0)
    ensures prev.None? ==> e.startIndex.None? && e.endIndex.None? && e.avgHr.None? && e.avgSpeed.None?
                           && e.distance.None? && e.elevationGain.None?
  {
    var pct := StoredPercentage(r.overlapPct, r.overlapLength, segLength);
    match prev
    case None => Entry(r.minDistance, r.overlapLength, pct, None, None, None, None, None, None, now)
    case Some(old_) => old_.(minDistance := r.minDistance, overlapLength := r.overlapLength, overlapPct := pct, cachedAt := now)
  }

  function Lookup(m: map<Key, Entry>, k: Key): Option<Entry> {
    if k in m then Some(m[k]) else None
  }

  function UpsertMatch(m: map<Key, Entry>, segmentId: int, tol: real, r: MatchRow, segLength: real, now: int): map<Key, Entry> {
    var k := KeyOf(segmentId, tol, r);
    m[k := UpsertEntry(Lookup(m, k), r, segLength, now)]
  }

  /** The upserts of a list of matches, applied in list order. */
  function UpsertAll(m: map<Key, Entry>, segmentId: int, tol: real, rows: seq<MatchRow>, segLength: real, now: int): map<Key, Entry> {
    if rows == [] then m
    else UpsertMatch(UpsertAll(m, segmentId, tol, rows[..|rows| - 1], segLength, now), segmentId, tol, rows[|rows| - 1], segLength, now)
  }

  /** The last row of the list for that activity: the one whose upsert is seen last. */
  function LastFor(rows: seq<MatchRow>, activityId: int): (r: Option<MatchRow>)
    ensures r.Some? ==> r.value in rows && r.value.activityId == activityId
    ensures r.Some? ==> exists i :: 0 <= i < |rows| && rows[i] == r.value
                                    && forall j :: i < j < |rows| ==> rows[j].activityId != activityId
    ensures r.None? <==> forall x :: x in rows ==> x.activityId != activityId
  {
    if rows == [] then None
    else if rows[|rows| - 1].activityId == activityId then Some(rows[|rows| - 1])
    else
      var init := rows[..|rows| - 1];
      var r := LastFor(init, activityId);
      assert forall x :: x in rows ==> x in init || x == rows[|rows| - 1];
      if r.Some? then
        var i :| 0 <= i < |init| && init[i] == r.value && forall j :: i < j < |init| ==> init[j].activityId != activityId;
        assert rows[i] == r.value && forall j :: i < j < |rows| ==> rows[j].activityId != activityId;
        r
      else r
  }

  /**
   * What a run of upserts leaves under each key: a key of this segment and tolerance that
   * some row names holds that activity's last row, laid over whatever the key held before;
   * every other key is exactly as it was.
   */
  lemma {:induction false} UpsertAllEffect(m: map<Key, Entry>, segmentId: int, tol: real, rows: seq<MatchRow>,
                                           segLength: real, now: int, k: Key)
    ensures k.segmentId == segmentId && k.tolerance == tol && LastFor(rows, k.activityId).Some? ==>
              Lookup(UpsertAll(m, segmentId, tol, rows, segLength, now), k)
              == Some(UpsertEntry(Lookup(m, k), LastFor(rows, k.activityId).value, segLength, now))
    ensures !(k.segmentId == segmentId && k.tolerance == tol && LastFor(rows, k.activityId).Some?) ==>
              Lookup(UpsertAll(m, segmentId, tol, rows, segLength, now), k) == Lookup(m, k)
  {
    if rows != [] {
      var init := rows[..|rows| - 1];
      var last := rows[|rows| - 1];
      UpsertAllEffect(m, segmentId, tol, init, segLength, now, k);
    }
  }

  /** Upserting the same list twice at the same time leaves what upserting it once leaves. */
  lemma UpsertAllIdempotent(m: map<Key, Entry>, segmentId: int, tol: real, rows: seq<MatchRow>, segLength: real, now: int)
    ensures UpsertAll(UpsertAll(m, segmentId, tol, rows, segLength, now), segmentId, tol, rows, segLength, now)
            == UpsertAll(m, segmentId, tol, rows, segLength, now)
  {
    var once := UpsertAll(m, segmentId, tol, rows, segLength, now);
    var twice := UpsertAll(once, segmentId, tol, rows, segLength, now);
    forall k ensures Lookup(twice, k) == Lookup(once, k) {
      UpsertAllEffect(m, segmentId, tol, rows, segLength, now, k);
      UpsertAllEffect(once, segmentId, tol, rows, segLength, now, k);
    }
    assert forall k :: k in twice <==> k in once by {
      forall k ensures k in twice <==> k in once {
        assert Lookup(twice, k) == Lookup(once, k);
      }
    }
    assert forall k :: k in twice ==> twice[k] == once[k] by {
      forall k | k in twice ensures twice[k] == once[k] {
        assert Lookup(twice, k) == Lookup(once, k);
      }
    }
  }

  /** An upsert never touches the range or metrics already cached under any key. */
  lemma UpsertAllKeepsMetrics(m: map<Key, Entry>, segmentId: int, tol: real, rows: seq<MatchRow>, segLength: real, now: int, k: Key)
    requires k in m
    ensures k in UpsertAll(m, segmentId, tol, rows, segLength, now)
    ensures var e := UpsertAll(m, segmentId, tol, rows, segLength, now)[k];
            e.startIndex == m[k].startIndex && e.endIndex == m[k].endIndex && e.avgHr == m[k].avgHr
            && e.avgSpeed == m[k].avgSpeed && e.distance == m[k].distance && e.elevationGain == m[k].elevationGain
  {
    UpsertAllEffect(m, segmentId, tol, rows, segLength, now, k);
    var e := Lookup(UpsertAll(m, segmentId, tol, rows, segLength, now), k);
    if k.segmentId == segmentId && k.tolerance == tol && LastFor(rows, k.activityId).Some? {
      var u := UpsertEntry(Some(m[k]), LastFor(rows, k.activityId).value, segLength, now);
      assert u.startIndex == m[k].startIndex;
    }
  }

  /** No two rows of the list name the same activity. */
  predicate DistinctActivities(rows: seq<MatchRow>) {
    forall i, j :: 0 <= i < j < |rows| ==> rows[i].activityId != rows[j].activityId
  }

  lemma {:induction false} LastForDistinct(rows: seq<MatchRow>, r: MatchRow)
    requires DistinctActivities(rows) && r in rows
    ensures LastFor(rows, r.activityId) == Some(r)
  {
    if rows[|rows| - 1] != r {
      var init := rows[..|rows| - 1];
      assert r in init by {
        var i :| 0 <= i < |rows| && rows[i] == r;
        assert i < |rows| - 1;
        assert init[i] == r;
      }
      LastForDistinct(init, r);
    }
  }

  /**
   * Round trip: once a list of matches for distinct activities is cached (and no percentage
   * needed recomputing), reading each key back gives that match, less the segment name.
   */
  lemma CachedMatchRoundTrip(m: map<Key, Entry>, segmentId: int, tol: real, rows: seq<MatchRow>, segLength: real, now: int, r: MatchRow)
    requires DistinctActivities(rows) && r in rows && r.segmentId == segmentId
    requires StoredPercentage(r.overlapPct, r.overlapLength, segLength) == r.overlapPct
    ensures KeyOf(segmentId, tol, r) in UpsertAll(m, segmentId, tol, rows, segLength, now)
    ensures RowOf(KeyOf(segmentId, tol, r), UpsertAll(m, segmentId, tol, rows, segLength, now)[KeyOf(segmentId, tol, r)])
            == r.(segmentName := None)
    ensures UpsertAll(m, segmentId, tol, rows, segLength, now)[KeyOf(segmentId, tol, r)].cachedAt == now
  {
    LastForDistinct(rows, r);
    UpsertAllEffect(m, segmentId, tol, rows, segLength, now, KeyOf(segmentId, tol, r));
  }

  /** The matcher's own percentages are never recomputed by the cache: they are positive whenever the recomputation would apply. */
  lemma MatcherPercentagesStoredAsGiven(g: Geo.Geodesy, line: Geo.Line, segmentId: int, tol: real,
                                        geoms: seq<RouteGeometry>, r: MatchRow)
    requires r in FindRoutePartsMatchingSegment(g, Some(line), segmentId, tol, geoms)
    ensures StoredPercentage(r.overlapPct, r.overlapLength, g.length(line)) == r.overlapPct
  {
    MatchesAreSound(g, Some(line), segmentId, tol, geoms, r);
  }

  // ---------------------------------------------------------------------------
  // Metrics update, invalidation

  /** The UPDATE of the metrics handler: range, metrics and timestamp change; match fields stay. */
  function WithMetrics(e: Entry, x: Metrics, now: int): (r: Entry)
    ensures r.minDistance == e.minDistance && r.overlapLength == e.overlapLength && r.overlapPct == e.overlapPct
    ensures r.startIndex == Some(x.startIndex) && r.endIndex == Some(x.endIndex)
    ensures r.avgHr == Some(x.avgHr) && r.avgSpeed == Some(x.avgSpeed)
    ensures r.distance == Some(x.distance) && r.elevationGain == Some(x.elevationGain) && r.cachedAt == now
  {
    e.(startIndex := Some(x.startIndex), endIndex := Some(x.endIndex), avgHr := Some(x.avgHr),
       avgSpeed := Some(x.avgSpeed), distance := Some(x.distance), elevationGain := Some(x.elevationGain), cachedAt := now)
  }

  /** The fallback INSERT: zero match fields under the given range and metrics. */
  function MetricsOnlyEntry(x: Metrics, now: int): (r: Entry)
    ensures r.minDistance == 0.0 && r.overlapLength == 0.0 && r.overlapPct == 0.0
    ensures r == WithMetrics(r, x, now)
  {
    Entry(0.0, 0.0, 0.0, Some(x.startIndex), Some(x.endIndex), Some(x.avgHr), Some(x.avgSpeed),
          Some(x.distance), Some(x.elevationGain), now)
  }

  /** DELETE ... WHERE segment_id = s. */
  function WithoutSegment(m: map<Key, Entry>, segmentId: int): (r: map<Key, Entry>)
    ensures forall k :: k in r <==> k in m && k.segmentId != segmentId
    ensures forall k :: k in r ==> r[k] == m[k]
  {
    map k | k in m && k.segmentId != segmentId :: m[k]
  }

  /** DELETE ... WHERE activity_id = a. */
  function WithoutActivity(m: map<Key, Entry>, activityId: int): (r: map<Key, Entry>)
    ensures forall k :: k in r <==> k in m && k.activityId != activityId
    ensures forall k :: k in r ==> r[k] == m[k]
  {
    map k | k in m && k.activityId != activityId :: m[k]
  }

  // ---------------------------------------------------------------------------
  // The table

  class MatchCache {
    var entries: map<Key, Entry>

    constructor ()
      ensures entries == map[]
    {
      entries := map[];
    }

    /**
     * CacheSegmentActivityMatches. `segLength` is the segment-length query's answer (None when it
     * fails, read as 0); `failAt` is the position of the first upsert the database rejects, if any.
     * Upserts before the failing one stay written; nothing at all happens for an empty list.
     */
    method CacheSegmentActivityMatches(segmentId: int, tol: real, matches: seq<MatchRow>, segLength: Option<real>,
                                       now: int, failAt: Option<nat>) returns (err: bool)
      modifies this
      ensures err <==> failAt.Some? && failAt.value < |matches|
      ensures !err ==> entries == UpsertAll(old(entries), segmentId, tol, matches, segLength.GetOr(0.0), now)
      ensures err ==> entries == UpsertAll(old(entries), segmentId, tol, matches[..failAt.value], segLength.GetOr(0.0), now)
      ensures matches == [] ==> entries == old(entries)
    {
      if |matches| == 0 {
        return false;
      }
      var len := segLength.GetOr(0.0);
      var i := 0;
      while i < |matches|
        invariant 0 <= i <= |matches|
        invariant failAt.Some? ==> i <= failAt.value
        invariant entries == UpsertAll(old(entries), segmentId, tol, matches[..i], len, now)
      {
        if failAt == Some(i) {
          return true;
        }
        entries := UpsertMatch(entries, segmentId, tol, matches[i], len, now);
        assert matches[..i + 1][..i] == matches[..i];
        i := i + 1;
      }
      assert matches[..i] == matches;
      return false;
    }

    /**
     * CacheSegmentActivityMetrics. The UPDATE touches only an existing entry; the INSERT with
     * zeroed match fields runs only when the UPDATE itself fails, and an error is reported only
     * when both fail.
     */
    method CacheSegmentActivityMetrics(k: Key, x: Metrics, now: int, updateFails: bool, insertFails: bool) returns (err: bool)
      modifies this
      ensures err <==> updateFails && insertFails
      ensures !updateFails ==> entries == if k in old(entries) then old(entries)[k := WithMetrics(old(entries)[k], x, now)] else old(entries)
      ensures updateFails && !insertFails ==>
                entries == old(entries)[k := if k in old(entries) then WithMetrics(old(entries)[k], x, now) else MetricsOnlyEntry(x, now)]
      ensures updateFails && insertFails ==> entries == old(entries)
    {
      if !updateFails {
        if k in entries {
          entries := entries[k := WithMetrics(entries[k], x, now)];
        }
        return false;
      }
      if insertFails {
        return true;
      }
      entries := entries[k := if k in entries then WithMetrics(entries[k], x, now) else MetricsOnlyEntry(x, now)];
      return false;
    }

    /** GetCachedSegmentActivityMetrics: a missing key is "no entry", not an error; only a failing query is an error. */
    method GetCachedSegmentActivityMetrics(k: Key, queryFails: bool) returns (r: Result<Option<Entry>, string>)
      ensures queryFails <==> r.Err?
      ensures r.Ok? ==> (r.value.Some? <==> k in entries)
      ensures r.Ok? && r.value.Some? ==> r.value.value == entries[k]
    {
      if queryFails {
        return Err("failed to get cached metrics");
      }
      return Ok(Lookup(entries, k));
    }

    /** InvalidateSegmentCache: every tolerance's entries for the segment go; nothing else does. */
    method InvalidateSegmentCache(segmentId: int, fails: bool) returns (err: bool)
      modifies this
      ensures err == fails
      ensures entries == if fails then old(entries) else WithoutSegment(old(entries), segmentId)
    {
      if fails {
        return true;
      }
      entries := WithoutSegment(entries, segmentId);
      return false;
    }

    /** InvalidateActivityCache: every entry of the activity goes; nothing else does. */
    method InvalidateActivityCache(activityId: int, fails: bool) returns (err: bool)
      modifies this
      ensures err == fails
      ensures entries == if fails then old(entries) else WithoutActivity(old(entries), activityId)
    {
      if fails {
        return true;
      }
      entries := WithoutActivity(entries, activityId);
      return false;
    }

    /** The entry is one of the segment's entries at that tolerance. */
    predicate Selected(k: Key, segmentId: int, tol: real) {
      k.segmentId == segmentId && k.tolerance == tol
    }

    /** getCachedSegmentMatches: the segment's cached rows at that tolerance, best match first. */
    method CachedSegmentMatches(segmentId: int, tol: real) returns (rows: seq<MatchRow>)
      ensures RowsSorted(rows, ByOverlapPercentage)
      ensures forall r :: r in rows <==> exists k :: k in entries && Selected(k, segmentId, tol) && r == RowOf(k, entries[k])
    {
      var keys := entries.Keys;
      var found: seq<MatchRow> := [];
      while keys != {}
        invariant keys <= entries.Keys
        invariant forall r :: r in found <==>
                    exists k :: k in entries && k !in keys && Selected(k, segmentId, tol) && r == RowOf(k, entries[k])
        decreases keys
      {
        var k :| k in keys;
        if Selected(k, segmentId, tol) {
          found := found + [RowOf(k, entries[k])];
        }
        keys := keys - {k};
      }
      rows := SortRows(found, ByOverlapPercentage);
      assert forall r :: r in rows <==> r in found by {
        forall r ensures r in rows <==> r in found {
          assert r in rows <==> r in multiset(rows);
          assert r in found <==> r in multiset(found);
        }
      }
    }

    /** MAX(cached_at) over the segment's entries at that tolerance; None when there are none. */
    method NewestCachedAt(segmentId: int, tol: real) returns (newest: Option<int>)
      ensures newest.None? <==> forall k :: k in entries ==> !Selected(k, segmentId, tol)
      ensures newest.Some? ==> exists k :: k in entries && Selected(k, segmentId, tol) && entries[k].cachedAt == newest.value
      ensures newest.Some? ==> forall k :: k in entries && Selected(k, segmentId, tol) ==> entries[k].cachedAt <= newest.value
    {
      var keys := entries.Keys;
      newest := None;
      while keys != {}
        invariant keys <= entries.Keys
        invariant newest.None? <==> forall k :: k in entries && k !in keys ==> !Selected(k, segmentId, tol)
        invariant newest.Some? ==> exists k :: k in entries && k !in keys && Selected(k, segmentId, tol)
                                               && entries[k].cachedAt == newest.value
        invariant newest.Some? ==> forall k :: k in entries && k !in keys && Selected(k, segmentId, tol)
                                               ==> entries[k].cachedAt <= newest.value
        decreases keys
      {
        var k :| k in keys;
        if Selected(k, segmentId, tol) && (newest.None? || entries[k].cachedAt > newest.value) {
          newest := Some(entries[k].cachedAt);
        }
        keys := keys - {k};
      }
    }
  }
}
