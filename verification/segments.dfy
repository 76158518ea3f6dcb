/**
 * Favourite segments: the line an athlete draws, its elevation gain from the samples it
 * was cut from, and the bookkeeping that keeps the match cache honest when the line changes
 * or disappears. The favorite_segments table is a map from id to row with a BIGSERIAL
 * counter; the cached matches are the MatchCache of the Cache module.
 */
module Segments {
  import opened Wrappers
  import opened Geo
  import opened Samples
  import Ingest
  import opened Cache

  datatype FavoriteSegment = FavoriteSegment(
    id: int, athleteId: int, name: string, description: Option<string>, route: Line, elevationGain: Option<real>)

  datatype SegmentError =
    | TooFewPoints        // fewer than two points: rejected before any database access
    | IndexPanic          // a point with fewer than two coordinates: the split indexes past its end
    | NotFound(id: int)
    | DbFailure

  /** The favorite_segments table: rows by id, and the next BIGSERIAL value. */
  datatype SegmentTable = SegmentTable(rows: map<int, FavoriteSegment>, nextId: int)

  /** Every row sits under its own id, below the counter. */
  ghost predicate WellKeyed(t: SegmentTable) {
    forall id :: id in t.rows ==> t.rows[id].id == id && id < t.nextId
  }

  /** Which database statements fail. */
  datatype SegmentFaults = SegmentFaults(writeFails: bool, refreshFails: bool, invalidateFails: bool)

  /** An empty description is stored as NULL. */
  function DescriptionOf(description: string): (r: Option<string>)
    ensures r.None? <==> description == ""
    ensures r.Some? ==> r.value == description
  {
    if description == "" then None else Some(description)
  }

  /** The stored elevation gain: the positive gain when there are samples and it is positive, otherwise absent. */
  function StoredGain(samples: seq<PointSample>): (r: Option<real>)
    ensures r.None? <==> samples == [] || PositiveGain(Altitudes(samples)) == 0.0
    ensures r.Some? ==> r.value > 0.0 && r.value == PositiveGain(Altitudes(samples))
  {
    if |samples| > 0 && PositiveGain(Altitudes(samples)) > 0.0 then Some(PositiveGain(Altitudes(samples))) else None
  }

  /** The gain loop of InsertFavoriteSegment. */
  method ElevationGain(samples: seq<PointSample>) returns (gain: Option<real>)
    ensures gain == StoredGain(samples)
  {
    gain := None;
    if |samples| > 0 {
      ghost var alts := Altitudes(samples);
      var totalGain := 0.0;
      var i := 1;
      while i < |samples|
        invariant 1 <= i <= |samples|
        invariant totalGain == PositiveGain(alts[..i])
      {
        assert alts[..i + 1][..i] == alts[..i];
        if samples[i].altitude.Some? && samples[i - 1].altitude.Some? {
          var diff := samples[i].altitude.value - samples[i - 1].altitude.value;
          if diff > 0.0 {
            totalGain := totalGain + diff;
          }
        }
        i := i + 1;
      }
      assert alts[..i] == alts;
      if totalGain > 0.0 {
        gain := Some(totalGain);
      }
    }
  }

  /** The result of one operation on the segment table and the match cache. */
  datatype Outcome<T> = Outcome(table: SegmentTable, cache: map<Key, Entry>, result: Result<T, SegmentError>)

  /**
   * InsertFavoriteSegment: the point checks, then the INSERT (a fresh id), then the refresh
   * of the simplified line; a failed refresh reports an error but the row stays inserted.
   */
  function Inserted(t: SegmentTable, m: map<Key, Entry>, athleteId: int, name: string, description: string,
                    points: seq<seq<real>>, samples: seq<PointSample>, f: SegmentFaults): Outcome<FavoriteSegment>
  {
    if |points| < 2 then Outcome(t, m, Err(TooFewPoints))
    else if !Ingest.AllPairs(points) then Outcome(t, m, Err(IndexPanic))
    else if f.writeFails then Outcome(t, m, Err(DbFailure))
    else
      var seg := FavoriteSegment(t.nextId, athleteId, name, DescriptionOf(description), Ingest.Route(points), StoredGain(samples));
      var t' := SegmentTable(t.rows[t.nextId := seg], t.nextId + 1);
      Outcome(t', m, if f.refreshFails then Err(DbFailure) else Ok(seg))
  }

  /**
   * UpdateFavoriteSegment: the point checks, then the UPDATE (not found when no row has the
   * id; athlete and elevation gain are kept), then the refresh, and only then the cache
   * invalidation, whose failure is ignored. A failed refresh returns before invalidating.
   */
  function Updated(t: SegmentTable, m: map<Key, Entry>, segmentId: int, name: string, description: string,
                   points: seq<seq<real>>, f: SegmentFaults): Outcome<FavoriteSegment>
  {
    if |points| < 2 then Outcome(t, m, Err(TooFewPoints))
    else if !Ingest.AllPairs(points) then Outcome(t, m, Err(IndexPanic))
    else if f.writeFails then Outcome(t, m, Err(DbFailure))
    else if segmentId !in t.rows then Outcome(t, m, Err(NotFound(segmentId)))
    else
      var old_ := t.rows[segmentId];
      var seg := old_.(name := name, description := DescriptionOf(description), route := Ingest.Route(points));
      var t' := t.(rows := t.rows[segmentId := seg]);
      if f.refreshFails then Outcome(t', m, Err(DbFailure))
      else Outcome(t', if f.invalidateFails then m else WithoutSegment(m, segmentId), Ok(seg))
  }

  /**
   * DeleteFavoriteSegment: the cache invalidation first (failure ignored), then the DELETE;
   * its ON DELETE CASCADE removes whatever cache entries of the segment remain.
   */
  function Deleted(t: SegmentTable, m: map<Key, Entry>, segmentId: int, f: SegmentFaults): Outcome<int>
  {
    var m1 := if f.invalidateFails then m else WithoutSegment(m, segmentId);
    if f.writeFails then Outcome(t, m1, Err(DbFailure))
    else if segmentId !in t.rows then Outcome(t, m1, Err(NotFound(segmentId)))
    else Outcome(t.(rows := t.rows - {segmentId}), WithoutSegment(m1, segmentId), Ok(segmentId))
  }

  // ---------------------------------------------------------------------------
  // Properties

  /** Insert and update with fewer than two points fail before touching anything, whatever the database would do. */
  lemma ShortLinesRejected(t: SegmentTable, m: map<Key, Entry>, athleteId: int, segmentId: int, name: string,
                           description: string, points: seq<seq<real>>, samples: seq<PointSample>, f: SegmentFaults)
    requires |points| < 2
    ensures Inserted(t, m, athleteId, name, description, points, samples, f) == Outcome(t, m, Err(TooFewPoints))
    ensures Updated(t, m, segmentId, name, description, points, f) == Outcome(t, m, Err(TooFewPoints))
  {
  }

  /**
   * A successful insert adds exactly one row, under an id no row had, holding the route of
   * the points, the NULL-for-empty description and the stored gain; the cache is untouched.
   */
  lemma InsertAddsOneRow(t: SegmentTable, m: map<Key, Entry>, athleteId: int, name: string, description: string,
                         points: seq<seq<real>>, samples: seq<PointSample>, f: SegmentFaults)
    requires WellKeyed(t)
    requires Inserted(t, m, athleteId, name, description, points, samples, f).result.Ok?
    ensures var o := Inserted(t, m, athleteId, name, description, points, samples, f);
      var seg := o.result.value;
      && seg.id !in t.rows
      && o.table.rows.Keys == t.rows.Keys + {seg.id}
      && (forall id :: id in t.rows ==> o.table.rows[id] == t.rows[id])
      && o.table.rows[seg.id] == seg
      && seg.athleteId == athleteId && seg.name == name
      && (seg.description.None? <==> description == "")
      && Ingest.AllPairs(points) && seg.route == Ingest.Route(points)
      && seg.elevationGain == StoredGain(samples)
      && WellKeyed(o.table)
      && o.cache == m
  {
  }

  /** The stored gain is never negative, and never zero: a flat or empty profile is stored as absent. */
  lemma StoredGainNeverZero(samples: seq<PointSample>)
    ensures StoredGain(samples).Some? ==> StoredGain(samples).value > 0.0
    ensures StoredGain(samples) != Some(0.0)
    ensures |samples| < 2 ==> StoredGain(samples).None?
  {
  }

  /**
   * A successful update changes only that row (athlete and gain kept), and afterwards no
   * cache entry of the segment remains, unless the invalidation failed; other segments'
   * entries are kept either way.
   */
  lemma UpdateInvalidates(t: SegmentTable, m: map<Key, Entry>, segmentId: int, name: string, description: string,
                          points: seq<seq<real>>, f: SegmentFaults)
    requires Updated(t, m, segmentId, name, description, points, f).result.Ok?
    ensures var o := Updated(t, m, segmentId, name, description, points, f);
      && segmentId in t.rows
      && o.table.rows.Keys == t.rows.Keys
      && (forall id :: id in t.rows && id != segmentId ==> o.table.rows[id] == t.rows[id])
      && o.table.rows[segmentId].athleteId == t.rows[segmentId].athleteId
      && o.table.rows[segmentId].elevationGain == t.rows[segmentId].elevationGain
      && (!f.invalidateFails ==> forall k :: k in o.cache ==> k.segmentId != segmentId)
      && (forall k :: k in m && k.segmentId != segmentId ==> k in o.cache && o.cache[k] == m[k])
  {
  }

  /** An update whose refresh fails has already changed the row but leaves the segment's cached matches in place. */
  lemma RefreshFailureKeepsStaleMatches(t: SegmentTable, m: map<Key, Entry>, segmentId: int, name: string,
                                        description: string, points: seq<seq<real>>, f: SegmentFaults)
    requires |points| >= 2 && Ingest.AllPairs(points) && !f.writeFails && f.refreshFails && segmentId in t.rows
    ensures var o := Updated(t, m, segmentId, name, description, points, f);
      o.result == Err(DbFailure) && o.cache == m && o.table.rows[segmentId].route == Ingest.Route(points)
  {
  }

  /**
   * A successful delete removes exactly that row, and every cache entry of the segment,
   * even when the explicit invalidation failed (the foreign key cascades).
   */
  lemma DeleteClearsSegment(t: SegmentTable, m: map<Key, Entry>, segmentId: int, f: SegmentFaults)
    requires Deleted(t, m, segmentId, f).result.Ok?
    ensures var o := Deleted(t, m, segmentId, f);
      && segmentId in t.rows
      && o.table.rows.Keys == t.rows.Keys - {segmentId}
      && (forall k :: k in o.cache ==> k.segmentId != segmentId)
      && (forall k :: k in m && k.segmentId != segmentId ==> k in o.cache && o.cache[k] == m[k])
  {
  }

  /** Deleting an id no row has reports not found (when the statement itself succeeds) and changes no row. */
  lemma DeleteMissingNotFound(t: SegmentTable, m: map<Key, Entry>, segmentId: int, f: SegmentFaults)
    requires segmentId !in t.rows && !f.writeFails
    ensures Deleted(t, m, segmentId, f).result == Err(NotFound(segmentId))
    ensures Deleted(t, m, segmentId, f).table == t
  {
  }

  /** Every operation keeps each row under its own id below the counter. */
  lemma OperationsKeepWellKeyed(t: SegmentTable, m: map<Key, Entry>, athleteId: int, segmentId: int, name: string,
                                description: string, points: seq<seq<real>>, samples: seq<PointSample>,
                                f: SegmentFaults)
    requires WellKeyed(t)
    ensures WellKeyed(Inserted(t, m, athleteId, name, description, points, samples, f).table)
    ensures WellKeyed(Updated(t, m, segmentId, name, description, points, f).table)
    ensures WellKeyed(Deleted(t, m, segmentId, f).table)
  {
  }

  // ---------------------------------------------------------------------------
  // The table

  class SegmentStore {
    var rows: map<int, FavoriteSegment>
    var nextId: int

    function State(): SegmentTable
      reads this
    {
      SegmentTable(rows, nextId)
    }

    constructor ()
      ensures State() == SegmentTable(map[], 1)
    {
      rows := map[];
      nextId := 1;
    }

    method InsertFavoriteSegment(cache: MatchCache, athleteId: int, name: string, description: string,
                                 points: seq<seq<real>>, samples: seq<PointSample>, f: SegmentFaults)
      returns (r: Result<FavoriteSegment, SegmentError>)
      modifies this
      ensures var o := Inserted(old(State()), cache.entries, athleteId, name, description, points, samples, f);
        State() == o.table && r == o.result
    {
      if |points| < 2 {
        return Err(TooFewPoints);
      }
      var lons, lats, ok := Ingest.SplitLatLng(points);
      if !ok {
        return Err(IndexPanic);
      }
      var gain := ElevationGain(samples);
      if f.writeFails {
        return Err(DbFailure);
      }
      var seg := FavoriteSegment(nextId, athleteId, name, DescriptionOf(description), Ingest.RouteFromLonLat(lons, lats), gain);
      rows := rows[nextId := seg];
      nextId := nextId + 1;
      if f.refreshFails {
        return Err(DbFailure);
      }
      return Ok(seg);
    }

    method UpdateFavoriteSegment(cache: MatchCache, segmentId: int, name: string, description: string,
                                 points: seq<seq<real>>, f: SegmentFaults)
      returns (r: Result<FavoriteSegment, SegmentError>)
      modifies this, cache
      ensures var o := Updated(old(State()), old(cache.entries), segmentId, name, description, points, f);
        State() == o.table && cache.entries == o.cache && r == o.result
    {
      if |points| < 2 {
        return Err(TooFewPoints);
      }
      var lons, lats, ok := Ingest.SplitLatLng(points);
      if !ok {
        return Err(IndexPanic);
      }
      if f.writeFails {
        return Err(DbFailure);
      }
      if segmentId !in rows {
        return Err(NotFound(segmentId));
      }
      var seg := rows[segmentId].(name := name, description := DescriptionOf(description),
                                  route := Ingest.RouteFromLonLat(lons, lats));
      rows := rows[segmentId := seg];
      if f.refreshFails {
        return Err(DbFailure);
      }
      var _ := cache.InvalidateSegmentCache(segmentId, f.invalidateFails);
      return Ok(seg);
    }

    method DeleteFavoriteSegment(cache: MatchCache, segmentId: int, f: SegmentFaults)
      returns (r: Result<int, SegmentError>)
      modifies this, cache
      ensures var o := Deleted(old(State()), old(cache.entries), segmentId, f);
        State() == o.table && cache.entries == o.cache && r == o.result
    {
      var _ := cache.InvalidateSegmentCache(segmentId, f.invalidateFails);
      if f.writeFails {
        return Err(DbFailure);
      }
      if segmentId !in rows {
        return Err(NotFound(segmentId));
      }
      rows := rows - {segmentId};
      cache.entries := WithoutSegment(cache.entries, segmentId);
      return Ok(segmentId);
    }
  }
}
