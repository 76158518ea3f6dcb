# b11k: a Dafny model of the segment-matching core

b11k syncs an athlete's Strava bike rides into PostgreSQL/PostGIS. Each ride has a summary row, a route geometry and per-point samples (time, distance, heart rate, speed, altitude). The athlete marks *favourite segments*, which are polylines of interest. A set of SQL functions matches a segment against every stored route within a tolerance in metres. They resolve the first and last route sample lying on the segment, and aggregate heart rate, speed, distance and elevation gain over that range. The matches and the metrics are cached per (segment, activity, tolerance) and dropped when a segment or activity changes. The web layer ranks and pages the matching rides, draws their graphs and guards segments by owner. The program also fills in its OAuth redirect URI from the web settings when none is configured.

The model has one module per part of the program:

| file | module | what it models |
|---|---|---|
| wrappers.dfy | Wrappers | Option/Result values used for the database's error paths |
| geo.dfy | Geo | distances, lengths and intersections that PostGIS provides, as uninterpreted non-negative functions |
| samples.dfy | Samples | point samples and the per-sample arithmetic of the SQL metric functions |
| matching.dfy | Matching | the SQL matcher and the index resolver, over stored geometries and samples |
| cache.dfy | Cache | the match and metrics cache, a class whose map the upserts and invalidations rewrite |
| schema.dfy | Schema | schema comparison, type normalisation and the migrate-or-create decision |
| streams.dfy | Streams | turning a Strava stream set into per-point records |
| ingest.dfy | Ingest | inserting and replacing activities, geometries and samples, as a store class |
| query.dfy | Query | existence checks, graph data, HR zones, merging with the cache, sorting and lookups |
| segments.dfy | Segments | creating, updating and deleting favourite segments, with cache invalidation |
| server.dfy | Server | pagination, the segment POST checks, path routing, owner checks and the activities endpoint |
| redirect.dfy | Redirect | construction of the OAuth redirect URI |

Things the model treats as parameters:
- A failing database statement of a modelled operation is a boolean, `Option` or `Faults` argument, and the operation's error outcome is modelled for that case. This covers the `ActivityExists` checks of the plain inserts. A failing row scan counts as a failure of its query, and a failing BEGIN or COMMIT as a failure of its transaction.
- Wall-clock time is an integer number of seconds passed in as `now`.
- Floating-point values are reals.
- A Go panic (index out of range, nil dereference) is an explicit outcome of the operation that can raise it.

Some behaviour of the code that a reader might not expect, and that the model keeps:
- The matcher `find_route_parts_matching_segment` scans every stored geometry, of every athlete. It does not filter by the caller's athlete id; only the later summary lookup does (internal/pggeo/schema.go:436-524).
- `get_activity_segment_metrics` aggregates between the indices the resolver finds. It does not read the start and end index stored in the cache (internal/pggeo/schema.go:626-687).
- The cached metrics are written by an UPDATE of the cache row. The INSERT runs only when that UPDATE returns an error, not when it touches no row (internal/pggeo/cache.go:69-103).
- The indices endpoint reads cached indices but never writes them back (internal/web/server.go:737-779).
- A segment update whose geometry refresh fails returns before the cache is invalidated (internal/pggeo/segments.go:202-261).

## Model

| member | source | states |
|---|---|---|
| Cache.StoredPercentage | internal/pggeo/cache.go:43-47 | a given percentage other than 0, or a non-positive overlap or segment length, is stored as given; otherwise the stored percentage is positive and is overlap / length × 100 |
| Cache.UpsertEntry | internal/pggeo/cache.go:49-59 | an upsert writes the match's distance and overlap, the stored percentage and the new timestamp; an existing entry keeps its range and metrics, a new entry has none |
| Cache.LastFor | internal/pggeo/cache.go:42-59 | the match whose upsert lands last for an activity: it belongs to the list, names that activity, and no later match names it; there is none exactly when no match names it |
| Cache.UpsertAllEffect | internal/pggeo/cache.go:42-63 | after the upsert loop, each key of this segment and tolerance named by a match holds that activity's last match laid over its former entry, and every other key is unchanged |
| Cache.UpsertAllIdempotent | internal/pggeo/cache.go:49-59 | caching the same match list twice leaves exactly what caching it once leaves: the key constraint means no entry is duplicated |
| Cache.UpsertAllKeepsMetrics | internal/pggeo/cache.go:53-58 | no upsert removes an entry or changes its start/end index or its metrics |
| Cache.LastForDistinct | internal/pggeo/cache.go:42-59 | when no two matches share an activity, the match that lands for a listed match's activity is that match |
| Cache.CachedMatchRoundTrip | internal/pggeo/cache.go:49-59 | after caching matches for distinct activities, reading a match's key back gives that match (without the segment name), stamped with the caching time |
| Cache.MatcherPercentagesStoredAsGiven | internal/pggeo/schema.go:515-522 | a row returned by the matcher never has its percentage recomputed by the cache |
| Cache.WithMetrics | internal/pggeo/cache.go:70-80 | the metrics UPDATE sets the range, the four metrics and the timestamp and leaves the match fields alone |
| Cache.MetricsOnlyEntry | internal/pggeo/cache.go:83-97 | the fallback INSERT creates an entry with zero match fields that carries exactly the given range and metrics |
| Cache.WithoutSegment | internal/pggeo/cache.go:129-135 | exactly the entries of that segment go, at every tolerance; every other entry is unchanged |
| Cache.WithoutActivity | internal/pggeo/cache.go:138-144 | exactly the entries of that activity go; every other entry is unchanged |
| Cache.MatchCache.constructor | internal/pggeo/schema.go:271-288 | the cache table starts empty |
| Cache.MatchCache.CacheSegmentActivityMatches | internal/pggeo/cache.go:28-66 | an empty list changes nothing; otherwise the matches are upserted in order; at the first failing upsert the error is returned and the upserts before it stay written |
| Cache.MatchCache.CacheSegmentActivityMetrics | internal/pggeo/cache.go:69-103 | when the UPDATE succeeds only an existing entry changes and a missing key stays absent; the INSERT runs only when the UPDATE fails; an error means both failed and nothing changed |
| Cache.MatchCache.GetCachedSegmentActivityMetrics | internal/pggeo/cache.go:106-126 | a missing key gives "no entry" rather than an error; a present key gives its entry; only a failing query is an error |
| Cache.MatchCache.InvalidateSegmentCache | internal/pggeo/cache.go:129-135 | on success the cache becomes the cache without the segment's entries; on failure it is unchanged and the error is returned |
| Cache.MatchCache.InvalidateActivityCache | internal/pggeo/cache.go:138-144 | on success the cache becomes the cache without the activity's entries; on failure it is unchanged and the error is returned |
| Cache.MatchCache.CachedSegmentMatches | internal/pggeo/query.go:703-731 | the rows are exactly the cached entries of that segment and tolerance, ordered by min distance ascending and then by overlap percentage descending |
| Cache.MatchCache.NewestCachedAt | internal/pggeo/query.go:673-677 | gives the largest cached_at among the segment's entries at that tolerance, attained by one of them; gives none exactly when there are none |
| Matching.InsertRow | internal/pggeo/schema.go:523 | inserting one row into an ordered result keeps it ordered and adds exactly that row |
| Matching.ConsRowsSorted | internal/pggeo/schema.go:522-523 | a row ordered before every row of an ordered result can be put in front and the result stays ordered |
| Matching.BeforeAllInserted | internal/pggeo/schema.go:522-523 | a row ordered before the inserted row and before every row of the rest is ordered before every row of the result of the insertion |
| Matching.SortRows | internal/pggeo/schema.go:523 | the ORDER BY gives a permutation of the rows, ordered by min distance ascending and then by the tie key descending |
| Matching.VertexDistances | internal/pggeo/schema.go:469-480 | one distance per segment vertex: that vertex's distance to the route |
| Matching.CountWithinIsAll | internal/pggeo/schema.go:487-491 | the HAVING clause holds (count within tolerance equals the count of all) exactly when every vertex is within tolerance |
| Matching.MaxOf | internal/pggeo/schema.go:485 | MAX is an upper bound of the vertex distances and is one of them |
| Matching.OverlapPercentage | internal/pggeo/schema.go:515-519 | with a non-negative overlap the percentage lies in [0, 100]; with a positive segment length it is 100 exactly when the overlap covers the segment, and it is positive when the overlap is positive |
| Matching.FindRoutePartsMatchingSegment | internal/pggeo/schema.go:436-524 | the rows come out ordered by min distance ascending and then by overlap length descending; a missing segment yields no rows |
| Matching.UnorderedMatchesSound | internal/pggeo/schema.go:459-509 | every unordered row is the match of some stored route |
| Matching.UnorderedMatchesComplete | internal/pggeo/schema.go:459-509 | the match of every stored route that has one is among the unordered rows |
| Matching.MatchForSound | internal/pggeo/schema.go:469-522 | a route's row has the route's activity and the segment's id; the route is within tolerance; the reported min distance is the largest segment-vertex distance (an upper bound that is attained) and at most the tolerance; the overlap is the length of the segment inside the buffered route and is positive; the percentage is the clamped one, in [0, 100] |
| Matching.SourceRoute | internal/pggeo/schema.go:459-523 | every returned row is the row of some stored route |
| Matching.MatchesAreSound | internal/pggeo/schema.go:464-522 | every returned row comes from a stored route of that activity that lies within tolerance; its min distance is the largest segment-vertex distance to that route and at most the tolerance; its overlap is the buffered-overlap length and is positive; its percentage is clamped to [0, 100] |
| Matching.MatchesAreComplete | internal/pggeo/schema.go:459-522 | every stored route within tolerance whose segment vertices are all within tolerance and whose overlap is positive is returned, with the segment's id, the largest vertex distance as min distance, the buffered-overlap length and its clamped percentage |
| Matching.OneFarVertexRejects | internal/pggeo/schema.go:487-491 | a single segment vertex beyond tolerance disqualifies the route |
| Matching.FindRoutePartsMatchingSegmentByName | internal/pggeo/schema.go:527-574 | the rows come out ordered by min distance ascending and then by overlap percentage descending |
| Matching.NamedMatchesForSegmentSound | internal/pggeo/schema.go:550-572 | every by-name row of one segment carries that segment's id and name and a distance within tolerance |
| Matching.NamedMatchesUnorderedSound | internal/pggeo/schema.go:541-572 | every unordered by-name row names the requested segment and lies within tolerance |
| Matching.NamedMatchesAreSound | internal/pggeo/schema.go:527-574 | every by-name row names the requested segment and lies within tolerance of it |
| Matching.NamedMatchesForSegmentComplete | internal/pggeo/schema.go:550-572 | every stored route within tolerance of the segment yields a row among that segment's rows |
| Matching.NamedMatchesUnorderedComplete | internal/pggeo/schema.go:541-572 | every stored route within tolerance of any segment with the requested name yields that segment's row |
| Matching.NamedMatchesAreComplete | internal/pggeo/schema.go:527-574 | every stored route within tolerance of a segment with the requested name is returned, with that segment's id and name, the route-to-line distance and the overlap |
| Matching.NamedPercentageUnclamped | internal/pggeo/schema.go:561-570 | the by-name percentage is not clamped: an overlap longer than the segment gives more than 100 |
| Matching.SelectOnSegment | internal/pggeo/schema.go:598-601 | exactly the samples of that activity and athlete that lie within tolerance of the segment are selected |
| Matching.MinIndex | internal/pggeo/schema.go:605 | MIN(point_index) bounds every selected index from below and is attained |
| Matching.MaxIndex | internal/pggeo/schema.go:606 | MAX(point_index) bounds every selected index from above and is attained |
| Matching.FindSegmentPointIndices | internal/pggeo/schema.go:576-608 | a range exists exactly when the segment exists and some sample of the activity and athlete is within tolerance; then start ≤ end, every such sample's index lies in [start, end], and both ends are attained |
| Matching.InsertByIndex | internal/pggeo/schema.go:658 | inserting one sample into a run ordered by point index keeps it ordered and adds exactly that sample |
| Matching.ConsIndexOrdered | internal/pggeo/schema.go:658 | a sample whose point index is at most every index of an ordered run can be put in front and the run stays ordered |
| Matching.IndexBelowInserted | internal/pggeo/schema.go:658 | an index at most the inserted sample's and every index of the rest is at most every index after the insertion |
| Matching.OrderByIndex | internal/pggeo/schema.go:652-658 | ORDER BY point_index gives a permutation of the run, ordered by point index |
| Matching.HeartRates | internal/pggeo/schema.go:662 | one entry per sample: its heart rate as a real number, or absent |
| Matching.Speeds | internal/pggeo/schema.go:663 | one entry per sample: its speed, or absent |
| Matching.MetricsOf | internal/pggeo/schema.go:660-686 | the climb is never negative; fewer than two samples give no distance and no climb; a run with no heart rate (speed) gives an average of 0, as COALESCE does |
| Matching.AbsentAveragesAreNone | internal/pggeo/schema.go:662-663 | AVG ... FILTER over samples none of which has a heart rate (a speed) is NULL |
| Matching.SegmentRun | internal/pggeo/schema.go:640-659 | the aggregated run holds exactly the in-tolerance samples of the activity and athlete, when the segment exists, ordered by point index |
| Matching.HeartRatesWithin | internal/pggeo/schema.go:662 | when every sample's heart rate lies in [lo, hi], so does every heart rate passed to AVG |
| Matching.MetricsOfBounds | internal/pggeo/schema.go:660-686 | distance and elevation gain are never negative; the average heart rate is 0 when no sample carries one, and otherwise lies between the bounds of the samples' heart rates |
| Matching.AverageHeartRateBounds | internal/pggeo/schema.go:662-663 | the average heart rate of a run is 0 when no sample carries one, and otherwise lies between any bounds that all its heart rates respect |
| Matching.ActivitySegmentMetricsBounds | internal/pggeo/schema.go:626-687 | the segment's distance and climb are never negative; its average heart rate is 0 (COALESCE) when no sample on the segment has one, and otherwise lies between the lowest and highest heart rate on the segment |
| Matching.GetActivitySegmentMetrics | internal/pggeo/schema.go:626-687 | a missing segment, or one with no sample of the activity and athlete within tolerance, gives four zeros; the climb is never negative |
| Matching.HeartRatesAppend | internal/pggeo/schema.go:662 | the heart-rate column of two runs joined is the two columns joined |
| Matching.MissingHeartRateIgnored | internal/pggeo/schema.go:662 | a sample without a heart rate leaves the segment's average heart rate unchanged |
| Matching.GetSegmentMetrics | internal/pggeo/schema.go:610-624 | a row exists exactly when the segment exists; its distance is the segment's length and its climb is 0 when none was stored |
| Samples.PositiveGain | internal/pggeo/schema.go:664-671 | the summed positive rises are never negative |
| Samples.Altitudes | internal/pggeo/schema.go:666-668 | one altitude per sample, absent where the sample has none |
| Samples.PositiveGainMonotone | internal/pggeo/schema.go:664-671 | descents never subtract: extending a run never lowers its gain |
| Samples.GainAtLeastNetClimb | internal/pggeo/segments.go:52-61 | when every altitude is known, the gain is at least the net climb from the first to the last sample |
| Samples.Locations | internal/pggeo/schema.go:674-675 | one location per sample |
| Samples.PathLengthNonNegative | internal/pggeo/schema.go:672-678 | the summed step distances are never negative |
| Samples.PresentCount | internal/pggeo/schema.go:662-663 | the number of present values is at most the length, and is 0 exactly when every value is absent |
| Samples.Average | internal/pggeo/schema.go:662-663 | AVG … FILTER (WHERE … IS NOT NULL) is NULL exactly when no value is present |
| Samples.PresentConstIsScaledCount | internal/pggeo/schema.go:662-663 | summing a constant over the present values gives the count of present values times the constant |
| Samples.PresentSumBounds | internal/pggeo/schema.go:662-663 | when every present value lies in [lo, hi], the sum of the present values lies between lo and hi counted once per present value |
| Samples.AverageWithinBounds | internal/pggeo/schema.go:662-663 | the average of the present values lies within any bounds that all the present values respect |
| Samples.PresentWithinOfAll | internal/pggeo/schema.go:662-663 | when every present value lies in [lo, hi], the recursive bound predicate holds for the whole sequence |
| Samples.PresentSumAtLeast | internal/pggeo/schema.go:662-663 | under that bound, the sum of the present values is at least their count × lo |
| Samples.PresentSumAtMost | internal/pggeo/schema.go:662-663 | under that bound, the sum of the present values is at most their count × hi |
| Samples.PresentMeanWithinBounds | internal/pggeo/schema.go:662-663 | under that bound and with at least one present value, the sum divided by the count lies in [lo, hi] |
| Samples.PresentConstIsRepeated | internal/pggeo/schema.go:662-663 | counting c once per present value is adding c as many times as there are present values |
| Samples.PresentSumCountConcat | internal/pggeo/schema.go:662-663 | sum and count of the present values distribute over concatenation |
| Samples.AverageIgnoresAbsent | internal/pggeo/schema.go:662-663 | an absent value anywhere in the run leaves the average unchanged |
| Schema.LowerChar | internal/pggeo/schema.go:981 | a lowered character is never upper case, is a space exactly when the input is, and equals the input when the input is not upper case |
| Schema.Lower | internal/pggeo/schema.go:981 | lowering keeps the length and lowers each character |
| Schema.LowerIdempotent | internal/pggeo/schema.go:981 | lowering twice is lowering once |
| Schema.SkipSpaces | internal/pggeo/schema.go:982 | the scan from i stops at the first non-space at or after i, or at the end, and passes only spaces |
| Schema.BackOverSpaces | internal/pggeo/schema.go:982 | the scan back from e stops just after the last non-space before e (not below lo), and passes only spaces |
| Schema.TrimSpace | internal/pggeo/schema.go:982 | the trimmed text is the slice of the input between its leading and its trailing run of spaces: everything before and after it is a space, and it neither starts nor ends with one |
| Schema.TrimSpaceEmptyIff | internal/pggeo/schema.go:982 | trimming gives the empty text exactly when the input is all spaces |
| Schema.BeforeParen | internal/pggeo/schema.go:986 | the result is the longest prefix without '(': either the whole input or the text up to its first '(' |
| Schema.BeforeParenKeepsPrefix | internal/pggeo/schema.go:986 | cutting at the first '(' keeps every prefix that has no '(' of its own, so "geography" stays "geography" |
| Schema.SpatialBase | internal/pggeo/schema.go:985-987 | a geography/geometry type becomes the text before its first '(' (`strings.Split(t, "(")[0]`), which is still spatial |
| Schema.NormalizeType | internal/pggeo/schema.go:980-1008 | after lowering and trimming, a spatial type becomes the text before its first '(', a listed alias maps to its canonical name, and any other name passes through unchanged |
| Schema.NormalizeIgnoresCase | internal/pggeo/schema.go:980-982 | letter case never changes the normalised type |
| Schema.ColumnMap | internal/pggeo/schema.go:881-892 | the map holds exactly the column names read, each mapped to a column of that name |
| Schema.ColumnNames | internal/pggeo/schema.go:895-898 | the expected-column set holds exactly the names of the expected columns |
| Schema.ColumnDiffEmpty | internal/pggeo/schema.go:901-921 | an expected column yields no difference exactly when it exists with the same normalised type and nullability |
| Schema.ColumnDiffsEmpty | internal/pggeo/schema.go:901-921 | the column comparison reports nothing exactly when every expected column conforms |
| Schema.IndexDiffsEmpty | internal/pggeo/schema.go:956-973 | the index check reports nothing exactly when no expected index is known to be missing |
| Schema.ExtraNames | internal/pggeo/schema.go:944-953 | the extra columns are exactly the actual columns that are neither expected nor generated |
| Schema.CompareColumns | internal/pggeo/schema.go:901-921 | the loop reports the column differences, and reports none exactly when every expected column conforms |
| Schema.FindExtraColumns | internal/pggeo/schema.go:944-953 | the loop reports each extra column once and nothing else |
| Schema.ExtraStep | internal/pggeo/schema.go:944-953 | visiting one actual column adds it to the report exactly when the expected schema does not name it, and keeps the report listing every extra column seen so far once |
| Schema.ListsOneMore | internal/pggeo/schema.go:944-953 | appending an extra column not yet listed gives a report that lists exactly one more column |
| Schema.CheckIndexes | internal/pggeo/schema.go:956-973 | the loop reports the missing indexes, skips an index whose check failed, and reports none exactly when no index is known to be missing |
| Schema.ReportAssembled | internal/pggeo/schema.go:975-976 | the three loops' reports, concatenated, form the table's report, and the table matches exactly when there is no difference |
| Schema.ThreePartSlices | internal/pggeo/schema.go:975-976 | the concatenated report splits back into its column, extra-column and index parts |
| Schema.ReportMatchesExactlyWhenConforms | internal/pggeo/schema.go:975-976 | when each part is empty exactly when its check passes, the report is empty exactly when the table conforms |
| Schema.ListsNoneExactlyWhenNoExtras | internal/pggeo/schema.go:944-953 | a report listing a set of extra columns is empty exactly when the set is |
| Schema.ValidateTableSchema | internal/pggeo/schema.go:834-977 | a failing catalog query is an error; an absent table is reported as neither existing nor matching; otherwise the report lists the differences and the table matches exactly when it conforms |
| Schema.Decide | internal/pggeo/schema.go:748-789 | an absent table is created; a matching one is valid; a mismatched one is recreated exactly when it is a cache or a rebuild is forced, and only warned about otherwise |
| Schema.CreateTableBySchema | internal/pggeo/schema.go:1160-1177 | creation succeeds exactly for the five known table names when the DDL is accepted; an unknown name is an error |
| Schema.ExpectedTablesSafe | internal/pggeo/schema.go:1011-1157 | every expected table can be created, and without a forced rebuild only segment_activity_matches can ever be dropped |
| Schema.ValidateAndMigrateSchema | internal/pggeo/schema.go:728-805 | the tables are handled in order, each by its planned action with its DDL succeeding; the first failure stops the run; no error means every table was handled |
| Ingest.SampleRows | internal/pggeo/insert.go:176-204 | every row built from the first n positions records a position before n that has a location |
| Ingest.SampleRowsAreRows | internal/pggeo/insert.go:186-231 | each row is exactly the sample row of the position it records |
| Ingest.SampleRowsIncreasing | internal/pggeo/insert.go:180-204 | the point indices of the built rows strictly increase |
| Ingest.SampleRowsCover | internal/pggeo/insert.go:180-204 | every position before n that has a location has a row |
| Ingest.SampleRowsIndexed | internal/pggeo/insert.go:180-204 | point indices strictly increase, and no position that has a location is skipped |
| Ingest.SensorColumnsPresentIff | internal/pggeo/insert.go:206-231 | a row carries its activity, athlete, time and location; each optional column is present exactly when its stream is longer than the row's position, and a present heart rate is the stream's value there |
| Ingest.TrackIsLocations | internal/pggeo/insert.go:190-204 | the locations the loop walks through are exactly the locations of the rows it writes |
| Ingest.CumulativeIsDistanceSoFar | internal/pggeo/insert.go:176-201 | each row's cumulative distance is the haversine length of the path through the locations of all rows up to and including it |
| Ingest.HaversinePathPrefix | internal/pggeo/insert.go:196-198 | with non-negative step distances, a prefix of a path is never longer than the path |
| Ingest.PathSoFarGrows | internal/pggeo/insert.go:196-198 | the path length up to a later row is at least the path length up to an earlier one |
| Ingest.CumulativeNonDecreasing | internal/pggeo/insert.go:176-201 | the cumulative distance is 0 at the first located sample and never decreases |
| Ingest.BuildSamples | internal/pggeo/insert.go:176-234 | the sample loop, carrying the previous location and the running distance, writes exactly the specified rows |
| Ingest.PathExtend | internal/pggeo/insert.go:196-198 | a path extended by one point grows by the hop from its last point, and by nothing when it was empty |
| Ingest.Route | internal/pggeo/insert.go:91-97 | the route of a list of [lat, lng] points has one vertex per point |
| Ingest.RouteFromLonLat | internal/pggeo/schema.go:322-335 | the helper's route has one vertex per array position |
| Ingest.SplitLatLng | internal/pggeo/insert.go:91-97 | the split succeeds exactly when every point has two values; then lons[i] = point[1] and lats[i] = point[0], both as long as the input, and the helper rebuilds the original route from them |
| Ingest.WktRoute | internal/pggeo/insert.go:118-121 | the text route has one vertex per LINESTRING point |
| Ingest.FallbackWktAsWritten | internal/pggeo/insert.go:111-116 | the fallback as written has one LINESTRING point per input point |
| Ingest.FallbackAsWrittenSwapsCoordinates | internal/pggeo/insert.go:114 | the fallback as written stores every vertex with latitude and longitude exchanged |
| Ingest.FallbackAsWrittenMisplacesRoute | internal/pggeo/insert.go:114 | for the two points [1, 2] and [3, 4], the fallback as written stores a different route from the one the helper stores |
| Ingest.FallbackWkt | internal/pggeo/insert.go:111-116 | the corrected fallback has one LINESTRING point per input point |
| Ingest.FallbackMatchesHelper | internal/pggeo/insert.go:99-128 | when longitude is written first, the fallback stores exactly the route that the helper stores from the split arrays |
| Ingest.StoredRoute | internal/pggeo/insert.go:99-127 | the helper stores the route of the points; when the helper fails, the fallback as written stores every vertex with latitude and longitude exchanged; either way one vertex per point |
| Ingest.OtherActivities | internal/pggeo/insert.go:430 | the DELETE keeps exactly the samples of the other activities |
| Ingest.SamplesFor | internal/pggeo/insert.go:430 | the samples of one activity are exactly the stored samples with that activity id |
| Ingest.SampleRowsBelongTo | internal/pggeo/insert.go:228-231 | every built row carries the activity's id |
| Ingest.OperationsKeepKeys | internal/pggeo/schema.go:186-190 | both insert paths keep the keys consistent: every geometry and every sample belongs to a stored summary, with one geometry per activity |
| Ingest.GeometryKeepsKeys | internal/pggeo/insert.go:77-138 | storing a geometry, by insert or by upsert, keeps the keys consistent |
| Ingest.SamplesKeepKeys | internal/pggeo/insert.go:142-238 | inserting or replacing an activity's samples keeps the keys consistent |
| Ingest.InsertExistingRejected | internal/pggeo/insert.go:30-38 | inserting an activity whose summary is already stored is refused (or fails its existence check) and changes nothing |
| Ingest.InsertTwiceRejected | internal/pggeo/insert.go:242-261 | after a successful insert the summary is stored, so inserting the same activity again is refused (or fails its existence check) and changes nothing |
| Ingest.OtherActivitiesAppend | internal/pggeo/insert.go:430 | the per-activity filters distribute over concatenation |
| Ingest.SamplesForAppend | internal/pggeo/insert.go:430 | the samples of one activity in a concatenation are those of each part, in order |
| Ingest.FilterOwnRows | internal/pggeo/insert.go:430 | rows that all belong to the activity are all kept as its samples and none as another's |
| Ingest.FilterOthersTwice | internal/pggeo/insert.go:430 | deleting an activity's samples twice is deleting them once, and afterwards it has none |
| Ingest.ReplaceSetsActivityRows | internal/pggeo/insert.go:417-514 | after a successful replace the activity has exactly the new rows and every other activity keeps its rows as they were |
| Ingest.UpsertIdempotent | internal/pggeo/insert.go:332-351 | with no failing statement, upserting an activity twice leaves the database as upserting it once |
| Ingest.ReplaceTwiceSame | internal/pggeo/insert.go:417-515 | replacing an activity's samples a second time with the same streams succeeds and changes nothing |
| Ingest.UpsertStoresActivity | internal/pggeo/insert.go:332-351 | a successful upsert stores the summary, the exactly built rows for the activity, and, when there is a latlng stream, its route: the helper's route, or the fallback's swapped route when the helper fails (the geometry is untouched without a stream) |
| Ingest.ActivityStore.constructor | internal/pggeo/schema.go:90-229 | the three tables start empty |
| Ingest.ActivityStore.InsertActivitySummary | internal/pggeo/insert.go:30-75 | a failing existence check is an error; an existing id is refused; neither changes anything; otherwise the summary is stored unless the INSERT fails |
| Ingest.ActivityStore.InsertActivitySummaryUpsert | internal/pggeo/insert.go:264-330 | the summary is stored or overwritten unless the statement fails |
| Ingest.ActivityStore.StoreGeometry | internal/pggeo/insert.go:77-138 | the plain insert first runs the existence check (an error when it fails) and needs a stored summary; fewer than 2 points is an error before any write; a short point panics; the helper's route is stored when its INSERT succeeds, the fallback's latitude-first route when only the fallback succeeds, and nothing changes otherwise |
| Ingest.ActivityStore.InsertPointSamples | internal/pggeo/insert.go:142-238 | a failing existence check, then a missing summary, then an empty time stream is an error before any write; otherwise all built rows are appended in one transaction, or none |
| Ingest.ActivityStore.ReplacePointSamples | internal/pggeo/insert.go:417-515 | an empty time stream is an error; otherwise the activity's rows are deleted and the new rows inserted in one transaction, or nothing changes |
| Ingest.ActivityStore.InsertBikeActivity | internal/pggeo/insert.go:242-261 | the summary, then the geometry when there is a latlng stream (the helper's route, or the fallback's as written), then the samples; the first error stops the sequence and keeps the earlier writes |
| Ingest.ActivityStore.InsertBikeActivityUpsert | internal/pggeo/insert.go:332-351 | the same three steps with their overwriting variants (the geometry again the helper's route, or the fallback's as written), stopping at the first error |
| Streams.Trunc | internal/strava/activities.go:340 | the float64-to-integer conversion truncates toward zero |
| Streams.DecodeAll | internal/strava/activities.go:334-345 | an array decodes exactly when every value does, giving one value per element in order; otherwise the outcome is that of its first bad value |
| Streams.FailureExtends | internal/strava/activities.go:334-345 | once a prefix fails, the whole array fails in the same way |
| Streams.DecodeStream | internal/strava/activities.go:331-346 | the loop filling a fresh array gives the whole array decoded, or stops at the first value that does not decode |
| Streams.ApplyStream | internal/strava/activities.go:329-458 | an error from one raw stream is reported for that stream's type |
| Streams.UnknownStreamIgnored | internal/strava/activities.go:329 | an unrecognised stream type changes nothing |
| Streams.TimeStreamDecoded | internal/strava/activities.go:330-346 | a decoded time stream has one value per raw value, each the start instant plus the int64 offset or the truncated float64 offset, and only the time field changes |
| Streams.HeartrateStreamDecoded | internal/strava/activities.go:371-387 | heartrate decodes exactly when every value is an int or a float64; the values are kept or truncated, one per raw value, and only the heartrate field changes |
| Streams.LatLngStreamDecoded | internal/strava/activities.go:347-358 | a decoded latlng stream has one pair per raw value, keeps exactly the first two coordinates of each and changes only its own field |
| Streams.LatLngShortPairPanics | internal/strava/activities.go:347-358 | a pair shorter than two coordinates, after values that all decode, makes the whole stream a panic outcome |
| Streams.EarlierStreamsKept | internal/strava/activities.go:327-461 | on an error, the streams left are exactly those after the streams before the failing one, and the error is that stream's own |
| Streams.BikeActivity.constructor | internal/strava/activities.go:76-93 | a new activity has its summary and no stream data |
| Streams.BikeActivity.Assign | internal/strava/activities.go:346 | the streams become the given ones and the summary is untouched |
| Streams.BikeActivity.AddStreams | internal/strava/activities.go:327-461 | the streams become the raw streams applied in order to the old ones; the summary is untouched; the first failure stops the loop with that error |
| Streams.DecodeInto | internal/strava/activities.go:329-458 | decoding one raw stream by its type gives exactly the specified update of the stream set, or that stream's failure |
| Streams.ApplyStreamsStep | internal/strava/activities.go:327-461 | applying the list from position i is the stream at i followed by the rest, stopping at its error |
| Streams.Rides | internal/strava/activities.go:219-232 | the result is absent exactly when some ride's start time does not parse; otherwise it holds only rides, each with its parsed start, and every ride of the input is among them |
| Streams.FilterRides | internal/strava/activities.go:219-232 | the filter loop returns exactly the specified rides, or the parse failure |
| Streams.FilterStep | internal/strava/activities.go:219-232 | one visit of the filter skips a non-ride, fails on an unparsable ride start, and otherwise moves the ride with its parsed start into the kept prefix |
| Query.FirstZoneFrom | internal/pggeo/query.go:443-447 | the zone found from position i is the first zone at or after i that contains the heart rate; none is found exactly when no such zone does |
| Query.CalculateHRZone | internal/pggeo/query.go:439-453 | 0 without zones; otherwise a zone number in [1, number of zones]: the 1-based index of the first zone containing the heart rate when one does, and the number of zones when none does (even below the lowest) |
| Query.SeriesAppend | internal/pggeo/query.go:308-353 | the series of two runs of samples joined is the two series joined |
| Query.SeriesOfOne | internal/pggeo/query.go:309-318 | one sample gives one point exactly when its value is present, carrying its time, its value and its cumulative distance |
| Query.SeriesZones | internal/pggeo/query.go:319-331 | a point carries a zone exactly when it is a heart-rate point, zones were asked for and are known; the zone lies between 0 and the number of zones |
| Query.WantedSet | internal/pggeo/query.go:303-306 | the metric map holds exactly the requested metric names |
| Query.AddSample | internal/pggeo/query.go:308-353 | one loop step appends to each series exactly that sample's point, when the metric is requested and the value is present, and nothing else |
| Query.SeriesStep | internal/pggeo/query.go:308-353 | each requested series over one more sample is the series so far plus that sample's point |
| Query.BuildGraph | internal/pggeo/query.go:302-355 | the graph loop yields, for each requested metric, one point per sample that has the value, in sample order, and an empty series for every metric not requested |
| Query.ActivitySamples | internal/pggeo/query.go:243-294 | the samples read are exactly the athlete's samples of the activity, ordered by point index |
| Query.SamplesOf | internal/pggeo/query.go:243-252 | the WHERE clause keeps exactly the athlete's samples of the activity |
| Query.InRange | internal/pggeo/query.go:375-380 | exactly the samples whose point index lies in [start, end], both ends included, are kept |
| Query.InRangeKeepsOrder | internal/pggeo/query.go:375-380 | the range filter keeps point-index order |
| Query.FilterRange | internal/pggeo/query.go:375-380 | the filter loop keeps exactly the in-range samples, in their order |
| Query.GetGraphDataForActivity | internal/pggeo/query.go:243-356 | an error exactly when the samples query fails; otherwise the graph of the athlete's samples of the activity, in point-index order, over the requested metrics |
| Query.GetGraphDataForSegmentInActivity | internal/pggeo/query.go:359-436 | an error exactly when the index query fails, the index range at tolerance 15 is NULL, or the samples query fails; otherwise the graph over the activity's samples whose index lies inside that range, both ends included |
| Query.SegmentWindowCoversSegment | internal/pggeo/query.go:359-380 | the segment window is in point-index order and holds every sample of the activity that lies on the segment |
| Query.StoredAmong | internal/pggeo/query.go:569-589 | the query returns exactly the requested ids that are stored |
| Query.ActivitiesExist | internal/pggeo/query.go:556-599 | an error only when the query fails, and never for an empty request; otherwise the map's keys are exactly the requested ids, each mapped to true exactly when it is stored |
| Query.MarkFound | internal/pggeo/query.go:581-589 | the map built from the stored rows has exactly the found ids as keys, each mapped to true |
| Query.FillMissing | internal/pggeo/query.go:592-596 | filling in the missing requested ids gives exactly the requested ids as keys, each mapped to true exactly when it is stored |
| Query.TrueKeys | internal/pggeo/query.go:608-613 | the loop collects exactly the ids mapped to true |
| Query.GetExistingActivityIDs | internal/pggeo/query.go:602-616 | an error only when the query fails on a non-empty request; otherwise exactly the requested ids that are stored |
| Query.ActivitiesByIds | internal/pggeo/query.go:850-906 | exactly the athlete's summaries whose id was requested |
| Query.CachedEntry | internal/pggeo/query.go:754-760 | an activity gets cached metrics exactly when its lookup succeeds and finds the key, and then they are that key's entry |
| Query.MergedSound | internal/pggeo/query.go:762-787 | every merged item pairs a fetched summary with the last match for its id, and carries the segment metrics of its cache entry exactly when a lookup found one |
| Query.MergedComplete | internal/pggeo/query.go:762-787 | every fetched summary that has a match appears in the merge |
| Query.HrKey | internal/pggeo/query.go:800-815 | the HR ranking value is the segment value when present (even 0), else the activity average when positive, else 0 |
| Query.SpeedKey | internal/pggeo/query.go:817-832 | the speed ranking value is the segment value when present (even 0), else the activity average when positive, else 0 |
| Query.RankingMeaning | internal/pggeo/query.go:833-846 | the default ranking is by min distance ascending (best match first); "total_time" is elapsed time descending; "date" is newest first |
| Query.SwapDown | internal/pggeo/query.go:797-847 | exchanges two neighbours and leaves every other item in place |
| Query.InsertAt | internal/pggeo/query.go:797-847 | one insertion step extends the ranked prefix by one item, keeps the multiset of items, and leaves the rest untouched |
| Query.SortActivities | internal/pggeo/query.go:797-847 | the slice is permuted in place into descending order of the requested key (the default is min distance ascending) |
| Query.LatestMatches | internal/pggeo/query.go:740-745 | the ids are exactly the matches' activity ids, and the match map holds, for each id, the last match with that id |
| Query.LookupMetrics | internal/pggeo/query.go:753-760 | the metrics map holds an entry for exactly those requested ids whose lookup succeeds and finds one, and that entry is the cached one |
| Query.CombineFetched | internal/pggeo/query.go:762-787 | the combination loop yields exactly the merge of the fetched summaries with their matches and cached metrics |
| Query.MergeWithMatches | internal/pggeo/query.go:734-793 | no matches give an empty result; otherwise an error exactly when fetching the summaries fails, and else a permutation of the merge of the athlete's matched summaries, ranked by the requested key |
| Query.GetActivitiesForSegment | internal/pggeo/query.go:666-700 | the cache is used exactly when not forced, readable, non-empty and its newest entry is under an hour old, and then it is unchanged; otherwise a failing matcher is an error that leaves the cache unchanged, and else the matcher's rows are used and upserted (up to a failing upsert, which does not fail the call); the result is an error exactly then or when fetching the summaries of a non-empty match list fails, and is otherwise the ranked merge of the rows used |
| Query.CachedRowsGiveStoredFields | internal/pggeo/query.go:668-680 | served from the cache, every item is the athlete's summary and carries the match fields stored under its own key |
| Segments.DescriptionOf | internal/pggeo/segments.go:78-81 | an empty description is stored as NULL, and any other is stored as given |
| Segments.StoredGain | internal/pggeo/segments.go:51-65 | the gain is stored as absent when there are no samples or the total is 0; otherwise it is positive and equals the summed positive rises |
| Segments.ElevationGain | internal/pggeo/segments.go:51-65 | the gain loop computes exactly the stored gain |
| Segments.ShortLinesRejected | internal/pggeo/segments.go:37-39 | insert and update with fewer than 2 points fail before touching the table or the cache |
| Segments.InsertAddsOneRow | internal/pggeo/segments.go:36-102 | a successful insert adds exactly one row, under an id no row had, holding the athlete, the name, the NULL-for-empty description, the route of the points and the stored gain; other rows and the cache are unchanged |
| Segments.StoredGainNeverZero | internal/pggeo/segments.go:62-64 | a stored gain is positive, never 0; fewer than 2 samples store none |
| Segments.UpdateInvalidates | internal/pggeo/segments.go:202-261 | a successful update changes only that row (its athlete and gain kept); afterwards no cache entry of the segment remains unless the invalidation failed; other segments' entries are kept |
| Segments.RefreshFailureKeepsStaleMatches | internal/pggeo/segments.go:247-258 | an update whose refresh fails has already changed the route, returns an error and leaves the segment's cached matches in place |
| Segments.DeleteClearsSegment | internal/pggeo/segments.go:264-282 | a successful delete removes exactly that row and every cache entry of the segment, even when the explicit invalidation failed (ON DELETE CASCADE); other segments' entries are kept |
| Segments.DeleteMissingNotFound | internal/pggeo/segments.go:277-279 | deleting an id no row has (0 rows affected) reports not found and changes no row |
| Segments.OperationsKeepWellKeyed | internal/pggeo/schema.go:230-240 | insert, update and delete keep every row under its own id, below the next serial id |
| Segments.SegmentStore.constructor | internal/pggeo/schema.go:230-240 | the segment table starts empty with the serial counter at 1 |
| Segments.SegmentStore.InsertFavoriteSegment | internal/pggeo/segments.go:36-102 | the table becomes the specified insert's table and the result is its result |
| Segments.SegmentStore.UpdateFavoriteSegment | internal/pggeo/segments.go:202-261 | the table and the cache become those of the specified update, invalidation after the refresh, and the result is its result |
| Segments.SegmentStore.DeleteFavoriteSegment | internal/pggeo/segments.go:264-282 | the table and the cache become those of the specified delete, invalidation first, and the result is its result |
| Server.PageParam | internal/web/server.go:152-158 | the page is the given number when it is positive, and 1 otherwise |
| Server.PerPageParam | internal/web/server.go:153-163 | per_page is the given number when it lies in 1..100, and 20 otherwise |
| Server.Paginate | internal/web/server.go:150-222 | the page is the requested page clamped to a page count of at least 1; HasNext holds exactly when the page is below the count, HasPrev exactly when it is above 1 |
| Server.PageBounds | internal/web/server.go:186-202 | the page count is ceil(total / per_page), and 1 for no activities; the shown range starts at (page − 1) × per_page, lies inside the list, is never longer than a page and is never empty when there are activities |
| Server.CeilingDivision | internal/web/server.go:187 | (total + n − 1) / n is the least number of n-sized pages that hold total items |
| Server.DivisionPinned | internal/web/server.go:194-198 | an index that lies on page k divides down to k |
| Server.PageItems | internal/web/server.go:199-202 | a page never shows more than per_page activities, and shows at least one when there are any |
| Server.EveryItemOnItsPage | internal/web/server.go:186-202 | every activity is shown on the page its index falls in, and that page exists |
| Server.IndexPage | internal/web/server.go:186-198 | an item's page index is below the page count, and that page spans the item |
| Server.NoItemOnTwoPages | internal/web/server.go:194-198 | an activity shown on a page is shown on its own page only |
| Server.InsidePageSlice | internal/web/server.go:194-198 | an index inside the slice of a page, divided by the page size, gives that page less one |
| Server.PointsOf | internal/web/server.go:628-631 | one [lat, lng] pair per sample, in order |
| Server.AcceptedIsRange | internal/web/server.go:604-623 | the handler's checks accept a request exactly when the name is non-empty and 0 ≤ start < end ≤ number of samples |
| Server.CutSegmentFollowsSamples | internal/web/server.go:626-633 | the segment cut from a window follows the window's locations |
| Server.OneSampleWindowRefused | internal/web/server.go:620-637 | a one-sample window passes the handler's checks but is refused by the insert, which needs 2 points |
| Server.CutWindow | internal/web/server.go:626-631 | the slicing loop gives exactly the samples [start, end), end excluded, and their [lat, lng] pairs |
| Server.CreateSegment | internal/web/server.go:591-639 | 400 for an empty name or a bad index pair; 404 when the samples cannot be read; 400 when the range exceeds them; none of these touch the table; otherwise the insert of the window [start, end): 200 with the new segment, or 500 |
| Server.ToleranceParam | internal/web/server.go:743-748 | the tolerance is the parsed value when it parses, else 15 metres |
| Server.SortParam | internal/web/server.go:865-868 | the sort key is "distance" when the parameter is empty, else the parameter |
| Server.RefreshParam | internal/web/server.go:864 | only the exact text "true" forces recomputation |
| Server.DefaultSortIsDistance | internal/web/server.go:865-868 | an absent sort parameter ranks by min distance ascending, as "distance" does |
| Server.SegmentIndices | internal/web/server.go:737-779 | a cached entry answers only when both its indices are present; otherwise the computed range is answered, and a NULL range or a failed query gives 500; the cache is never written |
| Server.CachedAnswer | internal/web/server.go:798-812 | a cache hit answers the two cached averages, with 0 for a missing distance or climb |
| Server.SegmentActivityMetricsHandler | internal/web/server.go:781-854 | a hit (both averages cached) answers from the cache; otherwise the computed metrics are answered (zeros when computing fails), and they are written back with the range only when the range resolves; a failed write is ignored |
| Server.MetricsWritten | internal/web/server.go:841 | the write-back changes at most the one key; an UPDATE alone never creates it; once written, the key holds the new range and metrics |
| Server.WrittenMetricsAnswerNextTime | internal/web/server.go:798-841 | once metrics are written back for a key, the next request for that key is a cache hit with the same answer |
| Server.SegmentGet | internal/web/server.go:879-889 | 404 exactly when no segment has the id; 403 exactly when it belongs to another athlete; otherwise 200 with the segment |
| Server.DeleteSegmentHandler | internal/web/server.go:890-908 | 404 and 403 as for GET, and then neither the table nor the cache changes; otherwise the delete: 204 on success, else 500 |
| Server.OwnerOnlyDeletes | internal/web/server.go:884-900 | another athlete's segment is answered 403 and not revealed |
| Server.Int64TextRange | internal/web/server.go:654-658 | an id parses as a signed 64-bit integer exactly when it is a non-empty run of digits, after at most one sign, whose value is at most 2^63 − 1, or 2^63 after a minus sign |
| Server.NonDigitRefused | internal/web/server.go:654-658 | a character that is not a digit after the optional sign makes the id unparsable |
| Server.OneIsInt64Text | internal/web/server.go:654 | "1" parses as an id |
| Server.Int64TextExamples | internal/web/server.go:654-658 | "1", "+1" and "-1" parse; "", "-", "abc" and "1.5" do not |
| Server.InvalidActivityIdRefused | internal/web/server.go:738-741 | /1/activity/x/indices and /1/activity/x/metrics are answered 400 for the activity id |
| Server.InvalidIdRefusedBeforeRouting | internal/web/server.go:654-658 | a non-numeric id is answered 400 before any route is chosen, so /abc/activity/2 does not panic |
| Server.DispatchAsWritten | internal/web/server.go:642-889 | an unparsable id is answered 400 before routing; among parsable ids the routing as written panics exactly on a path of three parts whose second is "activity"; an unparsable activity id on the indices or metrics route is answered 400 |
| Server.DispatchAsWrittenPanics | internal/web/server.go:737 | /api/segments/1/activity/2 splits into ["1", "activity", "2"] and panics |
| Server.Dispatch | internal/web/server.go:642-889 | the guarded routing never panics; it refuses an unparsable id with 400; it selects the indices or metrics endpoint exactly for /{id}/activity/{a}/indices or /{id}/activity/{a}/metrics with a parsable id and activity id, and answers 400 when only the activity id does not parse; a three-part /{id}/activity/{a} falls through to the plain segment GET |
| Server.DispatchAgreesWhereNoPanic | internal/web/server.go:679-889 | the guarded routing agrees with the routing as written on every path that does not panic |
| Redirect.HostOf | cmd/main.go:58-61 | the host is the configured one, or "localhost" when unset |
| Redirect.PortOf | cmd/main.go:62-65 | the port is the configured one, or "8080" when unset |
| Redirect.ProtocolOf | cmd/main.go:67-70 | the protocol is "https" exactly when web_protocol is exactly "https", and "http" otherwise |
| Redirect.ConstructedURI | cmd/main.go:74-85 | https gives no port; http on port 80 gives no port; http on any other port gives ":port" |
| Redirect.WithRedirect | cmd/main.go:57-87 | an explicit redirect URI is kept; an empty one is filled in with the constructed URI |
| Redirect.RedirectIdempotent | cmd/main.go:57 | the filled-in URI is non-empty, so the construction never runs twice |
| Redirect.URIShape | cmd/main.go:77-84 | the URI is always protocol "://" host, an optional ":" port, then "/strava/callback" |
| Redirect.HttpsOmitsPort | cmd/main.go:75-81 | an https URI never contains a port, whatever port is configured |
| Redirect.HttpPortShownUnless80 | cmd/main.go:75-85 | an http URI contains ":port" exactly when the port is not 80 |
| Redirect.DefaultsGiveLocalURI | cmd/main.go:58-85 | with nothing configured the URI is http://localhost:8080/strava/callback |
| Redirect.ProtocolMatchedExactly | cmd/main.go:68 | any other spelling of the protocol, such as "HTTPS", gives an http URI |

## Left out

- PostGIS functions (`ST_Distance`, `ST_Length`, `ST_Intersection`, `ST_DWithin`, `ST_ClosestPoint`) and the Go `haversine` (internal/pggeo/insert.go:17-26) are uninterpreted functions. The model assumes only that they are non-negative and deterministic, not their geodesy.
- DDL is not modelled. This covers table creation, `createHelperFunctions` and `migratePointSamplesTable`, whose failures the program only logs. Only the schema comparison and the migrate-or-create decision are.
- Scanning SQL rows into Go structs is not modelled: each query's result is the set or sequence of values it selects.
- `GetActivitiesByIDs` is a filter of the stored activities by identifier and athlete. The SQL text and column list are not modelled.
- The connection mutex `connMu` and other concurrency are left out. Every operation is atomic in the model.
- Web sessions, cookies, templates, JSON encoding and the 401 path for a missing session are left out. The handlers take the athlete identifier as a parameter.
- The Strava HTTP clients, token refresh and the `FetchBikeActivities` paging loop are left out: they are I/O against a remote service. Only the ride-type filter over a fetched page is modelled.
- RFC 3339 parsing is a partial function from strings to seconds. Its grammar is not modelled.
- `strings.ToLower` and `strings.TrimSpace` are modelled for ASCII only.
- Column defaults are read from the catalog but never compared by the code (internal/pggeo/schema.go:901-921), so the model's column record has no default.
- `refresh_segment_simplified` and `refresh_activity_simplified` are modelled only by whether they succeed. The simplified geometry they compute is not.
- The start and end latitude/longitude fields of an activity summary are carried as opaque values.
- `ListFavoriteSegments`, `GetFavoriteSegment` and `GetFavoriteSegmentByName` are single reads of the segment map and have no operation of their own.
- The segment graph handler's parsing of its comma-separated activity list is not modelled. The handler is modelled from the parsed identifiers.
- The indices and metrics handlers (`Server.SegmentIndices`, `Server.SegmentActivityMetricsHandler`) take the segment and activity ids already parsed and the tolerance as a number; the 400 answers for an id that does not parse are outcomes of `Server.Dispatch`.
- The `created_at` and `updated_at` timestamps that the database fills in are left out.
- The `sync_activities`, `stats`, `example` and `connect` commands and pages are left out. They drive the modelled operations from Strava responses or render pages.

## Findings

| source | as written | input that shows it | evidently intended | confidence | as-written member | corrected member |
|---|---|---|---|---|---|---|
| internal/web/server.go:737 | the indices route is guarded by `len(parts) > 2` but reads `parts[3]` | the path /api/segments/1/activity/2, split into ["1", "activity", "2"], indexes out of range and panics | the guard `len(parts) > 3`, so a three-part path falls through to the plain GET /api/segments/{id} (200, 403 or 404, internal/web/server.go:876-888) | high (not executed) | Server.DispatchAsWritten, Server.DispatchAsWrittenPanics | Server.Dispatch, Server.DispatchAgreesWhereNoPanic |
| internal/pggeo/insert.go:114 | the fallback WKT writes each vertex as `coord[0] coord[1]`, which is latitude then longitude, under a comment saying "lng lat" | the route [[1.0, 2.0], [3.0, 4.0]] is stored as LINESTRING(1 2, 3 4), whose points are longitude 1, latitude 2 and longitude 3, latitude 4, instead of (2 1, 4 3) | `coord[1] coord[0]`, longitude first as WKT requires and as the helper function stores it | high (not executed) | Ingest.FallbackWktAsWritten, Ingest.FallbackAsWrittenMisplacesRoute, Ingest.StoredRoute | Ingest.FallbackWkt, Ingest.FallbackMatchesHelper |

The geometry store (`Ingest.ActivityStore.StoreGeometry`, `Ingest.GeometryStored`) keeps the fallback as written, so the model's database holds the swapped route whenever the helper fails. The corrected fallback is defined beside it, and `Ingest.FallbackMatchesHelper` proves that it would store the helper's route. The upsert path repeats the same fallback at internal/pggeo/insert.go:386.
