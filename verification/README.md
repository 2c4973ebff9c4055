# Verified model of the stream telemetry engine and the slave registry

This project models the hard core of the HyperHive master: the table of slave connections and the
concurrent tasks around it, the log-analytics pipelines (intel and analytics), the live snapshot cache
and port index, the log-file cache and rewriter, the DNS alias file, and the even sampler. Everything is
checked by `dafny verify dfyconfig.toml`.

Conventions. Strings are byte sequences (`Text.Str`). Instants are integers, nanoseconds since Go's zero
time, so 0 is `time.Time{}`; durations and counts are unbounded integers; session times are reals. A Go
`map` that is ranged over is visited in an arbitrary order: loops pick any remaining key, and a lemma that
speaks of an order quantifies over every listing of the keys (`Telemetry.Lists`). `sort.Slice` is any
ordered rearrangement (`Sorting.Sort`). Functions of the libraries that only classify text (IP parsing,
case mapping, scopes, hashes, number formatting) are parameters and therefore hold for any such function.

## How it is laid out

- `SlaveRegistry`: the locked operations as a class over row objects, against functions on the table.
- `SlaveTasks`: register, sweep, check-and-remove and restore as a state machine. One action lies between
  two lock acquisitions, dials, pings or closes; dial and ping outcomes and clock readings are inputs. All
  results are about every interleaving of any number of tasks.
- `SlaveRestore`: one task among the others: how often a restore dials and when it stops, and that a sweep
  visits every row it copied.
- `Telemetry`, `Metrics`, `JoinedKeys`: entries, tallies, the metrics accumulator, grouping by a key.
- `EntryFilter`, `IntelAxis`, `IntelPipeline`, `IntelAggregate`: request filters, time axis, hourly series,
  cross-tabulation.
- `SourcePage`, `SourceCursor`, `PageChain`: heap paging, cursor codec, the chain of pages.
- `StreamAnalytics`, `SourceDimensions`, `Ranking`: the analytics aggregation, its distinct counts, its
  rankings.
- `StreamEvidence`, `StreamMatching`, `LivePortIndex`: which configured streams an observation fits.
- `SnapshotCache`, `CaptureGate`: the live snapshot cache against the list of all puts; paging of one
  snapshot; the semaphore around captures as a state machine.
- `LogFileCache`, `LogRewrite`: the cached log reader under concurrency; delete by rewriting.
- `AliasFile`, `EvenSampler`: the alias file and its operations; the sampler.
- `Text`, `Lines`, `Sequences`, `Options`, `Sorting`: shared vocabulary.

## Findings

Where the code meets a promise only under a condition, the condition is proved exact and a failing input is
given.

- Registering an address under a name that belongs to another row replaces only the first clashing row.
  The table stays free of repeats if and only if address and name do not clash with two different rows
  (`SlaveRegistry.RegistrationKeepsUniqueIff`, `RegistrationCanDuplicate`). If announced pairs are
  one-to-one this never happens (`SlaveTasks.PairedRunsStayUnique`).
- A stale check removes another registration if and only if one of its address has its entry stamp, or its
  stamp is the zero time (`SlaveTasks.StaleCheckRemovesOtherIff`, and `RemovesOtherIff` for any table). A
  run that gets there registers one slave twice within one clock reading (`EqualStampsRemoveLater`).
- `intelHourlyBounds` uses the zero time for "nothing seen". The hourly series keeps every entry in every map
  order if and only if that sentinel is not hit (`IntelPipeline.ConservesIff`). An entry in the first hour
  after the zero time is dropped (`FirstHourIsDropped`).
- A next-cursor is issued for identities of any length but accepted only up to 3069 bytes, so following
  cursors lists all sources if and only if every page but the last ends within that bound
  (`PageChain.ChainListsAllIff`, `LongIdentityCutsShort`).
- The log cache serves fresh entries in every interleaving if and only if the file holds the same entries
  at every version between two versions of equal stamp as at the later one (`LogFileCache.AlwaysFreshIff`). One
  content per stamp is not enough: a file restored with its old size and time misleads
  (`RestoredFileMisleads`).
- `validateAliasIP` trims its arguments, `AddAlias` stores them untrimmed: an accepted pair is found again if
  and only if one line can carry it (`AliasFile.AddPersistsIff`). The address "::" with a space or a no-break
  space behind it is accepted and lost (`UntrimmedAddressIsLost`).
- Joined keys are shared by two lists of fields if and only if a field holds a NUL (`JoinedKeys.CollidesIff`);
  two log entries with different paths and one path key are given (`EntriesCollide`).

Two arithmetic facts are no findings about this program, because no caller gets there: the rounded-up
axis step overflows a `time.Duration` exactly for one point over 106751 days or more, and the only caller
asks for 400 points (`IntelAxis.StepFitsIff`); the eviction loop does not end for a cache of size zero,
and the only cache has size 4.

## Model

| member | source | states |
|---|---|---|
| SlaveRegistry.Registry.GetConnectionByAddr | master/protocol/helpers.go:121-131 | the first row with the address, or nil exactly if there is none |
| SlaveRegistry.Registry.GetConnectionByMachineName | master/protocol/helpers.go:133-143 | the first row with the name, or nil exactly if there is none |
| SlaveRegistry.Registry.GetConnectionsSnapshot | master/protocol/helpers.go:107-116 | a copy of every row, in table order |
| SlaveRegistry.Registry.AddOrReplaceConnection | master/protocol/helpers.go:159-179 | the first row clashing by address or name is replaced in place and returned; without one the entry is appended |
| SlaveRegistry.Registry.RemoveConnection | master/protocol/helpers.go:145-157 | exactly the first row with the address and the expected stamp (any stamp if zero) leaves, the others keep their order |
| SlaveRegistry.Registry.MarkSlaveHealthy | master/protocol/helpers.go:181-191 | only LastSeen of the first row with the address changes |
| SlaveRegistry.RegistrationIsVisible | master/protocol/helpers.go:121-179 | right after a registration both lookups return the new entry, whatever the table held |
| SlaveRegistry.RegistrationKeepsUniqueIff | master/protocol/helpers.go:159-179 | a table without repeated addresses or names stays so iff the new entry clashes with at most one row |
| SlaveRegistry.RegistrationCanDuplicate | master/protocol/helpers.go:169-175 | a registration whose name belongs to another row leaves that name in two rows |
| SlaveRegistry.WithoutKeepsUnique | master/protocol/helpers.go:145-157 | removal never introduces a repeat |
| SlaveTasks.OneHolder | master/protocol/protocol.go:64-172 | in every interleaving each opened handle is held exactly once in all: by one running task, by one row, or by one close |
| SlaveTasks.TableHandlesAreOpen | master/protocol/protocol.go:64-172 | a handle in the table was never closed, sits in one row only, and no handle is closed twice |
| SlaveTasks.QuiescentHandles | master/protocol/protocol.go:64-172 | when all tasks have finished, an opened handle is in the table or closed once, never lost |
| SlaveTasks.StaleCheckRemovesOnlyItsOwn | master/protocol/protocol.go:93-99 | if registrations of one address have distinct stamps, a check started from an old copy removes the row of its own registration or nothing |
| SlaveTasks.RemovesOtherIff | master/protocol/helpers.go:145-157 | on any table a check takes out another registration iff such a row has its address and a stamp it cannot tell apart, in front of every row of its own |
| SlaveTasks.StaleCheckRemovesOtherIff | master/protocol/protocol.go:93-99 | at any moment of a run with an unrepeated table: iff another registration of its address has its stamp, or its stamp is the zero time |
| SlaveTasks.EqualStampsRemoveLater | master/protocol/protocol.go:64-103 | a run in which one slave registers twice with one clock reading and the delayed check of the first registration removes the second |
| SlaveTasks.PairedRunsStayUnique | master/protocol/protocol.go:122-172 | if announced addresses and names pair one-to-one, no interleaving repeats either in the table |
| SlaveTasks.TasksStop | master/protocol/protocol.go:41-103 | every action moves its task down a well-founded rank: the retry, ping and sweep loops all stop |
| SlaveTasks.ThreeFailuresRemove | master/protocol/protocol.go:80-94 | a check goes on to remove the row exactly when three pings in a row failed |
| SlaveRestore.TaskFollows | master/protocol/protocol.go:41-103 | in every run a task is where its own moves bring it, in the worlds the other tasks left for them |
| SlaveRestore.FailureReturns | master/protocol/protocol.go:122-152 | a registration that is refused, cannot dial or fails its first ping has dialled once and returns an error to its caller |
| SlaveRestore.SuccessReturns | master/protocol/protocol.go:122-172 | one whose dial and ping answer dials once, publishes the handle it dialled under its address and name, closes what it displaced, and returns success |
| SlaveRestore.RequestMeans | master/protocol/protocol.go:196-204 | a request ends if its registration fails and sweeps the table if it succeeds |
| SlaveRestore.RoundsDial | master/protocol/protocol.go:47-60 | a restore that never finds the address dials once per failed attempt, and after exactly three goes on to the rest of its sweep |
| SlaveRestore.RestoreDials | master/protocol/protocol.go:41-62 | no dial if the address is in the table; else one per failed attempt until the address reappears, an attempt succeeds or three failed; the rest of the sweep only then |
| SlaveRestore.EveryRestoreEnds | master/protocol/protocol.go:41-62 | any eighteen moves begin with a restore that ended in one of these ways |
| SlaveRestore.RestoreInRun | master/protocol/protocol.go:41-62 | the same for a restore in any run |
| SlaveRestore.VisitPings | master/protocol/protocol.go:80-120 | a sweep pings a live handle up to four times: the first answer marks the slave, four failures remove its row |
| SlaveRestore.RemovalMeans | master/protocol/protocol.go:93-102 | a row removed is followed by the close of its handle and the restore; where none is removed nothing changes and the sweep goes on |
| SlaveRestore.SweepVisitsAll | master/protocol/protocol.go:106-120 | in every run a finished sweep turned to every row the table had when it started, each once and in order |
| SlaveRestore.RemovedSlaveComesBack | master/protocol/protocol.go:41-103 | a run from the empty state: registered, three failed pings, removed and closed, one good dial, and the address is in the table again under a new handle |
| Metrics.FoldMeans | master/api/stream_analytics.go:1134-1153 | an accumulator holds the number and failures of its entries, the sums of sent bytes, received bytes and session times, the extreme parsed times (both zero iff none parsed) and the longest session |
| Metrics.RowsAddUp | master/api/stream_analytics.go:1134-1153 | accumulators grouped by any key add up to all the entries, in any map order |
| Metrics.GroupsCommute | master/api/stream_intel.go:791-840 | grouping by one key and then another selects the same entries as the other way round |
| Telemetry.GroupsPartition | master/api/stream_analytics.go:802-865 | the groups of the listed keys add up to exactly the entries whose key is listed |
| Telemetry.TalliesAddUp | master/api/stream_analytics.go:845-858 | a table grown bucket by bucket adds up to all its entries, in any map order |
| Telemetry.GatheredIsGroup | master/api/stream_intel.go:1021-1029 | gathering fine buckets by a coarser key gives exactly the coarser group, in any visiting order |
| JoinedKeys.KeysRead | master/api/stream_analytics.go:1343-1345 | the path, route and route-ID keys of an entry, field by field |
| JoinedKeys.JoinInjective | master/api/stream_analytics.go:1343-1345 | joining equally many NUL-free fields with NUL loses nothing |
| JoinedKeys.PathKeyIff | master/api/stream_analytics.go:1343-1345 | if the fields of one entry are NUL-free, another shares its path key iff source, listener, destination and upper-case protocol agree |
| JoinedKeys.RouteKeyIff | master/api/stream_intel.go:363-365 | the same for route keys and the three route fields |
| JoinedKeys.NulFreeKeyIsOwn | master/api/stream_analytics.go:1343-1345 | a NUL-free list has its key to itself among the lists of its length, whatever the other one holds |
| JoinedKeys.CollidesIff | master/api/stream_analytics.go:1343-1345 | a list of two or more fields shares its key with another of its length iff some field holds a NUL |
| JoinedKeys.SharesKeyIff | master/api/stream_analytics.go:1343-1345 | with NUL-free source and protocol, some other path shares an entry's key iff its listener or destination holds a NUL |
| JoinedKeys.EntriesCollide | master/api/stream_analytics.go:1343-1345 | two log entries with different paths and one path key |
| IntelAxis.BuildAxis | master/api/stream_intel.go:943-965 | where the step fits a Duration the loop ends, and yields the consecutive multiples of the final step from the truncated start up to the end |
| IntelAxis.StepMeans | master/api/stream_intel.go:948-957 | the step is whole hours for spans up to 72 hours and whole days above, the least number of them of which maxPoints hold the span |
| IntelAxis.BucketsAscend | master/api/stream_intel.go:958-961 | buckets ascend by exactly the step and each is its own truncation |
| IntelAxis.AxisCovers | master/api/stream_intel.go:959-961 | every instant of the range, truncated to the step, is a bucket |
| IntelAxis.AxisRefinesHours | master/api/stream_intel.go:949-957 | truncating an hour to the axis is truncating any instant within that hour |
| IntelAxis.AxisIsBounded | master/api/stream_intel.go:953-961 | unless the span saturates or the step overflows there are at most maxPoints + 1 buckets |
| IntelAxis.ExtraBucketOccurs | master/api/stream_intel.go:953-961 | the extra bucket does occur |
| IntelAxis.StepFitsIff | master/api/stream_intel.go:954-957 | the rounded-up step fits a Duration except for a single point over 106751 days or more |
| EntryFilter.FilterEntries | master/api/stream_analytics.go:696-742 | exactly the entries inside the window that pass every other filter, in order |
| EntryFilter.FiltersCombine | master/api/stream_analytics.go:696-742 | the filters together ask for all that each asks alone (what that is: EachFilter, and WindowMeans for the two bounds) |
| IntelPipeline.HourBuckets | master/api/stream_intel.go:778-789 | one bucket per hour with a parsed entry, holding that hour's total |
| IntelPipeline.HourlyBounds | master/api/stream_intel.go:974-985 | the bounds as the loop computes them for a visiting order, zero time as sentinel |
| IntelPipeline.MinSeenIsLeast | master/api/stream_intel.go:976-979 | a least hour other than the zero time is found in every visiting order |
| IntelPipeline.MaxSeenIsGreatest | master/api/stream_intel.go:980-982 | a greatest hour other than the zero time is found in every visiting order |
| IntelPipeline.HourlySeries | master/api/stream_intel.go:1012-1034 | each point is what the hours falling on its bucket add up to |
| IntelPipeline.Spark | master/api/stream_intel.go:994-1010 | each value is the connections of the hours falling on its bucket, each label its bucket by day or by time of day |
| IntelPipeline.BucketIsItsEntries | master/api/stream_intel.go:1021-1029 | a re-bucketed point is the total of the parsed entries whose own time truncates to that bucket |
| IntelPipeline.SparkIsTheTailOfTheSeries | master/api/stream_intel.go:967-972 | spark values are the connections of the last (up to thirty) points of the dense series, whatever the two map orders |
| IntelPipeline.SeriesConserves | master/api/stream_intel.go:1012-1034 | on buckets that catch every parsed entry the series adds up to exactly those entries |
| IntelPipeline.SpanConserves | master/api/stream_intel.go:943-965 | the axis of any range that contains the parsed entries loses none of them |
| IntelPipeline.ChooseAxis | master/api/stream_intel.go:571-588 | the axis built from the window where given, from the data's hours where not |
| IntelPipeline.ConservesIff | master/api/stream_intel.go:568-588 | for windowed entries the series adds up to the parsed ones in every map order iff the zero-time sentinel is not hit |
| IntelPipeline.UnclearBoundsDrop | master/api/stream_intel.go:974-985 | where the sentinel is hit, some map order leaves the axis empty and drops every entry |
| IntelPipeline.FirstHourIsDropped | master/api/stream_intel.go:568-588 | one entry in the first hour after the zero time, no window: an empty axis, and the entry in no point |
| IntelPipeline.OverviewSeries | master/api/stream_intel.go:568-588 | filter, aggregation, axis choice and re-bucketing together lose no parsed entry |
| IntelAggregate.Aggregation.AddEntry | master/api/stream_intel.go:791-848 | one entry keeps all four maps exact tabulations |
| IntelAggregate.Aggregation.Run | master/api/stream_intel.go:772-850 | after the pass each source, route and destination row is the fold, the counts, the ports, protocols and countries, and the hour buckets of exactly its entries |
| IntelAggregate.CrossTabulation | master/api/stream_intel.go:803-837 | source s counts destination d exactly as often as d counts s: once per entry from s to d |
| IntelAggregate.GroupingsAddUp | master/api/stream_intel.go:791-840 | connections, failures and bytes add up to all entries over sources, over routes and over destinations |
| IntelAggregate.HoursAddUp | master/api/stream_intel.go:841-847 | for every hour the source, route and destination buckets each add up to the global bucket |
| IntelAggregate.EntitySeriesConserve | master/api/stream_intel.go:1012-1034 | on the axis chosen from all entries the series of every source, route and destination adds up to its own parsed entries |
| SourcePage.PageHeap.Up | master/api/stream_analytics.go:320-331 | sifting up restores the heap and only rearranges it |
| SourcePage.PageHeap.FixRoot | master/api/stream_analytics.go:1121-1124 | replacing the root and fixing it restores the heap and only rearranges it |
| SourcePage.RootIsLargest | master/api/stream_analytics.go:320-331 | in a heap no element exceeds the root |
| SourcePage.Offer | master/api/stream_analytics.go:1117-1124 | one candidate offered keeps exactly the n smallest seen so far |
| SourcePage.Page | master/api/stream_analytics.go:1111-1132 | for every map order the page is the first limit identities above the cursor, ascending, and hasMore holds iff more remain |
| SourceCursor.DecodeEncode | master/api/stream_analytics.go:524-526 | unpadded base64url decodes to what was encoded (section 5 of RFC 4648) |
| SourceCursor.AlphabetIs | master/api/stream_analytics.go:524-526 | the 64 letters are those of section 5 of RFC 4648, in its order |
| SourceCursor.CursorRoundTrip | master/api/stream_analytics.go:509-526 | a cursor parses back to its identity up to 3069 bytes and is refused beyond |
| SourceCursor.OnlyIssuedCursorsParse | master/api/stream_analytics.go:509-522 | the only non-empty value accepted for an identity is the cursor issued for it |
| SourceCursor.SecondSpellingRefused | master/api/stream_analytics.go:518-520 | two spellings decode alike; only the canonical one is accepted |
| PageChain.Request | master/api/stream_analytics.go:875-947 | one request lists the first identities behind its cursor and issues the cursor of the last one iff more remain; a bad cursor is an error |
| PageChain.AboveIsTail | master/api/stream_analytics.go:1113-1116 | what is above a listed identity is the rest of the listing |
| PageChain.CutMeans | master/api/stream_analytics.go:1126-1131 | the pages concatenate to the whole listing and number ceil(n / limit), at least one |
| PageChain.ChainListsAllIff | master/api/stream_analytics.go:509-526 | following cursors lists every source once, ascending, in ceil(n / limit) pages, iff every page but the last ends with at most 3069 bytes |
| PageChain.LongIdentityCutsShort | master/api/stream_analytics.go:509-526 | with a longer identity at a page end the sources behind it are never listed |
| StreamAnalytics.Aggregation.AddEntry | master/api/stream_analytics.go:802-866 | one entry keeps paths, destinations, timeline, seven breakdowns, summary and distinct sets exact |
| StreamAnalytics.SummaryStep | master/api/stream_analytics.go:1155-1179 | the summary counts and adds up the entries, and its date range is their extreme times cut to the second, although compared as written |
| StreamAnalytics.Aggregation.Run | master/api/stream_analytics.go:802-866 | after the pass every table describes exactly the entries |
| StreamAnalytics.AddSelected | master/api/stream_analytics.go:876-890 | each selected source holds the fold, protocols and countries of exactly its entries, and no other source has a row |
| StreamAnalytics.TablesAddUp | master/api/stream_analytics.go:802-873 | totals over paths and over destinations equal the summary; the timeline adds up to the parsed entries |
| StreamAnalytics.BreakdownAddsUp | master/api/stream_analytics.go:843-858 | each of the seven breakdowns adds up to the summary |
| StreamAnalytics.BreakdownsCount | master/api/stream_analytics.go:843-858 | each row of the seven breakdowns is the total of the entries with its upper-case protocol, country, upstream port, outcome, decimal status, client scope and upstream scope, and there is a row iff there is such an entry |
| StreamAnalytics.PathRowIsExact | master/api/stream_analytics.go:806-812 | with NUL-free fields a path row carries the fields of each of its entries |
| StreamAnalytics.DimensionsAreExact | master/api/stream_analytics.go:892-896 | with NUL-free fields the two counters of a selected source are the distinct listeners and destinations of its log entries |
| StreamAnalytics.Sources | master/api/stream_analytics.go:867-896 | from the entries to the source section: page, rows and counters together |
| Ranking.Top | master/api/stream_analytics.go:1302-1321 | whatever the map order each listed row has more bytes than every row behind it or left out, or as many and more connections, or as many of both and the smaller name; rows once each, all of them up to the limit; available counts all |
| Ranking.RankingIsUnique | master/api/stream_analytics.go:897-910 | a table has one ranking only, so the map order never shows |
| SourceDimensions.SeenIffPrevious | master/api/stream_analytics.go:1073-1085 | in sorted order a pair was seen before iff the last selected path has it, though skipped paths do not update it |
| SourceDimensions.Scan | master/api/stream_analytics.go:1073-1085 | one scan counts the different fields of every selected source |
| SourceDimensions.CountDimensions | master/api/stream_analytics.go:1063-1109 | both counters are exact and the twice re-sorted slice still holds the same paths |
| StreamEvidence.MismatchIff | master/api/stream_analytics.go:1274-1288 | a stream is contradicted only by two different addresses, never by aliases |
| StreamEvidence.EvidenceMeans | master/api/stream_analytics.go:1274-1300 | a match iff the configured host is the destination's address, or folds to the raw host where there is no address, or equals or lies below one of its aliases; a mismatch iff both are addresses and differ |
| StreamEvidence.EvidenceGrows | master/api/stream_analytics.go:1289-1300 | more aliases can only turn inconclusive evidence into a match |
| StreamMatching.MatchStreams | master/api/stream_analytics.go:1181-1233 | the streams not ruled out, in ID order, with the status their evidence gives |
| StreamMatching.MatchMeans | master/api/stream_analytics.go:1181-1233 | in the fields of observation and streams: which streams are returned, in ID order, and when the status is matched, ambiguous, indeterminate or unmatched |
| StreamMatching.SingleStreamMatches | master/api/stream_analytics.go:1212-1232 | one configured stream with both ports, the protocol and a proven host is the answer, and matched |
| StreamMatching.StreamsIgnoreAliases | master/api/stream_analytics.go:1181-1233 | for distinct IDs the streams returned do not depend on the alias table |
| StreamMatching.StatusOnlyGrows | master/api/stream_analytics.go:1212-1232 | a larger alias table changes no status but indeterminate, and that only to matched or ambiguous |
| StreamMatching.StatusMeans | master/api/stream_analytics.go:1217-1232 | matched iff exactly one candidate remains, with definite evidence; ambiguous iff several, some definite; indeterminate iff some, none definite; unmatched iff none |
| StreamMatching.FilterNPMEntries | master/api/stream_intel.go:656-667 | exactly the entries with a candidate stream are kept, in order |
| StreamMatching.KeptMeans | master/api/stream_intel.go:656-667 | an entry is kept iff some stream's ports, protocol and host are certain or possible for its fields |
| StreamMatching.FilterIgnoresAliases | master/api/stream_intel.go:656-667 | the npm_only filter keeps the same entries for every alias table |
| LivePortIndex.StreamIndex.constructor | master/api/stream_live.go:568-587 | each port's list holds exactly the TCP streams of that port, in ID order |
| LivePortIndex.IndexedIsScanned | master/api/stream_live.go:568-587 | for distinct IDs a port's list is what a scan of the whole ID-ordered list finds |
| LivePortIndex.StreamIndex.Correlate | master/api/stream_live.go:609-661 | the answer of a full scan, and in the connection's two ports and the streams' fields: exact iff some stream forwarding to the remote port is proven, inbound iff none is and some stream listens on the local port, port-only iff neither and some such stream is undecided; status by number; the first 20 by ID |
| LivePortIndex.ScanMeans | master/api/stream_live.go:631-660 | what each status, role and confidence says about the streams reported |
| LivePortIndex.ScanAnswers | master/api/stream_live.go:613-660 | the same of the scan, in both directions |
| SnapshotCache.Cache.RemoveExpired | master/api/stream_live.go:258-264 | exactly the unexpired snapshots stay, whatever the map order |
| SnapshotCache.Cache.Oldest | master/api/stream_live.go:245-251 | the search finds the token of the oldest snapshot, the smallest token among equally old ones, in every map order |
| SnapshotCache.Cache.Evict | master/api/stream_live.go:244-253 | eviction leaves the max - 1 newest by capture time and token |
| SnapshotCache.Cache.Put | master/api/stream_live.go:240-256 | for any clock reading: the unexpired, of these the max - 1 newest, and the new snapshot are held |
| SnapshotCache.Cache.Get | master/api/stream_live.go:216-225 | for any clock reading: the unexpired are held, and a snapshot is returned iff it is one of them under the token and the same owner |
| SnapshotCache.HeldIff | master/api/stream_live.go:216-264 | over any run and any clock readings a snapshot is held iff it is among the last max puts and no access since its put read a clock at or past its expiry |
| SnapshotCache.HeldNow | master/api/stream_live.go:216-264 | with a clock that never goes back: exactly the last max puts unexpired at the latest access |
| SnapshotCache.TokenFixesSnapshot | master/api/stream_live.go:216-225 | however much later in a run, one token names one snapshot |
| CaptureGate.OneCapture | master/api/stream_live.go:227-238 | in every interleaving at most one capture is between its begin and its end, and the channel is full exactly then |
| CaptureGate.RefusedIff | master/api/stream_live.go:289-292 | a request is refused iff some capture is in progress when it tries to begin |
| CaptureGate.PutsInOrder | master/api/stream_live.go:289-299 | so snapshots are put in increasing order of capture time, though the clock is read outside the cache's lock |
| SnapshotCache.FilterConnections | master/api/stream_live.go:773-808 | exactly the connections that pass every filter, in order |
| SnapshotCache.FiltersCombine | master/api/stream_live.go:773-808 | the filters together ask for all that each asks alone (what that is: EachFilter) |
| SnapshotCache.PagesTile | master/api/stream_live.go:302-312 | reading on while has_more is set tiles the filtered list without gap or repeat |
| LogFileCache.AlwaysFreshIff | master/api/streamInfo.go:377-396 | every interleaving returns entries of an instant during the call iff equal stamps tell equal content |
| LogFileCache.ErrorsAreReal | master/api/streamInfo.go:377-396 | in every interleaving a call returns an error only if the file was absent at an instant of the call, whatever the stamps |
| LogFileCache.StaleRead | master/api/streamInfo.go:382-395 | otherwise some interleaving serves entries the file did not hold during the call |
| LogFileCache.RestoredFileMisleads | master/api/streamInfo.go:385-387 | one content per stamp is not enough |
| LogFileCache.AdvancingTimesTell | master/api/streamInfo.go:385-387 | modification times that advance with every change of content are enough |
| LogRewrite.ReadFile | master/api/streamInfo.go:398-435 | the entries of the parsable lines in order, or an error if a line is too long |
| LogRewrite.ScanMeans | master/api/streamInfo.go:415-433 | for any content, split at its newlines: a scan fails iff a line has 1048576 bytes or more, and otherwise gives every line without the one carriage return at its end, the last one too if it is not empty |
| LogRewrite.ScanUnlines | master/api/streamInfo.go:508-515 | written lines scan as themselves up to a carriage return at their end |
| LogRewrite.RewriteFile | master/api/streamInfo.go:494-521 | the deletions counted and the content left, including the equal-length shortcut |
| LogRewrite.EqualLengthDeletesNothing | master/api/streamInfo.go:519-521 | equal lengths mean nothing was deleted, with CRLF lines or without a final newline too |
| LogRewrite.RewriteKeepsTheRest | master/api/streamInfo.go:494-521 | up to surrounding white space the file holds exactly the lines not removed, in order |
| LogRewrite.RewriteMeans | master/api/streamInfo.go:483-537 | the file parses to the old entries minus the removed, unparsable lines stay, the count is right, and a second rewrite deletes nothing |
| LogRewrite.RewriteFamily | master/api/streamInfo.go:483-537 | it succeeds iff no file is unreadable, has a line too long or cannot be replaced, and then every file is rewritten; otherwise the first such file stops it, older ones rewritten and the rest untouched |
| LogRewrite.FamilyRewriteMeans | master/api/streamInfo.go:331-354 | the whole family reads as before without the removed entries |
| AliasFile.ReadAliases | master/dnsmasq/dnsmasq.go:156-188 | the entries of the address lines, in order; a missing file has none |
| AliasFile.WriteAliases | master/dnsmasq/dnsmasq.go:190-200 | the managed comment and one address line per entry |
| AliasFile.RoundTripIff | master/dnsmasq/dnsmasq.go:156-200 | reading undoes writing iff every entry fits one line |
| AliasFile.SetAddress | master/dnsmasq/dnsmasq.go:79-89 | the first entry with the alias is updated in place, and nothing else |
| AliasFile.FilterInPlace | master/dnsmasq/dnsmasq.go:115-124 | the front of the same array ends as the entries other than the pair, in order |
| AliasFile.AliasStore.AddAlias | master/dnsmasq/dnsmasq.go:69-105 | an invalid pair changes nothing, a present pair writes nothing, otherwise the upserted list is written; which errors leave the file changed |
| AliasFile.AliasStore.RemoveAlias | master/dnsmasq/dnsmasq.go:107-134 | the pair is removed and the rest written, or the file is unchanged and the error says why |
| AliasFile.AliasStore.GetAlias | master/dnsmasq/dnsmasq.go:50-67 | found iff the pair is valid and in the file |
| Text.TrimSpaceMeans | master/dnsmasq/dnsmasq.go:137-138 | trimming takes whole Unicode white-space characters off both ends and nothing else, and leaves none at either end |
| AliasFile.Refused | master/dnsmasq/dnsmasq.go:136-154 | blank, with a space, tab, line break or comma inside the alias, or with an address that does not parse: refused |
| AliasFile.AddIsUpsert | master/dnsmasq/dnsmasq.go:69-105 | with a pair that fits one line AddAlias is a map upsert that keeps aliases unique |
| AliasFile.RemoveDropsOnlyThePair | master/dnsmasq/dnsmasq.go:107-134 | RemoveAlias drops the matching pair only and keeps aliases unique |
| AliasFile.AddPersistsIff | master/dnsmasq/dnsmasq.go:69-105 | the pair added is found again iff it fits one line |
| AliasFile.UntrimmedAddressIsLost | master/dnsmasq/dnsmasq.go:136-154 | the address "::" with a space or a no-break space behind it is accepted and not found again |
| EvenSampler.SampleEvenly | master/db/info.go:428-448 | the items at the computed indices, all of them in range; the input itself when it is short enough; some one item for n = 1 |
| EvenSampler.Ends | master/db/info.go:434-446 | the sample starts at the first item and ends at the last |
| EvenSampler.Gaps | master/db/info.go:434-446 | every gap is the floor or the ceiling of (len - 1) / (n - 1) |
| EvenSampler.Increasing | master/db/info.go:434-446 | indices strictly increase |
| EvenSampler.Nearest | master/db/info.go:437 | no index is more than one half from its even position |

## Left out

- Metrics.FoldMeans: averages and failure rates, which divide floats, are not modelled.
- IntelAxis.BuildAxis: the corner where the step overflows and the loop does not end is excluded, because no caller asks for a single point.
- IntelAxis.AxisIsBounded: says nothing about spans over 292 years, where the subtraction of two times saturates.
- IntelAggregate.Aggregation.AddEntry: map values that Go updates through a shared accumulator are values reassigned in the map here.
- StreamAnalytics.Aggregation.Run: dates are taken to lie in the years that RFC 3339 can write and read back.
- StreamAnalytics.BreakdownAddsUp: states the totals before items beyond the limit are cut.
- JoinedKeys.SharesKeyIff: says nothing about a NUL in the source or the protocol, where it depends on the uninterpreted identity and upper-case functions which other path exists.
- StreamMatching.MatchStreams: the JSON projection of a stream (description, protocol names) is not modelled.
- SnapshotCache.Cache.Put: assumes a non-empty token that no held snapshot has, as random tokens give.
- SnapshotCache.HeldIff: assumes strictly increasing capture times, which the capture semaphore gives with a clock that advances between captures; with equal ones the token decides, as in the contracts of Evict and Put.
- SnapshotCache.FilterConnections: a connection's state is known by its group, which determines the two states the filters name.
- LogFileCache.AlwaysFreshIff: one path; a whole file read is atomic; stat and read fail only where the file is absent, and an error is not cached.
- LogRewrite.RewriteFamily: gzip is taken to round-trip when it succeeds; a failed replacement leaves the old file; choosing between a rotated file and its compressed copy is not modelled.
- AliasFile.AliasStore.AddAlias: a write that fails half-way is not modelled, nor are file permissions.
- EvenSampler.SampleEvenly: exact arithmetic instead of floating point; for n = 1 the converted NaN is a parameter.
- SlaveRegistry.Registry.AddOrReplaceConnection: the nil entry error is left out, because the only caller passes a fresh entry.
- SlaveTasks.OneHolder: the callback after a registration and the notification after a removal are not modelled; a row object handed out by a lookup and read later without the lock is not tracked.
- parseAnalyticsLimit and the default and largest page size: plain clamps, modelled only as far as paging needs them.
- HTTP handlers, JSON and protobuf, gRPC dialling, SQL, Docker, NFS, shell commands: plumbing around the core.
- intelBuildInsights and the country of new addresses: they stop or choose in map order, so they are no function of the input.
- The per-dimension handlers of streamInfo.go: repeats of the same fold.
- Overflow of int64 byte sums: stated over unbounded integers.
