# ProberMesh, verified

A Dafny 4.11 model of ProberMesh's server and agent, with proofs. ProberMesh builds a
region-to-region probing mesh out of agent reports, ships probe results back to a server, and turns
them into metric series that must expire. `dafny verify dfyconfig.toml` checks everything.

Each part is modelled twice over. An imperative class or method follows the source's own branches,
loops and fields, and is proved against a specification given on values. Lemmas then prove what the
source promises about that specification, over every run and every interleaving of the actors'
accesses to shared state; accesses under one mutex are one step unless the source also makes one of
them without it. Runs are behaviours: a sequence of states and a sequence of events, each step
enabled and applied by the specification.

| module | what it models |
|---|---|
| `Common`, `Digits` | result shapes, lists of lists, decimal numerals |
| `Keys` | composite keys and their two-byte separator |
| `TtlCache` | the expiring cache (go-cache v2.1.0) as a map with expiry times |
| `Liveness`, `HealthDot` | agent reports, the liveness cache, its eviction callback, the live-address index |
| `Pool`, `TargetsPool`, `Mesh` | the target pool, discovery rounds, and all actors together |
| `GroupBy`, `Averages`, `Publishing`, `Exports`, `Aggregator` | the one-pass fold, the published values, the dots, and a round from the reports' own fields to the exported values |
| `AggQueue` | the server queue between enqueueing and aggregation |
| `SeriesHold` | the hold caches that expire exported series |
| `Delivery` | the agent's bounded queue and retrying calls |
| `AcceptEncoding` | the Accept-Encoding check, and section 12.5.3 of RFC 9110 |
| `Duration` | the duration grammar and its 64-bit arithmetic |
| `HttpTrace` | HTTP trace callbacks folded into phases over redirects |
| `Upgrade` | upgrade dispatch |

## Where the code does less than one might assume

These are stated and proved as they are, with the exact condition where there is one.

- A report that lands between a sweep and its eviction callback leaves a live agent out of the
  index until its next report (`Liveness.RaceHidesLiveAgent`); `Liveness.IndexExactly` says exactly
  when.
- A region or address containing the separator can never leave the index
  (`Liveness.UnsplittablePairStays`).
- After a version change the old version's alive series stays at 1
  (`Liveness.UpgradeLeavesOldSeries`), unless a callback of an earlier eviction had yet to set it to 0
  (`Liveness.VersionChangeExactly`).
- Going offline is published for good if and only if no export that copied the agent's entry before
  its eviction writes it after the callback's 0 (`Liveness.OfflineForGoodExactly`); otherwise the agent
  stays at 1 (`Liveness.StaleDotRun`).
- The aggregation queue is reset after the unlock, without the mutex. Exactly the batches enqueued in
  between are lost, and none is aggregated twice, if and only if no reset falls between the load and
  the store of one enqueueing (`AggQueue.FaithfulExactly`); otherwise folded batches come back and are
  aggregated again (`AggQueue.TornWriteRestores`, `AggQueue.TornWriteAggregatesTwice`). With the reset
  inside the lock all batches survive in order (`AggQueue.InsideLockLosesNothing`).
- Loss, jitter and histogram series are never held, so they never expire
  (`SeriesHold.UnheldSeriesStay`).
- Of two held series with one hold key the first, once both were dotted, stays exported until it is
  dotted again (`SeriesHold.CollisionLeaks`, `SeriesHold.LeakedStays`); all series stay tracked if and
  only if keys are distinct (`SeriesHold.TrackedIffKeysDistinct`).
- A series just dotted is missing exactly when a callback for its key ran after its last gauge write
  (`SeriesHold.ExportedUnderInterleaving`): before its hold write (`SeriesHold.CleanedBetweenWrites`), or
  after the whole dot, from an earlier sweep (`SeriesHold.CleanedAfterDot`).
- A call for an upgrade reads the mode, the version, the checksum and the address without the mutex. It
  answers like one record if and only if the fields it read to any effect stood together in one
  (`Upgrade.ConsistentExactly`). A request bound in between can pair one checksum with another address
  (`Upgrade.TornOffer`) and downgrade an agent (`Upgrade.TornDowngrade`); an unforced call moves agents
  only upward if and only if the binary behind the address it read is not older than the version it
  checked (`Upgrade.UpwardExactly`).
- Two overlapping upgrade requests can leave the second's checksum with the first's address
  (`Upgrade.OverlappingRequestsMix`); the address settles if and only if no handler is still to store
  another (`Upgrade.AddressSettledExactly`).
- Phase means divide by all successes, including those that lack the phase
  (`Averages.MeanIsCarrierAverage`).
- A coding refused with weight 0 is still accepted through a positive `*`
  (`AcceptEncoding.RefusedCodingAdmitted`); `AcceptEncoding.AgreesWithRfcExactly` gives all
  differences from RFC 9110.
- An https probe redirected to http fails when its TLS state is read
  (`HttpTrace.FailsExactlyOnDowngrade`, `HttpTrace.DowngradeRun`).
- Version strings compare as text, so 0.0.10 is older than 0.0.9 (`Upgrade.TenBelowNine`).

## Model

| member | source | states |
|---|---|---|
| Keys.JoinUndoesSplit | pkg/util/util.go:57-63 | every key is the join of its split pieces |
| Keys.PiecesSepFree | pkg/util/util.go:57-59 | no piece of a split contains the separator |
| Keys.RoundTripExactly | pkg/util/util.go:57-63 | splitting a joined list gives the list back if and only if it is non-empty and separator-free |
| Keys.JoinInjective | pkg/util/util.go:61-63 | separator-free lists of any lengths with equal keys are equal |
| Keys.FirstSeparator | pkg/util/util.go:21 | the two bytes C3 BE cannot straddle the boundary between a piece and the separator |
| Keys.JoinSnoc | pkg/util/util.go:21-63 | one more piece is joined behind the two bytes C3 BE |
| Digits.TenDigits | pkg/util/parse_duration.go:10 | the digits are the ten characters 0 to 9 with those values |
| Keys.PairTarget | pkg/server/healthdot.go:42-50 | the callback's two indexings are always in range and read the reported pair back exactly when it is separator-free |
| TtlCache.PresentExactly | pkg/server/healthdot.go:31-36 | closed form of a cache history: a key is cached exactly when no later sweep came more than the lifetime after its last write, with that write's value |
| TtlCache.SweepPartitions | pkg/server/healthdot.go:31-36 | a sweep hands exactly the entries it removes, those strictly past their expiry, to the callbacks |
| TtlCache.KeptWhileRefreshed | pkg/server/healthdot.go:31-36 | a key written within the lifetime before every sweep is never evicted |
| TtlCache.KeptThroughout | pkg/server/healthdot.go:31-36 | nor at any moment on the way |
| TtlCache.GoneAfterTwoPeriods | pkg/server/healthdot.go:31-36 | with sweeps every lifetime, a key last written two lifetimes ago is gone |
| Liveness.KeysAlwaysSplit | pkg/server/healthdot.go:42-50 | no reachable state holds a key on which the callback would index out of range |
| Liveness.IndexCovered | pkg/server/healthdot.go:42-68 | two-step eviction: in every reachable state each indexed pair is cached or has its callback pending |
| Liveness.IndexIsCache | pkg/server/healthdot.go:42-68 | one-step eviction: index and cache hold exactly the same pairs |
| Liveness.IndexExactly | pkg/server/healthdot.go:42-68 | two-step eviction: a pair is indexed exactly when no callback for it ran after some report of it |
| Liveness.RaceHidesLiveAgent | pkg/server/healthdot.go:42-68 | for every agent and lifetime a run exists that leaves it cached but unindexed |
| Liveness.RegionsStay | pkg/server/healthdot.go:49 | a region key once in the index is never removed |
| Liveness.UnsplittablePairStays | pkg/server/healthdot.go:42-50 | a pair containing the separator stays in the index for ever |
| Liveness.SweepThenCallbacks | pkg/server/healthdot.go:42-50 | a sweep and its whole callbacks, in any order and with nothing in between, have the effect of the one-step eviction |
| Liveness.CacheHistory | pkg/server/healthdot.go:58-60 | the liveness cache of any run is the cache history of its reports and sweeps |
| Liveness.DiscoverableExactly | pkg/server/healthdot.go:31-68 | one-step eviction: an agent is indexed exactly when no sweep after its last report came more than ratio x expires after it |
| Liveness.ReportingAgentStays | pkg/server/healthdot.go:54-68 | in every interleaving an agent whose reports keep up with the sweeps, from one made with no callback for it pending, is never evicted or unindexed, even across version changes |
| Liveness.SilentAgentGone | pkg/server/healthdot.go:31-50 | in every interleaving an agent silent for two lifetimes is out of the cache, and indexed at most while its callback is pending; under one-step eviction it is in neither |
| Liveness.RetiredSeriesFrozen | pkg/server/healthdot.go:42-45 | once a version is neither cached nor left to be zeroed, and no export is still to write it, its alive series never changes again until it is reported |
| Liveness.VersionChangeExactly | pkg/server/healthdot.go:42-60 | after a report of another version the old version's series keeps its value until reported again, unless a callback pending at the report sets it to 0 |
| Liveness.OfflineValueExactly | pkg/server/healthdot.go:41-87 | after the callback's 0 the series is 0 until that version is reported again, and 1 exactly from the moment an export that had copied the evicted entry writes it |
| Liveness.OfflineForGoodExactly | pkg/server/healthdot.go:41-87 | in all continuations the series stays 0 if and only if no such export is under way when the 0 is written |
| Liveness.StaleDotRun | pkg/server/healthdot.go:41-87 | for every agent and lifetime, the run that leaves an offline agent at 1 with nothing left to zero it |
| Liveness.UpgradeLeavesOldSeries | pkg/server/healthdot.go:42-45 | a run retires a version by reporting a newer one and leaves the old series at 1 |
| Liveness.GaugeExactly | pkg/server/healthdot.go:42-87 | in every interleaving a series has the value of the last export or callback that wrote it: 1 exactly if a mark has no later zeroing |
| Liveness.CopyIsAlive | pkg/server/healthdot.go:81 | in every interleaving an export copies a pair with a version exactly if its last report named it and is at most ratio x expires old, swept or not |
| Liveness.ExportExactly | pkg/server/healthdot.go:76-87 | an undisturbed export writes 1 to exactly the series of those agents |
| Liveness.ReadyExactly | pkg/server/healthdot.go:70-73 | readiness is announced by the first report |
| HealthDot.HealthDot.constructor | pkg/server/healthdot.go:25-52 | lifetime and janitor period are ratio times expires; everything starts empty |
| HealthDot.HealthDot.Report | pkg/server/healthdot.go:54-74 | performs exactly the report event: cache refreshed, pair indexed, ready closed |
| HealthDot.HealthDot.ZeroEvicted | pkg/server/healthdot.go:42-45 | the callback up to the mutex: performs exactly the unlocked gauge write |
| HealthDot.HealthDot.RemoveEvicted | pkg/server/healthdot.go:47-49 | the callback under the mutex: the pair removed, a missing region ignored |
| HealthDot.HealthDot.OnEvicted | pkg/server/healthdot.go:42-50 | undisturbed, the two steps one after the other |
| HealthDot.HealthDot.Dot | pkg/server/healthdot.go:76-87 | undisturbed, sets to 1 exactly the series of the unexpired entries, in any map order |
| HealthDot.HealthDot.MarkAll | pkg/server/healthdot.go:81-85 | the loop over the copied entries, in any order, marks their series and no other |
| HealthDot.HealthDot.Snapshot | pkg/server/healthdot.go:90-107 | the nested copying loops return the whole index |
| Pool.LoadIsLastWins | pkg/server/pool.go:77-90 | a load yields the configured regions and, per region and type, the last item |
| Pool.LastWinsUnique | pkg/server/pool.go:77-90 | the last-wins promise determines the pool |
| Pool.UpdateRegionEffect | pkg/server/pool.go:98-135 | one region's overlay makes its icmp entry exactly its addresses and disturbs no other lookup |
| Pool.RoundAnyOrder | pkg/server/pool.go:98-135 | a round's result is the same for every order of the regions |
| Pool.RoundUpToOrder | pkg/server/pool.go:114-124 | rounds over one snapshot differ at most in the order inside target lists |
| Pool.SecondRound | pkg/server/pool.go:99-112 | a second round changes something exactly when an offline region held only an icmp entry |
| Pool.TwoRoundsSettle | pkg/server/pool.go:98-135 | two rounds reach a fixed point without icmp entries or icmp-only regions that are offline |
| Pool.ViewSeesIcmp | pkg/server/pool.go:144-161 | a source sees a region's icmp entry once, with its targets, or none |
| Pool.DiscoveredEntry | pkg/server/pool.go:119-124 | a discovered entry has its region, type "icmp", exactly the addresses, 64 packets of 64 bytes every 15 ms, and no http settings |
| TargetsPool.TargetsPool.LoadPool | pkg/server/pool.go:77-90 | the loop rebuilds the pool as the last-wins fold of the configuration |
| TargetsPool.TargetsPool.ListAddresses | pkg/server/pool.go:114-117 | the addresses are listed without duplicates or omissions |
| TargetsPool.TargetsPool.OverlayRegion | pkg/server/pool.go:99-134 | one critical section performs exactly one overlay step |
| TargetsPool.TargetsPool.UpdateRound | pkg/server/pool.go:98-135 | the loop over the snapshot, in any order, ends in the order-free round result |
| TargetsPool.TargetsPool.GetPool | pkg/server/pool.go:144-161 | every region's entries once each; never the source's own region when self-probing is off |
| Mesh.ConfigSurvivesDiscovery | pkg/server/pool.go:77-135 | in every interleaving each non-icmp lookup is the last match in the configuration last loaded |
| Mesh.EntriesWellTyped | pkg/server/pool.go:81-88 | in every reachable pool each entry carries its own region and type |
| Mesh.StaticPoolIsConfig | pkg/server/pool.go:56-62 | without discovery the pool is exactly the loaded configuration |
| Mesh.MeshIsExact | pkg/server/pool.go:92-161 | after a completed round without reload each source is handed exactly the snapshot's addresses of each region, and no icmp entry for offline ones |
| Mesh.TargetsHaveProvenance | pkg/server/pool.go:114-133 | every icmp target is configured or was reported earlier by an agent of that region |
| Mesh.MeshIsLiveSet | pkg/server/pool.go:92-161 | one-step eviction: after a completed round a source probes an address exactly when its agent was alive, by its last report and the sweeps, at the round's start |
| Mesh.MeshUnderTwoStepEviction | pkg/server/pool.go:92-161 | with sweep and callback as separate steps: exactly the addresses for which no callback ran after some report by the round's start |
| GroupBy.SameKeySameLabels | pkg/server/aggregator.go:152-167 | separator-free reports of one type share a container only if they share all labels |
| GroupBy.FoldedSnoc | pkg/server/aggregator.go:139-216 | one more report extends exactly its own group's summary: codes, counts, sums, first reason, first certificate |
| GroupBy.ReasonSnoc | pkg/server/aggregator.go:206-211 | the kept reason is the first informative one of the failures, or "success" |
| GroupBy.TlsSnoc | pkg/server/aggregator.go:196-201 | the kept certificate is that of the first success with one |
| GroupBy.DivisorsPositive | pkg/server/aggregator.go:180-214 | codes number successes plus failures, at least one; a phase implies a success, so nothing divides by zero |
| Averages.MeanBetween | pkg/server/aggregator.go:274-286 | a mean carried by every success lies within any bounds on the successful samples |
| Averages.FailuresDoNotMove | pkg/server/aggregator.go:180-202 | groups with equal successes publish equal means, whatever failed |
| Averages.MeansOrdered | pkg/server/aggregator.go:304-327 | an order between two phases in every success carries over to their means |
| Averages.MeanIsCarrierAverage | pkg/server/aggregator.go:282-283 | the published mean is the carriers' average exactly when all successes carry the phase or the total is 0 |
| Averages.ObservationIsTotalDuration | pkg/server/aggregator.go:304-332 | the histogram observation is the sum over successes of all their stages but loss and stddev |
| Averages.StatusBetween | pkg/server/aggregator.go:242-251 | the truncated average of the codes lies within any bounds on them |
| Averages.AgreedStatus | pkg/server/aggregator.go:242-251 | when all reports agree on a code that code is published |
| Publishing.FoldedKeyed | pkg/server/aggregator.go:152-178 | every container can be published without dividing by zero and its labels join to its key |
| Publishing.HttpRoundComplete | pkg/server/aggregator.go:227-288 | no http container overwrites another's series |
| Publishing.DotAllMetrics | pkg/server/aggregator.go:227-334 | after any sequence of dots a series has its last dotted value or its old one |
| Publishing.DotAllHolds | pkg/server/aggregator.go:336-338 | every dotted series of a held vector has its hold refreshed to the full time |
| Publishing.RoundKeepsTracked | pkg/server/aggregator.go:113-338 | an undisturbed round over well-named reports continues any run over well-named series, dots only such series, and leaves every exported held series tracked by its own hold entry |
| Publishing.InterleavedRoundsKeepTracked | pkg/server/aggregator.go:47-338 | the same with the rounds' single writes, sweeps and callbacks in any interleaving, but for the one series whose hold is about to be written |
| Exports.Names | pkg/util/util.go:19-21 | the names compared with are "http", "success", "loss" and "stddev" |
| Exports.HttpDurationExactly | pkg/server/aggregator.go:139-286 | a round exports for each phase of each http key the sum of the successes' own http fields over their number, under the labels of its first report, and leaves every other phase series as it was |
| Exports.StatusExactly | pkg/server/aggregator.go:242-258 | the status is the sum of all the key's codes over their number, truncated towards zero |
| Exports.HttpFailedExactly | pkg/server/aggregator.go:206-271 | the failures are counted under the first reason one of them named, or "success"; other reasons keep their values |
| Exports.CertificateExactly | pkg/server/aggregator.go:196-240 | the expiry of the key's first success with a certificate is exported under its version, if both are set; other certificate series keep their values |
| Exports.IcmpFailedExactly | pkg/server/aggregator.go:290-302 | the failures of an icmp key |
| Exports.IcmpMeanExactly | pkg/server/aggregator.go:304-325 | the same mean over the successes' icmp fields, loss and stddev under vectors of their own |
| Exports.NoLossDuration | pkg/server/aggregator.go:309-325 | loss and stddev are never exported as durations |
| Exports.HistogramExactly | pkg/server/aggregator.go:304-332 | the histogram grows by all icmp fields of the key's successes but loss and stddev |
| Aggregator.AddPhases | pkg/server/aggregator.go:191-194 | the stage loop adds the report's fields to the sums, whatever the map order |
| Aggregator.Accumulate | pkg/server/aggregator.go:180-214 | the body of the fold does exactly what one report does to its container |
| Aggregator.FoldBatch | pkg/server/aggregator.go:140-216 | the inner loop adds one batch's reports to the group summaries |
| Aggregator.Fold | pkg/server/aggregator.go:139-216 | one pass over the nested queue yields the summary of every group and of nothing else |
| Aggregator.StatusCodeOf | pkg/server/aggregator.go:242-251 | the sum loop and truncating division give the specified code |
| Aggregator.Aggregator.SetGauge | pkg/server/aggregator.go:336-338 | sets a series and, for held vectors only, refreshes its hold |
| Aggregator.Aggregator.DotHttpContainer | pkg/server/aggregator.go:229-287 | publishes exactly the container's values, series by series |
| Aggregator.Aggregator.DotIcmpContainer | pkg/server/aggregator.go:291-332 | likewise for icmp, the histogram growing by the observation |
| Aggregator.Aggregator.DotHttp | pkg/server/aggregator.go:227-288 | in any map order each series ends with its owning container's value |
| Aggregator.Aggregator.DotIcmp | pkg/server/aggregator.go:290-334 | likewise for icmp |
| Aggregator.Aggregator.Agg | pkg/server/aggregator.go:113-225 | an empty queue changes nothing; otherwise the queue is emptied and exactly its groups' values are published, in a round as `Exports` describes it |
| AggQueue.FaithfulExactly | pkg/server/aggregator.go:103-139 | no batch is aggregated twice, each is aggregated, lost or waiting, exactly one of the three, and lost exactly if stored between unlock and reset: all of this if and only if no reset falls between the load and the store of one enqueueing |
| AggQueue.TornExactly | pkg/server/aggregator.go:103-107 | a store overwrites a reset exactly when that reset came after its load |
| AggQueue.TornWriteRestores | pkg/server/aggregator.go:106 | such a store brings back at least one batch already aggregated, and behind those all the batches that reset dropped |
| AggQueue.TornWriteAggregatesTwice | pkg/server/aggregator.go:340-342 | the run that aggregates a batch twice |
| AggQueue.NoBatchForgotten | pkg/server/aggregator.go:103-139 | in every interleaving each enqueued batch was aggregated, dropped by a reset, or is queued |
| AggQueue.InsideLockLosesNothing | pkg/server/aggregator.go:133-137 | with the reset inside the lock aggregated batches and queue are all batches in order |
| AggQueue.WindowLosesABatch | pkg/server/aggregator.go:340-342 | the run that loses a batch, without any torn store |
| AggQueue.AcknowledgedBatchFate | pkg/server/rpc.go:34-37 | every batch an agent saw acknowledged has a server number, and was aggregated, dropped by a reset or is queued |
| SeriesHold.DotIsSetThenHold | pkg/server/aggregator.go:336-338 | a dot is its gauge write and its hold write with nothing in between |
| SeriesHold.HeldWhere | pkg/server/aggregator.go:227-338 | a dot refreshes its entry in the icmp hold for IcmpFailed and IcmpDuration, in the http hold for HttpFailed, HttpDuration, SslExpiry and StatusCode, and none for loss, jitter and histogram |
| SeriesHold.ExportedAreTracked | pkg/server/aggregator.go:47-73 | with the two writes, sweeps and callbacks in any interleaving and distinct keys, every exported held series is in its hold or awaits eviction, under its own vector and labels, or is the one whose hold is about to be written |
| SeriesHold.ExportedUnderInterleaving | pkg/server/aggregator.go:47-91 | with the two writes, sweeps and callbacks in any interleaving and distinct keys, a held series is exported exactly when no callback for its key ran after some gauge write of it |
| SeriesHold.CleanedBetweenWrites | pkg/server/aggregator.go:336-338 | the run whose callback deletes a series between its two writes |
| SeriesHold.CleanedAfterDot | pkg/server/aggregator.go:47-73 | the run whose callback, of an earlier sweep, deletes a series after a whole dot |
| SeriesHold.TrackedIffKeysDistinct | pkg/server/aggregator.go:336-338 | all runs keep all series tracked if and only if no two held series share a key |
| SeriesHold.CollisionLeaks | pkg/server/aggregator.go:336-338 | two series with one key: once both were dotted the first is exported in every continuation that does not dot it again |
| SeriesHold.LeakedStays | pkg/server/aggregator.go:47-91 | in any run an exported series that nothing tracks stays so until it is dotted again |
| SeriesHold.DeletedWithOwnLabels | pkg/server/aggregator.go:47-73 | a series is deleted only through the expired or pending entry created with its own vector and labels |
| SeriesHold.ExportedExactly | pkg/server/aggregator.go:82-91 | one-step dots and eviction: a dotted series is exported exactly when no sweep after its last dot came more than ratio x interval after it |
| SeriesHold.RedottedSeriesStay | pkg/server/aggregator.go:82-91 | in every interleaving a series held again in time before every sweep, from a hold write that found it exported and with no callback pending, is never cleaned |
| SeriesHold.SilentSeriesGone | pkg/server/aggregator.go:82-91 | in every interleaving a series last held two hold times ago is out of the hold, and exported at most while its callback is pending; under one-step dots and eviction it is gone |
| SeriesHold.UnheldSeriesStay | pkg/server/aggregator.go:309-332 | loss, jitter and histogram series, once exported, stay exported for ever |
| SeriesHold.NamingKeepsKeysDistinct | pkg/server/metric.go:16-78 | if no region is named like a phase and no reason like a TLS version, distinct series get distinct keys |
| SeriesHold.RegionNamedLikePhaseLeaks | pkg/server/aggregator.go:260-286 | with a source region named like a phase and an http target called "success", a failure series stays exported for ever |
| Delivery.RpcCli.Call | pkg/agent/rpc.go:40-66 | three attempts at most, stopping at the first acknowledgement; success keeps the client, failure closes it |
| Delivery.AckedMeansExecuted | pkg/agent/rpc.go:50-59 | an acknowledged call was executed at least once, and exactly as often as its attempts up to the acknowledgement were |
| Delivery.BatchSend | pkg/agent/target.go:109-149 | the event loop does what the sender machine does until the channel closes |
| Delivery.Conservation | pkg/agent/target.go:116-147 | acknowledged batches then pending points are exactly the points that arrived with room, in order; never more than 5000 pending |
| Delivery.FailedCallsKeepAll | pkg/agent/target.go:133-141 | through any stretch of events without a successful call nothing pending or acknowledged changes, except that accepted points are added at the end |
| Delivery.RecvEffect | pkg/agent/target.go:120-128 | a point is appended while fewer than 5000 are pending and dropped otherwise |
| Delivery.FlushEffect | pkg/agent/target.go:130-143 | a flush sends the whole pending batch in at most three attempts; acknowledged, the batch is recorded, nothing is pending and the client is kept; else all stays pending and the client is closed |
| Delivery.DeliveriesCount | pkg/agent/rpc.go:50-59 | the server executes a call once for each attempt, up to the first acknowledged one, that reaches it |
| Delivery.NoResend | pkg/agent/target.go:130-143 | whatever the server executes later starts behind all points acknowledged by then |
| Delivery.AckedWereDelivered | pkg/agent/target.go:133-143 | every acknowledged batch is in the server's log, in order |
| Delivery.LogIsWindows | pkg/agent/target.go:133-143 | whatever the server executes is a contiguous run of accepted points |
| Delivery.CallOk | pkg/agent/rpc.go:50-59 | a call succeeds exactly when some attempt is acknowledged |
| AcceptEncoding.IsValid | pkg/config/config.go:200-250 | parse, stable sort and first match answer exactly whether some entry names the encoding or "*" with positive quality |
| AcceptEncoding.ParseAll | pkg/config/config.go:212-237 | the loop parses every element in header order |
| AcceptEncoding.SortStable | pkg/config/config.go:239-241 | in place: descending by quality, entries of equal quality in their old order, none lost |
| AcceptEncoding.FirstMatch | pkg/config/config.go:243-249 | on descending entries the first match decides as well as any |
| AcceptEncoding.AgreesWithRfcExactly | pkg/config/config.go:243-249 | agreement with section 12.5.3 of RFC 9110 in all but two exactly described cases |
| AcceptEncoding.RefusedCodingAdmitted | pkg/config/config.go:239-249 | a header on which the two differ, for every coding |
| AcceptEncoding.HeaderRoundTrip | pkg/config/config.go:214-237 | parsing recovers any printed list of codings and weights of up to three decimals, with or without "q=", or none, with any optional white space |
| AcceptEncoding.PartRoundTrip | pkg/config/config.go:217-234 | the same for one list element |
| AcceptEncoding.RfcItemPrintable | pkg/config/config.go:217-234 | spaces and tabs around token characters are printable, as section 5.6 of RFC 9110 has them |
| AcceptEncoding.WeightRoundTrip | pkg/config/config.go:220-226 | a weight of up to three decimals, or without a point, is read back exactly |
| AcceptEncoding.SignedWeights | pkg/config/config.go:220-226 | a signed weight is read with its sign |
| AcceptEncoding.QualityIsNearest | pkg/config/config.go:225 | a readable quality is rounded to the nearest thousandth, ties away from zero |
| AcceptEncoding.HugeWeightIsZero | pkg/config/config.go:221-224 | a whole number counts 0 from 2^128 - 2^103 on, and itself below |
| AcceptEncoding.UnreadableRefuses | pkg/config/config.go:221-224 | an element whose weight cannot be read has quality 0 |
| Duration.MatchExactly | pkg/util/parse_duration.go:10 | the backtracking match finds a reading exactly of the texts that have one, despite the m/ms overlap |
| Duration.UniqueDecomposition | pkg/util/parse_duration.go:10 | no text has two readings |
| Duration.ParseDuration | pkg/util/parse_duration.go:12-46 | accepted are "0" and the non-empty texts of the grammar; the result is their only reading's sum in 64 bits |
| Duration.AddGroup | pkg/util/parse_duration.go:28-35 | the closure's wrapping steps add one group modulo 64 bits |
| Duration.SumGroups | pkg/util/parse_duration.go:37-43 | the seven calls give the groups' sum modulo 64 bits |
| Duration.ExactIffFits | pkg/util/parse_duration.go:28-43 | the result is the denoted duration if and only if that is at most 2^63 - 1, numerals of any size included |
| Duration.TextParsed | pkg/util/parse_duration.go:10-46 | the text with numbers before y, w, d, h, m, s and ms, those absent left out, is accepted with the value of that reading |
| Duration.ReadingLiterally | pkg/util/parse_duration.go:28-43 | that value is the sum of the numbers times 31 536 000, 604 800, 86 400, 3 600, 60, 1 and 1/1 000 seconds, exactly if and only if it fits, and always, numbers sticking at 2^63 - 1, modulo 2^64 |
| HttpTrace.Transport.StartRoundTrip | pkg/agent/http.go:168-176 | adds one fresh current trace |
| HttpTrace.Transport.Callback | pkg/agent/http.go:123-167 | each callback stamps the current trace only, leaving earlier roundtrips as they were |
| HttpTrace.ReportPhases | pkg/agent/http_response.go:315-363 | the last contributing roundtrip decides each phase; the loop fails exactly on a TLS connection before a plain final response |
| HttpTrace.RunsAreSound | pkg/agent/http_response.go:115-123 | every run follows at most ten redirects, none when told not to, with ordered timestamps |
| HttpTrace.PhasesTelescope | pkg/agent/http_response.go:330-363 | the phases are the last roundtrip's, non-negative, and sum to at most its time; on plain HTTP exactly to end minus dnsDone |
| HttpTrace.PlainPhasesByEvents | pkg/agent/http_response.go:335-363 | over plain http, by the last roundtrip's events: connect from resolution to connection, processing to the first byte, transfer to the body's end, no tls |
| HttpTrace.SecurePhasesByEvents | pkg/agent/http_response.go:335-363 | over https: connect from resolution to the last connection made, tls over the handshake, processing and transfer likewise |
| HttpTrace.ResolveByEvents | pkg/agent/http_response.go:330-332 | a later roundtrip's resolve is the time of its lookup, or 0 without one |
| HttpTrace.LastRoundTripComplete | pkg/agent/http.go:123-167 | those events exist in every finished run |
| HttpTrace.TenRedirects | pkg/agent/http_response.go:115-123 | ten redirects are followed: a run of eleven roundtrips exists |
| HttpTrace.FailsExactlyOnDowngrade | pkg/agent/http_response.go:338-345 | on a finished run the loop fails if and only if the last roundtrip was plain and an earlier one was https |
| HttpTrace.DowngradeRun | pkg/agent/http_response.go:338-345 | the run on which the loop fails |
| Upgrade.LessTransitive | pkg/upgrade/upgrade.go:55-60 | the version order is transitive |
| Upgrade.LessTotal | pkg/upgrade/upgrade.go:55-60 | and total |
| Upgrade.EqualWidthVersions | pkg/upgrade/upgrade.go:55-60 | for components of equal widths it is the numeric order |
| Upgrade.TenBelowNine | pkg/upgrade/upgrade.go:55-60 | for unequal widths it is not |
| Upgrade.SelfUpgrade.Bind | pkg/upgrade/upgrade.go:62-71 | undisturbed, clears the record and overwrites the fields the request sets |
| Upgrade.BindEffect | pkg/upgrade/upgrade.go:62-71 | decoding field by field, in any order, clears the record, sets each field the request sets and keeps the others |
| Upgrade.SelfUpgrade.AgentSetUpgraded | pkg/upgrade/upgrade.go:80-84 | records the agent |
| Upgrade.SelfUpgrade.Respond | pkg/server/rpc.go:40-60 | the call with its four reads made in four records answers by those fields |
| Upgrade.SelfUpgrade.GetSelfUpgrade | pkg/server/rpc.go:40-60 | undisturbed, the call answers by the decision on one record |
| Upgrade.AnswersLikeExactly | pkg/server/rpc.go:41-58 | four reads answer every agent like one record if and only if each field read to any effect had that record's value |
| Upgrade.ConsistentExactly | pkg/server/rpc.go:41-58 | in any run a call answers like one record if and only if the fields it read to any effect stood together in one |
| Upgrade.QuietCallConsistent | pkg/server/rpc.go:41-58 | a call during which no request is being bound and no address stored answers like one record |
| Upgrade.UpgradedExactly | pkg/upgrade/upgrade.go:62-84 | the record holds exactly the agents that reported since the last request |
| Upgrade.ForcedOfferExactly | pkg/server/rpc.go:48-54 | whatever comes between its reads, a call that read a forced mode offers an upgrade exactly to an agent that had not reported since the last request when it was looked up |
| Upgrade.NoSecondOffer | pkg/server/rpc.go:40-67 | without a new request no agent that did its part is offered an upgrade by a later call |
| Upgrade.SelfUpgrade.Update | pkg/server/update.go:26-56 | undisturbed, an update binds the request and stores the reprinted address, or reports the failure |
| Upgrade.OfferCarriesLastRequest | pkg/server/rpc.go:56-58 | a call that reads checksum and address after a request set them, and before the next, offers that checksum and that address up to reprinting, unless an earlier handler had yet to store another |
| Upgrade.TornOffer | pkg/server/rpc.go:56-58 | for every record and request, the run in which one request between two reads pairs the old checksum with the new address |
| Upgrade.AddressSettledExactly | pkg/server/update.go:43-55 | the address keeps to the spellings of the current one in all continuations if and only if no handler is still to store another |
| Upgrade.OverlappingRequestsMix | pkg/server/update.go:43-55 | the run that leaves one request's checksum with another's address |
| Upgrade.UpwardExactly | pkg/server/rpc.go:42-58 | an unforced call moves every agent it makes an offer strictly upward if and only if the binary behind the address it read is not older than the version it checked |
| Upgrade.MatchedCallUpward | pkg/server/rpc.go:42-58 | an unforced call that answers like a record whose address serves its version is upward |
| Upgrade.UnforcedOnlyUpward | pkg/server/rpc.go:42-47 | over any run and any requests, unforced upgrades by such calls strictly increase and never revisit a version |
| Upgrade.TornDowngrade | pkg/server/rpc.go:42-58 | the run in which an unforced request bound between the reads downgrades an agent |

## Left out

- The go-cache library is not in the repository; `TtlCache` models it: an overwrite refreshes the
  expiry, a sweep removes entries strictly past theirs, and one janitor finishes its callbacks
  before the next sweep.
- The results under one-step eviction take a sweep with its callbacks as one step, outside exports,
  and a dot's two writes as one step.
- Floating point: samples are reals, so rounding, overflow, NaN and infinities are not modelled;
  qualities are exact thousandths, which differs from 32-bit floats only next to a rounding tie.
- The sum of status codes is an unbounded integer.
- The wait of `updatePool` for the first report before its second round: rounds may begin without it,
  so every run of the code is among the modelled ones.
- Data races below the level of one access: a load or store of a slice or a string that another
  goroutine writes at the same time is one atomic step.
- Other goroutines sharing the agent's client: connecting or closing it for `batchSend` is among the
  outcomes its dials and attempts can have.
- Containers of the fold are values in their map, not shared pointers; each is reachable only from
  its map entry. Configuration items likewise.
- `strconv.ParseInt` on the TLS expiry: a report carries the number it returned.
- The regular-expression engine: `Duration` models leftmost-first matching of this one expression.
- AcceptEncoding.IsValid: spellings of numbers other than plain decimals are a parameter of the
  check; codings compare case-sensitively, as in the code.
- A dial attempt that ends after the connection was chosen (two dials racing), connection reuse and
  1xx responses are not among the event orders of `HttpTrace`; time differences are whole
  nanoseconds, not seconds.
- Network, RPC encoding, timeouts, DNS and HTTP clients: only the order of deliveries,
  acknowledgements and callbacks is kept.
- YAML decoding, the JSON decoding of upgrade requests (a request is the fields it set), the parsing
  and printing of addresses (a parameter of `Upgrade`), and the
  Prometheus client beyond a map from label tuples to values.
- Points pending when the agent stops are dropped with it; no property is claimed for them.
- `getTargets` of the pool, the received-points counter, task dispatch, target de-duplication,
  region and address detection, binary download and replacement, flags, logging, signals.
