# Verified model of the proxypool decision engines

This project models the parts of proxypool that decide: which route a request takes, when a node or a
route is left alone, what a background job's status may become, how many requests a client gets, and
what the generated proxy configurations and database queries mean.  Each part is proved against a
specification, and the properties the service relies on are proved of every input or of every run.

Verify everything with `dafny verify dfyconfig.toml`.

| file | models |
|---|---|
| `EndpointRouting.dfy`, `HopSearch.dfy` | multi-hop endpoints: sticky leases, failed and known-healthy routes, the bounded search over hop candidates, restarts |
| `RouteExclusion.dfy` | what the marks of failed routes keep away from whom, over whole runs |
| `RouteHistories.dfy` | what marks, known-healthy routes and leases of the endpoints say of the reports and requests before |
| `StickyRouting.dfy`, `LeasePersistence.dfy` | two-pool sticky sessions, the per-IP load index, and their durable copy |
| `CircuitBreaking.dfy`, `HealthTracking.dfy`, `HealthRestarts.dfy`, `SlidingWindows.dfy` | node health: breaker, stored health row, restarts, probe window |
| `TaskLifecycle.dfy` | background tasks as interleaved critical sections of workers and callers |
| `RateLimiting.dfy`, `RetryAfter.dfy`, `OverfullWindows.dfy` | the API rate limiter, what its told waits are worth, and when a window can be overfilled |
| `SingBoxConfig.dfy`, `MihomoConfig.dfy` | compilers of proxy chains, each with an interpreter of its target |
| `ClashNames.dfy` | proxy names of a published Clash subscription |
| `FilterSql.dfy` | filters compiled to parameterised SQL, with SQL's three-valued logic |
| `Timestamps.dfy` | the calendar, and how the timestamps of Python and SQLite compare as text |
| `Common.dfy`, `Decimal.dfy`, `Sorting.dfy` | sequences, decimal numerals, stable sorting |

Objects that the code updates in place are classes.  Their methods are proved equal to (or, where the
code draws at random, within) a specification on values called `View`, `Built` and the like, and the
properties are proved of that specification: of one step, and of all runs given as sequences of states
or operations.  Clocks are parameters that never go back, random draws are arbitrary choices, and
database tables are maps by primary key.

## What the proofs brought out

Where a promise does not hold of all inputs, the exact condition under which it holds is proved.

- The rate limiter answers like one that never forgets exactly when all limits used admit nothing or
  share one window of at most an hour (`ForgettingInvisibleExactly`).  The periodic clean-up forgets after an
  hour, which cuts a `/day` window short.
- No window ever holds more admissions of a key than the largest limit allows exactly when the limits admit
  nothing or share one window of at most an hour (`NeverOverfullExactly`).
- Waiting as `Retry-After` says is always enough exactly when the limits met under one key all admit
  something, share one window, and, unless that window is a second or a day, have the same count
  (`RetryReliableExactly`, for every set of limits).  The service keys by client and path while the limit
  also depends on the method (`proxypool/api/app.py:989-994`), so one key does meet two limits.
- A restart of the health manager, which restores what was recorded after each node's last probe, is invisible
  exactly when `recovery_threshold` does not exceed `half_open_max_probes` or the latter is not positive
  (`RestartsUnseenExactly`): the probe counter is not saved.  It shows in the answers of `is_allow_probe` only,
  and never in what probes and reads bring (`UnaskedRestartsUnseen`); the program itself never asks.
- The breaker is documented as having exponential backoff, but `backoff_multiplier` and
  `max_backoff_sec` are never read; the model follows the code, where every backoff has the initial
  length (`OpenLeftExactlyAfterBackoff`).
- A node stored as open never has a CLOSED breaker exactly when the breaker's threshold is no higher
  than the row's (`OpenRowsHaveOpenBreakersExactly`).
- `circuit_open_since` is rewritten by every further failure.  It is the time at which the node's failures
  reached the threshold exactly if its row counts no more failures than that (`MarkTellsOpeningExactly`); one
  failure more, and it is that failure's time (`MarkMoves`).
- The stored failure mark of a route compares a `T`-separated timestamp with a blank-separated one as text.
  The dates alone decide (`FormatsCompareByDate`), so the mark lasts to the end of the UTC day
  (`StoredMarkLastsTheDay`).
- A reported node counts as failed, over every run and across restarts, exactly until a success is reported of
  a route through it or the UTC day in which its cooldown runs out has ended (`NodeFailedExactly`), and so does a
  reported route whose keys hold neither ">" nor a comma (`RouteFailedExactly`).  With such characters routes share
  signatures, and what one report says another calls off (`UninterruptedRouteFailed`, `SuccessClearsRoute`).
- After a failure report the session that made it is given the route again exactly if it had a live lease on it,
  with all hops available, and named another pool than the endpoint's entry pool (`ReportNeedsEntryPool`);
  without such a lease the mark alone keeps it off.  While a route is marked, any session is given it exactly
  when it has a live lease on it whose hops are all available (`MarkedRouteExactly`, over runs
  `GivenOnlyByLease`): sessions that were on the route go on using it, and no other session joins it
  (`NobodyJoinsRoute`).
- A restart does not rebuild the cache of failed routes, since marks are joined with ">" and taken apart at
  commas (`OnlySingleHopsReadBack`).  The stored mark still keeps fresh selections off the route, but a live
  lease comes back with its hops drawn anew and the last one overwritten by the exit of its row.  It can come
  back on a given route, marked or not, exactly if that exit is the route's last hop and the hops before it
  can be drawn, hop by hop (`RestartReturnsExactly`).  So a session can return to the route it reported: in a run
  from an empty service it reports [a, x], is given [b, x], and the restart draws a (`RestartCanReturn`).
- Replacing a failed exit counts a route without changing its chain exactly when the route names the failed
  proxy as `proxy_key`, has no exit key, and has a front or a middle hop (`CountedUnchangedExactly`).  A chain that
  ends in the failed proxy goes uncounted exactly if it does so as middle hop, or as front hop with no middle,
  without an exit key and with another `proxy_key` (`MissedExactly`).  Both happen (`CountIsNoMeasure`).
- A mihomo chain dials through its hops exactly when their names are pairwise distinct
  (`FaithfulExactly`), and a given name can equal another hop's default name (`DefaultNameCanClash`).
- A published proxy can be given the name of the select group (`GroupShadowedExactly`).

## Model

| member | source | states |
|---|---|---|
| `RouteExclusion.ReportedRouteExcluded` | proxypool/pool/chain_service.py:587-655 | over every run of all sessions on all endpoints (requests, failure and success reports, bindings, clean-ups, restarts), after a session reports a route failed under the entry pool none of its requests on that endpoint gets that route before the report expires, unless its success is reported first or a restart finds a live row of the session whose exit is the last hop of the route |
| `RouteExclusion.MarkedRouteExactly` | proxypool/pool/chain_service.py:668-783 | while a route is marked as failed, a request of any session is given it if and only if the session has an unexpired lease on it whose hops are all available |
| `RouteExclusion.GivenOnlyByLease` | proxypool/pool/chain_service.py:668-783 | over every run, restarts included, that is so from a report until it expires |
| `RouteExclusion.NobodyJoinsRoute` | proxypool/pool/chain_service.py:668-783 | over every run no session without a live lease on the route when it was reported, by whomever, is given it before the report expires, on the same terms |
| `RouteExclusion.OffThroughout` | proxypool/pool/chain_service.py:668-783 | the invariant behind it: the session holds no live lease on the route, and no live row without one |
| `RouteExclusion.MarkedThroughout` | proxypool/pool/chain_service.py:587-655 | the mark stands from the report until it expires, the stored one through restarts too |
| `RouteExclusion.ReportNeedsEntryPool` | proxypool/pool/chain_service.py:604-606 | after its own report a session is given the route if and only if it had a live lease on it whose hops are all available, and named another pool than the entry pool of the endpoint |
| `RouteExclusion.RestartKeepsOff` | proxypool/pool/chain_service.py:115-159 | a restart puts the session on no route other than those that end in the exit of its live row |
| `RouteExclusion.NamedThroughout` | proxypool/pool/chain_service.py:668-783 | every lease and row that comes about in a run names an exit |
| `RouteExclusion.RestartReturnsExactly` | proxypool/pool/chain_service.py:115-143 | a restart can put a session whose row names an exit on a route of whatever length, marked or not, if and only if the route ends in that exit and the hops before it can be drawn |
| `RouteExclusion.RedrawnExactly` | proxypool/pool/chain_service.py:1068-1096 | which routes can come of a draw for a lease whose row names an exit: the last hop is that exit, whatever was drawn last, the others are picks from their pools, some of which may be passed over |
| `RouteExclusion.DrawsHopByHop` | proxypool/pool/chain_service.py:1075-1089 | keys can be drawn if and only if they come of picks hop by hop, each available with the keys before it excluded, or of a hop passed over |
| `RouteExclusion.FullFrontDrawn` | proxypool/pool/chain_service.py:1068-1096 | for a route of one hop per pool that is so if and only if each hop but the last can be drawn in turn, and something after them |
| `RouteExclusion.RestartCanReturn` | proxypool/pool/chain_service.py:115-143 | a run from an empty service on which a session reports [a, x], is given [b, x], and after a restart is given [a, x] while its report stands |
| `RouteExclusion.OnlySingleHopsReadBack` | proxypool/pool/chain_service.py:161-177 | a stored mark is read back as what it was if and only if the route is a single hop whose key has no comma |
| `EndpointRouting.SelectionSound` | proxypool/pool/chain_service.py:785-817 | a fresh selection consists of keys of available candidates, one of each configured pool and pairwise distinct, on a route not marked failed, whether it comes from the known-healthy routes or from the search |
| `EndpointRouting.SelectionComplete` | proxypool/pool/chain_service.py:785-872 | there is none if and only if no known-healthy route qualifies and no combination within the cap is valid; if the cap covers all combinations, that is when no choice of available, unmarked, distinct nodes makes an unmarked route |
| `EndpointRouting.HealthyPickLastsLongest` | proxypool/pool/chain_service.py:904-930 | a known-healthy route is picked whenever one qualifies, and none that qualifies stays healthy longer than the one picked |
| `EndpointRouting.QualifiesExactly` | proxypool/pool/chain_service.py:913-953 | which known-healthy routes qualify: those still healthy, of the endpoint, not marked failed, with a different key for each hop, that of an available node among the first 500 of its pool |
| `EndpointRouting.GroupSorted` | proxypool/pool/chain_service.py:826-847 | the candidates of a hop are the offered nodes that have not failed, as a permutation by rising latency, those of unknown latency last and equals in listed order |
| `EndpointRouting.SearchPrefersFaster` | proxypool/pool/chain_service.py:826-872 | where the combination found first differs from any other way to serve the endpoint, its node is no slower: a known latency goes before an unknown one, a lower before a higher |
| `EndpointRouting.OneHopFastest` | proxypool/pool/chain_service.py:785-872 | an endpoint of one hop, no known-healthy route qualifying, gets a node of least latency among all that may serve it on an unmarked route |
| `EndpointRouting.SlowestNeverDrawn` | proxypool/pool/chain_service.py:890-902 | a candidate that every other one beats by latency never comes out of a draw of two |
| `EndpointRouting.MayServeExactly` | proxypool/pool/chain_service.py:826-845 | which nodes may serve a hop: available, with a key, not marked failed, among the first 200 the pool lists |
| `EndpointRouting.PickableExactly` | proxypool/pool/chain_service.py:881-887 | which nodes a draw chooses from: available, not used yet, among the first 200 of the pool that are not used yet |
| `Timestamps.FormatsCompareByDate` | proxypool/storage/sqlite.py:2773-2781 | as text, an instant in ISO format is later than the present as SQLite writes it if and only if its date is not earlier |
| `Timestamps.DateOfCounts` | proxypool/pool/chain_service.py:607-608 | the calendar behind both renderings is the Gregorian one: the date of day n after the epoch is the one that year lengths, leap years and month lengths number n |
| `Timestamps.ClockTells` | proxypool/pool/chain_service.py:607-608 | the time of day is written as hours, minutes and seconds that add up to it |
| `EndpointRouting.StoredMarkLastsTheDay` | proxypool/storage/sqlite.py:2773-2781 | the text comparison holds a route out at least until its mark expires and exactly to the end of that UTC day |
| `EndpointRouting.EndpointRouter.RouteRequest` | proxypool/pool/chain_service.py:668-783 | result and whole new state of one request: reuse of a live lease, or a fresh selection and a new lease; rows written only when every hop has a proxy |
| `EndpointRouting.EndpointRouter.RouteFresh` | proxypool/pool/chain_service.py:716-783 | the part after no lease could be reused |
| `EndpointRouting.EndpointRouter.TakeLease` | proxypool/pool/chain_service.py:1035-1066 | an expired lease is dropped, a live one with all hops available is taken and touched |
| `EndpointRouting.EndpointRouter.SelectEndpointHops` | proxypool/pool/chain_service.py:785-817 | known-healthy route first, search second; meanwhile the caches lose expired entries only |
| `EndpointRouting.EndpointRouter.PickHealthyRoute` | proxypool/pool/chain_service.py:904-930 | the pick, and the expired routes it forgets |
| `EndpointRouting.EndpointRouter.ConsiderHealthy` | proxypool/pool/chain_service.py:913-927 | whether one remembered route qualifies |
| `EndpointRouting.EndpointRouter.SearchEndpointHops` | proxypool/pool/chain_service.py:819-872 | the bounded product search over the sorted groups |
| `EndpointRouting.EndpointRouter.ScanCombos` | proxypool/pool/chain_service.py:850-872 | the counting loop stops at the first valid combination within the cap, although testing combinations changes the caches |
| `EndpointRouting.EndpointRouter.CandidateGroups` | proxypool/pool/chain_service.py:826-848 | a group per hop, or nothing when a hop has no pool or no candidate |
| `EndpointRouting.EndpointRouter.IsRouteFailed` | proxypool/pool/chain_service.py:955-980 | answer of cache and table together; an expired cache entry is dropped |
| `EndpointRouting.EndpointRouter.IsNodeFailed` | proxypool/pool/chain_service.py:982-1005 | the same for a node |
| `EndpointRouting.EndpointRouter.ReportFailure` | proxypool/pool/chain_service.py:587-623 | whole new state: lease and row deleted, route and entry node marked in cache and table, known-healthy entry dropped |
| `EndpointRouting.EndpointRouter.ReportSuccess` | proxypool/pool/chain_service.py:625-655 | whole new state: marks of the route and of all its nodes cleared in cache and table, route known healthy; what that is worth over runs is stated by `SuccessClearsRoute`, `SuccessClearsNodes` and `KnownHealthyExactly` |
| `EndpointRouting.EndpointRouter.BindInstance` | proxypool/pool/chain_service.py:456-508 | whole new state of binding an instance; a lease known only to the table is rebuilt with hops drawn for it |
| `EndpointRouting.EndpointRouter.Restart` | proxypool/pool/chain_service.py:115-193 | whole state after start-up: leases with hops drawn anew, caches from the stored marks still active, nothing known to be healthy |
| `EndpointRouting.EndpointRouter.LoadLeases` | proxypool/pool/chain_service.py:115-143 | a lease for every stored endpoint row, with hops drawn for it |
| `EndpointRouting.EndpointRouter.LoadHopKeys` | proxypool/pool/chain_service.py:1068-1096 | the drawn hops with the last one overwritten by the stored exit |
| `EndpointRouting.EndpointRouter.DrawHops` | proxypool/pool/chain_service.py:1075-1089 | the loop draws for each hop in turn what the keys drawn before leave, passing over hops without a candidate |
| `EndpointRouting.EndpointRouter.PickCandidate` | proxypool/pool/chain_service.py:874-893 | nothing if there is no candidate, the only one, or the faster of two drawn |
| `EndpointRouting.EndpointRouter.ForgetNodes` | proxypool/pool/chain_service.py:625-655 | the marks of exactly the nodes of the route are cleared in cache and table |
| `EndpointRouting.EndpointRouter.LoadFailedRoutes` | proxypool/pool/chain_service.py:161-179 | the cache read back row by row, signatures taken apart at commas |
| `EndpointRouting.EndpointRouter.CleanupLeases` | proxypool/pool/chain_service.py:573-585 | expired leases and rows, and only those, go, and the leases gone are counted |
| `RouteHistories.NodeFailedExactly` | proxypool/pool/chain_service.py:587-655 | over every run from an empty service, restarts included: a node counts as failed if and only if the last report to speak of it is a failure that began with it, to the end of the UTC day in which the reported cooldown runs out |
| `RouteHistories.RouteFailedExactly` | proxypool/pool/chain_service.py:587-655 | the same of a route, over every run, restarts included, in which no reported key contains ">" or a comma: it counts as failed if and only if the last report of it is a failure, to the end of the UTC day in which the cooldown runs out |
| `RouteHistories.UninterruptedRouteFailed` | proxypool/pool/chain_service.py:587-655 | with any keys, over every run without a restart: a route counts as failed if and only if the last report of it is a failure that has not run out, or the last report of its signature is one whose last day has not ended |
| `RouteHistories.SuccessClearsRoute` | proxypool/pool/chain_service.py:625-655 | after a success of a route it does not count as failed, in cache or table and across restarts, until a failure is reported that can mark it: of its keys, of its signature, or, for restarts, of a signature read back as the route |
| `RouteHistories.SuccessClearsNodes` | proxypool/pool/chain_service.py:625-655 | nor does any node of it, until a failure is reported of a route that begins with that node |
| `RouteHistories.KnownHealthyExactly` | proxypool/pool/chain_service.py:587-655 | over every run from an empty service: a route is known to be healthy until a time if and only if its last success said so and no failure of it and no restart came after |
| `RouteHistories.SuccessIsOffered` | proxypool/pool/chain_service.py:785-817 | a session that follows no lease is then served on a route known to be healthy whenever one qualifies, and on none that stays so for a shorter time than another that qualifies |
| `RouteHistories.EndpointSticky` | proxypool/pool/chain_service.py:690-785 | a session that was granted a lease gets the same hops from every request within the sticky time, no further lease, and the instance last bound to it, while its hops are available, it reports no failure and there is no restart |
| `RouteHistories.UnavailableNotReused` | proxypool/pool/chain_service.py:1052-1066 | if one of its hops is not available then, the lease is not used, and the request is answered with a new one, if at all |
| `RouteHistories.LeaseRunsOut` | proxypool/pool/chain_service.py:1035-1050 | at the end of that time and later the lease is not used again: the next request that is answered is answered with a new one, restarts and bindings or not |
| `RouteHistories.BindReachesBoth` | proxypool/pool/chain_service.py:456-508 | binding an instance to a session with a lease, in memory or in the table alone, leaves a lease and a row that name the instance and else are what they were |
| `RouteHistories.OnlyTheDeadGo` | proxypool/pool/chain_service.py:115-143 | a clean-up takes exactly the leases and rows whose time is up, and a restart brings back a lease for every stored endpoint row that says what the row says |
| `RouteHistories.AnswerIsStored` | proxypool/pool/chain_service.py:757-772 | whenever a session is answered, the row stored for it is its lease, with the hops it was told, accessed now |
| `RouteHistories.GrantNamesExit` | proxypool/pool/chain_service.py:716-755 | a new lease has the last hop as its exit, and the resolved IP of that, where one is known, as its egress IP |
| `HopSearch.SearchFindsFirst` | proxypool/pool/chain_service.py:850-872 | a found combination is valid, takes one candidate of each group, and every combination at lexicographically smaller positions is invalid |
| `HopSearch.SearchCompleteToCap` | proxypool/pool/chain_service.py:850-872 | nothing is found if and only if none of the first max_checks combinations is valid |
| `HopSearch.SearchComplete` | proxypool/pool/chain_service.py:850-872 | when the product is within the cap, nothing is found if and only if no combination at all is valid |
| `HopSearch.OneHopWithinCap` | proxypool/pool/chain_service.py:850-857 | a single hop of up to 1000 candidates is always within the cap |
| `HopSearch.LooksAtAllExactly` | proxypool/pool/chain_service.py:850-857 | every combination is looked at if and only if there are at most 1000 of them, and at most 100 or at most the candidates of all hops times the number of hops |
| `HopSearch.TwoHopsWithinCapExactly` | proxypool/pool/chain_service.py:850-857 | the same for two hops, in numbers of candidates |
| `HopSearch.SearchPrefersEarlier` | proxypool/pool/chain_service.py:850-872 | where a found combination first differs from another valid one, it takes the candidate that stands earlier in its group |
| `HopSearch.ProductMember` | proxypool/pool/chain_service.py:858-858 | the product holds exactly the combinations |
| `HopSearch.ProductOrdered` | proxypool/pool/chain_service.py:858-858 | and lists them in strict lexicographic order of positions |
| `LeasePersistence.MemoryAndTableAgree` | proxypool/pool/chain_service.py:366-454 | at every point of every run of routing, binding, deleting, cleaning up and restarting, the unexpired leases in memory and the unexpired endpoint-0 rows are the same map, and the load index counts the leases on each IP |
| `LeasePersistence.RestartLosesNothing` | proxypool/pool/chain_service.py:115-159 | a restart at any point of any run gives back exactly the live leases |
| `LeasePersistence.StickyAcrossRestarts` | proxypool/pool/chain_service.py:115-159 | a session that was given a lease keeps its egress IP, and its exit whenever that is healthy on the IP, until the lease runs out, through any restarts, clean-ups, bindings and other requests, while it can be served and its lease is not deleted |
| `LeasePersistence.CleanupLeavesTheLiving` | proxypool/pool/chain_service.py:573-585 | a clean-up takes exactly the leases and the rows, of any endpoint, whose time was up when it looked |
| `LeasePersistence.StepKeepsAgreement` | proxypool/pool/chain_service.py:366-454 | one operation keeps the agreement, whatever the agreement was reached by |
| `LeasePersistence.ChainLeases.Route` | proxypool/pool/chain_service.py:366-392 | a routed request and the row it writes through |
| `LeasePersistence.ChainLeases.BindInstanceToSession` | proxypool/pool/chain_service.py:409-454 | binding in memory and table, or in the table alone when memory has no lease |
| `LeasePersistence.ChainLeases.Delete` | proxypool/pool/chain_service.py:542-547 | deleting from both; the answer says whether either had it |
| `LeasePersistence.ChainLeases.Cleanup` | proxypool/pool/chain_service.py:573-585 | expired leases go from memory, expired rows (by a later clock reading and a strict comparison) from the table, and the leases gone are counted |
| `LeasePersistence.ChainLeases.LoadStickyLeases` | proxypool/pool/chain_service.py:115-159 | the row-by-row reload builds leases and load index one row after the other |
| `LeasePersistence.LoadedFromRows` | proxypool/pool/chain_service.py:115-159 | whatever the order of the rows, that gives the lease of every endpoint-0 row and an index that matches them |
| `StickyRouting.PairingComplete` | proxypool/pool/sticky_router.py:57-104 | for every random draw: a result joins two healthy nodes with different keys, and there is none if and only if the pools hold no such pair, although only two exits are ever tried |
| `StickyRouting.StickyAffinity` | proxypool/pool/sticky_router.py:122-171 | a live lease whose IP has a healthy exit, with two healthy fronts, serves that IP, through the lease's own exit if healthy there and else the fastest there, and only its access time changes |
| `StickyRouting.AffinityOverRuns` | proxypool/pool/sticky_router.py:57-171 | over every interleaving with other sessions' steps a session keeps its egress IP while the lease lives and can be served, and its own exit whenever that is healthy on the IP |
| `StickyRouting.StickyFromCreation` | proxypool/pool/sticky_router.py:57-104 | over every run, from the request that is given a lease: every later request of the session before that time plus the sticky time leaves by the same IP and is given no lease, through the same exit whenever that is healthy there and else through the fastest on the IP, while the IP can be served and the lease is not deleted |
| `StickyRouting.OnlyCreatedReused` | proxypool/pool/sticky_router.py:106-171 | the converse: a request answered without a new lease leaves by the IP of the last request that was given one, less than the sticky time before and with no deletion since, and is told of the instance bound since |
| `StickyRouting.DearestNeverDrawn` | proxypool/pool/sticky_router.py:206-230 | of nodes on named IPs a draw never gives the one that costs most, by the leases counted on its IP and its latency |
| `StickyRouting.CleanupTakesExactly` | proxypool/pool/sticky_router.py:284-296 | a clean-up takes exactly the leases whose time has come |
| `StickyRouting.RouteKeepsLoad` | proxypool/pool/sticky_router.py:57-104 | routing keeps the load index equal to the number of leases per named IP, keys present exactly when positive |
| `StickyRouting.CreatedKeepsLoad` | proxypool/pool/sticky_router.py:232-257 | so does replacing a lease |
| `StickyRouting.RemovedKeepsLoad` | proxypool/pool/sticky_router.py:259-270 | so does removing one |
| `StickyRouting.StickyRouter.Route` | proxypool/pool/sticky_router.py:57-104 | one call against its relation: lookup, reuse, or a drawn pair and a new lease |
| `StickyRouting.StickyRouter.TryReuseLease` | proxypool/pool/sticky_router.py:122-171 | which exit serves the lease, which front is drawn, and the whole new state; nothing changes when it cannot be served |
| `StickyRouting.StickyRouter.SelectDistinctPair` | proxypool/pool/sticky_router.py:173-190 | a drawn pair, or a proof that no pair with distinct keys exists |
| `StickyRouting.StickyRouter.P2cSelect` | proxypool/pool/sticky_router.py:206-220 | the node drawn scores no worse than some other node |
| `StickyRouting.StickyRouter.GetLease` | proxypool/pool/sticky_router.py:106-120 | an expired lease is removed on lookup |
| `StickyRouting.StickyRouter.CreateLease` | proxypool/pool/sticky_router.py:232-257 | whole new state; how long the lease serves is stated by `StickyFromCreation` and `OnlyCreatedReused` |
| `StickyRouting.StickyRouter.RemoveLease` | proxypool/pool/sticky_router.py:259-270 | whole new state |
| `StickyRouting.StickyRouter.DeleteLease` | proxypool/pool/sticky_router.py:278-282 | whole new state and whether there was a lease |
| `StickyRouting.StickyRouter.CleanupExpiredLeases` | proxypool/pool/sticky_router.py:284-296 | the expired leases are removed one by one and counted; exactly they go |
| `StickyRouting.CleanedUpKeepsLoad` | proxypool/pool/sticky_router.py:284-296 | whatever the order of the removals, the load index stays right |
| `CircuitBreaking.RestartInvisibleExactly` | proxypool/pool/scoring.py:537-564 | of one breaker, saved and restored in one step, forced transitions included: no run shows whether and where, if and only if recovery_threshold <= half_open_max_probes or half_open_max_probes <= 0 |
| `CircuitBreaking.RestartsInvisible` | proxypool/pool/scoring.py:537-564 | the simulation behind it: a restored breaker answers every later sequence like the original |
| `CircuitBreaking.TripsExactlyAtThreshold` | proxypool/pool/scoring.py:491-507 | CLOSED trips on a failure that brings the trailing failures to the threshold and on nothing else |
| `CircuitBreaking.OpenLeftExactlyAfterBackoff` | proxypool/pool/scoring.py:503-527 | OPEN is left only by a read at or after a backoff that always has its initial length, and only into HALF_OPEN |
| `CircuitBreaking.ClosedRegainedExactly` | proxypool/pool/scoring.py:480-521 | CLOSED is regained exactly at the recovery_threshold-th success (at least one) of a half-open episode without failure; any failure reopens |
| `CircuitBreaking.HistoryTold` | proxypool/pool/scoring.py:471-527 | what the fields of every reachable breaker say about the run that led to it |
| `CircuitBreaking.EpisodeIsOneState` | proxypool/pool/scoring.py:503-521 | an episode is the maximal stretch in the present state |
| `CircuitBreaking.AllowedExactly` | proxypool/pool/scoring.py:471-478 | over every run: a probe is allowed if and only if the breaker is CLOSED, or HALF_OPEN with fewer successes in the episode than half_open_max_probes |
| `CircuitBreaking.TimesTold` | proxypool/pool/scoring.py:480-501 | over every run, forced transitions and restarts included, the times kept are those of the last success and the last failure |
| `CircuitBreaking.ForcedOpen` | proxypool/pool/scoring.py:529-531 | whatever came before, a breaker forced open allows nothing until its backoff has passed, and then is HALF_OPEN |
| `CircuitBreaking.ForcedClosed` | proxypool/pool/scoring.py:533-535 | whatever came before, one forced closed allows probes and takes a whole threshold of failures to trip |
| `CircuitBreaking.CircuitBreaker.constructor` | proxypool/pool/scoring.py:438-449 | a new breaker |
| `CircuitBreaking.CircuitBreaker.IsAllowProbe` | proxypool/pool/scoring.py:471-478 | answer and new state |
| `CircuitBreaking.CircuitBreaker.ReadState` | proxypool/pool/scoring.py:451-455 | reading the state moves an expired OPEN on |
| `CircuitBreaking.CircuitBreaker.RecordSuccess` | proxypool/pool/scoring.py:480-489 | whole new state |
| `CircuitBreaking.CircuitBreaker.RecordFailure` | proxypool/pool/scoring.py:491-501 | whole new state |
| `CircuitBreaking.CircuitBreaker.RestoreState` | proxypool/pool/scoring.py:537-564 | whole new state, the probe counter being reset only in OPEN and HALF_OPEN |
| `HealthTracking.Lockstep` | proxypool/pool/health_manager.py:388-459 | after every run, a CLOSED breaker counts what the stored row counts, and with the thresholds in order a node stored as open has no CLOSED breaker |
| `HealthTracking.OpenRowsHaveOpenBreakersExactly` | proxypool/pool/health_manager.py:388-459 | the two machines never contradict each other if and only if the breaker trips no later than the row |
| `HealthTracking.RowFollowsProbes` | proxypool/storage/sqlite.py:2345-2413 | the stored count is the trailing run of failed probes, and the open mark is set exactly while that run has reached the threshold; it carries the time of the latest failure |
| `HealthTracking.RowKeepsLatest` | proxypool/storage/sqlite.py:2345-2413 | the other fields of a stored row are what the last probe to tell them told: times of the last success and failure, last IP named, last latency measured, time of the last probe |
| `HealthTracking.MarkTellsOpeningExactly` | proxypool/storage/sqlite.py:2361-2385 | for a node probed at increasing times and stored as open, the mark is the time at which its failures reached the threshold if and only if the row counts no more failures than that |
| `HealthTracking.MarkMoves` | proxypool/storage/sqlite.py:2361-2385 | with one failure more than the threshold the mark is that failure's time |
| `HealthTracking.HealthManager.UpdateNodeHealth` | proxypool/pool/health_manager.py:388-502 | one probe drives breaker, row and record, and no other node |
| `HealthTracking.HealthManager.RecordProbe` | proxypool/pool/health_manager.py:402-407 | read, record, read on one breaker |
| `HealthTracking.HealthManager.PersistBreaker` | proxypool/pool/health_manager.py:489-502 | the record written of one breaker |
| `HealthTracking.HealthManager.RestoreState` | proxypool/pool/health_manager.py:102-133 | the loop over the records: every breaker that has one is restored from it, the others stay |
| `HealthTracking.HealthManager.GetState` | proxypool/pool/scoring.py:590-591 | answer and new state of the node read |
| `HealthTracking.HealthManager.UpdateBreaker` | proxypool/pool/health_manager.py:388-459 | the breaker part alone |
| `HealthTracking.HealthManager.UpsertNodeHealth` | proxypool/storage/sqlite.py:2333-2413 | the row part alone |
| `HealthTracking.HealthManager.IsAllowProbe` | proxypool/pool/scoring.py:575-582 | answer and new state of the asked node |
| `HealthRestarts.RestartsUnseenExactly` | proxypool/pool/health_manager.py:102-133 | over all runs of probes, reads, asks and restarts, everything read, recorded or answered is as without the restarts, if and only if recovery_threshold <= half_open_max_probes or half_open_max_probes <= 0 |
| `HealthRestarts.UnaskedRestartsUnseen` | proxypool/pool/health_manager.py:102-133 | probes and reads never show a restart, whatever the settings |
| `HealthRestarts.RestartsSimulated` | proxypool/pool/health_manager.py:102-133 | the simulation behind it: at every point the breaker in memory, and the one a restart would bring, answer for the breaker of the node's own events |
| `HealthRestarts.BreakerFollowsEvents` | proxypool/pool/health_manager.py:388-459 | without restarts each node's breaker is the breaker of its own probes |
| `SlidingWindows.WindowIsLongestRecent` | proxypool/pool/scoring.py:45-64 | after every record and pruning read of every run the deque is the longest suffix of the full history with at most max_samples samples, all young enough |
| `SlidingWindows.WindowHoldsExactly` | proxypool/pool/scoring.py:45-64 | so a sample is in the window if and only if fewer than max_samples came after it and, where age matters, it is no older than max_age_hours |
| `SlidingWindows.LatenciesAreMeasured` | proxypool/pool/scoring.py:78-82 | the latencies taken are those of the samples that have one, in order |
| `SlidingWindows.PercentilesMonotone` | proxypool/pool/scoring.py:78-97 | a higher percentile is no smaller, and each is one of the recorded latencies |
| `SlidingWindows.PercentileRank` | proxypool/pool/scoring.py:78-85 | at most p percent of the latencies lie below the p-th percentile, and more than p percent of them, or all, do not exceed it |
| `SlidingWindows.SlidingWindow.Record` | proxypool/pool/scoring.py:45-51 | append, evict by length, prune by age |
| `SlidingWindows.SlidingWindow.Cleanup` | proxypool/pool/scoring.py:53-58 | pruning by age |
| `SlidingWindows.SlidingWindow.GetPercentile` | proxypool/pool/scoring.py:78-85 | reads without pruning |
| `TaskLifecycle.TerminalForever` | proxypool/tasks/manager.py:50-124 | under every interleaving of workers, stops, deletes and starts a terminal status never changes again |
| `TaskLifecycle.FinishedExactlyWhenTerminal` | proxypool/tasks/manager.py:50-147 | finished_at is set if and only if the status is terminal |
| `TaskLifecycle.StopEndsInCancelled` | proxypool/tasks/manager.py:76-147 | a stop accepted before the worker's last should-stop test always ends in cancelled |
| `TaskLifecycle.StopWinsExactly` | proxypool/tasks/manager.py:85-147 | an accepted stop ends in cancelled if and only if the worker had not already decided on success or failure |
| `TaskLifecycle.OnlyTerminalRemoved` | proxypool/tasks/manager.py:156-184 | only terminal tasks ever leave the registry |
| `TaskLifecycle.RemovedForever` | proxypool/tasks/manager.py:50-54 | a removed id never returns, although its worker may still write |
| `TaskLifecycle.OrderIsStartOrder` | proxypool/tasks/manager.py:173-184 | the order lists exactly the tasks present, once each, in start order |
| `TaskLifecycle.SizeAfterStart` | proxypool/tasks/manager.py:173-184 | right after each start the size is at most max_tasks plus the tasks not yet terminal |
| `TaskLifecycle.LeavesExactly` | proxypool/tasks/manager.py:156-184 | under every interleaving a task leaves the registry if and only if it is terminal and is deleted, or a start leaves at least max_tasks tasks behind it; so a start removes nothing while all fit, and never one of the last max_tasks |
| `TaskLifecycle.NewcomerStays` | proxypool/tasks/manager.py:26-48 | a start puts the new task in, queued and last in the order |
| `TaskLifecycle.CounterIsLastReported` | proxypool/tasks/manager.py:50-74 | under every interleaving each counter of a record is what its runner last reported before the task was terminal |
| `TaskLifecycle.ProgressTold` | proxypool/tasks/manager.py:66-73 | a queued task shows nothing done, any other the percentage of its counters, up to rounding |
| `TaskLifecycle.EndingRecorded` | proxypool/tasks/manager.py:76-124 | the verdict, result, error and time a worker ends with are what the record says for as long as it is kept |
| `TaskLifecycle.VerdictTold` | proxypool/tasks/manager.py:76-124 | a verdict of success or failure means that the runner returned or raised an error; with no stop requested and the task not removed the verdict is success, failure or cancellation if and only if the runner returned, raised an error, or raised that it was cancelled |
| `TaskLifecycle.StoppedNeverRuns` | proxypool/tasks/manager.py:76-90 | a task that is stopped or removed before its worker's first should-stop test is never run |
| `TaskLifecycle.InvAlways` | proxypool/tasks/manager.py:26-147 | the inductive invariant: every record fits its worker's position |
| `TaskLifecycle.TaskManager.StartTask` | proxypool/tasks/manager.py:26-48 | whole new registry, trimming included; what leaves is stated by `LeavesExactly` |
| `TaskLifecycle.TaskManager.Update` | proxypool/tasks/manager.py:50-74 | which updates of a terminal record are refused, and the record after the others, counters and result included |
| `TaskLifecycle.TaskManager.StopTask` | proxypool/tasks/manager.py:130-147 | whole new registry and the answer |
| `TaskLifecycle.TaskManager.DeleteTask` | proxypool/tasks/manager.py:156-166 | whole new registry and the answer |
| `TaskLifecycle.TaskManager.TrimUnlocked` | proxypool/tasks/manager.py:173-184 | which tasks the loop evicts, by positions in `LeavesExactly` |
| `RateLimiting.Refinement` | proxypool/api/security.py:114-168 | with one window of at most an hour per key and clocks that do not go back, every answer of every run is that of a limiter that never forgets and decides from the count of its admissions |
| `RateLimiting.AnswersCountAdmissions` | proxypool/api/security.py:141-168 | so an answer says limited if and only if the admissions of the key in the window use up the limit, and as remaining the limit less the admissions in the window afterwards, the one just made included |
| `RateLimiting.LimitedByPeriod` | proxypool/api/security.py:130-168 | in seconds: under one limit by the second, minute or hour a call is limited if and only if as many calls of its key as the limit names were let through within the last 1, 60 or 3600 seconds |
| `RateLimiting.ForgettingInvisibleExactly` | proxypool/api/security.py:114-168 | over all runs on a set of limits that holds if and only if the limits admit nothing or share one window of at most an hour |
| `OverfullWindows.NeverOverfullExactly` | proxypool/api/security.py:130-168 | for every set of limits: on all runs no interval as long as one of their windows holds more admissions of a key than the largest of them, if and only if they admit nothing or share one window of at most an hour |
| `RateLimiting.WindowNeverOverfull` | proxypool/api/security.py:130-168 | with one window of at most an hour per key, no interval of that length ever holds more admissions of a key than the largest limit used for it |
| `RetryAfter.RetryAfterTight` | proxypool/api/security.py:155-164 | the told wait exceeds the oldest admission's remaining time, by at most one second |
| `RetryAfter.RetryAfterSuffices` | proxypool/api/security.py:155-168 | for a key with one limit of at least one, of any window and whatever the other keys do, a caller that waits as told with no admission in between is admitted |
| `RetryAfter.RetryReliableExactly` | proxypool/api/security.py:130-168 | for every set of limits, waiting as told is enough on all runs if and only if all admit something and share one window and, unless that is a second or a day, all have the same count |
| `RetryAfter.TwoWindowsUnreliable` | proxypool/api/security.py:141-168 | two limits of at least one request and different windows always have a run on which waiting as told is not enough |
| `RetryAfter.TwoCountsUnreliable` | proxypool/api/security.py:141-168 | so have two of different counts over one window of a minute or an hour |
| `RateLimiting.RateLimiter.IsLimited` | proxypool/api/security.py:130-168 | answer and whole new state of one call; what the answer counts is stated by `AnswersCountAdmissions` |
| `RateLimiting.RateLimiter.CleanupOldEntries` | proxypool/api/security.py:114-128 | which timestamps and keys the periodic clean-up drops |
| `RateLimiting.RateLimiter.FilterLogs` | proxypool/api/security.py:119-128 | the loop keeps of every log what is young enough and drops the keys left with nothing |
| `SingBoxConfig.CompilationFaithful` | proxypool/backend/singbox_manager.py:218-274 | for every accepted input: all tags are unique, detours cannot run in a circle, and a connection to inbound in-i leaves through exactly the hops of route i, exit first |
| `SingBoxConfig.PathByFields` | proxypool/backend/singbox_manager.py:31-38 | by the fields of route i: through its exit, its middle and its front, those that are named, in this order, and through its proxy_key alone if none is |
| `SingBoxConfig.InboundsFaithful` | proxypool/backend/singbox_manager.py:226-240 | inbound i listens where route i says and is the only one with its tag and with its port |
| `SingBoxConfig.OtherwiseDirect` | proxypool/backend/singbox_manager.py:264-274 | a connection matching no rule leaves directly |
| `SingBoxConfig.CompilesExactly` | proxypool/backend/singbox_manager.py:218-251 | compilation succeeds if and only if the routes are valid, the inbound types known, and every hop has a supported proxy |
| `SingBoxConfig.ValidPlans` | proxypool/backend/singbox_manager.py:842-851 | routes are valid if and only if ports are in range and distinct and no chain is empty |
| `SingBoxConfig.FirstInvalidRoute` | proxypool/backend/singbox_manager.py:842-851 | the complaint about invalid routes is about the first of them, and which one it is |
| `SingBoxConfig.FirstUnbuildableRoute` | proxypool/backend/singbox_manager.py:226-251 | of valid routes it is about the first with an unknown inbound type or a hop that cannot be built |
| `SingBoxConfig.FirstBadHop` | proxypool/backend/singbox_manager.py:242-251 | and of its hops about the first whose proxy is missing or not supported |
| `SingBoxConfig.BuildRuntimeConfig` | proxypool/backend/singbox_manager.py:218-274 | the configuration, or the first error the code meets |
| `SingBoxConfig.Assemble` | proxypool/backend/singbox_manager.py:218-274 | the loop over routes that grows the three lists |
| `SingBoxConfig.BuildChain` | proxypool/backend/singbox_manager.py:242-259 | the outbounds of one route, built and then linked by detours in place |
| `SingBoxConfig.ValidateRoutes` | proxypool/backend/singbox_manager.py:842-851 | the first complaint, with the set of ports seen so far |
| `SingBoxConfig.ReplaceFailedExit` | proxypool/backend/singbox_manager.py:149-179 | the routes then stored and the count returned |
| `SingBoxConfig.EditCopies` | proxypool/backend/singbox_manager.py:159-169 | the edited copies and how many were counted |
| `SingBoxConfig.ReplacementChangesOnlyExit` | proxypool/backend/singbox_manager.py:31-38 | only the last hop can change, to the new proxy, where it was the failed one; and exactly which chains still end in the failed proxy |
| `SingBoxConfig.CountedUnchangedExactly` | proxypool/backend/singbox_manager.py:159-169 | a route is counted without its chain changing if and only if it names the failed proxy as proxy_key, has no exit key, and has a front or middle hop |
| `SingBoxConfig.MissedExactly` | proxypool/backend/singbox_manager.py:159-169 | a chain that ends in the failed proxy is not counted if and only if it has no exit key, another proxy_key, and the failed proxy as middle hop, or as front hop with no middle |
| `SingBoxConfig.CountIsNoMeasure` | proxypool/backend/singbox_manager.py:159-169 | a route that does not end in the failed proxy and is counted, and one that ends in it and is not |
| `SingBoxConfig.ReplacementKeepsValid` | proxypool/backend/singbox_manager.py:149-179 | replacing an exit in valid routes leaves them valid |
| `SingBoxConfig.ReplacementNeverFails` | proxypool/backend/singbox_manager.py:149-179 | so on valid routes the call never fails: it edits and counts the routes that name the failed proxy, field by field, if there is anything to do, and else does nothing |
| `MihomoConfig.FaithfulExactly` | proxypool/backend/mihomo_config.py:9-40 | following dialer names from the MATCH target visits every hop, last to first, if and only if the names are pairwise distinct; for every way of looking names up |
| `MihomoConfig.ProxiesAreHops` | proxypool/backend/mihomo_config.py:18-28 | the proxies are the hops, built, in order |
| `MihomoConfig.CompilesExactly` | proxypool/backend/mihomo_config.py:9-28 | compilation succeeds if and only if the inbound type is known, there is a hop and every hop can be built |
| `MihomoConfig.FailsExactly` | proxypool/backend/mihomo_config.py:10-28 | it fails for the first reason that applies: the inbound type, the want of hops, the first hop that cannot be built |
| `MihomoConfig.ListensAsAsked` | proxypool/backend/mihomo_config.py:31-37 | the listener is the instance's, where and of the type asked for, with the defaults for what is not given |
| `MihomoConfig.UnnamedHopsDistinct` | proxypool/backend/mihomo_config.py:22-23 | hops without names never clash with one another |
| `MihomoConfig.DefaultNameCanClash` | proxypool/backend/mihomo_config.py:22-23 | but a given name can be the default name of another hop |
| `MihomoConfig.BuildChainConfig` | proxypool/backend/mihomo_config.py:9-40 | the configuration, or the first error the code meets |
| `MihomoConfig.BuildProxies` | proxypool/backend/mihomo_config.py:18-28 | the loop that carries the previous name |
| `ClashNames.UniqueName` | proxypool/api/app.py:1313-1327 | the first free candidate, found within the number of used names + 1 attempts, and the names then used |
| `ClashNames.Pigeonhole` | proxypool/api/app.py:1322-1325 | k taken candidates need k used names |
| `ClashNames.GivenNamesDistinct` | proxypool/api/app.py:1284-1296 | no two proxies get the same name, and each gets its base name if and only if no earlier one has it |
| `ClashNames.BaseByFields` | proxypool/api/app.py:1315-1320 | a base name is the first 80 characters of the proxy's name, or without one of its address |
| `ClashNames.LeastNumber` | proxypool/api/app.py:1321-1326 | a name is the base name, or that with the least number from 2 on that was not given before |
| `ClashNames.SelectorNamesOne` | proxypool/api/app.py:1297-1309 | each selector entry names exactly one published proxy; with none published the only entry is DIRECT |
| `ClashNames.PublishesTheBuildable` | proxypool/api/app.py:1290-1296 | exactly the proxies that can be built are published, in order |
| `ClashNames.AppendingKeepsNames` | proxypool/api/app.py:1284-1296 | publishing more proxies never renames the ones before them |
| `ClashNames.GroupShadowedExactly` | proxypool/api/app.py:1298-1309 | the select group shares its name with a proxy if and only if the first proxy based on that name can be built |
| `ClashNames.PublishedUniquely` | proxypool/api/app.py:1284-1311 | the proxies determine their names and the whole configuration |
| `ClashNames.Publish` | proxypool/api/app.py:1284-1311 | the published items and selector |
| `FilterSql.ListSelectsExactly` | proxypool/storage/sqlite.py:648-754 | every placeholder of the list query is bound, and for every row, NULLs included, the WHERE clause is true if and only if the row is asked for |
| `FilterSql.LinksSelectExactly` | proxypool/storage/sqlite.py:2031-2121 | the same for the links query |
| `FilterSql.LinksAreProxies` | proxypool/storage/_helpers.py:146-190 | for any stored filters, before LIMIT, links are published of exactly the published proxies, of only the available ones when the filters leave availability open |
| `FilterSql.PublishedAsAskedFor` | proxypool/storage/_helpers.py:146-178 | by the stored filters themselves: the published proxies are those with the protocol, route mode, availability, source, place and checks that each filter, where given, asks for |
| `FilterSql.RouteModesPartition` | proxypool/storage/_helpers.py:151-162 | the three route modes part the proxies that the other filters publish |
| `FilterSql.EvalAppend` | proxypool/storage/sqlite.py:648-754 | binding by position commutes with appending clauses and parameters |
| `FilterSql.BuildListQuery` | proxypool/storage/sqlite.py:648-754 | conditions and parameters, LIMIT and OFFSET last |
| `FilterSql.BuildLinkQuery` | proxypool/storage/sqlite.py:2031-2121 | conditions and parameters, LIMIT last |
| `FilterSql.NormalizeStringList` | proxypool/storage/_helpers.py:53-69 | the loop computes the normalised list |
| `FilterSql.NormalizedIsClean` | proxypool/storage/_helpers.py:53-69 | no repeats, no empties, at most the cap, each a cleaned input |
| `FilterSql.NormalizedIsComplete` | proxypool/storage/_helpers.py:53-69 | an input is left out only when the cap has been reached |

## Left out

Concurrency and time

- Lock granularity outside the task registry: methods of the routers, breakers, windows and the limiter are atomic steps.  `_create_lease` really removes and inserts under two acquisitions of the lock, and `_route_endpoint_request` takes it several times.
- Several clock readings within one call of the breaker, the health manager, the sticky router and the endpoint router: one reading stands for them.  The limiter, the probe window and the lease clean-ups do keep separate readings.
- Clocks that go back, and rounding of floating point: times are real or whole numbers.
- Instants before 1970 or after the year 9999, where the text comparison of timestamps is concerned.

Routing

- StickyRouting.RouteKeepsLoad: speaks of named IPs only, because the index entry of the empty IP is incremented and never decremented.
- RouteHistories.RouteFailedExactly: leaves out runs with restarts on which a reported key contains ">" or a comma, because a restart then fills the cache with routes nobody reported; of those `SuccessClearsRoute` and `MarkedThroughout` still speak.
- `inherit_lease`: it is not written through to the table.
- `endpoint_route_health`, `get_leases`, pool configuration and status, and the route signature built from pool ids.
- Database errors that the code catches and logs; an endpoint whose hop names a pool that has been deleted.
- How node pools collect their members, and the health fields of their entries.

Health

- Scores and grades (`math.exp`, `math.sqrt`), success rates and averages of the window.
- Probing itself, running the breakers without a health storage, and restoring scores.

Tasks

- Rounding of `progress`, listing; runners that pass other keywords to the update callback than message, total, completed, success and failed (a runner that passes a status could rewrite a terminal one).

Rate limiter

- Parsing a limit string into count and period: the two parts are given, or the parse has failed.
- The choice of a limit by method and path, headers, API keys, concurrency limits.

Configurations

- The body of an outbound or proxy (protocol fields, TLS, transport): an opaque value that may fail to be built and sets no detour, dialer or name of its own.
- Lower-casing of inbound types; whitespace stripping except in the query filters (ASCII there); cutting of ids to length.
- Reading the MATCH rule back out of its text, where a name with a comma would be cut.
- Writing files, starting and supervising sing-box and mihomo processes.

Queries

- ORDER BY (the list query puts rows without latency last, the links query does not, so a LIMIT can cut them differently), the effect of LIMIT and OFFSET, LIKE itself, collations, and writing the conditions out as text.
- The pool filters' extra keywords (latency, freshness, countries) as parsed from text; the list query takes them parsed.
- The same methods repeated in the storage mixins.
- All other API routes, the web interface, link parsing, GeoIP, and access control.
