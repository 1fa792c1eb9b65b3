# Verified models of the Moscraper decision cores

Moscraper scrapes online stores and prepares what it finds for a CRM. Around that work sit a
handful of algorithms whose correctness is not visible from any one function: a roadmap planner
that sorts prerequisites, a proxy scheduler, a ban-signal alarm, payload fingerprints, a contract
diff, request admission, price parsing and the resolution of conflicting specs. This project
models each of them in Dafny and proves what it promises, for all inputs, runs or reachable states.

The modules follow the program, one per source file or theme:

| area | modules | main results |
|---|---|---|
| Roadmap graph | `DependencyGraph`, `Adjacency`, `CriticalPath`, `ParallelLayers`, `RoadmapTheorems` | Kahn's sweep finishes exactly when there is no cycle; the critical path is a longest path; layers are longest-path lengths; the two algorithms agree |
| Roadmap rules | `Roadmap`, `RoadmapDependencies`, `RoadmapPlanner`, `RoadmapInputs` | each ordered pair is linked once, for the first reason that holds; which items a plan has and where each goes, from gaps and checklist; the planner's own roadmaps have no cycle and chains of at most four items |
| Proxy scheduling | `ProxyPolicy`, `ProxyPolicyRuns`, `ProxyHealthRuns` | health, ban score and cooldowns as functions of the reports alone; cooldown safety, spaced retries, fair rotation and exact leases over every run |
| Ban-signal alarm | `BanSignalMonitoring` | pruned queue and latch agree with the full history; alarm density is bounded |
| Fingerprints | `Text`, `ScrapeFingerprints`, `CanonicalJson`, `ScrapedProduct` | normalisation is idempotent through any nesting; the stored snapshot hashes to its own hash; two items hash alike exactly when their content agrees field by field; key order does not matter, and image order exactly up to a hundred images |
| Contract diff | `ContractShape`, `ContractPaths`, `ContractEvolution`, `ContractTheorems`, `ContractSemantics` | two notions of "additive" agree; drift shows at every shared ancestor; collapsing loses nothing; when removals, renames and lifecycle changes are breaking, from the inputs |
| Admission | `ConcurrencyPolicy`, `ResourceGovernance`, `AdmissionProtocol`, `AdmissionCaps` | counters are exact in every reachable state; caps hold exactly when each admission is recorded before the next; saturation downgrades, and what it changes in a request |
| Prices | `PriceNormalization` | printer/parser round trip, with its exact condition |
| Specs | `SpecConfidence`, `SpecResolution`, `SpecMapper` | an emitted value is a plausible candidate; every field is emitted or suppressed once; what each hint and each supporting row adds to a score |

`Ordering` holds string order, the stable sort and set enumeration; `Counting` counts elements of
sequences; `Wrappers` holds `Option`.

The modelling follows a few conventions. Code that updates tables step by step is a method with
loops, or a class where the source keeps the tables in an object or a module, and is proved
against functions or predicates; the lemmas are about those. Python sets have no order, so
`Ordering.Enumerate` returns any order and everything downstream holds for all of them. Clocks and
settings are parameters. Library behaviour (`str`, `str.lower`, URL validity and canonicalisation,
unit detection, the digest) is a function-valued parameter about which nothing is assumed.

## Where the code and its promises part

- Saturation of the proxy budget is meant to downgrade a request, never refuse it. The mode is read
  case-insensitively but reset only when spelled exactly `proxy`, so a request whose mode is spelled
  `PROXY` is refused when proxies are saturated. On the request path the mode is always written in
  lower case (infrastructure/access/request_strategy.py:186-223), so such a spelling can only come from
  another caller. `AdmissionProtocol.OddSpellingIsRefused` gives the input and
  `AdmissionProtocol.SaturationOnlyDowngrades` the exact condition.
- Parsing a printed price recovers the number except when the text reads as one more group of
  thousands: exactly three decimals, or more than two after comma or dot groups.
  `PriceNormalization.PrintedRoundTrip` states this as an if-and-only-if for the token and
  `PriceNormalization.PrintedPriceRoundTrip` for the price; "1.234" is read as 1234
  (`PriceNormalization.ThreeDecimalsAreAGroup`).
- `classify_contract_change` documents that removing a field is breaking. It is so reported exactly
  when the policy tables name the field (required, export-critical or identity) and its registered
  replacement, if it has one, is not added: `ContractTheorems.RemovalIsBreakingWhen`. A product that
  loses its title is reported as a deprecation only: `ContractTheorems.LostTitleIsDeprecated`.
- It also documents that a rename without both names is breaking. A top-level field that goes while
  another comes is reported as breaking exactly when its removal is breaking by itself, or, on the CRM
  payload, when no registered rename is bridged anywhere: `ContractTheorems.RenameIsBreakingWhen`.
  One bridged rename hides every other one: `ContractTheorems.BridgeHidesRename`.
- `detect_parallelizable_items` documents that no prerequisite edge joins two items of one layer.
  That holds exactly when the dependencies have no cycle:
  `RoadmapTheorems.EdgeInsideLayerMeansCycle`. Two items that wait for each other share the only
  layer: `RoadmapTheorems.TwoCycleSharesALayer`.
- `_all_pairwise_compatible` compares every value with the first only, and a tolerance of 5% is not
  transitive. All pairs agree exactly when the smallest and the largest number do and, should any
  value be text, all of them read the same: `SpecResolution.PairwiseExactly`. With 100, 95 and 105
  a value is emitted although two of the three disagree: `SpecResolution.LooseClusterIsEmitted`.
  Any two positive whole numbers of an accepted cluster are within the wider bound of
  `SpecResolution.ClusterIsTight`.
- The admission check reads counters that only recording raises, so requests admitted before others
  are recorded can overshoot a cap. With at most `k` requests waiting between the two calls, caps
  are passed by at most `k - 1`, and the caps hold in all such runs exactly when `k` is at most one:
  `AdmissionCaps.EveryRunIsSafe`, `AdmissionCaps.BoundIsReached`, `AdmissionCaps.CapsNeedOneAtATime`.
  The spiders record right after admitting (infrastructure/spiders/base.py:293-297).

## Model

| member | source | states |
|---|---|---|
| `DependencyGraph.StuckSetIsCyclic` | application/readiness/roadmap_dependencies.py:133-147 | a code in a set where everyone has a predecessor inside the set lies on or after a cycle |
| `DependencyGraph.LevelsAreLongest` | application/readiness/roadmap_dependencies.py:128-143 | levels that rise along edges, by exactly one along some edge into each non-zero code, are the lengths of longest paths |
| `DependencyGraph.LevelledIsAfterNoCycle` | application/readiness/roadmap_dependencies.py:145-147 | no code with a level lies on or after a cycle |
| `DependencyGraph.AfterCycleHasNoLongestPath` | application/readiness/roadmap_dependencies.py:201-202 | a code on or after a cycle has arbitrarily long walks to it, so no longest one |
| `DependencyGraph.AcyclicPathNoDuplicates` | application/readiness/roadmap_dependencies.py:149-156 | on a graph without cycles no path repeats a code |
| `Roadmap.KnownEdgesAreDependencies` | application/readiness/roadmap_dependencies.py:119-123 | the graph's edges are exactly the dependencies both of whose ends are items |
| `Adjacency.BuildAdjacency` | application/readiness/roadmap_dependencies.py:116-125 | adjacency lists hold each edge with its multiplicity, and in-degrees count all edges, self-loops and repeats included |
| `Adjacency.ZeroCodes` | application/readiness/roadmap_dependencies.py:132 | the initial queue holds each code of in-degree zero once, in any order |
| `Adjacency.ZeroMeansPredecessorsDone` | application/readiness/roadmap_dependencies.py:136-139 | a code's running count is zero exactly when all its predecessors are finished |
| `CriticalPath.SweepStep` | application/readiness/roadmap_dependencies.py:136-143 | crossing off and relaxing one edge keeps queue, counts, distances and parents consistent with the edges used so far |
| `CriticalPath.ProcessHead` | application/readiness/roadmap_dependencies.py:133-143 | one turn of the queue loop keeps the sweep's invariant with one more code finished |
| `CriticalPath.KahnTheorem` | application/readiness/roadmap_dependencies.py:127-147 | the sweep lists fewer codes than there are exactly when the graph has a cycle; otherwise `dist` is a longest-path level for every code |
| `CriticalPath.WalkParents` | application/readiness/roadmap_dependencies.py:149-156 | the walk ends, and reversed it is a path to its start with `dist + 1` codes |
| `CriticalPath.FarthestPathIsLongest` | application/readiness/roadmap_dependencies.py:149-156 | a path of that length to a code of greatest `dist` is a longest path of the graph |
| `CriticalPath.SortedIsFallbackPath` | application/readiness/roadmap_dependencies.py:159-166 | the fallback is every item, ordered by phase, priority and code |
| `Roadmap.SortedByPhase` | application/readiness/roadmap_dependencies.py:159-166 | items so ordered come foundation first and maturity last, the most urgent first in each phase, and by code among equals |
| `Ordering.StringLeMeans` | application/readiness/roadmap_dependencies.py:159-166 | codes are compared at their first difference, and a prefix comes before what it begins |
| `CriticalPath.InferCriticalPath` | application/readiness/roadmap_dependencies.py:112-156 | without a cycle, a repeat-free path than which none is longer; with one, and only then, the fallback order |
| `ParallelLayers.PeelLayer` | application/readiness/roadmap_dependencies.py:190-199 | one layer's edges are crossed off; the next layer is exactly the codes this one frees |
| `ParallelLayers.PeelTurn` | application/readiness/roadmap_dependencies.py:190-199 | one turn of the loop keeps layer numbers equal to longest-chain levels |
| `ParallelLayers.LeftoverIsHeldUp` | application/readiness/roadmap_dependencies.py:201-202 | what remains is exactly the codes on or downstream of a cycle |
| `ParallelLayers.DetectParallelizableItems` | application/readiness/roadmap_dependencies.py:169-203 | layer `i` is the sorted set of codes whose longest path has `i + 1` codes; with a cycle one last layer holds what it holds up |
| `RoadmapTheorems.LayersPartition` | application/readiness/roadmap_dependencies.py:183-203 | for every graph each code is in exactly one layer |
| `RoadmapTheorems.EdgesGoToLaterLayers` | application/readiness/roadmap_dependencies.py:169-203 | what a peeled item depends on is in a strictly earlier layer; without a cycle that is every dependency, and with one every dependency outside the last layer |
| `RoadmapTheorems.HeldUpIsClosed` | application/readiness/roadmap_dependencies.py:201-202 | whatever depends on a held-up item is held up |
| `RoadmapTheorems.EdgeInsideLayerMeansCycle` | application/readiness/roadmap_dependencies.py:169-203 | some layer holds both ends of an edge exactly when the graph has a cycle |
| `RoadmapTheorems.TwoCycleSharesALayer` | application/readiness/roadmap_dependencies.py:201-203 | the concrete failing input: two items that wait for each other form the only layer |
| `RoadmapTheorems.CriticalPathCrossesEveryLayer` | application/readiness/roadmap_dependencies.py:112-203 | without a cycle the two algorithms agree: the critical path takes one code from each layer in order, so there are as many layers as codes on it |
| `RoadmapTheorems.LayeringIsUnique` | application/readiness/roadmap_dependencies.py:188-203 | the layers do not depend on set order |
| `RoadmapDependencies.AddEdges` | application/readiness/roadmap_dependencies.py:20-28 | a rule's double loop appends one entry per source for each target in turn |
| `RoadmapDependencies.RuleListMembers` | application/readiness/roadmap_dependencies.py:18-87 | a rule's two selections crossed are exactly the pairs for which its reason holds |
| `RoadmapDependencies.AddExplicit` | application/readiness/roadmap_dependencies.py:89-99 | the loops append the stated dependencies on known items, item by item |
| `RoadmapDependencies.ExplicitMembers` | application/readiness/roadmap_dependencies.py:89-99 | those are exactly the pairs for which the explicit reason holds, self-references left out |
| `RoadmapDependencies.ListedMembers` | application/readiness/roadmap_dependencies.py:18-99 | before pairs are made unique, exactly what some reason holds for is listed |
| `RoadmapDependencies.Dedupe` | application/readiness/roadmap_dependencies.py:101-109 | the loop keeps the first entry of each pair of known codes, in order |
| `RoadmapDependencies.FirstPerLinkMembers` | application/readiness/roadmap_dependencies.py:101-109 | what is kept is exactly what comes first between its two codes |
| `RoadmapDependencies.LinkKept` | application/readiness/roadmap_dependencies.py:101-109 | making pairs unique loses no pair |
| `RoadmapDependencies.FirstReasonWins` | application/readiness/roadmap_dependencies.py:18-109 | where several reasons hold for a pair, the one whose rule runs first is kept; a stated dependency only when no rule applies |
| `RoadmapDependencies.BuildRoadmapDependencies` | application/readiness/roadmap_dependencies.py:10-109 | one dependency per ordered pair, those a rule or an item states and no others, in the order first listed, each with the first reason that holds for it |
| `RoadmapPlanner.FirstPerCodeKeepsCodes` | application/readiness/roadmap_planner.py:125-136 | keeping the first item per code keeps every code, once |
| `RoadmapPlanner.CollectItems` | application/readiness/roadmap_planner.py:125-136 | the loops over gaps and checklist keep the first item per code of all that was asked for |
| `RoadmapPlanner.PlannedItemsRise` | application/readiness/roadmap_planner.py:87-139 | planned items are never empty, have unique codes, and their stated dependencies rise in rank |
| `RoadmapPlanner.DependenciesRise` | application/readiness/roadmap_dependencies.py:18-99 | every inferred or stated dependency strictly raises the rank, which is at most three |
| `RoadmapPlanner.RankAlongPath` | application/readiness/roadmap_planner.py:141-142 | along any path rank rises at least one per step, so no path has more than four codes |
| `RoadmapPlanner.RankedGraphIsAcyclic` | application/readiness/roadmap_planner.py:141-142 | edges that raise a rank form no cycle |
| `RoadmapPlanner.BuildDefaultRoadmapFromGaps` | application/readiness/roadmap_planner.py:118-180 | whatever the gaps and checklist, the roadmap has no cycle, its critical path is a true longest path of one to four items with as many layers, and phases, blockers and post-launch items are the right selections |
| `RoadmapInputs.PlannedCodesExactly` | application/readiness/roadmap_planner.py:103-139 | the codes planned are exactly those of the gaps and of the required rows that are not ready; the seeds are planned exactly when there are none |
| `RoadmapInputs.GapIsPlanned` | application/readiness/roadmap_planner.py:22-100 | the first gap of each code is planned, with workstream, phase, priority and blocking read off its domain, severity and blocking |
| `RoadmapInputs.RowIsPlanned` | application/readiness/roadmap_planner.py:103-115 | so is the first checklist row of each code that no gap has, as the gap it stands for |
| `RoadmapInputs.FirstIsKept` | application/readiness/roadmap_planner.py:125-136 | of items with one code the first is kept, in the order of the requests |
| `RoadmapInputs.BlockersExactly` | application/readiness/roadmap_planner.py:163 | go-live blockers are exactly the codes of blocking items |
| `RoadmapInputs.PostLaunchExactly` | application/readiness/roadmap_planner.py:164-168 | post-launch codes are exactly those of non-blocking items of the last two phases |
| `RoadmapInputs.SeedRoadmap` | application/readiness/roadmap_planner.py:201-248 | the seed items: their codes, order, workstreams, phases, priorities and blocking |
| `RoadmapPlanner.SeedCriticalPath` | application/readiness/roadmap_planner.py:201-248 | with no gaps the critical path is the seed list itself |
| `ProxyPolicy.NormalizeProxyUrlIdempotent` | infrastructure/access/proxy_policy.py:80-86 | a normalised proxy URL is its own normal form, so marks and picks use the same key |
| `ProxyPolicy.NormalizedUrls` | infrastructure/access/proxy_policy.py:80-86 | which lines name a proxy, and under which URL |
| `ProxyPolicy.ParsePool` | infrastructure/access/proxy_policy.py:103-112 | the pool holds each proxy of the file once, normalised |
| `ProxyPolicy.RankedIsStableOrder` | infrastructure/access/proxy_policy.py:205-220 | ranking is a stable sort by ban score, then health, then failures |
| `ProxyPolicy.BestIsFirst` | infrastructure/access/proxy_policy.py:205-225 | the first draw of a rotation is a candidate that no other one beats |
| `ProxyPolicy.SameRotation` | infrastructure/access/proxy_policy.py:213-254 | which requests draw from one rotation |
| `ProxyPolicy.SelectableMembers` | infrastructure/access/proxy_policy.py:197-202 | exactly the pool's proxies that are not cooling down are selectable |
| `ProxyPolicy.ProxyPool.MarkProxyResult` | infrastructure/access/proxy_policy.py:365-409 | the tables after one outcome, success or failure, ban-like or not, in or out of limits |
| `ProxyPolicy.BanLikeReasons` | infrastructure/access/proxy_policy.py:400 | the seven reasons that make a failure ban-like |
| `ProxyHealthRuns.FailuresCounted` | infrastructure/access/proxy_policy.py:390-404 | over any run, the failures in a row are those reported since the last success |
| `ProxyHealthRuns.BanScoreIsHighestTail` | infrastructure/access/proxy_policy.py:390-404 | over any run, the ban score is the largest net number of points over a tail of the history |
| `ProxyHealthRuns.FailingStreak` | infrastructure/access/proxy_policy.py:400-403 | what failures without a success do to failures, ban score and health, ban-like ones twice over |
| `ProxyHealthRuns.SucceedingStreak` | infrastructure/access/proxy_policy.py:391-398 | what successes without a failure do: down to no points, up to full health |
| `ProxyHealthRuns.CoolingExactly` | infrastructure/access/proxy_policy.py:197-409 | over any run, a proxy cools down exactly when some failure met a limit, by the history of reports alone, less than its cooldown ago |
| `ProxyHealthRuns.SelectableFromHistory` | infrastructure/access/proxy_policy.py:257-288 | so a selection passes over exactly the proxies with such a failure |
| `ProxyHealthRuns.LatestReason` | infrastructure/access/proxy_policy.py:395-404 | the record tells the reason of the latest report |
| `ProxyPolicy.ProxyPool.SelectRotatingProxy` | infrastructure/access/proxy_policy.py:213-225 | returns the candidate at the rotation's counter and moves that counter on by one |
| `ProxyPolicy.ProxyPool.SelectStickyProxy` | infrastructure/access/proxy_policy.py:228-254 | serves a usable lease and counts it down, else draws and leases anew |
| `ProxyPolicy.ProxyPool.SelectProxyByPolicy` | infrastructure/access/proxy_policy.py:257-288 | one selection over the proxies not cooling down, none if all are |
| `ProxyPolicy.ProxyPool.BuildProxyMeta` | infrastructure/access/proxy_policy.py:297-362 | a store not offered proxies changes nothing; otherwise the picked proxy with its mode label, unless the network policy rejects it, which counts as a failure |
| `ProxyHealthRuns.MetaIsUsable` | infrastructure/access/proxy_policy.py:297-362 | a proxy handed out is in the pool, not cooling down and not rejected, with its mode; none is when all cool down |
| `ProxyHealthRuns.RejectionIsFailure` | infrastructure/access/proxy_policy.py:334-355 | a rejected proxy is not handed out, and its rejection is recorded as a failure |
| `ProxyPolicyRuns.PickFromPool` | infrastructure/access/proxy_policy.py:257-288 | a pick is a pool member that is not cooling down; there is none exactly when all are |
| `ProxyPolicyRuns.CooldownIsSafe` | infrastructure/access/proxy_policy.py:197-288 | once cooling down until T, a proxy is returned by no selection before T, whatever is reported in between |
| `ProxyPolicyRuns.NextPickAfterFailure` | infrastructure/access/proxy_policy.py:365-409 | a pick after such a failure comes at least a cooldown later |
| `ProxyPolicyRuns.RetriesAreSpaced` | infrastructure/access/proxy_policy.py:257-409 | in a select/mark run, consecutive picks of a proxy that keeps failing are a cooldown apart |
| `ProxyPolicyRuns.RetriesTakeCooldowns` | infrastructure/access/proxy_policy.py:257-409 | `n + 1` such picks take at least `n` cooldowns |
| `ProxyPolicyRuns.RunKeepsHealthInBounds` | infrastructure/access/proxy_policy.py:389-403 | over any run health stays in 0..100 and ban score and failures are never negative |
| `ProxyPolicyRuns.DrawsAdvance` | infrastructure/access/proxy_policy.py:213-225 | draws of one rotation walk down the ranking and wrap around, undisturbed by other keys and leases |
| `ProxyPolicyRuns.RotationIsFair` | infrastructure/access/proxy_policy.py:213-225 | with health unchanged, any `n` consecutive draws over `n` proxies are a permutation of them |
| `ProxyPolicyRuns.LeaseCountsDown` | infrastructure/access/proxy_policy.py:237-243 | a selectable lease loses exactly one use per request for its store and domain |
| `ProxyPolicyRuns.LeaseServesExactly` | infrastructure/access/proxy_policy.py:228-254 | a fresh lease serves its proxy exactly `sticky_requests` times in a row, then a new draw is made |
| `BanSignalMonitoring.BanSignalSpikeMonitor.RecordHttpStatus` | infrastructure/access/ban_signal_monitoring.py:28-61 | new queue and latch of the event's key, the alarm and the count; every other key is untouched |
| `BanSignalMonitoring.BanSignalSpikeMonitor.Reset` | infrastructure/access/ban_signal_monitoring.py:63-67 | every key is fresh again |
| `BanSignalMonitoring.QueueIsWindow` | infrastructure/access/ban_signal_monitoring.py:50-61 | the queue is exactly the full history's events inside the window, and the latch is armed exactly below the threshold |
| `BanSignalMonitoring.FiresExactly` | infrastructure/access/ban_signal_monitoring.py:50-61 | an alarm fires exactly when threshold - 1 earlier events are in the window |
| `BanSignalMonitoring.AlarmsAreSpaced` | infrastructure/access/ban_signal_monitoring.py:50-61 | of any threshold + 1 alarms of a key, first and last are more than a window apart |
| `BanSignalMonitoring.KeysAreIndependent` | infrastructure/access/ban_signal_monitoring.py:25-61 | a key's state is that of its own events alone |
| `BanSignalMonitoring.LabelMeans` | infrastructure/access/ban_signal_monitoring.py:39-40 | names share a label exactly when they are blank or read the same trimmed and lower-cased |
| `Text.NormalizeStringJoinsWords` | domain/scrape_fingerprints.py:23-27 | normalised text is the input's words joined by single spaces |
| `Text.NormalizeStringIsClean` | domain/scrape_fingerprints.py:23-27 | it has no other whitespace, and normalising it again changes nothing |
| `Text.StripExactly` | domain/scrape_fingerprints.py:23-27 | stripping takes the whitespace around a text away and nothing else |
| `ScrapeFingerprints.NormalizeJsonDict` | domain/scrape_fingerprints.py:74-106 | the nested loops compute the recursive normal form of a dict |
| `ScrapeFingerprints.NormalizeJsonList` | domain/scrape_fingerprints.py:88-99 | the same for the items of a list value |
| `ScrapeFingerprints.NormalizeEntriesIsNormal` | domain/scrape_fingerprints.py:74-106 | whatever comes in, at every depth keys are distinct, clean and free of noise and values are non-empty |
| `ScrapeFingerprints.NormalizeIsIdempotent` | domain/scrape_fingerprints.py:74-106 | a dict is left alone exactly when it is in normal form; twice is once |
| `ScrapeFingerprints.LastSurvivorWins` | domain/scrape_fingerprints.py:76-105 | of entries whose keys collide, the last one whose value survives is kept |
| `ScrapeFingerprints.KeptTextMeans` | domain/scrape_fingerprints.py:23-35 | a scalar is kept, as its words joined by single spaces, exactly when it has words and no frontend marker occurs in them |
| `ScrapeFingerprints.SurvivesMeans` | domain/scrape_fingerprints.py:83-105 | a dict survives exactly when an entry of it does, a list when an item does, a scalar when its text is kept |
| `ScrapeFingerprints.ItemsOneByOne` | domain/scrape_fingerprints.py:88-99 | list items are normalised one by one, in order |
| `ScrapeFingerprints.NormalizeImageUrls` | domain/scrape_fingerprints.py:56-71 | the early-exit loop returns the first hundred of the ordered distinct valid URLs |
| `ScrapeFingerprints.DistinctUrlsMembers` | domain/scrape_fingerprints.py:56-71 | that list holds each valid normalised URL once and nothing else |
| `ScrapeFingerprints.ImageUrlsIdempotent` | domain/scrape_fingerprints.py:56-71 | normalising stored URLs again changes nothing |
| `ScrapeFingerprints.SortedUrlsDependOnSet` | domain/scrape_fingerprints.py:153 | up to a hundred distinct URLs, the sorted lists agree exactly when the sets do |
| `ScrapeFingerprints.SortedUrlsExactly` | domain/scrape_fingerprints.py:56-153 | within or beyond the limit, the sorted URL lists agree exactly when the same URLs are kept |
| `ScrapeFingerprints.OrderMattersAboveLimit` | domain/scrape_fingerprints.py:56-71 | with more than a hundred distinct URLs, moving the last one to the front changes the sorted list |
| `ScrapeFingerprints.LimitIsExact` | domain/scrape_fingerprints.py:56-71 | reordering or repeating up to `n` distinct images never matters exactly when `n` is at most a hundred |
| `ScrapeFingerprints.NormalizeExternalIds` | domain/scrape_fingerprints.py:109-117 | the loop computes the normalised ids |
| `ScrapeFingerprints.LastIdWins` | domain/scrape_fingerprints.py:109-117 | of ids whose names collide the last usable one is kept |
| `ScrapeFingerprints.ExternalIdsAreNormal` | domain/scrape_fingerprints.py:109-117 | they have distinct clean keys and clean values |
| `ScrapeFingerprints.NormalIdsAreFixed` | domain/scrape_fingerprints.py:109-117 | normalising such ids changes nothing |
| `CanonicalJson.SerialisedAlike` | domain/scrape_fingerprints.py:152-158 | two spec dicts serialise alike exactly when, key by key, the same values survive normalisation |
| `CanonicalJson.AlikeExactly` | domain/scrape_fingerprints.py:158 | values serialise alike exactly when scalars agree, lists agree item by item and dicts key by key |
| `CanonicalJson.RearrangedAlike` | domain/scrape_fingerprints.py:152-158 | dicts rearranged at any depth without colliding keys serialise alike |
| `CanonicalJson.PermutedIsRearranged` | domain/scrape_fingerprints.py:152-158 | reordering entries is such a rearrangement |
| `ScrapedProduct.FromScrapyItem` | domain/scraped_product.py:59-88 | the payload hash is that of the blob recomputed from the stored fields, which is also the blob of the raw item; stored fields are the normalised item fields, in normal form, and the source id is on file |
| `ScrapedProduct.BlobsAgreeExactly` | domain/scrape_fingerprints.py:144-157 | two payloads have one blob exactly when texts and stock agree, the same specs and ids survive key by key and the same images are kept |
| `ScrapedProduct.ItemsHashAlikeExactly` | domain/scraped_product.py:59-89 | the same for two scraped items, whose ids are their own and else the source id under the store |
| `ScrapedProduct.ChangedFieldChangesBlob` | domain/scrape_fingerprints.py:144-157 | a change of any text field or of the stock changes the blob, up to letter case where it is lowered and to the canonical URL |
| `ScrapedProduct.ChangedSpecsChangeBlob` | domain/scraped_product.py:67 | items that differ in their specs alone have one blob exactly when the same ones survive; anything but a dict counts as none |
| `ScrapedProduct.ChangedImagesChangeBlob` | domain/scraped_product.py:68 | the same for images, of which the kept ones count |
| `ScrapedProduct.ChangedIdsChangeBlob` | domain/scraped_product.py:69-71 | the same for ids, the source id filed under the store included |
| `ScrapedProduct.HashIgnoresImageOrder` | domain/scrape_fingerprints.py:144-157 | reordering or repeating images does not change the blob, up to the limit |
| `ScrapedProduct.BlobSeesOrderAboveLimit` | domain/scrape_fingerprints.py:144-157 | beyond the limit the blob does depend on the order of images |
| `ScrapedProduct.HashIgnoresSpecOrder` | domain/scrape_fingerprints.py:144-158 | reordering raw specs, at any depth, does not change the blob unless keys collide |
| `ContractShape.BreakingIsShapeChange` | application/release/contract_evolution.py:90-110 | a value change is breaking exactly when it changes the nested shape |
| `ContractShape.CompatibleIsEquivalence` | application/release/contract_evolution.py:90-110 | "not breaking" is an equivalence relation on nested values |
| `ContractShape.Flatten` | application/release/contract_evolution.py:76-87 | the loop computes the dotted-path map, later fields overwriting earlier ones |
| `ContractShape.AdditiveIsStrictOrder` | application/release/contract_evolution.py:113-122 | additive change is a strict partial order on all payloads |
| `ContractPaths.FlattenedIsReached` | application/release/contract_evolution.py:76-87 | with plain keys, a flattened key spells a path that reaches its value |
| `ContractPaths.ReachedIsFlattened` | application/release/contract_evolution.py:76-87 | and every reachable value is stored under its dotted path |
| `ContractPaths.DottedUnique` | application/release/contract_evolution.py:81 | with plain keys, different paths have different dotted spellings |
| `ContractPaths.DifferenceShowsAbove` | application/release/contract_evolution.py:101-107 | a difference anywhere below a shared dict is a difference at that dict |
| `ContractPaths.AdditiveIsTopLevelExtension` | application/release/contract_evolution.py:113-122 | with plain keys, a change is additive exactly when it adds whole top-level fields and keeps the shape of all old ones |
| `ContractEvolution.RemovedChanges` | application/release/contract_evolution.py:178-201 | exactly one removal per vanished path, with the severity the policy tables give it |
| `ContractEvolution.AddedAndDrifted` | application/release/contract_evolution.py:203-227 | exactly one addition per new path and one drift per shared path that breaks |
| `ContractEvolution.DetectBehavioralChange` | application/release/contract_evolution.py:125-153 | exactly the lifecycle keys whose values differ, on the surfaces that have them |
| `ContractSemantics.PyEqualIsCanonical` | application/release/contract_evolution.py:140 | two metadata values are equal exactly when their canonical forms are: numbers and truth values by value, lists in order, dicts as maps |
| `ContractSemantics.LifecycleReportedExactly` | application/release/contract_evolution.py:125-153 | a lifecycle key is reported exactly on three surfaces when its value changes, as breaking for the two default event keys and behavioural for the third |
| `ContractSemantics.NewDefaultEventBreaks` | application/release/contract_evolution.py:140-142 | a default event that becomes another text is a breaking change |
| `ContractSemantics.RemovalBreaksByName` | application/release/contract_evolution.py:178-201 | whether a removal breaks depends on the surface and the last name of the path alone, with the full list of names per surface |
| `ContractSemantics.RemovalSeverity` | application/release/contract_evolution.py:178-201 | a reported removal is breaking for those names and a deprecation for all others |
| `ContractSemantics.SeveritiesAreRight` | application/release/contract_evolution.py:178-312 | every reported change has the severity of its kind |
| `ContractEvolution.CollapseShadowRenames` | application/release/contract_evolution.py:266-312 | the result is the changes not consumed by a bridged rename, plus the bridges, each once |
| `ContractEvolution.SuspectedRename` | application/release/contract_evolution.py:235-263 | at most one suspicion, exactly when top-level fields both vanish and appear without a bridge, naming all of them |
| `ContractEvolution.ClassifyContractChange` | application/release/contract_evolution.py:156-232 | an unknown surface is an error; otherwise diff, collapse and suspicion in turn, no change reported twice |
| `ContractTheorems.AdditiveNotionsAgree` | application/release/contract_evolution.py:113-232 | the diff is non-empty and only additive exactly when the payload change is additive and no lifecycle key drifts |
| `ContractTheorems.RemovedSurvivesOrIsBridged` | application/release/contract_evolution.py:266-312 | every removed path is reported or named in a shadow rename |
| `ContractTheorems.AddedSurvivesOrIsBridged` | application/release/contract_evolution.py:266-312 | every added path is reported or named in a shadow rename |
| `ContractTheorems.BridgeIsEarned` | application/release/contract_evolution.py:289-304 | a shadow rename stands for a registered pair that really vanished and really appeared, and replaces both reports |
| `ContractTheorems.BridgeReportedWhen` | application/release/contract_evolution.py:289-304 | a registered rename is reported exactly when its legacy path vanishes and its replacement appears |
| `ContractTheorems.RemovalIsBreakingWhen` | application/release/contract_evolution.py:178-201 | a vanished path is reported as a breaking removal exactly when the tables name it and its registered replacement, if any, is not added |
| `ContractTheorems.LostTitleIsDeprecated` | application/release/contract_evolution.py:178-201 | the concrete input: a product that loses its title yields one deprecation and nothing else |
| `ContractTheorems.RenameReportedWhen` | application/release/contract_evolution.py:235-263 | an unbridged rename is reported exactly on the CRM payload, when a top-level field vanishes, another appears and no registered rename is bridged; it is breaking and names every such field |
| `ContractTheorems.RenameIsBreakingWhen` | application/release/contract_evolution.py:161-169 | a top-level field that goes while another comes is reported as breaking exactly under a condition on the two payloads, the surface and the shadow table |
| `ContractTheorems.BridgeHidesRename` | application/release/contract_evolution.py:235-263 | the concrete input: with one rename bridged, another is reported without any breaking change |
| `ContractTheorems.OthersSurvive` | application/release/contract_evolution.py:266-312 | drift and lifecycle changes are never collapsed away |
| `ContractTheorems.DriftReported` | application/release/contract_evolution.py:216-227 | a shared path whose value changes shape is reported as drift |
| `ContractTheorems.DriftAtEverySharedAncestor` | application/release/contract_evolution.py:76-227 | a value that goes, comes or changes shape deep inside is reported as drift at every shared ancestor |
| `ConcurrencyPolicy.GlobalTotal` | infrastructure/performance/resource_tracker.py:126-138 | the loop computes the sum over all stores, in any order |
| `ConcurrencyPolicy.SumUpdate` | infrastructure/performance/resource_tracker.py:126-138 | changing one store's counter changes the total by the difference |
| `ResourceGovernance.RequestMeta.StripProxyFromMeta` | infrastructure/access/resource_governance.py:37-40 | the proxy goes; the mode is reset only when spelled exactly "proxy" |
| `ResourceGovernance.ResourceTracker.DowngradeRequestMeta` | infrastructure/access/resource_governance.py:76-118 | the loop leaves the meta of at most three downgrades |
| `ResourceGovernance.ResourceTracker.SetRetryableQueueSize` | infrastructure/performance/resource_tracker.py:118-123 | the store's queue size, never below zero, if governance is on |
| `ResourceGovernance.ResourceTracker.ApplyGovernanceToRequestMeta` | infrastructure/access/resource_governance.py:50-160 | the request's meta after at most three downgrades, and whether it is admitted |
| `ResourceGovernance.ResourceTracker.RecordRequestScheduled` | infrastructure/access/resource_governance.py:163-203 | counters and tag after recording; bypassed requests are tagged but not counted |
| `ResourceGovernance.ResourceTracker.ReleaseRequestCounters` | infrastructure/access/resource_governance.py:206-228 | the counters the tag names go down, never below zero |
| `AdmissionProtocol.DowngradeMode` | infrastructure/access/resource_governance.py:76-118 | the mode the downgrade loop settles on, which is plain HTTP for a saturated browser |
| `AdmissionProtocol.MetaAfterApply` | infrastructure/access/resource_governance.py:30-118 | the whole meta of a governed request, from its mode and the counters: browser off and plain, proxy gone, or unchanged |
| `AdmissionProtocol.UngovernedIsAdmitted` | infrastructure/access/resource_governance.py:56-74 | with governance or store budgets off a request is admitted as it is; for a bypassed store it is admitted and marked |
| `AdmissionProtocol.DecisionTells` | application/performance/concurrency_policy.py:24-194 | a refusal names a full counter with its cap, and every decision keeps the mode |
| `AdmissionProtocol.RecordedCounts` | infrastructure/access/resource_governance.py:163-203 | a recorded request counts in exactly the columns its purpose and mode name, unless bypassed |
| `AdmissionProtocol.StoresByTrimmedName` | infrastructure/access/resource_governance.py:62 | counters go by the trimmed store name, blank names sharing one |
| `AdmissionProtocol.SaturationOnlyDowngrades` | infrastructure/access/resource_governance.py:50-160 | a request is admitted exactly when a plain one would be and it is not an oddly spelled proxy request under saturation |
| `AdmissionProtocol.OddSpellingIsRefused` | infrastructure/access/resource_governance.py:37-40 | a concrete request spelled "PROXY" is refused although "proxy" and plain are admitted |
| `AdmissionProtocol.AllowedMeansRoom` | application/performance/concurrency_policy.py:42-93 | the counters admit a request exactly when each one it would raise is strictly below its caps and the retry queue is short |
| `AdmissionProtocol.RecordKeepsExact` | infrastructure/access/resource_governance.py:163-203 | recording a waiting request keeps every counter exact |
| `AdmissionProtocol.FinishKeepsExact` | infrastructure/access/resource_governance.py:206-228 | one release of a recorded request keeps every counter exact |
| `AdmissionProtocol.EveryRunIsExact` | infrastructure/access/resource_governance.py:50-228 | however admitting, recording and releasing interleave, each counter is the number of recorded and unreleased requests with its tag |
| `AdmissionCaps.AdmittedBelowCaps` | application/performance/concurrency_policy.py:24-194 | an admitted request found every counter it will raise strictly below its store and global caps |
| `AdmissionCaps.RecordStaysWithin` | infrastructure/access/resource_governance.py:163-203 | recording moves a request from the waiting ones to the counters, and keeps both together within the caps |
| `AdmissionCaps.NextWithin` | infrastructure/access/resource_governance.py:50-228 | with at most `k` requests waiting, no step gets past an enabled cap by more than `k - 1`, waiting requests included |
| `AdmissionCaps.EveryRunIsSafe` | infrastructure/access/resource_governance.py:50-228 | in every reachable state no enabled per-store or global cap is passed by more than `k - 1` when at most `k` admitted requests wait to be recorded; with one at a time all hold |
| `AdmissionCaps.BoundIsReached` | infrastructure/access/resource_governance.py:120-203 | the bound is tight: for every `k` a run of `k` admissions before the first recording gets `k` requests in where one fits |
| `AdmissionCaps.CapsNeedOneAtATime` | infrastructure/access/resource_governance.py:50-228 | the caps hold in all runs with at most `k` waiting requests exactly when `k` is at most one |
| `PriceNormalization.NormalizePriceTokenIdempotent` | application/normalization/price_normalization.py:34-54 | a token has only digits and at most one dot, never three digits after it, and is its own normal form |
| `PriceNormalization.ResolveDotted` | application/normalization/price_normalization.py:41-51 | when the last separator is a decimal point, for all digit counts |
| `PriceNormalization.GroupedDots` | application/normalization/price_normalization.py:41-51 | dropping the dots of a grouped number leaves its digits |
| `PriceNormalization.PrintedRoundTrip` | application/normalization/price_normalization.py:34-54 | parsing a number printed with any separator and decimals gives its plain spelling exactly when the print is unambiguous |
| `PriceNormalization.PrintedPriceRoundTrip` | application/normalization/price_normalization.py:57-86 | the price read from a printed number is the number itself plus the printed fraction exactly when the print is unambiguous |
| `PriceNormalization.AmbiguousPrice` | application/normalization/price_normalization.py:41-51 | otherwise the decimals are read as more digits, and the price is at least ten times too large |
| `PriceNormalization.ThreeDecimalsAreAGroup` | application/normalization/price_normalization.py:47-51 | the concrete input: "1.234" is read as 1234 |
| `SpecConfidence.ScoreTypedFieldConfidence` | application/extractors/spec_confidence.py:70-148 | the stepwise score is the clamped sum of its hints less the warning penalties, with each code once |
| `SpecConfidence.ScoreMeans` | application/extractors/spec_confidence.py:70-148 | the score is the hints' sum less 0.08 and 0.05 for each mention of two codes, held between 0.35 and 0.98 |
| `SpecConfidence.BetterScoresNoLess` | application/extractors/spec_confidence.py:93-132 | a row with more raising and fewer lowering hints never scores less |
| `SpecConfidence.RowCodesMembers` | application/extractors/spec_confidence.py:88-132 | which codes a row carries |
| `SpecConfidence.MergeFieldConfidences` | application/extractors/spec_confidence.py:151-189 | the merged evidence: best score plus a capped bump, labels, values and codes once each |
| `SpecConfidence.MergedMeans` | application/extractors/spec_confidence.py:151-189 | best score plus 0.04 for each further piece up to 0.12, at most 0.98, with the labels, values and codes of all pieces once each |
| `SpecConfidence.MergedInRange` | application/extractors/spec_confidence.py:151-189 | merging stays in 0.35..0.98 and never falls below the best evidence |
| `SpecResolution.PresentInOrder` | application/extractors/spec_resolution.py:103-105 | candidates without a value are left out and the others keep their order |
| `SpecResolution.PickBestCandidate` | application/extractors/spec_resolution.py:35-80 | the first row of highest score, with the merged confidence of all that supports it, at least its own |
| `SpecResolution.SupportingExactly` | application/extractors/spec_resolution.py:62-66 | what is merged is the score of each compatible and plausible row, once, and of no other |
| `SpecResolution.ClusterMeans` | application/extractors/spec_resolution.py:67-80 | a cluster's confidence from the number and the best of the rows that support its value |
| `SpecResolution.ClusterTells` | application/extractors/spec_resolution.py:67-80 | its reason and its codes |
| `SpecResolution.PlausibleRanges` | application/extractors/spec_conflicts.py:18-33 | the values each field accepts, as ranges of the real number |
| `SpecResolution.RejectedCodes` | application/extractors/spec_resolution.py:217-300 | the codes of rejected rows: implausible without their own warnings, or in conflict with them |
| `SpecResolution.ResolveAgreed` | application/extractors/spec_resolution.py:112-215 | equivalent rows yield the first value without a warning, unless implausible or below the gate |
| `SpecResolution.ResolveCluster` | application/extractors/spec_resolution.py:246-273 | a compatible cluster yields its best row with the conflict warning, unless implausible or below the gate |
| `SpecResolution.ResolveTypedFieldCandidates` | application/extractors/spec_resolution.py:83-302 | which of the outcomes the rows of a field meet, with what warnings, confidences and recorded suppression |
| `SpecResolution.ResolutionIsSound` | application/extractors/spec_resolution.py:83-302 | an emitted value is a plausible candidate with one in-range confidence at the gate; otherwise one suppression lists all values passed over |
| `SpecResolution.ResolutionWarns` | application/extractors/spec_resolution.py:83-302 | each warning says exactly one thing: rows disagree, a value is implausible, or a score is below the gate |
| `SpecResolution.ClusterIsTight` | application/extractors/spec_resolution.py:16-32 | in an accepted cluster of positive whole numbers any two are within a factor 0.9025 |
| `SpecResolution.PairwiseExactly` | application/extractors/spec_resolution.py:16-32 | rows agree pair by pair exactly when the smallest and the largest number do and, if any row is text, all read the same |
| `SpecResolution.LooseClusterIsEmitted` | application/extractors/spec_resolution.py:28-32 | the concrete rows: 100, 95 and 105 are accepted and a value emitted under any switches and any threshold a score can reach, yet 95 and 105 disagree |
| `SpecMapper.ResolveFields` | application/extractors/spec_mapper.py:432-518 | for every field, the emitted value, its confidence and its suppressions are exactly those of its resolution; the conflicting fields and the warnings are exactly those the outcomes call for |
| `SpecMapper.FollowsIsSound` | application/extractors/spec_mapper.py:432-518 | so a field with a value is emitted or suppressed, once and never both, and what is emitted is a plausible candidate of that field |

## Left out

- `RoadmapPlanner.BuildDefaultRoadmapFromGaps`: titles, owners, effort, notes and the goal and criteria texts of phases are not modelled; inputs are taken as already stripped and checked by Pydantic.
- `RoadmapDependencies.BuildRoadmapDependencies`: the texts of reasons are constructors.
- `ProxyPolicy.ProxyPool.BuildProxyMeta`: the pool is given, so reading and caching its file are not modelled; the network policy is a given map of rejections, and limits come in already resolved for the store.
- `ProxyPolicy.ProxyPool.SelectStickyProxy`: one atomic step, so interleavings between its two locked sections are not covered.
- `BanSignalMonitoring.FiresExactly`: assumes a non-decreasing clock and a fixed threshold and window, as the callers keep them; the method itself takes any.
- `ScrapeFingerprints.NormalizeImageUrls`: which URLs are valid is an arbitrary predicate; `urlsplit` and canonicalisation are library behaviour and no idempotence is claimed for them.
- `ScrapedProduct.FromScrapyItem`: the digest is an arbitrary function of the blob; the identity key, timestamps, the raw payload copy and stock coercion are not modelled.
- `ContractEvolution.ClassifyContractChange`: says which changes are reported, each once, but not in which order, and without their note texts; non-string keys and non-JSON values are not modelled.
- `AdmissionCaps.EveryRunIsSafe`: each call is one atomic step, each recorded request is released at most once, settings stay fixed during a run and limits are non-negative; batches and memory are not modelled.
- `ResourceGovernance.ResourceTracker.ApplyGovernanceToRequestMeta`: the budget is a function of the stripped store name, so a budget configured for a store literally named "unknown" is also given to unnamed stores; lower-casing is that of ASCII letters; Playwright callbacks are one flag.
- `PriceNormalization.PrintedPriceRoundTrip`: text is restricted to ASCII digits, whitespace, commas and dots, where none of the word, currency and range patterns match.
- `SpecConfidence.ScoreTypedFieldConfidence`: scores are exact reals, on which rounding to four places changes nothing; unit detection is an arbitrary predicate.
- `SpecResolution.ResolveTypedFieldCandidates`: candidates whose hint list has another length than the candidate list are not modelled.
- `SpecMapper.ResolveFields`: fields are visited in any order, so the order of warnings is not stated, and warnings from before the loop are not modelled; label matching, unit parsing and the final checks across fields are not modelled.
- Logging, metrics, files, databases, queues and spiders: input and output around these cores.
- Lifecycle, replay, rollback, rollout and readiness tables: finite decision tables, each readable from one body.
- Backoff arithmetic, header rotation and performance regression checks: single formulas.
