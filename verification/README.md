# yb-doctor: a verified model of its diagnosis

yb-doctor diagnoses a YugabyteDB universe from one `Snapshot`: it never talks to the
cluster while it reasons. This project models that reasoning in Dafny and proves what its
verdicts mean. It follows the program's own structure:

- **Failure simulator** (`Domain`, `Grouping`, `Resilience`, `ResilienceTheorems`,
  `ResilienceMeaning`, `Poc`). TServers are grouped by zone and region keys, each group is
  lost in turn, and surviving voters are counted against the Raft majority. Proved: what
  decides every verdict, losing more never helps, node and zone verdicts nest, and exactly
  when zone and region verdicts do, fewer than three zones can never survive every zone loss,
  the exact quorum threshold, what each recommendation means, what it takes to pass the
  proof-of-concept checks, and that the tree and the groups lose nobody.
- **Scenario allocator and fault injector** (`Fixture`, `Faults`, `FixtureTheorems`,
  `FixtureGreedy`, `FixtureExact`, `FixtureGap`, `RemapTheorems`, `FaultsMeaning`, `Readback`,
  `Scenarios`). A greedy replica allocator over demand counts, then in-place faults. Proved:
  safety and conservation for arbitrary counts, which replica is chosen where, exactly when
  every tablet is fully replicated, exact realisation when every node holds every tablet, and
  what the analyzers read back: leaders as planned, followers as planned less what the
  allocator left over, and exactly when faults and hot tablets come back as injected.
- **Analyzers** (`Tablets`, `TabletsTheorems`, `TabletsMeaning`, `Raft`, `Findings`,
  `FindingsTheorems`, `FindingsOrder`, `ReportOrder`, `ReportMeaning`). Per-node counts,
  ratios, extremes, hot tablets, findings. Proved: rows add up, totals count every voter once,
  named extremes realise the ratio, exactly when balance is a warning, exactly which findings
  a report has and in which order, two reports of one snapshot differ at most in the order of
  findings of one code and of rows of one name, the score being the same for all weights, and
  exactly when they do not differ at all.
- **Score and diff** (`Score`, `ScoreOrder`, `Diff`, `Watch`). Proved: step-by-step
  clamping equals one closed form that ignores the order of findings; a diff is a minimal
  patch; a watch emits exactly what it analyzed, and whenever it ends without an error it
  returns its last sample with a diff that patches the first one into it.
- **YSQL overlay** (`Overlay`, `OverlayTheorems`). In-place replacement of ids, placements
  and tablets. Proved: what each server and each new tablet ends up with, that new tablets
  refer to the updated ids, and exactly when the references of tablets that are kept stay
  sound.

Three modules (`ResilienceMeaning`, `TabletsMeaning`, `ReportMeaning`) and the lemmas called
`...SpelledOut` or `...Means` say what results are in terms of servers, tablets and peers,
without the specification functions the methods are proved against.

Methods follow the source's loops and in-place updates and are proved equal to, or to
satisfy, specification functions; the lemmas are about those functions. Ranging over a Go
map is an arbitrary choice of the next key, so a deterministic contract is itself the proof
that the result does not depend on the order. Counts are unbounded integers, rates and
ratios are reals, a ratio that the source returns as +Inf is the constructor `Infinite`, and
a lag is a number of nanoseconds.

Nine statements turned out to need a condition the code does not check. Each has an input
that breaks it, and the condition under which it holds:

- A zone key determines the region key exactly if none of the three names contains a dot
  (`DottedNamesCanShareAZone`, `KeyDeterminesRegionIff`); between two placements it is
  enough that cloud and region names are dot-free (`KeyIdentifiesPlacement`).
- A failing zone need not come with a failing region (`ZoneCanFailAlone`). With distinct ids
  it does, whatever the tablets are, exactly if no two alive servers share a zone key but
  not a region key (`NestingIff`).
- Having as many proper leader keys as replicas is not enough for full replication: if the
  empty id is a leader key the fallback lands on it and gives up
  (`EmptyIDSpoilsReplication`, exactly when: `FullReplicationIff`).
- Injected faults are read back for every combination of knobs only from RF 3 on: at RF 2 a
  slow follower can be the very one an under-replicated tablet loses (`FaultsCanCollide`,
  exactly when, for every lag threshold: `FaultsReadBackIff`).
- A plan that names a server by its id and by its name can expand in two ways
  (`ExpansionCanDiffer`). Renamed counts are the same in every map order exactly if keys that
  denote one node agree on its count (`OneRemappingIff`), and then so is the expansion
  (`ExpansionDetermined`).
- A follower demand below full node count can be feasible and still be missed by the greedy
  allocator (`GreedyMissesFeasible`); at full node count it is met exactly if each node wants
  the tablets it does not lead (`ExactRealisationIff`).
- The finding list of a report can show in which order the nodes were visited, and its rows
  in which order namesakes were. All reports of a snapshot are equal exactly if no two nodes
  of its rows share a name, at most one node is backlogged and at most one other has a full
  disk (`ReportDeterminedIff`, whose proof builds the other report).
- The scoring function on its own depends on the order of the findings it is given if some
  weight is negative, which configuration validation does not exclude, and other findings
  can exhaust the score (`NegativeWeightBreaksOrder`, exactly when: `OrderFreeIff`). No
  report's score is affected: findings are sorted by severity and code first
  (`ReportDetermined`).
- An overlay that brings no tablets keeps the old ones, whose peers can then name ids no
  server has any more (`KeptTabletsCanDangle`). Their references stay sound exactly if every
  old id is still the final id of some server (`KeptReferencesIff`).

The recommendation "Current placement tolerates the simulated node and AZ failures" speaks of
nodes and zones only, but where zones lie within regions the code gives it exactly when no
*region* loss fails (`RecommendationMeans`); the model follows the code.

Check with `dafny verify dfyconfig.toml`.

## Model

| member | source | states |
|---|---|---|
| Domain.CollectVotingPeers | internal/domain/tablet.go:27-36 | The loop returns exactly the peers that are not tombstoned, in order. |
| Domain.CheckLeader | internal/domain/tablet.go:39-49 | True exactly when the leader id is set or some voting peer has the leader role. |
| Domain.TServerByID | internal/domain/cluster.go:104-111 | The first listed TServer with the id, or none exactly when no TServer has it. |
| Domain.KeyIdentifiesPlacement | internal/domain/ids.go:92-102 | On dot-free cloud and region names, equal zone keys mean equal placements, "unspecified" included. |
| Domain.RegionKeyIdentifiesRegion | internal/domain/ids.go:105-110 | On dot-free names, equal region keys mean the same cloud and region. |
| Domain.DottedNamesCanShareAZone | internal/domain/ids.go:92-110 | With dots, two placements can share a zone key but not a region key. |
| Domain.KeyDeterminesRegionIff | internal/domain/ids.go:92-110 | Among all placements, a zone key determines the region key exactly if cloud, region and zone are dot-free. |
| Grouping.GroupList | internal/app/resilience.go:167-174 | The groups' keys are the keys of the nodes, and each group is the nodes with that key in input order. |
| Grouping.DistinctKeys | internal/domain/cluster.go:146-173 | The keys in order of first appearance, each once. |
| Grouping.FirstSeenInOrder | internal/domain/cluster.go:146-173 | For any key: if one of the collected keys comes before another, it first appears earlier in the input. |
| Grouping.GroupsPartition | internal/app/resilience.go:163-174 | The groups together are a rearrangement of the nodes, and no two groups share one. |
| Grouping.ZonesCountedOnce | internal/app/resilience.go:110-130 | On dot-free names, counting zone names region by region counts every zone key once. |
| Strings.CollectSorted | internal/app/resilience.go:193-200 | Gathering map keys in any order and sorting them yields the one increasing enumeration of the key set. |
| Strings.LessIsLexicographic | internal/app/resilience.go:193-200 | The order of all sorts is lexicographic: two names agree up to a position where the smaller one ends or has the smaller character. |
| Resilience.EvalFailure | internal/app/resilience.go:69-108 | The failed count is the number of placed tablets whose surviving voters are below the majority; FAIL, PASS or WARN follows from it and from there being tablets at all. |
| ResilienceTheorems.MajorityDecides | internal/app/resilience.go:69-108 | For any lost set, with one status per id: a tablet fails exactly if it has voters and the voters that are neither lost nor on a server that is not up, doubled, do not exceed RF, a negative one counting as zero; the number of these tablets is the failed count, and the verdict is FAIL, PASS or WARN accordingly. |
| Resilience.Recommendation | internal/app/resilience.go:132-161 | The advice depends only on which kinds of simulation fail, node before zone before region, and on there being one region. |
| Resilience.BuildTopologyTree | internal/app/resilience.go:110-130 | Regions by key, zones by name, sorted display names. |
| Resilience.SimulateResilience | internal/app/resilience.go:20-67 | The report holds one simulation per TServer, zone, first zone pair and region, in that order, the tree, and the advice drawn from them. |
| ResilienceTheorems.LosingMoreFailsMore | internal/app/resilience.go:69-108 | A larger lost set never fails fewer tablets. |
| ResilienceTheorems.NodeFailsThenZoneFails | internal/app/resilience.go:24-36 | A node's loss never fails more tablets than its zone's, so a failing node forces a failing zone. |
| ResilienceTheorems.DotFreeZonesNest | internal/domain/ids.go:92-110 | On dot-free cloud and region names no zone key spans two region keys. |
| ResilienceTheorems.ZoneFailsThenRegionFails | internal/app/resilience.go:29-57 | Where no zone key spans two region keys, as on dot-free names, a failing zone forces its region's simulation to fail. |
| ResilienceTheorems.PairPassesThenZonesPass | internal/app/resilience.go:38-47 | A passing zone pair means both zones pass alone. |
| ResilienceTheorems.PairIsTheFirst | internal/app/resilience.go:38-47 | The pair simulation loses the servers of the zones with the two least keys. |
| ResilienceTheorems.FailuresByKind | internal/app/resilience.go:20-57 | A kind of simulation fails in the report exactly when one over the TServers, zones or regions does. |
| ResilienceTheorems.FailuresNest | internal/app/resilience.go:20-67 | Over whole reports: node failure implies zone failure, and where no zone key spans two region keys zone failure implies region failure. |
| ResilienceTheorems.NestingIff | internal/app/resilience.go:29-57 | For distinct ids: zone failures imply region failures in every snapshot of the given servers exactly if no two alive ones share a zone key but not a region key. |
| ResilienceTheorems.ZoneCanFailAlone | internal/domain/ids.go:92-110 | A snapshot with dotted names in which a zone loss fails and no region loss does. |
| ResilienceTheorems.RecommendationMeans | internal/app/resilience.go:132-161 | For every snapshot, exactly when each of the five recommendations is given; where no zone key spans two region keys, as on dot-free names, "tolerates" is given exactly when no region loss fails. |
| ResilienceTheorems.TwoLossesCannotBothKeepQuorum | internal/app/resilience.go:69-90 | If two losses together hit every voter of a tablet with fewer voters than two majorities (at most RF, in particular), one of them breaks its quorum. |
| ResilienceTheorems.AtMostTwoZonesFail | README.md:163-163 | With at most two zones and a placed tablet of fewer voters than two majorities, all on listed servers, some zone simulation fails and the advice is the node or the zone one. |
| ResilienceTheorems.QuorumThreshold | internal/domain/cluster.go:176-181 | On an alive, fully replicated snapshot a loss is survived exactly when no tablet has more than (RF-1)/2 voters in it. |
| ResilienceTheorems.OneReplicaPerZoneTolerates | internal/app/resilience.go:152-153 | RF of three or more with at most one replica per zone survives every node and zone loss. |
| ResilienceTheorems.LowReplicationNeverTolerates | internal/app/resilience.go:150-151 | With RF 1 or 2 the advice is always to add nodes once a tablet with at most RF voters has one on a listed server. |
| ResilienceTheorems.DeadAlreadyLost | internal/app/resilience.go:76-85 | Adding servers known dead to a loss changes no failed count. |
| ResilienceTheorems.DeadNodeSimulation | internal/app/resilience.go:24-27 | With distinct ids, simulating the loss of a dead TServer repeats the failures the cluster already has. |
| ResilienceTheorems.TotalLoss | internal/app/resilience.go:69-90 | Losing every listed server fails exactly the placed tablets. |
| ResilienceTheorems.SingleRegionNeverTolerates | internal/app/resilience.go:154-159 | A single-region snapshot with a placed tablet never gets the "tolerates" advice. |
| ResilienceTheorems.SimulationCount | internal/app/resilience.go:20-57 | The number of simulations from the numbers of TServers, zones and regions. |
| ResilienceMeaning.NodeSimulation | internal/app/resilience.go:24-27 | The i-th simulation loses the i-th server alone, under its display name. |
| ResilienceMeaning.ZoneSimulation | internal/app/resilience.go:28-36 | After them, by key, each zone: titled by the zone name of its first server or else the key, losing exactly the servers with the key, their names sorted. |
| ResilienceMeaning.PairSimulation | internal/app/resilience.go:38-47 | Then, if there are two, the first two zones, titled with both names, losing the one's servers and then the other's. |
| ResilienceMeaning.RegionSimulation | internal/app/resilience.go:49-57 | Last, by key, each region, titled and losing servers likewise. |
| ResilienceTheorems.ZoneSimulationCount | internal/app/resilience.go:29-36 | The report holds exactly one "az" simulation per zone key. |
| ResilienceTheorems.TreeMatchesZoneSimulations | internal/app/resilience.go:110-130 | On dot-free names the tree has exactly as many zone branches as the report has "az" simulations. |
| ResilienceMeaning.TreeSpelledOut | internal/app/resilience.go:110-130 | Each branch is titled by its first server's region and has a twig per zone name, sorted, a nameless one called unspecified, with exactly the sorted names of its servers. |
| ResilienceTheorems.TreeKeepsEveryName | internal/app/resilience.go:110-130 | The tree shows each display name exactly as often as the snapshot. |
| Fixture.ScanDemand | internal/adapter/outbound/fixture/collector.go:154-164 | Whatever order the demand map is ranged over, the scan returns the candidate with the greatest remaining demand, the smallest id breaking ties. |
| Fixture.BestUnique | internal/adapter/outbound/fixture/collector.go:160-163 | That candidate is unique. |
| Fixture.PickReplicas | internal/adapter/outbound/fixture/collector.go:152-178 | The inner loop terminates with the greedy picks and the demand they leave. |
| FixtureGreedy.GreedyChoice | internal/adapter/outbound/fixture/collector.go:152-178 | Read off the tablets: every follower peer is the free id with the most planned followers left, the smallest among equals, or, if no free id has any left or the empty one has the most, the least free leader key. |
| FixtureGreedy.StopsShort | internal/adapter/outbound/fixture/collector.go:165-175 | A tablet has fewer than rf peers only if that choice comes to nothing: no leader key is free, or the least free one is the empty id. |
| Fixture.ExpandTablets | internal/adapter/outbound/fixture/collector.go:134-195 | The tablets are a function of the counts alone, so independent of map order. |
| FixtureTheorems.AllocatorIsSafe | internal/adapter/outbound/fixture/collector.go:151-193 | For arbitrary counts: peers pairwise distinct, exactly the first one leads and is the leader id, at most rf of them. |
| FixtureTheorems.ReplicasArePlanned | internal/adapter/outbound/fixture/collector.go:146-178 | For arbitrary counts, replicas are only placed on ids that the leader or the follower counts name. |
| FixtureTheorems.LeadersAsPlanned | internal/adapter/outbound/fixture/collector.go:135-145 | Every node leads exactly max(0, planned) tablets. |
| FixtureTheorems.LeadersInOrder | internal/adapter/outbound/fixture/collector.go:139-151 | Tablets come in the order of their leaders' ids. |
| FixtureTheorems.TabletNamesDiffer | internal/adapter/outbound/fixture/collector.go:187-188 | A tablet's name is t and at least four digits spelling its position, so names never clash. |
| FixtureTheorems.DemandConserved | internal/adapter/outbound/fixture/collector.go:146-178 | Per node, planned followers less what remains equals the follower peers placed on it. |
| FixtureTheorems.RemaindersCancel | internal/adapter/outbound/fixture/collector.go:146-178 | If the plan adds up and every tablet reaches rf, the remainders sum to zero. |
| FixtureExact.FullReplicationIff | internal/adapter/outbound/fixture/collector.go:165-175 | Every tablet gets rf peers for every follower plan exactly when there are enough leader keys and the empty id cannot stop the fallback. |
| FixtureExact.EmptyIDSpoilsReplication | internal/adapter/outbound/fixture/collector.go:165-175 | Three proper leader keys and RF 3 do not suffice if the empty id is a key too. |
| FixtureExact.CompleteDemandRealised | internal/adapter/outbound/fixture/collector.go:134-195 | If each node's demand is the tablets it does not lead and rf is the node count, every tablet is on every node, no demand is left or overdrawn, and the fallback is never needed. |
| FixtureExact.ExactRealisationIff | internal/adapter/outbound/fixture/collector.go:134-195 | With rf the node count and no demand elsewhere, the plan is realised exactly if and only if each node wants precisely the tablets it does not lead. |
| FixtureExact.BalancedCountsAreRealised | internal/adapter/outbound/fixture/collector.go:121-132 | The default counts are such a demand whenever rf is the node count, for every number of tablets. |
| FixtureExact.DefaultCountsReplicate | internal/adapter/outbound/fixture/collector.go:121-195 | At any rf up to the node count and the tablet count, default counts give every tablet rf replicas, and overdrawn and left-over demand cancel. |
| FixtureGap.GreedyMissesFeasible | internal/adapter/outbound/fixture/collector.go:152-178 | Three nodes, one lead and one follower planned on each, RF 2: placements that meet the demand exist, but the allocator overdraws the first node and leaves the last one's demand over. |
| Faults.BalancedCounts | internal/adapter/outbound/fixture/collector.go:121-132 | The round-robin leader and follower counts. |
| FaultsMeaning.DefaultCountsMean | internal/adapter/outbound/fixture/collector.go:121-132 | By default, nine tablets and RF three: an id leads as many tablets i as node i mod n has it, and follows as many pairs of a tablet i and a place r below RF as node i+r mod n has it, for every number of nodes. |
| Faults.RemapCounts | internal/adapter/outbound/fixture/collector.go:109-119 | Every planned key's node gets the count of some key that denotes it, and no other node gets one. |
| FaultsMeaning.RenamedCountsLand | internal/adapter/outbound/fixture/collector.go:85-119 | A planned count that no other contradicts reaches the last server with that name, or with that host and no name, and otherwise the id the key spells. |
| RemapTheorems.OneRemappingIff | internal/adapter/outbound/fixture/collector.go:109-119 | Over all visiting orders the counts have one remapping exactly if keys that denote one node agree on its count; equal counts may collide. |
| RemapTheorems.ExpansionDetermined | internal/adapter/outbound/fixture/collector.go:76-107 | If the planned counts agree in that sense, or no leaders are planned, a plan always expands to the same tablets. |
| RemapTheorems.ExpansionCanDiffer | internal/adapter/outbound/fixture/collector.go:76-119 | A plan for one server, counted by its id and by its name, with an expansion of one tablet and one of two. |
| Faults.ApplyFaults | internal/adapter/outbound/fixture/collector.go:197-225 | In place, each tablet becomes what the four knobs make of it, the slow budget being spent on the first tablets that have a follower. |
| FaultsMeaning.FaultsSpelledOut | internal/adapter/outbound/fixture/collector.go:197-225 | For arbitrary tablets, field by field and peer by peer: what the four knobs change and what they leave, including which tablets use up the slow budget. |
| Faults.Expand | internal/adapter/outbound/fixture/collector.go:76-107 | Error without TServers; otherwise the allocator's tablets, from the remapped or the default counts, with the faults applied. |
| Readback.PlanReadsBack | internal/app/tablets.go:31-48 | In the rows of the tablet analyzer every TServer appears, and every row holds its node's leaders as planned and its followers as planned less the remainder. |
| Readback.CompletePlanReadsBack | internal/app/tablets.go:31-48 | With a complete demand the rows of the nodes hold both counts exactly as planned, and every tablet. |
| Readback.FaultsReadBack | internal/app/raft.go:8-33 | Leaderless, under-replicated and slow counts equal the capped knobs, with the exact loss at RF 1 and 2 and at lag thresholds the injected lag misses, for all combinations. |
| Readback.FaultsReadBackIff | internal/adapter/outbound/fixture/collector.go:197-225 | If the leader counts allow full replication, all three come back as injected exactly when the lag threshold notices slow followers or none was asked for, and RF is at least three or the colliding knobs reach no tablet. |
| Readback.FaultsCanCollide | internal/adapter/outbound/fixture/collector.go:197-225 | Two servers at RF 2 without counts, one slow follower and one under-replicated tablet asked for: nine tablets placed in full, one read back under-replicated, none slow. |
| Readback.HotTabletsReadBack | internal/app/tablets.go:90-101 | For every plan and every ratio, the hot tablets are counted exactly if their rate reaches ratio times the average, and the others exactly if theirs does. |
| Readback.HotTabletsAtDefaultRatio | internal/app/tablets.go:90-101 | For every plan, and at ratio 3, h injected hot tablets of T come back as h exactly when 250 h <= 83 T, else as none. |
| Scenarios.HealthyScenario | README.md:160-160 | Default counts at RF three to nine over alive servers, one per zone and at least as many as replicas: node and zone losses pass, and with a single region the region loss fails. |
| Scenarios.AZFailureScenario | README.md:163-163 | A default expansion over at most two zones cannot survive losing one, for any servers, RF and fault knobs. |
| Raft.CountIDsOr | internal/app/tablets.go:215-226 | A collected id list wins; otherwise the number of tablets with the property. |
| Raft.AnalyzeRaft | internal/app/raft.go:8-33 | The four replication counts. |
| TabletsMeaning.ReplicationCountsMean | internal/app/raft.go:8-33 | In both summaries: without a collected list, the counts are of tablets with voters but fewer than RF, and with voters but neither a leader id nor a voting leader. |
| TabletsMeaning.PeerCountsMean | internal/app/raft.go:14-31 | Failed peers are those failed or tombstoned, slow ones the followers whose lag reaches a positive threshold, each counted once. |
| Tablets.CountReplicas | internal/app/tablets.go:13-48 | One row per listed id and per unlisted peer id in order of appearance, each with its own leader, follower and total counts; and the sum of operations. |
| Tablets.MaxMinRatio | internal/app/tablets.go:156-179 | First maximum, first minimum and their quotient, infinite for a non-positive minimum unless all is zero. |
| Tablets.ExtremeAliveNames | internal/app/tablets.go:122-154 | The names of the first alive nodes with the most and the fewest, or empty names if no alive node has a row. |
| Tablets.SSTSkew | internal/app/tablets.go:181-213 | The same over SST bytes of at least two alive nodes. |
| Tablets.CountHotTablets | internal/app/tablets.go:90-101 | The tablets at or above ratio times the average rate, none if the average is not positive. |
| Tablets.AnalyzeTablets | internal/app/tablets.go:12-120 | Every field of the summary; the rows up to the order of equal names. |
| TabletsMeaning.ImbalanceMeans | internal/app/tablets.go:72-81 | With distinct ids: leaders, and tablets, are unbalanced at a bound above one exactly if a server that is up has some, and at least bound times those of another; at a bound of at most one exactly if two servers are up. |
| TabletsMeaning.SSTImbalanceMeans | internal/app/tablets.go:83-88 | The same for SST bytes of servers with display names; at a bound of at most one exactly if one server has more than another. |
| TabletsMeaning.SkewRealises | internal/app/tablets.go:181-213 | With two servers up, the SST extremes are named after servers with the most and the fewest bytes, and the ratio is their exact quotient. |
| TabletsMeaning.HotTabletsMean | internal/app/tablets.go:90-101 | For arbitrary rates: if they sum to more than zero, the tablets whose rate times their number reaches ratio times the sum, else none. |
| TabletsMeaning.LeadersAreTabletsLed | internal/app/tablets.go:41-46 | With at most one peer of a tablet per server, a row's leaders are the tablets with a voter there that leads by role or by leader id. |
| TabletsMeaning.RowsMean | internal/app/tablets.go:50-71 | Rows are sorted by name; a listed server's row bears its name or else its host, any other its id, with the storage figures reported under that name. |
| TabletsTheorems.RowsAddUp | internal/app/tablets.go:41-46 | In every row leaders and followers add up to the total. |
| TabletsTheorems.TotalsCountEveryVoter | internal/app/tablets.go:31-63 | With distinct ids the totals of the rows add up to all voting peers, unlisted servers included. |
| TabletsTheorems.NoForeignRows | internal/app/tablets.go:34-40 | If all voting peers are on listed servers there is one row per TServer and no other. |
| TabletsTheorems.ExtremesRealiseRatio | internal/app/tablets.go:50-88 | With distinct ids and an alive node, for leaders and for tablets: the named extremes are alive, are the first to attain the extreme counts, and the ratio is their exact quotient. |
| TabletsTheorems.HotTabletsAreFew | internal/app/tablets.go:90-101 | With non-negative rates, hot tablets times the ratio never exceed the tablets. |
| Score.ScoreReport | internal/app/score.go:8-61 | The score is the clamped deductions in order, and never negative. |
| Score.ScoreClosedForm | internal/app/score.go:8-61 | With non-negative weights it equals one clamped subtraction: capped raft points, each code once, compaction and disk once per finding. |
| Score.ScoreSpelledOut | internal/app/score.go:8-61 | The closed form in full: start less the least of each raft product and its cap (the slow one only under a positive cap), less each code's points if present, compaction and disk per finding, never below zero. |
| Score.ScoreInRange | internal/app/score.go:10-15 | Then it lies between zero and the start. |
| Score.ScoreIgnoresOrder | internal/app/score.go:35-59 | Then it is the same for every order of the findings it is given. |
| Score.NegativeWeightBreaksOrder | internal/app/score.go:35-59 | Given to the scoring function unsorted, two orders of the same findings can score differently if a weight is negative. |
| ScoreOrder.OrderFreeIff | internal/app/score.go:10-59 | For arbitrary weights, the scoring function ignores order exactly if no finding adds points, or findings cannot exhaust what the raft deductions left. |
| Score.MoreFindingsScoreLess | internal/app/score.go:35-59 | Adding findings never raises the score. |
| Score.WorseRaftScoresLess | internal/app/score.go:17-33 | Raising any raft count never raises the score. |
| Findings.AnalyzePerformance | internal/app/findings.go:12-35 | The backlogged nodes in order and the pressure they amount to, whatever the map order. |
| ReportMeaning.PerformanceMeans | internal/app/findings.go:12-46 | The nodes listed are, in order, those with the threshold of pending bytes and the required share of any SST bytes; the pressure names a single one. |
| Findings.CollectFindings | internal/app/findings.go:47-245 | The cluster findings in order, then the per-node ones in some order of the nodes, then latency and region. |
| ReportMeaning.ReportedExactly | internal/app/findings.go:47-245 | A report has exactly these findings: thirteen kinds, each with its condition on the snapshot and summaries, its severity and the node it names. |
| ReportMeaning.ReportedOnce | internal/app/findings.go:47-245 | No finding is in a report twice. |
| Findings.SortFindings | internal/app/service.go:84-97 | A rearrangement sorted by severity and code, stable within each. |
| ReportMeaning.ReportSorted | internal/app/service.go:84-97 | In every report, whatever precedes a High finding is High, whatever follows a Low one is Low, and findings of equal severity are in the order of their codes. |
| Findings.AnalyzeSnapshot | internal/app/service.go:49-67 | The report's parts and its score, which is that of its sorted findings. |
| ReportMeaning.TopologyMeans | internal/app/service.go:69-82 | The topology counts the healthy masters and the servers that are up, and lists exactly the region and zone keys of the servers, each once. |
| FindingsTheorems.RebuiltExtremes | internal/app/findings.go:247-254 | Extremes found from the map rebuilt from the rows are those of the original statistics. |
| FindingsTheorems.BlameRealisesRatio | internal/app/findings.go:124-128 | With distinct ids and an alive node, a tablet imbalance is blamed on an alive node with the most tablets, and the tablet ratio is the exact quotient of the most and the fewest. |
| FindingsTheorems.SummaryDetermined | internal/app/tablets.go:12-120 | Two tablet summaries of one snapshot differ at most in the order of rows. |
| FindingsTheorems.ReportDetermined | internal/app/service.go:49-67 | Two reports of one snapshot, for arbitrary weights: the findings are the same bag and agree on severity and code at every position, the rows are the same bag, and everything else is equal, the score included. |
| FindingsOrder.FindingsDeterminedIff | internal/app/findings.go:174-211 | All reports of a snapshot list the same findings in the same order exactly if at most one node is backlogged and at most one other has a full disk. |
| ReportOrder.ReportDeterminedIff | internal/app/service.go:49-67 | All reports of a snapshot are equal exactly if, besides, no two nodes of its rows share a name. |
| FindingsTheorems.CompactionFindingsMatchSummary | internal/app/findings.go:174-211 | A report has exactly one compaction finding per node listed in its performance summary. |
| Diff.FindingDelta | internal/app/diff.go:40-62 | The codes that appeared and those that went away, each in increasing order. |
| Diff.LeaderDeltas | internal/app/diff.go:64-99 | The changed leader counts by name in order, an absent name counting zero and the last duplicate winning. |
| Diff.LastRowLeads | internal/app/diff.go:64-99 | Of rows with one name the last gives the leader count. |
| Diff.DiffReports | internal/app/diff.go:11-34 | Nothing if a report is missing, else the full comparison. |
| Diff.DiffIsPatch | internal/app/diff.go:40-99 | The diff carries the earlier codes and leader table exactly to the later ones, and its other entries are the figures of the two reports. |
| Diff.DiffIsMinimal | internal/app/diff.go:59-98 | Outputs are strictly sorted and list only changes, each with its true ends. |
| Diff.DiffSwaps | internal/app/diff.go:11-99 | Diffing the other way swaps added with removed and the two ends of every change. |
| Diff.DiffEmptyIff | internal/app/diff.go:40-99 | Nothing is listed exactly when codes and leader tables agree. |
| Watch.RunLoop | internal/app/watch.go:27-54 | For every interleaving of events: where the loop ends, its last sample, and that it emits exactly the analyzed samples in order. |
| Watch.WatchFrom | internal/app/watch.go:27-54 | What the watch returns in each case, and that it writes to its last sample only, and only its diff against the first. |
| Watch.WatchAnalyze | internal/app/watch.go:14-55 | The whole call, with its early errors; whoever gets no error gets a last sample whose written diff patches the first sample into it. |
| Watch.EmittedGrows | internal/app/watch.go:47-52 | What has been emitted stays, whatever events follow, and nothing follows an end. |
| Watch.LastSampleIs | internal/app/watch.go:39-52 | The last sample is that of the last event that analyzed one, else the first sample, wherever the watch stops. |
| Watch.RunSpelledOut | internal/app/watch.go:31-54 | The loop ends at the first event that is not a tick analyzed and, if emitting, emitted; its samples are those of the ticks up to there, in order. |
| Watch.EndSpelledOut | internal/app/watch.go:31-54 | By the kind of that event: which error is returned or none, always with the last sample, and when the diff is written. |
| Watch.OrderlyRun | internal/app/watch.go:27-54 | Whenever a watch ends without an error: how it ended, all earlier events were successful ticks, it returns the last one's sample with a written diff that patches the first sample into it, and with no successful tick it returns the first sample and the diff lists nothing. |
| Overlay.HostOfAddr | internal/adapter/outbound/yugabyte/ysql.go:119-125 | The address up to its first colon. |
| Overlay.HostOfCuts | internal/adapter/outbound/yugabyte/ysql.go:119-125 | The host is a prefix without a colon, and what follows it, if anything, starts with one. |
| Overlay.BuildTablet | internal/adapter/outbound/yugabyte/ysql.go:86-112 | The peers and the leader id of one metadata row. |
| OverlayTheorems.RowSpelledOut | internal/adapter/outbound/yugabyte/ysql.go:86-112 | For every row: a peer per replica in order with its id, role and state, and the leader id, in terms of hosts. |
| OverlayTheorems.RowsInOrder | internal/adapter/outbound/yugabyte/ysql.go:83-117 | The new tablets are those of the rows with replicas, in their order. |
| OverlayTheorems.HostStandsFor | internal/adapter/outbound/yugabyte/ysql.go:57-70 | A host stands for the last UUID a row reports for it, else for the last server with that host or name, else for nothing. |
| Overlay.LiveSnapshot.OverlayServer | internal/adapter/outbound/yugabyte/ysql.go:70-80 | Every matching TServer, and no other, takes the row's UUID and, lacking a region, its placement. |
| Overlay.LiveSnapshot.OverlayYSQL | internal/adapter/outbound/yugabyte/ysql.go:57-117 | The snapshot's servers and tablets after an overlay; tablets are kept if no row has replicas. |
| OverlayTheorems.ServerOutcome | internal/adapter/outbound/yugabyte/ysql.go:66-81 | A server ends with the last UUID and, if it had no region, the first placement reported for it; host, name and status stay. |
| OverlayTheorems.ServerSpelledOut | internal/adapter/outbound/yugabyte/ysql.go:66-81 | In terms of rows that name the server by host or name: the last with a UUID gives its id, the first with a region its placement if it had none. |
| OverlayTheorems.ReplicasFollowServers | internal/adapter/outbound/yugabyte/ysql.go:93-98 | With servers named by distinct hosts, a replica on a known host carries that server's updated id. |
| OverlayTheorems.LeadersAgree | internal/adapter/outbound/yugabyte/ysql.go:90-111 | For every row: all leader peers share one id, the tablet's leader id, and there is one exactly when a replica is on the leader's host. |
| OverlayTheorems.OverlayAddsNoRows | internal/app/tablets.go:34-40 | If all replica hosts are known, the tablet analyzer adds no row outside the TServers. |
| OverlayTheorems.KeptReferencesIff | internal/adapter/outbound/yugabyte/ysql.go:66-84 | If the rows bring no tablets: whatever tablets referred to listed servers, the kept ones still do, exactly when every old id is the final id of some server. |
| OverlayTheorems.KeptTabletsCanDangle | internal/adapter/outbound/yugabyte/ysql.go:82-84 | A sound snapshot and an overlay without tablets that leaves a tablet naming an id no server has any more. |
| Poc.SimKindPassed | internal/app/poc.go:115-130 | Passed exactly when the kind was simulated and none failed, with the first failing reason otherwise. |
| Poc.BuildPOC | internal/app/poc.go:21-105 | The checks the criteria ask for, in order, how many pass, and the nodes, regions, zones and RF they were about. |
| Poc.ReadyIff | internal/app/poc.go:21-105 | Some check fails exactly if a hard criterion is missed, some warns exactly if a soft one is, and all pass exactly if neither is. |
| Poc.HardCriteriaAnswered | internal/app/poc.go:27-43 | Size and failure criteria are answered under their own names by Pass or Fail, those not asked not at all. |
| Poc.LoadCriteriaAnswered | internal/app/poc.go:45-85 | Likewise the balance criteria, and latency and throughput by Pass or Warn. |
| Poc.DefaultBar | internal/domain/resilience.go:59-72 | What it takes, in numbers, to pass all checks of unnamed criteria. |
| Poc.KindsPresent | internal/app/poc.go:115-130 | A report has node and zone simulations exactly when the snapshot has TServers. |
| Poc.AZCheckImpliesNodeCheck | internal/app/poc.go:36-43 | A passing AZ check implies a passing node check. |
| Poc.AZCheckNeedsThreeZones | internal/app/poc.go:30-43 | With a placed tablet of fewer voters than two majorities, on listed servers, the AZ failure check can only pass with at least three zones. |
| Poc.OneReplicaPerZonePassesChecks | internal/app/poc.go:36-43 | The recommended placement passes both failure checks. |
| Poc.TwoZonesNeverReady | internal/app/poc.go:87-104 | At most two zones fail the AZ check, so not all criteria pass, whatever the rest of the report says. |

## Left out

- HTTP, pgx and TLS code, timeouts, concurrent collection and JSON or TOML decoding: input and output.
- Prometheus parsing, the CLI, text rendering, logging and the explain catalog: text.
- Titles, summaries, evidence and gflag lines of findings, table names, workload and placement blocks: carried along unread; a finding is its severity, code and node.
- Configuration loading and validation: only the thresholds and the scoring table are read, and any values are allowed unless a lemma says otherwise.
- IEEE-754 rounding and integer overflow: ratios and rates are exact reals, counts are unbounded.
- Aliasing of Go slices: the injector rewrites an array of tablets in place, but the peers of one tablet are a value; likewise the servers and tablets of a snapshot under overlay are sequence-valued fields, and the nil snapshot is not modelled.
- Faults.RemapCounts: when planned keys that denote one node disagree on its count the result depends on map order, and the contract leaves the winner open.
- Tablets.AnalyzeTablets: the row sort is not stable in the source, so the order of rows with equal names is left open.
- Poc.BuildPOC: the details of the checks, the workload and the result line are text; the reason of a failing simulation is read by Poc.SimKindPassed.
- Diff.DiffReports: the "healthy/total" strings are kept as pairs of numbers.
- Watch.WatchAnalyze: a run is a finite list of events, so a watch that has not ended yet is reported as running; the ticker's clock is not modelled.
- Which feasible follower demands below full node count the greedy allocator meets: not all of them, and no condition simpler than running it is given.
