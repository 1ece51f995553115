/** Turning the summaries into findings, ordering them, and the whole health report. */
module Findings {
  import opened Counting
  import opened Strings
  import opened StableSort
  import opened Domain
  import opened Config
  import opened Grouping
  import opened Raft
  import opened Tablets
  import opened Score

  // ----- performance

  datatype Pressure = NoPressure | HighOn(node: string) | HighOnSeveral

  datatype PerformanceSummary = PerformanceSummary(
    p99YSQLMS: real, hotTablets: nat, compactionPressure: Pressure, compactionNodes: seq<string>)

  /** A large backlog, unless the node's data dwarfs it. */
  predicate CompactionBacklog(rt: NodeRuntime, th: Thresholds) {
    && rt.pendingCompactionBytes >= th.compactionHighBytes
    && (rt.sstFileBytes <= 0 || rt.pendingCompactionBytes as real / rt.sstFileBytes as real >= th.compactionSSTRatio)
  }

  function BackloggedNodes(snap: Snapshot, th: Thresholds): set<string> {
    set name | name in snap.performance.nodes && CompactionBacklog(snap.performance.nodes[name], th)
  }

  ghost function PerformanceOf(snap: Snapshot, th: Thresholds): PerformanceSummary {
    var nodes := SortedSet(BackloggedNodes(snap, th));
    PerformanceSummary(
      snap.performance.p99YSQLMS, 0,
      if |nodes| == 0 then NoPressure else if |nodes| == 1 then HighOn(nodes[0]) else HighOnSeveral,
      nodes)
  }

  method AnalyzePerformance(snap: Snapshot, th: Thresholds) returns (perf: PerformanceSummary)
    ensures perf == PerformanceOf(snap, th)
  {
    var backlogged: set<string> := {};
    var pressure := NoPressure;
    var left := snap.performance.nodes.Keys;
    while left != {}
      invariant left <= snap.performance.nodes.Keys
      invariant backlogged == set name | name in BackloggedNodes(snap, th) && name !in left
      invariant backlogged == {} ==> pressure == NoPressure
      decreases |left|
    {
      var name :| name in left;
      left := left - {name};
      if CompactionBacklog(snap.performance.nodes[name], th) {
        backlogged := backlogged + {name};
        pressure := HighOnSeveral;
      }
    }
    assert backlogged == BackloggedNodes(snap, th);
    var nodes := CollectSorted(backlogged);
    if |nodes| == 1 {
      pressure := HighOn(nodes[0]);
    } else if |nodes| > 1 {
      pressure := HighOnSeveral;
    } else {
      assert backlogged == {};
    }
    perf := PerformanceSummary(snap.performance.p99YSQLMS, 0, pressure, nodes);
  }

  // ----- rebuilding the statistics from the rows

  function StatsFromRows(rows: seq<NodeTabletStats>): StatsMap {
    if rows == [] then map[]
    else StatsFromRows(rows[..|rows| - 1])[rows[|rows| - 1].nodeID := rows[|rows| - 1]]
  }

  method NodeStats(rows: seq<NodeTabletStats>) returns (out: StatsMap)
    ensures out == StatsFromRows(rows)
  {
    out := map[];
    for i := 0 to |rows|
      invariant out == StatsFromRows(rows[..i])
    {
      assert rows[..i + 1][..i] == rows[..i];
      out := out[rows[i].nodeID := rows[i]];
    }
    assert rows[..|rows|] == rows;
  }

  // ----- the findings

  function IsDown(): TServer -> bool {
    (ts: TServer) => !ts.Alive()
  }

  predicate MasterQuorumLost(snap: Snapshot) {
    |snap.masters| > 0 && CountIf(snap.masters, IsHealthy()) < |snap.masters| / 2 + 1
  }

  function AvailabilityFindingsFor(dead: bool, quorumLost: bool, raft: RaftSummary): seq<Finding> {
    var urgent := raft.underReplicated > 10 || dead;
    When(dead, Finding(High, DEAD_TSERVER, "")) +
    When(quorumLost, Finding(High, MASTER_QUORUM, "")) +
    When(raft.leaderless > 0, Finding(High, LEADERLESS, "")) +
    When(raft.underReplicated > 0, Finding(if urgent then High else Medium, UNDER_REPLICATED, ""))
  }

  function AvailabilityFindings(snap: Snapshot, raft: RaftSummary): seq<Finding> {
    AvailabilityFindingsFor(CountIf(snap.tservers, IsDown()) > 0, MasterQuorumLost(snap), raft)
  }

  /** hot is the node blamed for tablet imbalance. */
  function BalanceFindings(sum: TabletSummary, raft: RaftSummary, hot: string): seq<Finding> {
    When(sum.leaderImbalance == Warn, Finding(Medium, LEADER_IMBALANCE, sum.hottestNode)) +
    When(sum.tabletImbalance == Warn, Finding(Medium, TABLET_IMBALANCE, hot)) +
    When(sum.sstImbalance == Warn, Finding(Medium, SST_IMBALANCE, sum.sstHottestNode)) +
    When(sum.hotTablets > 0, Finding(Medium, HOT_TABLETS, "")) +
    When(raft.slowFollowers > 0, Finding(Low, SLOW_FOLLOWERS, ""))
  }

  /** The findings before the per-node ones. */
  function FirstFindings(snap: Snapshot, sum: TabletSummary, raft: RaftSummary, hot: string): seq<Finding> {
    AvailabilityFindings(snap, raft) + BalanceFindings(sum, raft, hot)
  }

  function LastFindings(snap: Snapshot, th: Thresholds): seq<Finding> {
    var p99 := snap.performance.p99YSQLMS;
    When(p99 > 0.0 && p99 > th.p99WarnMS, Finding(Medium, P99_LATENCY, "")) +
    When(|FirstSeen(snap.tservers, RegionKey())| == 1 && |snap.tservers| > 0, Finding(Low, SINGLE_REGION, ""))
  }

  /** A node gets a compaction finding, or else a disk finding, or none. */
  function NodeFindings(name: string, rt: NodeRuntime, th: Thresholds): seq<Finding> {
    if CompactionBacklog(rt, th) then [Finding(High, COMPACTION_PRESSURE, name)]
    else if rt.diskPercent >= th.diskHighPercent then [Finding(High, DISK_PRESSURE, name)]
    else []
  }

  function NodeFindingsIn(order: seq<string>, nodes: map<string, NodeRuntime>, th: Thresholds): seq<Finding>
    requires forall name :: name in order ==> name in nodes
  {
    if order == [] then []
    else
      var n := |order| - 1;
      NodeFindingsIn(order[..n], nodes, th) + NodeFindings(order[n], nodes[order[n]], th)
  }

  ghost predicate Enumerates(order: seq<string>, keys: set<string>) {
    Distinct(order) && forall k :: k in order <==> k in keys
  }

  ghost predicate BlamesFor(snap: Snapshot, sum: TabletSummary, hot: string) {
    exists h, c :: IsExtremes(snap.tservers, StatsFromRows(sum.perNode), false, h, c) &&
                   hot == (if h == "" then sum.hottestNode else h)
  }

  ghost predicate FindingsInOrder(snap: Snapshot, sum: TabletSummary, raft: RaftSummary, th: Thresholds,
                                  findings: seq<Finding>, order: seq<string>, hot: string) {
    && Enumerates(order, snap.performance.nodes.Keys)
    && BlamesFor(snap, sum, hot)
    && findings == FirstFindings(snap, sum, raft, hot)
                   + NodeFindingsIn(order, snap.performance.nodes, th)
                   + LastFindings(snap, th)
  }

  /** What collecting may return: the per-node findings come in any order of the nodes. */
  ghost predicate IsFindings(snap: Snapshot, sum: TabletSummary, raft: RaftSummary, th: Thresholds,
                             findings: seq<Finding>)
  {
    exists order, hot :: FindingsInOrder(snap, sum, raft, th, findings, order, hot)
  }

  lemma EnumerateNext(order: seq<string>, keys: set<string>, name: string)
    requires Enumerates(order, keys) && name !in keys
    ensures Enumerates(order + [name], keys + {name})
  {
  }

  lemma NodeFindingsNext(order: seq<string>, name: string, nodes: map<string, NodeRuntime>, th: Thresholds)
    requires name in nodes && forall k :: k in order ==> k in nodes
    ensures NodeFindingsIn(order + [name], nodes, th) ==
            NodeFindingsIn(order, nodes, th) + NodeFindings(name, nodes[name], th)
  {
    assert (order + [name])[..|order|] == order;
  }

  method CollectNodeFindings(nodes: map<string, NodeRuntime>, th: Thresholds) returns (findings: seq<Finding>)
    ensures exists order :: Enumerates(order, nodes.Keys) && findings == NodeFindingsIn(order, nodes, th)
  {
    findings := [];
    ghost var order: seq<string> := [];
    var left := nodes.Keys;
    while left != {}
      invariant left <= nodes.Keys
      invariant Enumerates(order, nodes.Keys - left)
      invariant findings == NodeFindingsIn(order, nodes, th)
      decreases |left|
    {
      var name :| name in left;
      EnumerateNext(order, nodes.Keys - left, name);
      NodeFindingsNext(order, name, nodes, th);
      assert nodes.Keys - left + {name} == nodes.Keys - (left - {name});
      left := left - {name};
      order := order + [name];
      var rt := nodes[name];
      if CompactionBacklog(rt, th) {
        findings := findings + [Finding(High, COMPACTION_PRESSURE, name)];
        continue;
      }
      if rt.diskPercent >= th.diskHighPercent {
        findings := findings + [Finding(High, DISK_PRESSURE, name)];
      }
    }
    assert nodes.Keys - left == nodes.Keys;
  }

  method CountDead(snap: Snapshot) returns (dead: nat)
    ensures dead == CountIf(snap.tservers, IsDown())
  {
    dead := 0;
    for i := 0 to |snap.tservers|
      invariant dead == CountIf(snap.tservers[..i], IsDown())
    {
      CountStep(snap.tservers, IsDown(), i);
      if !snap.tservers[i].Alive() {
        dead := dead + 1;
      }
    }
    assert snap.tservers[..|snap.tservers|] == snap.tservers;
  }

  method AppendWhen(findings: seq<Finding>, on: bool, f: Finding) returns (out: seq<Finding>)
    ensures out == findings + When(on, f)
  {
    out := findings;
    if on {
      out := out + [f];
    }
  }

  method CollectAvailabilityFor(dead: bool, quorumLost: bool, raft: RaftSummary) returns (findings: seq<Finding>)
    ensures findings == AvailabilityFindingsFor(dead, quorumLost, raft)
  {
    findings := AppendWhen([], dead, Finding(High, DEAD_TSERVER, ""));
    findings := AppendWhen(findings, quorumLost, Finding(High, MASTER_QUORUM, ""));
    findings := AppendWhen(findings, raft.leaderless > 0, Finding(High, LEADERLESS, ""));
    var sev := Medium;
    if raft.underReplicated > 10 || dead {
      sev := High;
    }
    findings := AppendWhen(findings, raft.underReplicated > 0, Finding(sev, UNDER_REPLICATED, ""));
  }

  method CollectAvailabilityFindings(snap: Snapshot, raft: RaftSummary) returns (findings: seq<Finding>)
    ensures findings == AvailabilityFindings(snap, raft)
  {
    var dead := CountDead(snap);
    var mh, mt := HealthyMasters(snap);
    findings := CollectAvailabilityFor(dead > 0, mt > 0 && mh < mt / 2 + 1, raft);
  }

  method BlameForTablets(snap: Snapshot, sum: TabletSummary) returns (hot: string)
    ensures BlamesFor(snap, sum, hot)
  {
    var stats := NodeStats(sum.perNode);
    var hotT, coldT := ExtremeAliveNames(snap, stats, false);
    hot := hotT;
    if hotT == "" {
      hot := sum.hottestNode;
    }
  }

  method CollectBalanceFindings(sum: TabletSummary, raft: RaftSummary, hot: string) returns (findings: seq<Finding>)
    ensures findings == BalanceFindings(sum, raft, hot)
  {
    findings := AppendWhen([], sum.leaderImbalance == Warn, Finding(Medium, LEADER_IMBALANCE, sum.hottestNode));
    findings := AppendWhen(findings, sum.tabletImbalance == Warn, Finding(Medium, TABLET_IMBALANCE, hot));
    findings := AppendWhen(findings, sum.sstImbalance == Warn, Finding(Medium, SST_IMBALANCE, sum.sstHottestNode));
    findings := AppendWhen(findings, sum.hotTablets > 0, Finding(Medium, HOT_TABLETS, ""));
    findings := AppendWhen(findings, raft.slowFollowers > 0, Finding(Low, SLOW_FOLLOWERS, ""));
  }

  method CollectLastFindings(snap: Snapshot, th: Thresholds) returns (findings: seq<Finding>)
    ensures findings == LastFindings(snap, th)
  {
    var p99 := snap.performance.p99YSQLMS;
    findings := AppendWhen([], p99 > 0.0 && p99 > th.p99WarnMS, Finding(Medium, P99_LATENCY, ""));
    var regions := DistinctKeys(snap.tservers, RegionKey());
    findings := AppendWhen(findings, |regions| == 1 && |snap.tservers| > 0, Finding(Low, SINGLE_REGION, ""));
  }

  method CollectFindings(snap: Snapshot, sum: TabletSummary, raft: RaftSummary, th: Thresholds)
    returns (findings: seq<Finding>)
    ensures IsFindings(snap, sum, raft, th, findings)
  {
    var availability := CollectAvailabilityFindings(snap, raft);
    var hot := BlameForTablets(snap, sum);
    var balance := CollectBalanceFindings(sum, raft, hot);
    var perNode := CollectNodeFindings(snap.performance.nodes, th);
    ghost var order :| Enumerates(order, snap.performance.nodes.Keys)
        && perNode == NodeFindingsIn(order, snap.performance.nodes, th);
    var last := CollectLastFindings(snap, th);
    findings := availability + balance + perNode + last;
    assert FindingsInOrder(snap, sum, raft, th, findings, order, hot);
  }

  // ----- ordering the findings

  function Rank(s: Severity): nat {
    match s
    case High => 0
    case Medium => 1
    case Low => 2
  }

  /** By severity, then by code. */
  function NotAfter(): (Finding, Finding) -> bool {
    (f: Finding, g: Finding) =>
      if Rank(f.severity) != Rank(g.severity) then Rank(f.severity) < Rank(g.severity) else AtMost(f.code, g.code)
  }

  function SameRank(severity: Severity, code: FindingCode): Finding -> bool {
    (f: Finding) => f.severity == severity && f.code == code
  }

  /** out is findings sorted, and findings of one severity and code keep their order. */
  ghost predicate IsSortOf(out: seq<Finding>, findings: seq<Finding>) {
    && multiset(out) == multiset(findings)
    && SortedBy(out, NotAfter())
    && forall severity, code :: Filter(out, SameRank(severity, code)) == Filter(findings, SameRank(severity, code))
  }

  lemma SortByRank(findings: seq<Finding>)
    ensures IsSortOf(SortBy(findings, NotAfter()), findings)
  {
    forall f, g | f in findings && g in findings ensures NotAfter()(f, g) || NotAfter()(g, f) {
      LessTotal(f.code, g.code);
    }
    forall f, g, h | f in findings && g in findings && h in findings && NotAfter()(f, g) && NotAfter()(g, h)
      ensures NotAfter()(f, h)
    {
      if Rank(f.severity) == Rank(g.severity) == Rank(h.severity) {
        AtMostTransitive(f.code, g.code, h.code);
      }
    }
    SortBySorted(findings, NotAfter());
    SortByKeeps(findings, NotAfter());
    forall severity, code
      ensures Filter(SortBy(findings, NotAfter()), SameRank(severity, code)) ==
              Filter(findings, SameRank(severity, code))
    {
      SortByStable(findings, SameRank(severity, code), NotAfter());
    }
  }

  /** sort.SliceStable by severity and code. */
  method SortFindings(findings: seq<Finding>) returns (out: seq<Finding>)
    ensures IsSortOf(out, findings)
  {
    out := SortBy(findings, NotAfter());
    SortByRank(findings);
  }

  // ----- the whole report

  datatype TopologySummary = TopologySummary(
    nodes: nat, mastersHealthy: nat, mastersTotal: nat, tserversHealthy: nat, tserversTotal: nat,
    replicationFactor: int, regions: seq<string>, zones: seq<string>)

  datatype HealthReport = HealthReport(
    topology: TopologySummary,
    tablets: TabletSummary,
    raft: RaftSummary,
    performance: PerformanceSummary,
    findings: seq<Finding>,
    score: int)

  function TopologyOf(snap: Snapshot): TopologySummary {
    TopologySummary(
      |snap.tservers|, CountIf(snap.masters, IsHealthy()), |snap.masters|,
      CountIf(snap.tservers, IsAlive()), |snap.tservers|, snap.replicationFactor,
      FirstSeen(snap.tservers, RegionKey()), FirstSeen(snap.tservers, ZoneKey()))
  }

  method SummarizeTopology(snap: Snapshot) returns (topo: TopologySummary)
    ensures topo == TopologyOf(snap)
  {
    var mh, mt := HealthyMasters(snap);
    var th, tt := HealthyTServers(snap);
    var regions := DistinctKeys(snap.tservers, RegionKey());
    var zones := DistinctKeys(snap.tservers, ZoneKey());
    topo := TopologySummary(|snap.tservers|, mh, mt, th, tt, snap.replicationFactor, regions, zones);
  }

  ghost predicate IsReport(snap: Snapshot, th: Thresholds, sc: Scoring, rep: HealthReport) {
    && rep.topology == TopologyOf(snap)
    && IsSummary(snap, th, rep.tablets)
    && rep.raft == RaftOf(snap, th)
    && rep.performance == PerformanceOf(snap, th).(hotTablets := rep.tablets.hotTablets)
    && (exists found :: IsFindings(snap, rep.tablets, rep.raft, th, found) && IsSortOf(rep.findings, found))
    && rep.score == Stepwise(rep.findings, rep.raft, sc)
  }

  method AnalyzeSnapshot(snap: Snapshot, th: Thresholds, sc: Scoring) returns (rep: HealthReport)
    ensures IsReport(snap, th, sc, rep)
    ensures rep.score >= 0
  {
    var topo := SummarizeTopology(snap);
    var tablets := AnalyzeTablets(snap, th);
    var raft := AnalyzeRaft(snap, th);
    var perf := AnalyzePerformance(snap, th);
    perf := perf.(hotTablets := tablets.hotTablets);
    var found := CollectFindings(snap, tablets, raft, th);
    var findings := SortFindings(found);
    var score := ScoreReport(findings, raft, sc);
    rep := HealthReport(topo, tablets, raft, perf, findings, score);
  }
}
