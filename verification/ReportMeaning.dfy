/** What a health report says about the snapshot, in the terms of an operator: exactly which
    findings it has, each once, in which order, and what its summaries count. */
module ReportMeaning {
  import opened Counting
  import opened Strings
  import opened Domain
  import opened Config
  import opened Grouping
  import opened Raft
  import opened Tablets
  import opened Findings

  // ----- the order of the findings

  /** High findings come first and Low ones last, and each severity goes by code. */
  ghost predicate MostUrgentFirst(findings: seq<Finding>) {
    forall i, j :: 0 <= i < j < |findings| ==>
      && (findings[j].severity == High ==> findings[i].severity == High)
      && (findings[i].severity == Low ==> findings[j].severity == Low)
      && (findings[i].severity == findings[j].severity ==> AtMost(findings[i].code, findings[j].code))
  }

  lemma SortedMeans(out: seq<Finding>, findings: seq<Finding>)
    requires IsSortOf(out, findings)
    ensures MostUrgentFirst(out)
    ensures forall severity, code :: Filter(out, SameRank(severity, code)) == Filter(findings, SameRank(severity, code))
  {
    forall i, j | 0 <= i < j < |out|
      ensures out[j].severity == High ==> out[i].severity == High
      ensures out[i].severity == Low ==> out[j].severity == Low
      ensures out[i].severity == out[j].severity ==> AtMost(out[i].code, out[j].code)
    {
      assert NotAfter()(out[i], out[j]);
    }
  }

  /** The findings of every report are in that order. */
  lemma ReportSorted(snap: Snapshot, th: Thresholds, sc: Scoring, rep: HealthReport)
    requires IsReport(snap, th, sc, rep)
    ensures forall i, j :: 0 <= i < j < |rep.findings| && rep.findings[j].severity == High ==>
              rep.findings[i].severity == High
    ensures forall i, j :: 0 <= i < j < |rep.findings| && rep.findings[i].severity == Low ==>
              rep.findings[j].severity == Low
    ensures forall i, j :: 0 <= i < j < |rep.findings| && rep.findings[i].severity == rep.findings[j].severity ==>
              AtMost(rep.findings[i].code, rep.findings[j].code)
  {
    var found :| IsFindings(snap, rep.tablets, rep.raft, th, found) && IsSortOf(rep.findings, found);
    SortedMeans(rep.findings, found);
  }

  // ----- which findings there are

  ghost predicate SomeDead(snap: Snapshot) {
    exists ts :: ts in snap.tservers && ts.status != Up
  }

  /** Where the healthy masters stand in the list. */
  function HealthyAt(masters: seq<Master>): set<int> {
    set i | 0 <= i < |masters| && masters[i].healthy
  }

  /** At most half of the masters are healthy. */
  ghost predicate MastersShort(snap: Snapshot) {
    snap.masters != [] && 2 * |HealthyAt(snap.masters)| <= |snap.masters|
  }

  ghost predicate ReportedOnAvailability(snap: Snapshot, raft: RaftSummary, f: Finding) {
    || (SomeDead(snap) && f == Finding(High, DEAD_TSERVER, ""))
    || (MastersShort(snap) && f == Finding(High, MASTER_QUORUM, ""))
    || (raft.leaderless > 0 && f == Finding(High, LEADERLESS, ""))
    || ((raft.underReplicated > 10 || (raft.underReplicated > 0 && SomeDead(snap)))
        && f == Finding(High, UNDER_REPLICATED, ""))
    || (0 < raft.underReplicated <= 10 && !SomeDead(snap) && f == Finding(Medium, UNDER_REPLICATED, ""))
  }

  ghost predicate ReportedOnBalance(sum: TabletSummary, raft: RaftSummary, hot: string, f: Finding) {
    || (sum.leaderImbalance == Warn && f == Finding(Medium, LEADER_IMBALANCE, sum.hottestNode))
    || (sum.tabletImbalance == Warn && f == Finding(Medium, TABLET_IMBALANCE, hot))
    || (sum.sstImbalance == Warn && f == Finding(Medium, SST_IMBALANCE, sum.sstHottestNode))
    || (sum.hotTablets > 0 && f == Finding(Medium, HOT_TABLETS, ""))
    || (raft.slowFollowers > 0 && f == Finding(Low, SLOW_FOLLOWERS, ""))
  }

  /** At least the threshold of pending bytes, and at least that share of any SST bytes. */
  predicate FallsBehind(rt: NodeRuntime, th: Thresholds) {
    && rt.pendingCompactionBytes >= th.compactionHighBytes
    && (rt.sstFileBytes > 0 ==> rt.pendingCompactionBytes as real >= th.compactionSSTRatio * rt.sstFileBytes as real)
  }

  ghost predicate ReportedOnNodes(nodes: map<string, NodeRuntime>, th: Thresholds, f: Finding) {
    && f.node in nodes
    && f.severity == High
    && (if FallsBehind(nodes[f.node], th) then f.code == COMPACTION_PRESSURE
        else f.code == DISK_PRESSURE && nodes[f.node].diskPercent >= th.diskHighPercent)
  }

  ghost predicate OneRegion(snap: Snapshot) {
    && snap.tservers != []
    && forall a, b :: a in snap.tservers && b in snap.tservers ==> a.placement.RegionKey() == b.placement.RegionKey()
  }

  ghost predicate ReportedLast(snap: Snapshot, th: Thresholds, f: Finding) {
    || (snap.performance.p99YSQLMS > 0.0 && snap.performance.p99YSQLMS > th.p99WarnMS
        && f == Finding(Medium, P99_LATENCY, ""))
    || (OneRegion(snap) && f == Finding(Low, SINGLE_REGION, ""))
  }

  lemma DeadCounted(snap: Snapshot)
    ensures CountIf(snap.tservers, IsDown()) > 0 <==> SomeDead(snap)
  {
    CountZero(snap.tservers, IsDown());
    if ts :| ts in snap.tservers && ts.status != Up {
      assert IsDown()(ts);
    }
    if ts :| ts in snap.tservers && IsDown()(ts) {
      assert ts.status != Up;
    }
  }

  lemma MastersCounted(snap: Snapshot)
    ensures CountIf(snap.masters, IsHealthy()) == |HealthyAt(snap.masters)|
  {
    CountIsSize(snap.masters, IsHealthy(), HealthyAt(snap.masters));
  }

  lemma AvailabilityExactly(snap: Snapshot, raft: RaftSummary, f: Finding)
    ensures f in AvailabilityFindings(snap, raft) <==> ReportedOnAvailability(snap, raft, f)
  {
    DeadCounted(snap);
    MastersCounted(snap);
  }

  lemma BalanceExactly(sum: TabletSummary, raft: RaftSummary, hot: string, f: Finding)
    ensures f in BalanceFindings(sum, raft, hot) <==> ReportedOnBalance(sum, raft, hot, f)
  {
  }

  lemma BacklogMeans(rt: NodeRuntime, th: Thresholds)
    ensures CompactionBacklog(rt, th) <==> FallsBehind(rt, th)
  {
    if rt.sstFileBytes > 0 {
      QuotientAtLeast(rt.pendingCompactionBytes as real, rt.sstFileBytes as real, th.compactionSSTRatio);
    }
  }

  lemma QuotientAtLeast(x: real, y: real, bound: real)
    requires y > 0.0
    ensures x / y >= bound <==> x >= bound * y
  {
    var q := x / y;
    assert q * y == x;
    assert (q - bound) * y == q * y - bound * y;
  }

  lemma {:induction false} NodesExactly(order: seq<string>, nodes: map<string, NodeRuntime>, th: Thresholds, f: Finding)
    requires forall name :: name in order ==> name in nodes
    ensures f in NodeFindingsIn(order, nodes, th) <==> f.node in order && ReportedOnNodes(nodes, th, f)
  {
    if order != [] {
      var n := |order| - 1;
      assert order == order[..n] + [order[n]];
      NodesExactly(order[..n], nodes, th, f);
      BacklogMeans(nodes[order[n]], th);
    }
  }

  lemma OneKeyIff(nodes: seq<TServer>, key: TServer -> string)
    ensures |FirstSeen(nodes, key)| == 1 <==>
            nodes != [] && forall a, b :: a in nodes && b in nodes ==> key(a) == key(b)
  {
    var keys := FirstSeen(nodes, key);
    if |keys| == 1 {
      assert keys[0] in keys;
      forall a | a in nodes ensures key(a) == keys[0] {
        assert key(a) in keys;
      }
    }
    if nodes != [] && forall a, b :: a in nodes && b in nodes ==> key(a) == key(b) {
      assert nodes[0] in nodes && key(nodes[0]) in keys;
      forall k | 0 <= k < |keys| ensures keys[k] == key(nodes[0]) {
        assert keys[k] in keys;
      }
    }
  }

  lemma OneRegionCounted(snap: Snapshot)
    ensures |FirstSeen(snap.tservers, RegionKey())| == 1 && |snap.tservers| > 0 <==> OneRegion(snap)
  {
    OneKeyIff(snap.tservers, RegionKey());
    assert forall ts :: RegionKey()(ts) == ts.placement.RegionKey();
  }

  lemma LastExactly(snap: Snapshot, th: Thresholds, f: Finding)
    ensures f in LastFindings(snap, th) <==> ReportedLast(snap, th, f)
  {
    OneRegionCounted(snap);
  }

  /** The findings of a report are exactly those spelled out above, hot being the server a
      tablet imbalance is blamed on. */
  lemma ReportedExactly(snap: Snapshot, th: Thresholds, sc: Scoring, rep: HealthReport) returns (hot: string)
    requires IsReport(snap, th, sc, rep)
    ensures BlamesFor(snap, rep.tablets, hot)
    ensures forall f :: f in rep.findings <==>
              || ReportedOnAvailability(snap, rep.raft, f)
              || ReportedOnBalance(rep.tablets, rep.raft, hot, f)
              || ReportedOnNodes(snap.performance.nodes, th, f)
              || ReportedLast(snap, th, f)
  {
    var found :| IsFindings(snap, rep.tablets, rep.raft, th, found) && IsSortOf(rep.findings, found);
    var order;
    order, hot :| FindingsInOrder(snap, rep.tablets, rep.raft, th, found, order, hot);
    forall f
      ensures f in rep.findings <==>
              || ReportedOnAvailability(snap, rep.raft, f)
              || ReportedOnBalance(rep.tablets, rep.raft, hot, f)
              || ReportedOnNodes(snap.performance.nodes, th, f)
              || ReportedLast(snap, th, f)
    {
      assert f in rep.findings <==> f in multiset(rep.findings);
      assert f in found <==> f in multiset(found);
      AvailabilityExactly(snap, rep.raft, f);
      BalanceExactly(rep.tablets, rep.raft, hot, f);
      NodesExactly(order, snap.performance.nodes, th, f);
      LastExactly(snap, th, f);
    }
  }

  // ----- none of them twice

  /** A number for every code, so that different codes are seen to be different strings. */
  function CodeNumber(code: FindingCode): nat {
    if |code| < 7 then 0
    else if code[0] == 'd' then (if code[1] == 'e' then 1 else 2)
    else if code[0] == 'l' then (if code[6] == '-' then 3 else 4)
    else if code[0] == 's' then (if code[1] == 's' then 5 else if code[1] == 'l' then 6 else 7)
    else if code[0] == 'm' then 8
    else if code[0] == 'u' then 9
    else if code[0] == 't' then 10
    else if code[0] == 'h' then 11
    else if code[0] == 'p' then 12
    else 13
  }

  lemma CodesNumbered()
    ensures CodeNumber(DEAD_TSERVER) == 1 && CodeNumber(DISK_PRESSURE) == 2 && CodeNumber(LEADER_IMBALANCE) == 3
    ensures CodeNumber(LEADERLESS) == 4 && CodeNumber(SST_IMBALANCE) == 5 && CodeNumber(SLOW_FOLLOWERS) == 6
    ensures CodeNumber(SINGLE_REGION) == 7 && CodeNumber(MASTER_QUORUM) == 8 && CodeNumber(UNDER_REPLICATED) == 9
    ensures CodeNumber(TABLET_IMBALANCE) == 10 && CodeNumber(HOT_TABLETS) == 11 && CodeNumber(P99_LATENCY) == 12
    ensures CodeNumber(COMPACTION_PRESSURE) == 13
  {
  }

  lemma AvailabilityOnce(snap: Snapshot, raft: RaftSummary, f: Finding)
    ensures multiset(AvailabilityFindings(snap, raft))[f] <= 1
  {
    CodesNumbered();
  }

  lemma BalanceOnce(sum: TabletSummary, raft: RaftSummary, hot: string, f: Finding)
    ensures multiset(BalanceFindings(sum, raft, hot))[f] <= 1
  {
    CodesNumbered();
  }

  lemma LastOnce(snap: Snapshot, th: Thresholds, f: Finding)
    ensures multiset(LastFindings(snap, th))[f] <= 1
  {
    CodesNumbered();
  }

  lemma {:induction false} NodesOnce(order: seq<string>, nodes: map<string, NodeRuntime>, th: Thresholds, f: Finding)
    requires Distinct(order) && forall name :: name in order ==> name in nodes
    ensures multiset(NodeFindingsIn(order, nodes, th))[f] <= 1
  {
    if order != [] {
      var n := |order| - 1;
      assert order == order[..n] + [order[n]];
      NodesOnce(order[..n], nodes, th, f);
      NodesExactly(order[..n], nodes, th, f);
    }
  }

  /** A finding is in at most one of the four parts, as their codes differ. */
  lemma OnePart(snap: Snapshot, th: Thresholds, sum: TabletSummary, raft: RaftSummary, hot: string, f: Finding)
    ensures ReportedOnAvailability(snap, raft, f) ==> CodeNumber(f.code) in {1, 4, 8, 9}
    ensures ReportedOnBalance(sum, raft, hot, f) ==> CodeNumber(f.code) in {3, 5, 6, 10, 11}
    ensures ReportedOnNodes(snap.performance.nodes, th, f) ==> CodeNumber(f.code) in {2, 13}
    ensures ReportedLast(snap, th, f) ==> CodeNumber(f.code) in {7, 12}
  {
    CodesNumbered();
  }

  /** No report says the same thing twice. */
  lemma ReportedOnce(snap: Snapshot, th: Thresholds, sc: Scoring, rep: HealthReport)
    requires IsReport(snap, th, sc, rep)
    ensures forall i, j :: 0 <= i < j < |rep.findings| ==> rep.findings[i] != rep.findings[j]
  {
    var found :| IsFindings(snap, rep.tablets, rep.raft, th, found) && IsSortOf(rep.findings, found);
    var order, hot :| FindingsInOrder(snap, rep.tablets, rep.raft, th, found, order, hot);
    forall i, j | 0 <= i < j < |rep.findings| ensures rep.findings[i] != rep.findings[j] {
      FoundOnce(snap, th, rep.tablets, rep.raft, found, order, hot, rep.findings[i]);
      OnceDistinct(rep.findings, i, j);
    }
  }

  lemma FoundOnce(snap: Snapshot, th: Thresholds, sum: TabletSummary, raft: RaftSummary, found: seq<Finding>,
                  order: seq<string>, hot: string, f: Finding)
    requires FindingsInOrder(snap, sum, raft, th, found, order, hot)
    ensures multiset(found)[f] <= 1
  {
    var a, b := AvailabilityFindings(snap, raft), BalanceFindings(sum, raft, hot);
    var c, d := NodeFindingsIn(order, snap.performance.nodes, th), LastFindings(snap, th);
    AvailabilityExactly(snap, raft, f);
    BalanceExactly(sum, raft, hot, f);
    NodesExactly(order, snap.performance.nodes, th, f);
    LastExactly(snap, th, f);
    AvailabilityOnce(snap, raft, f);
    BalanceOnce(sum, raft, hot, f);
    NodesOnce(order, snap.performance.nodes, th, f);
    LastOnce(snap, th, f);
    OnePart(snap, th, sum, raft, hot, f);
    InOneOfFour(a, b, c, d, f);
  }

  lemma InOneOfFour(a: seq<Finding>, b: seq<Finding>, c: seq<Finding>, d: seq<Finding>, f: Finding)
    requires f in a ==> f !in b && f !in c && f !in d
    requires f in b ==> f !in c && f !in d
    requires f in c ==> f !in d
    requires multiset(a)[f] <= 1 && multiset(b)[f] <= 1 && multiset(c)[f] <= 1 && multiset(d)[f] <= 1
    ensures multiset(a + b + c + d)[f] <= 1
  {
    assert f in a <==> multiset(a)[f] > 0;
    assert f in b <==> multiset(b)[f] > 0;
    assert f in c <==> multiset(c)[f] > 0;
  }

  lemma OnceDistinct(s: seq<Finding>, i: nat, j: nat)
    requires i < j < |s| && multiset(s)[s[i]] <= 1
    ensures s[i] != s[j]
  {
    assert s == s[..j] + s[j..];
    assert s[..j][i] in s[..j] && s[j..][0] in s[j..];
    assert multiset(s[..j])[s[i]] >= 1;
    assert multiset(s[j..])[s[j]] >= 1;
  }

  // ----- the summaries beside them

  function UpAt(tservers: seq<TServer>): set<int> {
    set i | 0 <= i < |tservers| && tservers[i].status == Up
  }

  lemma KeysListed(tservers: seq<TServer>, key: TServer -> string)
    ensures Distinct(FirstSeen(tservers, key))
    ensures forall k :: k in FirstSeen(tservers, key) <==> exists ts :: ts in tservers && key(ts) == k
  {
  }

  /** The topology counts the healthy masters and the servers that are up, lists each region
      and zone once, and repeats the replication factor. */
  lemma TopologyMeans(snap: Snapshot, topo: TopologySummary)
    requires topo == TopologyOf(snap)
    ensures topo.nodes == topo.tserversTotal == |snap.tservers| && topo.mastersTotal == |snap.masters|
    ensures topo.mastersHealthy == |HealthyAt(snap.masters)|
    ensures topo.tserversHealthy == |UpAt(snap.tservers)|
    ensures topo.replicationFactor == snap.replicationFactor
    ensures Distinct(topo.regions) && Distinct(topo.zones)
    ensures forall k :: k in topo.regions <==> exists ts :: ts in snap.tservers && ts.placement.RegionKey() == k
    ensures forall k :: k in topo.zones <==> exists ts :: ts in snap.tservers && ts.placement.Key() == k
  {
    MastersCounted(snap);
    CountIsSize(snap.tservers, IsAlive(), UpAt(snap.tservers));
    KeysListed(snap.tservers, RegionKey());
    KeysListed(snap.tservers, ZoneKey());
  }

  /** The performance summary names exactly the nodes that fall behind, sorted, says which
      it is if there is one, and passes on the latency. */
  lemma PerformanceMeans(snap: Snapshot, th: Thresholds, perf: PerformanceSummary)
    requires perf == PerformanceOf(snap, th)
    ensures forall name :: name in perf.compactionNodes <==>
              name in snap.performance.nodes && FallsBehind(snap.performance.nodes[name], th)
    ensures StrictlySorted(perf.compactionNodes)
    ensures perf.compactionPressure == NoPressure <==> |perf.compactionNodes| == 0
    ensures perf.compactionPressure == HighOnSeveral <==> |perf.compactionNodes| > 1
    ensures |perf.compactionNodes| == 1 ==> perf.compactionPressure == HighOn(perf.compactionNodes[0])
    ensures perf.p99YSQLMS == snap.performance.p99YSQLMS
  {
    SortedSetSorts(BackloggedNodes(snap, th));
    forall name | name in snap.performance.nodes
      ensures CompactionBacklog(snap.performance.nodes[name], th) <==> FallsBehind(snap.performance.nodes[name], th)
    {
      BacklogMeans(snap.performance.nodes[name], th);
    }
  }
}
