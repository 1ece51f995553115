/** What every health report of one snapshot has in common, whatever order the maps
    were ranged over and however the unstable row sort broke ties. */
module FindingsTheorems {
  import opened Counting
  import opened Strings
  import opened StableSort
  import opened Domain
  import opened Config
  import opened Raft
  import opened Tablets
  import G = Grouping
  import TT = TabletsTheorems
  import opened Score
  import opened Findings

  // ----- the statistics rebuilt from the rows

  lemma {:induction false} StatsFromRowsAre(rows: seq<NodeTabletStats>)
    ensures forall r :: r in rows ==> r.nodeID in StatsFromRows(rows)
    ensures forall id :: id in StatsFromRows(rows) ==>
            StatsFromRows(rows)[id] in rows && StatsFromRows(rows)[id].nodeID == id
  {
    if rows != [] {
      var n := |rows| - 1;
      assert rows == rows[..n] + [rows[n]];
      StatsFromRowsAre(rows[..n]);
    }
  }

  /** The map rebuilt from the sorted rows agrees with the one the rows came from. */
  lemma RebuiltStatsAgree(snap: Snapshot, rows: seq<NodeTabletStats>)
    requires IsRows(snap, rows)
    ensures TT.SameStats(StatsMapOf(snap), StatsFromRows(rows))
  {
    var stats, rebuilt := StatsMapOf(snap), StatsFromRows(rows);
    StatsFromRowsAre(rows);
    TT.SummaryRows(snap, rows);
    forall id ensures id in stats <==> id in rebuilt {
      if id in stats {
        TT.SummaryHasRow(snap, rows, id);
      }
    }
    forall id | id in stats
      ensures stats[id].name == rebuilt[id].name && stats[id].leaders == rebuilt[id].leaders
              && stats[id].total == rebuilt[id].total
    {
      assert rebuilt[id] in rows && rebuilt[id].nodeID == id;
      assert rebuilt[id] == WithStorage(snap, StatsOf(snap, id));
    }
  }

  /** Hence the extremes found from the rows are those of the original statistics. */
  lemma RebuiltExtremes(snap: Snapshot, rows: seq<NodeTabletStats>, leaders: bool, hot: string, cold: string)
    requires IsRows(snap, rows)
    ensures IsExtremes(snap.tservers, StatsFromRows(rows), leaders, hot, cold)
            <==> IsExtremes(snap.tservers, StatsMapOf(snap), leaders, hot, cold)
  {
    RebuiltStatsAgree(snap, rows);
    if IsExtremes(snap.tservers, StatsFromRows(rows), leaders, hot, cold) {
      TT.ExtremesCarryOver(snap.tservers, StatsFromRows(rows), StatsMapOf(snap), leaders, hot, cold);
    }
    if IsExtremes(snap.tservers, StatsMapOf(snap), leaders, hot, cold) {
      TT.ExtremesCarryOver(snap.tservers, StatsMapOf(snap), StatsFromRows(rows), leaders, hot, cold);
    }
  }

  /** With distinct ids and an alive node, the node a tablet imbalance is blamed on is named
      after an alive one with the most tablets (or else after the hottest leader, if that
      name is empty), and tabletRatio is the exact quotient of the most and the fewest. */
  lemma BlameRealisesRatio(snap: Snapshot, sum: TabletSummary, blamed: string) returns (h: int, c: int)
    requires DistinctIDs(snap.tservers) && exists ts :: ts in snap.tservers && ts.Alive()
    requires IsRows(snap, sum.perNode) && sum.tabletRatio == RatioOf(AliveCounts(snap, RowOrder(snap), false))
    requires BlamesFor(snap, sum, blamed)
    ensures TT.Realises(snap, false, h, c, sum.tabletRatio)
    ensures var name := NodeName(snap.tservers, snap.tservers[h].id);
            blamed == if name == "" then sum.hottestNode else name
  {
    var hot, cold :| IsExtremes(snap.tservers, StatsFromRows(sum.perNode), false, hot, cold)
                     && blamed == (if hot == "" then sum.hottestNode else hot);
    RebuiltExtremes(snap, sum.perNode, false, hot, cold);
    h, c := TT.ExtremesRealiseRatio(snap, false, sum.tabletRatio, hot, cold);
  }

  // ----- two runs over one snapshot

  /** Only the order of rows with equal names is left open in a tablet summary. */
  lemma SummaryDetermined(snap: Snapshot, th: Thresholds, a: TabletSummary, b: TabletSummary)
    requires IsSummary(snap, th, a) && IsSummary(snap, th, b)
    ensures a.(perNode := b.perNode) == b
    ensures multiset(a.perNode) == multiset(b.perNode)
  {
    TT.ExtremesUnique(snap.tservers, StatsMapOf(snap), true, a.hottestNode, a.coldestNode, b.hottestNode,
        b.coldestNode);
    RowsDetermined(snap, a.perNode, b.perNode);
  }

  function StorageIs(snap: Snapshot, row: NodeTabletStats): NodeTabletStats -> bool {
    (plain: NodeTabletStats) => WithStorage(snap, plain) == row
  }

  lemma {:induction false} StorageCount(snap: Snapshot, plain: seq<NodeTabletStats>, rows: seq<NodeTabletStats>,
                                        row: NodeTabletStats)
    requires |plain| == |rows| && forall i :: 0 <= i < |rows| ==> rows[i] == WithStorage(snap, plain[i])
    ensures multiset(rows)[row] == CountIf(plain, StorageIs(snap, row))
  {
    if plain != [] {
      var n := |plain| - 1;
      assert rows == rows[..n] + [rows[n]];
      StorageCount(snap, plain[..n], rows[..n], row);
    }
  }

  lemma RowsDetermined(snap: Snapshot, a: seq<NodeTabletStats>, b: seq<NodeTabletStats>)
    requires IsRows(snap, a) && IsRows(snap, b)
    ensures multiset(a) == multiset(b)
  {
    var plain :| IsPlainRows(snap, plain, a);
    var plain' :| IsPlainRows(snap, plain', b);
    forall row: NodeTabletStats ensures multiset(a)[row] == multiset(b)[row] {
      StorageCount(snap, plain, a, row);
      StorageCount(snap, plain', b, row);
      CountPermutation(plain, plain', StorageIs(snap, row));
    }
  }

  lemma BlameUnique(snap: Snapshot, a: TabletSummary, b: TabletSummary, hotA: string, hotB: string)
    requires IsRows(snap, a.perNode) && IsRows(snap, b.perNode) && a.hottestNode == b.hottestNode
    requires BlamesFor(snap, a, hotA) && BlamesFor(snap, b, hotB)
    ensures hotA == hotB
  {
    var h, c :| IsExtremes(snap.tservers, StatsFromRows(a.perNode), false, h, c)
        && hotA == (if h == "" then a.hottestNode else h);
    var h', c' :| IsExtremes(snap.tservers, StatsFromRows(b.perNode), false, h', c')
        && hotB == (if h' == "" then b.hottestNode else h');
    RebuiltExtremes(snap, a.perNode, false, h, c);
    RebuiltExtremes(snap, b.perNode, false, h', c');
    TT.ExtremesUnique(snap.tservers, StatsMapOf(snap), false, h, c, h', c');
  }

  function Yields(nodes: map<string, NodeRuntime>, th: Thresholds, f: Finding): string -> bool {
    (name: string) => name in nodes && f in NodeFindings(name, nodes[name], th)
  }

  lemma {:induction false} NodeFindingsCount(order: seq<string>, nodes: map<string, NodeRuntime>, th: Thresholds,
                                             f: Finding)
    requires forall name :: name in order ==> name in nodes
    ensures multiset(NodeFindingsIn(order, nodes, th))[f] == CountIf(order, Yields(nodes, th, f))
  {
    if order != [] {
      var n := |order| - 1;
      assert order[n] in order;
      NodeFindingsCount(order[..n], nodes, th, f);
    }
  }

  /** The per-node findings are the same bag in every order of the nodes. */
  lemma NodeFindingsBag(a: seq<string>, b: seq<string>, nodes: map<string, NodeRuntime>, th: Thresholds)
    requires forall name :: name in a ==> name in nodes
    requires forall name :: name in b ==> name in nodes
    requires multiset(a) == multiset(b)
    ensures multiset(NodeFindingsIn(a, nodes, th)) == multiset(NodeFindingsIn(b, nodes, th))
  {
    forall f: Finding ensures multiset(NodeFindingsIn(a, nodes, th))[f] == multiset(NodeFindingsIn(b, nodes, th))[f] {
      NodeFindingsCount(a, nodes, th, f);
      NodeFindingsCount(b, nodes, th, f);
      CountPermutation(a, b, Yields(nodes, th, f));
    }
  }

  lemma {:induction false} DistinctSameBag(a: seq<string>, b: seq<string>)
    requires Distinct(a) && Distinct(b) && forall k :: k in a <==> k in b
    ensures multiset(a) == multiset(b)
  {
    DistinctMultiset(a);
    DistinctMultiset(b);
    forall k ensures multiset(a)[k] == multiset(b)[k] {
      assert k in a <==> k in multiset(a);
      assert k in b <==> k in multiset(b);
    }
  }

  /** Two collections over one snapshot find the same bag of findings. */
  lemma FindingsDetermined(snap: Snapshot, th: Thresholds, a: TabletSummary, b: TabletSummary, raft: RaftSummary,
                           found: seq<Finding>, found': seq<Finding>)
    requires IsSummary(snap, th, a) && IsSummary(snap, th, b)
    requires IsFindings(snap, a, raft, th, found) && IsFindings(snap, b, raft, th, found')
    ensures multiset(found) == multiset(found')
  {
    SummaryDetermined(snap, th, a, b);
    var order, hot :| FindingsInOrder(snap, a, raft, th, found, order, hot);
    var order', hot' :| FindingsInOrder(snap, b, raft, th, found', order', hot');
    BlameUnique(snap, a, b, hot, hot');
    DistinctSameBag(order, order');
    NodeFindingsBag(order, order', snap.performance.nodes, th);
    FirstFindingsAgree(snap, a, b, raft, hot);
  }

  lemma FirstFindingsAgree(snap: Snapshot, a: TabletSummary, b: TabletSummary, raft: RaftSummary, hot: string)
    requires a.(perNode := b.perNode) == b
    ensures FirstFindings(snap, a, raft, hot) == FirstFindings(snap, b, raft, hot)
  {
  }

  /** Position by position the findings have the same severity and the same code. */
  ghost predicate SameRanks(a: seq<Finding>, b: seq<Finding>) {
    && |a| == |b|
    && forall i :: 0 <= i < |a| ==> a[i].severity == b[i].severity && a[i].code == b[i].code
  }

  lemma RankOccurs(s: seq<Finding>, severity: Severity, code: FindingCode) returns (i: nat)
    requires CountIf(s, SameRank(severity, code)) > 0
    ensures i < |s| && s[i].severity == severity && s[i].code == code
  {
    CountZero(s, SameRank(severity, code));
    var f :| f in s && SameRank(severity, code)(f);
    i :| 0 <= i < |s| && s[i] == f;
  }

  lemma LastNotAfter(a: seq<Finding>, b: seq<Finding>)
    requires a != [] && b != [] && SortedBy(b, NotAfter())
    requires forall severity, code :: CountIf(a, SameRank(severity, code)) == CountIf(b, SameRank(severity, code))
    ensures NotAfter()(a[|a| - 1], b[|b| - 1])
  {
    var x := a[|a| - 1];
    assert SameRank(x.severity, x.code)(x);
    var j := RankOccurs(b, x.severity, x.code);
    if j == |b| - 1 {
      assert b[j].code == x.code;
    } else {
      assert NotAfter()(b[j], b[|b| - 1]);
    }
  }

  /** Sorted lists with equally many findings of every severity and code agree on them,
      position by position. */
  lemma {:induction false} SortedRanksAgree(a: seq<Finding>, b: seq<Finding>)
    requires |a| == |b| && SortedBy(a, NotAfter()) && SortedBy(b, NotAfter())
    requires forall severity, code :: CountIf(a, SameRank(severity, code)) == CountIf(b, SameRank(severity, code))
    ensures SameRanks(a, b)
  {
    if a != [] {
      var n := |a| - 1;
      LastNotAfter(a, b);
      LastNotAfter(b, a);
      AtMostAntisymmetric(a[n].code, b[n].code);
      assert a[n].severity == b[n].severity && a[n].code == b[n].code;
      SortedRanksAgree(a[..n], b[..n]);
    }
  }

  lemma SortedBagsAgree(a: seq<Finding>, b: seq<Finding>)
    requires multiset(a) == multiset(b) && SortedBy(a, NotAfter()) && SortedBy(b, NotAfter())
    ensures SameRanks(a, b)
  {
    assert |a| == |multiset(a)| && |b| == |multiset(b)|;
    forall severity, code ensures CountIf(a, SameRank(severity, code)) == CountIf(b, SameRank(severity, code)) {
      CountPermutation(a, b, SameRank(severity, code));
    }
    SortedRanksAgree(a, b);
  }

  lemma PresentAlike(a: seq<Finding>, b: seq<Finding>, code: FindingCode)
    requires SameRanks(a, b) && Present(a, code)
    ensures Present(b, code)
  {
    var f :| f in a && f.code == code;
    var i :| 0 <= i < |a| && a[i] == f;
    assert b[i] in b;
  }

  lemma CostAlike(a: seq<Finding>, b: seq<Finding>, sc: Scoring)
    requires SameRanks(a, b) && a != []
    ensures Cost(a, sc) == Cost(b, sc)
  {
    var n := |a| - 1;
    assert a[n].code == b[n].code;
    assert SameRanks(a[..n], b[..n]) && SameRanks(b[..n], a[..n]);
    if Present(a[..n], a[n].code) {
      PresentAlike(a[..n], b[..n], a[n].code);
    }
    if Present(b[..n], b[n].code) {
      PresentAlike(b[..n], a[..n], b[n].code);
    }
  }

  /** The score reads codes only. */
  lemma {:induction false} ScoreReadsCodes(a: seq<Finding>, b: seq<Finding>, raft: RaftSummary, sc: Scoring)
    requires SameRanks(a, b)
    ensures Stepwise(a, raft, sc) == Stepwise(b, raft, sc)
  {
    if a != [] {
      var n := |a| - 1;
      CostAlike(a, b, sc);
      ScoreReadsCodes(a[..n], b[..n], raft, sc);
    }
  }

  /** Two reports of one snapshot have the same bag of findings and agree on severity and
      code at every position, have the same bag of rows, and agree on everything else; on
      the score whatever the weights are, as findings are sorted before they are scored. */
  lemma ReportDetermined(snap: Snapshot, th: Thresholds, sc: Scoring, a: HealthReport, b: HealthReport)
    requires IsReport(snap, th, sc, a) && IsReport(snap, th, sc, b)
    ensures multiset(a.findings) == multiset(b.findings)
    ensures SameRanks(a.findings, b.findings)
    ensures multiset(a.tablets.perNode) == multiset(b.tablets.perNode)
    ensures a.(findings := b.findings, tablets := a.tablets.(perNode := b.tablets.perNode)) == b
  {
    SummaryDetermined(snap, th, a.tablets, b.tablets);
    var found :| IsFindings(snap, a.tablets, a.raft, th, found) && IsSortOf(a.findings, found);
    var found' :| IsFindings(snap, b.tablets, b.raft, th, found') && IsSortOf(b.findings, found');
    FindingsDetermined(snap, th, a.tablets, b.tablets, a.raft, found, found');
    SortedBagsAgree(a.findings, b.findings);
    ScoreReadsCodes(a.findings, b.findings, a.raft, sc);
  }

  // ----- findings against the performance summary

  function IsBacklogged(nodes: map<string, NodeRuntime>, th: Thresholds): string -> bool {
    (name: string) => name in nodes && CompactionBacklog(nodes[name], th)
  }

  lemma {:induction false} CompactionFindingsIn(order: seq<string>, nodes: map<string, NodeRuntime>, th: Thresholds)
    requires forall name :: name in order ==> name in nodes
    ensures CountIf(NodeFindingsIn(order, nodes, th), HasCode(COMPACTION_PRESSURE)) ==
            CountIf(order, IsBacklogged(nodes, th))
  {
    if order != [] {
      var n := |order| - 1;
      assert order[n] in order;
      CompactionFindingsIn(order[..n], nodes, th);
      CountConcat(NodeFindingsIn(order[..n], nodes, th), NodeFindings(order[n], nodes[order[n]], th),
          HasCode(COMPACTION_PRESSURE));
      CompactionFindingsOf(order[n], nodes[order[n]], th);
    }
  }

  lemma CompactionFindingsOf(name: string, rt: NodeRuntime, th: Thresholds)
    ensures CountIf(NodeFindings(name, rt, th), HasCode(COMPACTION_PRESSURE)) ==
            if CompactionBacklog(rt, th) then 1 else 0
  {
    CodesDiffer();
    var fs := NodeFindings(name, rt, th);
    assert |fs| > 0 ==> fs[..|fs| - 1] == [];
  }

  lemma {:induction false} DistinctCount(s: seq<string>, p: string -> bool, chosen: set<string>)
    requires Distinct(s)
    requires forall x :: x in chosen <==> x in s && p(x)
    ensures CountIf(s, p) == |chosen|
  {
    if s == [] {
      assert chosen == {};
    } else {
      var n := |s| - 1;
      assert s == s[..n] + [s[n]];
      assert s[n] !in s[..n];
      DistinctCount(s[..n], p, chosen - {s[n]});
    }
  }

  predicate NoCompaction(fs: seq<Finding>) {
    CountIf(fs, HasCode(COMPACTION_PRESSURE)) == 0
  }

  lemma NoCompactionWhen(on: bool, f: Finding)
    requires |f.code| > 0 && f.code[0] != 'c'
    ensures NoCompaction(When(on, f))
  {
    assert COMPACTION_PRESSURE[0] == 'c';
    CountZero(When(on, f), HasCode(COMPACTION_PRESSURE));
  }

  lemma NoCompactionConcat(a: seq<Finding>, b: seq<Finding>)
    requires NoCompaction(a) && NoCompaction(b)
    ensures NoCompaction(a + b)
  {
    CountConcat(a, b, HasCode(COMPACTION_PRESSURE));
  }

  lemma NoCompactionInAvailability(snap: Snapshot, raft: RaftSummary)
    ensures NoCompaction(AvailabilityFindings(snap, raft))
  {
    var dead := CountIf(snap.tservers, IsDown()) > 0;
    var masters, healthy := |snap.masters|, CountIf(snap.masters, IsHealthy());
    var urgent := raft.underReplicated > 10 || dead;
    var w1 := When(dead, Finding(High, DEAD_TSERVER, ""));
    var w2 := When(masters > 0 && healthy < masters / 2 + 1, Finding(High, MASTER_QUORUM, ""));
    var w3 := When(raft.leaderless > 0, Finding(High, LEADERLESS, ""));
    var w4 := When(raft.underReplicated > 0, Finding(if urgent then High else Medium, UNDER_REPLICATED, ""));
    NoCompactionWhen(dead, Finding(High, DEAD_TSERVER, ""));
    NoCompactionWhen(masters > 0 && healthy < masters / 2 + 1, Finding(High, MASTER_QUORUM, ""));
    NoCompactionWhen(raft.leaderless > 0, Finding(High, LEADERLESS, ""));
    NoCompactionWhen(raft.underReplicated > 0, Finding(if urgent then High else Medium, UNDER_REPLICATED, ""));
    NoCompactionConcat(w1, w2);
    NoCompactionConcat(w1 + w2, w3);
    NoCompactionConcat(w1 + w2 + w3, w4);
  }

  lemma NoCompactionInBalance(sum: TabletSummary, raft: RaftSummary, hot: string)
    ensures NoCompaction(BalanceFindings(sum, raft, hot))
  {
    var w1 := When(sum.leaderImbalance == Warn, Finding(Medium, LEADER_IMBALANCE, sum.hottestNode));
    var w2 := When(sum.tabletImbalance == Warn, Finding(Medium, TABLET_IMBALANCE, hot));
    var w3 := When(sum.sstImbalance == Warn, Finding(Medium, SST_IMBALANCE, sum.sstHottestNode));
    var w4 := When(sum.hotTablets > 0, Finding(Medium, HOT_TABLETS, ""));
    var w5 := When(raft.slowFollowers > 0, Finding(Low, SLOW_FOLLOWERS, ""));
    NoCompactionWhen(sum.leaderImbalance == Warn, Finding(Medium, LEADER_IMBALANCE, sum.hottestNode));
    NoCompactionWhen(sum.tabletImbalance == Warn, Finding(Medium, TABLET_IMBALANCE, hot));
    NoCompactionWhen(sum.sstImbalance == Warn, Finding(Medium, SST_IMBALANCE, sum.sstHottestNode));
    NoCompactionWhen(sum.hotTablets > 0, Finding(Medium, HOT_TABLETS, ""));
    NoCompactionWhen(raft.slowFollowers > 0, Finding(Low, SLOW_FOLLOWERS, ""));
    NoCompactionConcat(w1, w2);
    NoCompactionConcat(w1 + w2, w3);
    NoCompactionConcat(w1 + w2 + w3, w4);
    NoCompactionConcat(w1 + w2 + w3 + w4, w5);
  }

  lemma NoCompactionInLast(snap: Snapshot, th: Thresholds)
    ensures NoCompaction(LastFindings(snap, th))
  {
    var p99 := snap.performance.p99YSQLMS;
    var w1 := When(p99 > 0.0 && p99 > th.p99WarnMS, Finding(Medium, P99_LATENCY, ""));
    var single := |G.FirstSeen(snap.tservers, G.RegionKey())| == 1 && |snap.tservers| > 0;
    NoCompactionWhen(p99 > 0.0 && p99 > th.p99WarnMS, Finding(Medium, P99_LATENCY, ""));
    NoCompactionWhen(single, Finding(Low, SINGLE_REGION, ""));
    NoCompactionConcat(w1, When(single, Finding(Low, SINGLE_REGION, "")));
  }

  lemma CompactionFindingsFound(snap: Snapshot, sum: TabletSummary, raft: RaftSummary, th: Thresholds,
                                found: seq<Finding>)
    requires IsFindings(snap, sum, raft, th, found)
    ensures CountIf(found, HasCode(COMPACTION_PRESSURE)) == |BackloggedNodes(snap, th)|
  {
    var order, hot :| FindingsInOrder(snap, sum, raft, th, found, order, hot);
    var nodes := snap.performance.nodes;
    NoCompactionInAvailability(snap, raft);
    NoCompactionInBalance(sum, raft, hot);
    NoCompactionConcat(AvailabilityFindings(snap, raft), BalanceFindings(sum, raft, hot));
    NoCompactionInLast(snap, th);
    CompactionFindingsIn(order, nodes, th);
    DistinctCount(order, IsBacklogged(nodes, th), BackloggedNodes(snap, th));
    OnlyTheMiddle(FirstFindings(snap, sum, raft, hot), NodeFindingsIn(order, nodes, th), LastFindings(snap, th));
  }

  lemma OnlyTheMiddle(a: seq<Finding>, b: seq<Finding>, c: seq<Finding>)
    requires NoCompaction(a) && NoCompaction(c)
    ensures CountIf(a + b + c, HasCode(COMPACTION_PRESSURE)) == CountIf(b, HasCode(COMPACTION_PRESSURE))
  {
    CountConcat(a, b, HasCode(COMPACTION_PRESSURE));
    CountConcat(a + b, c, HasCode(COMPACTION_PRESSURE));
  }

  /** Findings and performance summary agree: a report has exactly one compaction
      finding per node its performance summary lists. */
  lemma CompactionFindingsMatchSummary(snap: Snapshot, th: Thresholds, sc: Scoring, rep: HealthReport)
    requires IsReport(snap, th, sc, rep)
    ensures CountIf(rep.findings, HasCode(COMPACTION_PRESSURE)) == |rep.performance.compactionNodes|
  {
    var found :| IsFindings(snap, rep.tablets, rep.raft, th, found) && IsSortOf(rep.findings, found);
    CountPermutation(rep.findings, found, HasCode(COMPACTION_PRESSURE));
    CompactionFindingsFound(snap, rep.tablets, rep.raft, th, found);
  }
}
