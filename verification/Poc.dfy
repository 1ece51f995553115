/** Proof-of-concept readiness: the checks over a health report and a
    resilience report of the same snapshot. */
module Poc {
  import opened Counting
  import opened Domain
  import opened Grouping
  import opened Resilience
  import opened ResilienceTheorems
  import opened Findings

  datatype Criteria = Criteria(
    name: string,
    minNodes: int,
    minAZs: int,
    replicationFactor: int,
    tolerateNodeFailure: bool,
    tolerateAZFailure: bool,
    maxP99YSQLMS: real,
    minTPS: real,
    balancedTablets: bool,
    balancedLeaders: bool)

  /** The common three-AZ, RF=3 bar. */
  const DEFAULT_CRITERIA := Criteria("YugabyteDB POC", 3, 3, 3, true, true, 20.0, 0.0, true, true)

  datatype CheckName =
    | NodeCount | AZCount | RFValidation | NodeFailure | AZFailure
    | TabletDistribution | LeaderDistribution | P99Requirement | TPSRequirement

  datatype POCCheck = POCCheck(name: CheckName, status: CheckStatus)

  datatype POCReport = POCReport(
    criteria: Criteria, nodes: nat, regions: nat, azs: nat, rf: int, checks: seq<POCCheck>, passed: nat, total: nat)

  datatype Detail = NoSimulations | FirstFailure(reason: Reason) | QuorumRetained

  ghost predicate KindPasses(sims: seq<FailureSim>, kind: SimKind) {
    && (exists sim :: sim in sims && sim.kind == kind)
    && !SomeFails(sims, kind)
  }

  method SimKindPassed(sims: seq<FailureSim>, kind: SimKind) returns (ok: bool, detail: Detail)
    ensures ok == KindPasses(sims, kind)
    ensures detail.NoSimulations? <==> forall sim :: sim in sims ==> sim.kind != kind
    ensures detail.FirstFailure? ==>
              exists i :: && 0 <= i < |sims| && sims[i].kind == kind && sims[i].status == Fail
                  && sims[i].reason == detail.reason
                          && forall j :: 0 <= j < i && sims[j].kind == kind ==> sims[j].status != Fail
  {
    var seen := false;
    for i := 0 to |sims|
      invariant seen <==> exists j :: 0 <= j < i && sims[j].kind == kind
      invariant forall j :: 0 <= j < i && sims[j].kind == kind ==> sims[j].status != Fail
    {
      if sims[i].kind != kind { continue; }
      seen := true;
      if sims[i].status == Fail {
        assert sims[i] in sims;
        return false, FirstFailure(sims[i].reason);
      }
    }
    assert forall sim :: sim in sims ==> exists j :: 0 <= j < |sims| && sims[j] == sim;
    if !seen {
      return false, NoSimulations;
    }
    return true, QuorumRetained;
  }

  function StatusCheck(name: CheckName, ok: bool): POCCheck {
    POCCheck(name, if ok then Pass else Fail)
  }

  /** A missed soft target is a warning, not a failure. */
  function SoftCheck(name: CheckName, ok: bool): POCCheck {
    POCCheck(name, if ok then Pass else Warn)
  }

  function Effective(criteria: Criteria): Criteria {
    if criteria.name == "" then DEFAULT_CRITERIA else criteria
  }

  function SizeChecks(health: HealthReport, c: Criteria): seq<POCCheck> {
    [StatusCheck(NodeCount, health.topology.tserversTotal >= c.minNodes),
     StatusCheck(AZCount, |health.topology.zones| >= c.minAZs),
     StatusCheck(RFValidation, health.topology.replicationFactor >= c.replicationFactor)]
  }

  ghost function FailureChecks(sims: seq<FailureSim>, c: Criteria): seq<POCCheck> {
    When(c.tolerateNodeFailure, StatusCheck(NodeFailure, KindPasses(sims, NodeLoss))) +
    When(c.tolerateAZFailure, StatusCheck(AZFailure, KindPasses(sims, AZLoss)))
  }

  function LoadChecks(health: HealthReport, tps: real, c: Criteria): seq<POCCheck> {
    var p99 := health.performance.p99YSQLMS;
    [StatusCheck(TabletDistribution, c.balancedTablets ==> health.tablets.tabletImbalance == Pass),
     StatusCheck(LeaderDistribution, c.balancedLeaders ==> health.tablets.leaderImbalance == Pass)] +
    When(c.maxP99YSQLMS > 0.0, SoftCheck(P99Requirement, 0.0 < p99 <= c.maxP99YSQLMS)) +
    When(c.minTPS > 0.0, SoftCheck(TPSRequirement, tps >= c.minTPS))
  }

  ghost function Checks(health: HealthReport, sims: seq<FailureSim>, tps: real, c: Criteria): seq<POCCheck> {
    SizeChecks(health, c) + FailureChecks(sims, c) + LoadChecks(health, tps, c)
  }

  function Passing(): POCCheck -> bool {
    (c: POCCheck) => c.status == Pass
  }

  method BuildFailureChecks(sims: seq<FailureSim>, c: Criteria) returns (checks: seq<POCCheck>)
    ensures checks == FailureChecks(sims, c)
  {
    checks := [];
    if c.tolerateNodeFailure {
      var ok, detail := SimKindPassed(sims, NodeLoss);
      checks := checks + [StatusCheck(NodeFailure, ok)];
    }
    if c.tolerateAZFailure {
      var ok, detail := SimKindPassed(sims, AZLoss);
      checks := checks + [StatusCheck(AZFailure, ok)];
    }
  }

  method CountPassing(checks: seq<POCCheck>) returns (passed: nat)
    ensures passed == CountIf(checks, Passing())
  {
    passed := 0;
    for i := 0 to |checks|
      invariant passed == CountIf(checks[..i], Passing())
    {
      CountStep(checks, Passing(), i);
      if checks[i].status == Pass {
        passed := passed + 1;
      }
    }
    assert checks[..|checks|] == checks;
  }

  method BuildPOC(health: HealthReport, res: ResilienceReport, tps: real, criteria: Criteria)
    returns (report: POCReport)
    ensures report.checks == Checks(health, res.simulations, tps, Effective(criteria))
    ensures report.passed == CountIf(report.checks, Passing()) && report.total == |report.checks|
    ensures report.criteria == Effective(criteria) && report.rf == health.topology.replicationFactor
    ensures report.nodes == health.topology.tserversTotal
    ensures report.regions == |health.topology.regions| && report.azs == |health.topology.zones|
  {
    var c := criteria;
    if c.name == "" {
      c := DEFAULT_CRITERIA;
    }
    var failures := BuildFailureChecks(res.simulations, c);
    var checks := SizeChecks(health, c) + failures + LoadChecks(health, tps, c);
    var passed := CountPassing(checks);
    var topo := health.topology;
    report := POCReport(c, topo.tserversTotal, |topo.regions|, |topo.zones|, topo.replicationFactor,
                        checks, passed, |checks|);
  }

  // ----- what the checks imply

  /** A report has node and zone simulations exactly when the snapshot has TServers. */
  lemma KindsPresent(snap: Snapshot)
    ensures (exists sim :: sim in Simulations(snap) && sim.kind == NodeLoss) <==> snap.tservers != []
    ensures (exists sim :: sim in Simulations(snap) && sim.kind == AZLoss) <==> snap.tservers != []
  {
    GroupsNonempty(snap);
    var nodes, zones, pairs, regions :=
      NodeSims(snap, snap.tservers), ZoneSims(snap, Zones(snap)), PairSims(snap, Zones(snap)),
      RegionSims(snap, Regions(snap));
    HasNodeSims(snap, snap.tservers);
    HasZoneSims(snap, Zones(snap));
    RegionSimsKind(snap, Regions(snap));
    PairKind(snap, Zones(snap));
    if snap.tservers == [] {
      assert KeySet(snap.tservers, ZoneKey()) == {} && KeySet(snap.tservers, RegionKey()) == {};
      assert |Zones(snap)| == 0;
      assert nodes == [] && zones == [];
    } else {
      ZoneOf(snap, snap.tservers[0]);
    }
    InFourParts(nodes, zones, pairs, regions);
  }

  /** A passing AZ check implies a passing node check. */
  lemma AZCheckImpliesNodeCheck(snap: Snapshot)
    ensures KindPasses(Simulations(snap), AZLoss) ==> KindPasses(Simulations(snap), NodeLoss)
  {
    KindsPresent(snap);
    FailuresNest(snap);
  }

  /** The AZ check cannot pass with fewer than three zones, as soon as one tablet is
      placed: the two criteria of the default bar are not independent. */
  lemma AZCheckNeedsThreeZones(snap: Snapshot, t: Tablet)
    requires t in snap.tablets && HasNoTwoMajorities(snap, t)
    requires forall p :: p in VotingPeers(t) ==> Listed(snap.tservers, p.tserverID)
    ensures KindPasses(Simulations(snap), AZLoss) ==> |FirstSeen(snap.tservers, ZoneKey())| >= 3
  {
    FirstSeenLength(snap.tservers, ZoneKey());
    if |Zones(snap)| <= 2 {
      AtMostTwoZonesFail(snap, t);
    }
  }

  /** The placement the tool recommends passes both failure checks. */
  lemma OneReplicaPerZonePassesChecks(snap: Snapshot)
    requires FullyAlive(snap) && FullyReplicated(snap) && snap.tservers != []
    requires snap.replicationFactor >= 3 && OneReplicaPerZone(snap)
    ensures KindPasses(Simulations(snap), AZLoss) && KindPasses(Simulations(snap), NodeLoss)
  {
    KindsPresent(snap);
    OneReplicaPerZoneTolerates(snap);
  }

  /** A snapshot whose replicas sit in at most two zones never meets a bar that asks for
      AZ tolerance, whatever else it does. */
  lemma TwoZonesNeverReady(snap: Snapshot, t: Tablet, health: HealthReport, tps: real, criteria: Criteria)
    requires |Zones(snap)| <= 2
    requires t in snap.tablets && HasNoTwoMajorities(snap, t)
    requires forall p :: p in VotingPeers(t) ==> Listed(snap.tservers, p.tserverID)
    requires Effective(criteria).tolerateAZFailure
    ensures var checks := Checks(health, Report(snap).simulations, tps, Effective(criteria));
            POCCheck(AZFailure, Fail) in checks && CountIf(checks, Passing()) < |checks|
  {
    AtMostTwoZonesFail(snap, t);
    var c, sims := Effective(criteria), Simulations(snap);
    var failed := POCCheck(AZFailure, Fail);
    assert When(true, StatusCheck(AZFailure, KindPasses(sims, AZLoss))) == [failed];
    assert failed in FailureChecks(sims, c);
    var checks := Checks(health, sims, tps, c);
    assert failed in checks;
    NotAllPass(checks, failed);
  }

  // ----- what it takes to pass

  /** Some simulation of the kind was run and none failed. */
  ghost predicate Survives(sims: seq<FailureSim>, kind: SimKind) {
    && (exists sim :: sim in sims && sim.kind == kind)
    && (forall sim :: sim in sims && sim.kind == kind ==> sim.status != Fail)
  }

  /** The cluster is large enough and survives what the criteria ask. */
  ghost predicate MeetsHardCriteria(health: HealthReport, sims: seq<FailureSim>, c: Criteria) {
    && health.topology.tserversTotal >= c.minNodes
    && |health.topology.zones| >= c.minAZs
    && health.topology.replicationFactor >= c.replicationFactor
    && (c.tolerateNodeFailure ==> Survives(sims, NodeLoss))
    && (c.tolerateAZFailure ==> Survives(sims, AZLoss))
    && (c.balancedTablets ==> health.tablets.tabletImbalance == Pass)
    && (c.balancedLeaders ==> health.tablets.leaderImbalance == Pass)
  }

  /** The latency is known and low enough, and the throughput high enough. */
  predicate MeetsSoftCriteria(health: HealthReport, tps: real, c: Criteria) {
    && (c.maxP99YSQLMS > 0.0 ==> 0.0 < health.performance.p99YSQLMS <= c.maxP99YSQLMS)
    && (c.minTPS > 0.0 ==> tps >= c.minTPS)
  }

  /** Some check fails exactly if a hard criterion is missed, some warns exactly if a soft
      one is, and the pass count is full exactly if none is. */
  lemma ReadyIff(health: HealthReport, sims: seq<FailureSim>, tps: real, c: Criteria)
    ensures var checks := Checks(health, sims, tps, c);
            && ((exists x :: x in checks && x.status == Fail) <==> !MeetsHardCriteria(health, sims, c))
            && ((exists x :: x in checks && x.status == Warn) <==> !MeetsSoftCriteria(health, tps, c))
            && (CountIf(checks, Passing()) == |checks| <==>
                MeetsHardCriteria(health, sims, c) && MeetsSoftCriteria(health, tps, c))
  {
    var checks := Checks(health, sims, tps, c);
    SizeStatuses(health, c);
    FailureStatuses(sims, c);
    LoadStatuses(health, tps, c);
    StatusesJoin(SizeChecks(health, c), FailureChecks(sims, c), LoadChecks(health, tps, c), Fail);
    StatusesJoin(SizeChecks(health, c), FailureChecks(sims, c), LoadChecks(health, tps, c), Warn);
    CountSplit(checks, Passing(), Missing());
    CountZero(checks, Missing());
    assert forall x :: x in checks ==> (Missing()(x) <==> x.status == Fail || x.status == Warn);
  }

  ghost predicate Has(checks: seq<POCCheck>, status: CheckStatus) {
    exists x :: x in checks && x.status == status
  }

  lemma StatusesJoin(a: seq<POCCheck>, b: seq<POCCheck>, c: seq<POCCheck>, status: CheckStatus)
    ensures Has(a + b + c, status) <==> Has(a, status) || Has(b, status) || Has(c, status)
  {
    assert forall x :: x in a + b + c <==> x in a || x in b || x in c;
  }

  lemma SizeStatuses(health: HealthReport, c: Criteria)
    ensures Has(SizeChecks(health, c), Fail) <==>
            !(health.topology.tserversTotal >= c.minNodes && |health.topology.zones| >= c.minAZs
              && health.topology.replicationFactor >= c.replicationFactor)
    ensures !Has(SizeChecks(health, c), Warn)
  {
    var checks := SizeChecks(health, c);
    assert checks[0] in checks && checks[1] in checks && checks[2] in checks;
  }

  lemma FailureStatuses(sims: seq<FailureSim>, c: Criteria)
    ensures Has(FailureChecks(sims, c), Fail) <==>
            !((c.tolerateNodeFailure ==> Survives(sims, NodeLoss)) && (c.tolerateAZFailure ==> Survives(sims, AZLoss)))
    ensures !Has(FailureChecks(sims, c), Warn)
  {
    assert KindPasses(sims, NodeLoss) <==> Survives(sims, NodeLoss);
    assert KindPasses(sims, AZLoss) <==> Survives(sims, AZLoss);
    var node := StatusCheck(NodeFailure, KindPasses(sims, NodeLoss));
    var zone := StatusCheck(AZFailure, KindPasses(sims, AZLoss));
    assert forall x :: x in FailureChecks(sims, c) <==>
      (c.tolerateNodeFailure && x == node) || (c.tolerateAZFailure && x == zone);
  }

  lemma LoadStatuses(health: HealthReport, tps: real, c: Criteria)
    ensures Has(LoadChecks(health, tps, c), Fail) <==>
            !((c.balancedTablets ==> health.tablets.tabletImbalance == Pass)
              && (c.balancedLeaders ==> health.tablets.leaderImbalance == Pass))
    ensures Has(LoadChecks(health, tps, c), Warn) <==> !MeetsSoftCriteria(health, tps, c)
  {
    var p99 := health.performance.p99YSQLMS;
    var tablets := StatusCheck(TabletDistribution, c.balancedTablets ==> health.tablets.tabletImbalance == Pass);
    var leaders := StatusCheck(LeaderDistribution, c.balancedLeaders ==> health.tablets.leaderImbalance == Pass);
    var latency := SoftCheck(P99Requirement, 0.0 < p99 <= c.maxP99YSQLMS);
    var throughput := SoftCheck(TPSRequirement, tps >= c.minTPS);
    assert forall x :: x in LoadChecks(health, tps, c) <==>
      x == tablets || x == leaders || (c.maxP99YSQLMS > 0.0 && x == latency) || (c.minTPS > 0.0 && x == throughput);
  }

  /** The checks have one answer of that name if asked, and otherwise none. */
  ghost predicate Answers(checks: seq<POCCheck>, name: CheckName, asked: bool, ok: bool, missed: CheckStatus) {
    forall status :: POCCheck(name, status) in checks <==> asked && status == if ok then Pass else missed
  }

  predicate SizeName(name: CheckName) {
    name == NodeCount || name == AZCount || name == RFValidation
  }

  predicate FailureName(name: CheckName) {
    name == NodeFailure || name == AZFailure
  }

  /** Each name belongs to one part of the checks. */
  ghost predicate Apart(size: seq<POCCheck>, failures: seq<POCCheck>, load: seq<POCCheck>) {
    && (forall x :: x in size ==> SizeName(x.name))
    && (forall x :: x in failures ==> FailureName(x.name))
    && (forall x :: x in load ==> !SizeName(x.name) && !FailureName(x.name))
  }

  /** A name is answered by all the checks as it is by the part it belongs to. */
  lemma AnsweredByPart(size: seq<POCCheck>, failures: seq<POCCheck>, load: seq<POCCheck>, name: CheckName, asked: bool,
                       ok: bool, missed: CheckStatus)
    requires Apart(size, failures, load)
    requires Answers(if SizeName(name) then size else if FailureName(name) then failures else load,
                     name, asked, ok, missed)
    ensures Answers(size + failures + load, name, asked, ok, missed)
  {
    assert forall x :: x in size + failures + load <==> x in size || x in failures || x in load;
  }

  lemma PartsApart(health: HealthReport, sims: seq<FailureSim>, tps: real, c: Criteria)
    ensures Apart(SizeChecks(health, c), FailureChecks(sims, c), LoadChecks(health, tps, c))
  {
    FailuresNamed(sims, c);
    LoadNamed(health, tps, c);
  }

  lemma FailuresNamed(sims: seq<FailureSim>, c: Criteria)
    ensures forall x :: x in FailureChecks(sims, c) ==> FailureName(x.name)
  {
  }

  lemma LoadNamed(health: HealthReport, tps: real, c: Criteria)
    ensures forall x :: x in LoadChecks(health, tps, c) ==> !SizeName(x.name) && !FailureName(x.name)
  {
  }

  lemma SizeAnswers(health: HealthReport, c: Criteria)
    ensures Answers(SizeChecks(health, c), NodeCount, true, health.topology.tserversTotal >= c.minNodes, Fail)
    ensures Answers(SizeChecks(health, c), AZCount, true, |health.topology.zones| >= c.minAZs, Fail)
    ensures Answers(SizeChecks(health, c), RFValidation, true,
                    health.topology.replicationFactor >= c.replicationFactor, Fail)
  {
    var size := SizeChecks(health, c);
    assert size[0] in size && size[1] in size && size[2] in size;
  }

  lemma FailureAnswers(sims: seq<FailureSim>, c: Criteria)
    ensures Answers(FailureChecks(sims, c), NodeFailure, c.tolerateNodeFailure, Survives(sims, NodeLoss), Fail)
    ensures Answers(FailureChecks(sims, c), AZFailure, c.tolerateAZFailure, Survives(sims, AZLoss), Fail)
  {
    assert KindPasses(sims, NodeLoss) <==> Survives(sims, NodeLoss);
    assert KindPasses(sims, AZLoss) <==> Survives(sims, AZLoss);
  }

  lemma LoadAnswers(health: HealthReport, tps: real, c: Criteria)
    ensures var load, p99 := LoadChecks(health, tps, c), health.performance.p99YSQLMS;
            && Answers(load, TabletDistribution, true,
                       c.balancedTablets ==> health.tablets.tabletImbalance == Pass, Fail)
            && Answers(load, LeaderDistribution, true,
                       c.balancedLeaders ==> health.tablets.leaderImbalance == Pass, Fail)
            && Answers(load, P99Requirement, c.maxP99YSQLMS > 0.0, 0.0 < p99 <= c.maxP99YSQLMS, Warn)
            && Answers(load, TPSRequirement, c.minTPS > 0.0, tps >= c.minTPS, Warn)
  {
    var load := LoadChecks(health, tps, c);
    assert load[0] in load && load[1] in load;
  }

  /** Each hard criterion is answered under its own name, by Pass or Fail, and one that is
      not asked is not answered. */
  lemma HardCriteriaAnswered(health: HealthReport, sims: seq<FailureSim>, tps: real, c: Criteria)
    ensures var checks := Checks(health, sims, tps, c);
            && Answers(checks, NodeCount, true, health.topology.tserversTotal >= c.minNodes, Fail)
            && Answers(checks, AZCount, true, |health.topology.zones| >= c.minAZs, Fail)
            && Answers(checks, RFValidation, true, health.topology.replicationFactor >= c.replicationFactor, Fail)
            && Answers(checks, NodeFailure, c.tolerateNodeFailure, Survives(sims, NodeLoss), Fail)
            && Answers(checks, AZFailure, c.tolerateAZFailure, Survives(sims, AZLoss), Fail)
  {
    var size, failures, load := SizeChecks(health, c), FailureChecks(sims, c), LoadChecks(health, tps, c);
    PartsApart(health, sims, tps, c);
    SizeAnswers(health, c);
    FailureAnswers(sims, c);
    AnsweredByPart(size, failures, load, NodeCount, true, health.topology.tserversTotal >= c.minNodes, Fail);
    AnsweredByPart(size, failures, load, AZCount, true, |health.topology.zones| >= c.minAZs, Fail);
    AnsweredByPart(size, failures, load, RFValidation, true,
                   health.topology.replicationFactor >= c.replicationFactor, Fail);
    AnsweredByPart(size, failures, load, NodeFailure, c.tolerateNodeFailure, Survives(sims, NodeLoss), Fail);
    AnsweredByPart(size, failures, load, AZFailure, c.tolerateAZFailure, Survives(sims, AZLoss), Fail);
  }

  /** So is each criterion on load, the soft ones, if asked, by Pass or Warn. */
  lemma LoadCriteriaAnswered(health: HealthReport, sims: seq<FailureSim>, tps: real, c: Criteria)
    ensures var checks := Checks(health, sims, tps, c);
            && Answers(checks, TabletDistribution, true,
                       c.balancedTablets ==> health.tablets.tabletImbalance == Pass, Fail)
            && Answers(checks, LeaderDistribution, true,
                       c.balancedLeaders ==> health.tablets.leaderImbalance == Pass, Fail)
            && Answers(checks, P99Requirement, c.maxP99YSQLMS > 0.0,
                       0.0 < health.performance.p99YSQLMS <= c.maxP99YSQLMS, Warn)
            && Answers(checks, TPSRequirement, c.minTPS > 0.0, tps >= c.minTPS, Warn)
  {
    var size, failures, load := SizeChecks(health, c), FailureChecks(sims, c), LoadChecks(health, tps, c);
    var p99 := health.performance.p99YSQLMS;
    PartsApart(health, sims, tps, c);
    LoadAnswers(health, tps, c);
    AnsweredByPart(size, failures, load, TabletDistribution, true,
                   c.balancedTablets ==> health.tablets.tabletImbalance == Pass, Fail);
    AnsweredByPart(size, failures, load, LeaderDistribution, true,
                   c.balancedLeaders ==> health.tablets.leaderImbalance == Pass, Fail);
    AnsweredByPart(size, failures, load, P99Requirement, c.maxP99YSQLMS > 0.0, 0.0 < p99 <= c.maxP99YSQLMS, Warn);
    AnsweredByPart(size, failures, load, TPSRequirement, c.minTPS > 0.0, tps >= c.minTPS, Warn);
  }

  /** The bar of unnamed criteria, in numbers. */
  lemma DefaultBar(health: HealthReport, sims: seq<FailureSim>, tps: real, criteria: Criteria)
    requires criteria.name == ""
    ensures var checks := Checks(health, sims, tps, Effective(criteria));
            CountIf(checks, Passing()) == |checks| <==>
              && health.topology.tserversTotal >= 3 && |health.topology.zones| >= 3
              && health.topology.replicationFactor >= 3
              && Survives(sims, NodeLoss) && Survives(sims, AZLoss)
              && health.tablets.tabletImbalance == Pass && health.tablets.leaderImbalance == Pass
              && 0.0 < health.performance.p99YSQLMS <= 20.0
  {
    ReadyIff(health, sims, tps, DEFAULT_CRITERIA);
  }

  function Missing(): POCCheck -> bool {
    (c: POCCheck) => c.status != Pass
  }

  lemma NotAllPass(checks: seq<POCCheck>, failed: POCCheck)
    requires failed in checks && failed.status != Pass
    ensures CountIf(checks, Passing()) < |checks|
  {
    CountSplit(checks, Passing(), Missing());
    CountZero(checks, Missing());
  }
}
