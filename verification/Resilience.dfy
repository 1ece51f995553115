/** The failure simulator: lose a node, a zone, a pair of zones or a region, and count
    the tablets left without a Raft majority. */
module Resilience {
  import opened Counting
  import opened Strings
  import opened Domain
  import opened Grouping

  datatype SimKind = NodeLoss | AZLoss | AZPairLoss | RegionLoss

  datatype Reason = MajorityRetained | QuorumLostOn(tablets: nat) | NoTablets

  datatype FailureSim = FailureSim(
    name: string, kind: SimKind, lost: seq<string>, status: CheckStatus, tabletsFailed: nat, reason: Reason)

  datatype AZBranch = AZBranch(name: string, nodes: seq<string>)

  datatype RegionBranch = RegionBranch(name: string, zones: seq<AZBranch>)

  datatype Advice = AddNodes | OneReplicaPerAZ | AddCrossRegion | AddRegionReplica | Tolerates

  datatype ResilienceReport = ResilienceReport(
    topologyTree: seq<RegionBranch>, simulations: seq<FailureSim>, recommendation: Advice)

  // ----- one failure

  /** The id belongs to a listed TServer the Master no longer hears. */
  predicate KnownDead(snap: Snapshot, id: NodeID) {
    var ts := FindTServer(snap.tservers, id);
    ts.Some? && !ts.value.Alive()
  }

  function Survives(snap: Snapshot, lost: set<NodeID>): TabletPeer -> bool {
    (p: TabletPeer) => p.tserverID !in lost && !KnownDead(snap, p.tserverID)
  }

  function Survivors(snap: Snapshot, lost: set<NodeID>, t: Tablet): nat {
    CountIf(VotingPeers(t), Survives(snap, lost))
  }

  /** A placed tablet whose surviving voters are no majority of the replication factor. */
  function LosesQuorum(snap: Snapshot, lost: set<NodeID>): Tablet -> bool {
    (t: Tablet) => ReplicaCount(t) > 0 && Survivors(snap, lost, t) < QuorumSize(snap.replicationFactor)
  }

  function FailedTablets(snap: Snapshot, lost: set<NodeID>): nat {
    CountIf(snap.tablets, LosesQuorum(snap, lost))
  }

  function Outcome(snap: Snapshot, name: string, kind: SimKind, lostNames: seq<string>, lost: set<NodeID>): FailureSim {
    var failed := FailedTablets(snap, lost);
    if snap.tablets == [] then FailureSim(name, kind, lostNames, Warn, 0, NoTablets)
    else if failed > 0 then FailureSim(name, kind, lostNames, Fail, failed, QuorumLostOn(failed))
    else FailureSim(name, kind, lostNames, Pass, 0, MajorityRetained)
  }

  method EvalFailure(snap: Snapshot, name: string, kind: SimKind, lostNames: seq<string>, lost: set<NodeID>)
    returns (sim: FailureSim)
    ensures sim == Outcome(snap, name, kind, lostNames, lost)
  {
    var quorum := QuorumSize(snap.replicationFactor);
    var failed := 0;
    for i := 0 to |snap.tablets|
      invariant failed == CountIf(snap.tablets[..i], LosesQuorum(snap, lost))
    {
      CountStep(snap.tablets, LosesQuorum(snap, lost), i);
      var voting := CollectVotingPeers(snap.tablets[i]);
      if |voting| == 0 { continue; }
      var remaining := 0;
      for j := 0 to |voting|
        invariant remaining == CountIf(voting[..j], Survives(snap, lost))
      {
        CountStep(voting, Survives(snap, lost), j);
        if voting[j].tserverID in lost { continue; }
        var ts := TServerByID(snap, voting[j].tserverID);
        if ts.Some? && !ts.value.Alive() { continue; }
        remaining := remaining + 1;
      }
      assert voting[..|voting|] == voting;
      if remaining < quorum {
        failed := failed + 1;
      }
    }
    assert snap.tablets[..|snap.tablets|] == snap.tablets;
    var status, reason := Pass, MajorityRetained;
    if failed > 0 {
      status, reason := Fail, QuorumLostOn(failed);
    }
    if |snap.tablets| == 0 {
      status, reason := Warn, NoTablets;
    }
    sim := FailureSim(name, kind, lostNames, status, failed, reason);
  }

  // ----- all failures

  function ZoneLabel(p: Placement): string {
    if p.zone != "" then p.zone else p.Key()
  }

  function RegionLabel(p: Placement, key: string): string {
    if p.region != "" then p.region else key
  }

  ghost function Zones(snap: Snapshot): seq<string> {
    SortedSet(KeySet(snap.tservers, ZoneKey()))
  }

  ghost function Regions(snap: Snapshot): seq<string> {
    SortedSet(KeySet(snap.tservers, RegionKey()))
  }

  function InZone(snap: Snapshot, z: string): seq<TServer> {
    Members(snap.tservers, ZoneKey(), z)
  }

  function InRegion(snap: Snapshot, r: string): seq<TServer> {
    Members(snap.tservers, RegionKey(), r)
  }

  function NodeSim(snap: Snapshot, ts: TServer): FailureSim {
    Outcome(snap, "Lose " + ts.DisplayName(), NodeLoss, [ts.DisplayName()], {ts.id})
  }

  function ZoneSim(snap: Snapshot, z: string): FailureSim
    requires InZone(snap, z) != []
  {
    var nodes := InZone(snap, z);
    Outcome(snap, "Lose " + ZoneLabel(nodes[0].placement), AZLoss, SortStrings(Names(nodes)), IDs(nodes))
  }

  function PairSim(snap: Snapshot, a: string, b: string): FailureSim
    requires InZone(snap, a) != [] && InZone(snap, b) != []
  {
    var na, nb := InZone(snap, a), InZone(snap, b);
    Outcome(snap, "Lose " + (ZoneLabel(na[0].placement) + " + " + ZoneLabel(nb[0].placement)), AZPairLoss,
            SortStrings(Names(na)) + SortStrings(Names(nb)), IDs(na) + IDs(nb))
  }

  function RegionSim(snap: Snapshot, r: string): FailureSim
    requires InRegion(snap, r) != []
  {
    var nodes := InRegion(snap, r);
    Outcome(snap, "Lose " + RegionLabel(nodes[0].placement, r), RegionLoss, SortStrings(Names(nodes)), IDs(nodes))
  }

  lemma GroupsNonempty(snap: Snapshot)
    ensures forall z :: z in Zones(snap) ==> InZone(snap, z) != []
    ensures forall r :: r in Regions(snap) ==> InRegion(snap, r) != []
  {
    forall z | z in Zones(snap) ensures InZone(snap, z) != [] {
      MembersNonempty(snap.tservers, ZoneKey(), z);
    }
    forall r | r in Regions(snap) ensures InRegion(snap, r) != [] {
      MembersNonempty(snap.tservers, RegionKey(), r);
    }
  }

  function NodeSims(snap: Snapshot, nodes: seq<TServer>): seq<FailureSim> {
    if nodes == [] then [] else NodeSims(snap, nodes[..|nodes| - 1]) + [NodeSim(snap, nodes[|nodes| - 1])]
  }

  function ZoneSims(snap: Snapshot, zs: seq<string>): seq<FailureSim>
    requires forall z :: z in zs ==> InZone(snap, z) != []
  {
    if zs == [] then [] else ZoneSims(snap, zs[..|zs| - 1]) + [ZoneSim(snap, zs[|zs| - 1])]
  }

  function PairSims(snap: Snapshot, zs: seq<string>): seq<FailureSim>
    requires forall z :: z in zs ==> InZone(snap, z) != []
  {
    if |zs| >= 2 then [PairSim(snap, zs[0], zs[1])] else []
  }

  function RegionSims(snap: Snapshot, rs: seq<string>): seq<FailureSim>
    requires forall r :: r in rs ==> InRegion(snap, r) != []
  {
    if rs == [] then [] else RegionSims(snap, rs[..|rs| - 1]) + [RegionSim(snap, rs[|rs| - 1])]
  }

  /** One simulation per TServer in order, then per zone, the first two zones
      together if there are two, then per region; zones and regions by key. */
  ghost function Simulations(snap: Snapshot): seq<FailureSim> {
    GroupsNonempty(snap);
    NodeSims(snap, snap.tservers) +
    (ZoneSims(snap, Zones(snap)) + PairSims(snap, Zones(snap))) +
    RegionSims(snap, Regions(snap))
  }

  ghost predicate SomeFails(sims: seq<FailureSim>, kind: SimKind) {
    exists sim :: sim in sims && sim.kind == kind && sim.status == Fail
  }

  ghost function Recommended(snap: Snapshot, sims: seq<FailureSim>): Advice {
    if SomeFails(sims, NodeLoss) then AddNodes
    else if SomeFails(sims, AZLoss) then OneReplicaPerAZ
    else if SomeFails(sims, RegionLoss) then
      if |KeySet(snap.tservers, RegionKey())| == 1 then AddCrossRegion else AddRegionReplica
    else Tolerates
  }

  method Recommendation(snap: Snapshot, sims: seq<FailureSim>) returns (advice: Advice)
    ensures advice == Recommended(snap, sims)
  {
    var regionFail, azFail, nodeFail := false, false, false;
    for i := 0 to |sims|
      invariant regionFail == SomeFails(sims[..i], RegionLoss)
      invariant azFail == SomeFails(sims[..i], AZLoss)
      invariant nodeFail == SomeFails(sims[..i], NodeLoss)
    {
      var sim := sims[i];
      assert sims[..i + 1] == sims[..i] + [sim];
      forall k
        ensures SomeFails(sims[..i + 1], k) == (SomeFails(sims[..i], k) || (sim.kind == k && sim.status == Fail))
      {
        assert forall x :: x in sims[..i + 1] <==> x in sims[..i] || x == sim;
      }
      if sim.status != Fail { continue; }
      match sim.kind {
        case RegionLoss => regionFail := true;
        case AZLoss => azFail := true;
        case NodeLoss => nodeFail := true;
        case AZPairLoss =>
      }
    }
    assert sims[..|sims|] == sims;
    var regions := DistinctKeys(snap.tservers, RegionKey());
    FirstSeenLength(snap.tservers, RegionKey());
    if nodeFail {
      advice := AddNodes;
    } else if azFail {
      advice := OneReplicaPerAZ;
    } else if regionFail && |regions| == 1 {
      advice := AddCrossRegion;
    } else if regionFail {
      advice := AddRegionReplica;
    } else {
      advice := Tolerates;
    }
  }

  // ----- the topology tree

  function AZBranchOf(nodes: seq<TServer>, z: string): AZBranch {
    AZBranch(if z == "" then "unspecified" else z, SortStrings(Names(Members(nodes, ZoneName(), z))))
  }

  function AZBranches(nodes: seq<TServer>, zones: seq<string>): seq<AZBranch> {
    if zones == [] then []
    else AZBranches(nodes, zones[..|zones| - 1]) + [AZBranchOf(nodes, zones[|zones| - 1])]
  }

  ghost function Branch(snap: Snapshot, r: string): RegionBranch
    requires InRegion(snap, r) != []
  {
    var nodes := InRegion(snap, r);
    RegionBranch(RegionLabel(nodes[0].placement, r), AZBranches(nodes, SortedSet(KeySet(nodes, ZoneName()))))
  }

  ghost function Branches(snap: Snapshot, rs: seq<string>): seq<RegionBranch>
    requires forall r :: r in rs ==> InRegion(snap, r) != []
  {
    if rs == [] then []
    else Branches(snap, rs[..|rs| - 1]) + [Branch(snap, rs[|rs| - 1])]
  }

  /** Region, then zone, then sorted display names; regions and zones by key. */
  ghost function Tree(snap: Snapshot): seq<RegionBranch> {
    GroupsNonempty(snap);
    Branches(snap, Regions(snap))
  }

  method BuildAZBranches(nodes: seq<TServer>, keys: seq<string>, zones: map<string, seq<TServer>>)
    returns (out: seq<AZBranch>)
    requires forall k :: k in keys ==> k in zones && zones[k] == Members(nodes, ZoneName(), k)
    ensures out == AZBranches(nodes, keys)
  {
    out := [];
    for i := 0 to |keys|
      invariant out == AZBranches(nodes, keys[..i])
    {
      assert keys[..i + 1][..i] == keys[..i];
      var names := NamesOf(zones[keys[i]]);
      out := out + [AZBranch(if keys[i] == "" then "unspecified" else keys[i], names)];
    }
    assert keys[..|keys|] == keys;
  }

  method BuildBranch(snap: Snapshot, r: string, members: seq<TServer>) returns (branch: RegionBranch)
    requires members == InRegion(snap, r) && members != []
    ensures branch == Branch(snap, r)
  {
    var keys, zones := SortedGroups(members, ZoneName());
    var branches := BuildAZBranches(members, keys, zones);
    branch := RegionBranch(RegionLabel(members[0].placement, r), branches);
  }

  method AppendBranch(snap: Snapshot, keys: seq<string>, i: nat, members: seq<TServer>, before: seq<RegionBranch>)
    returns (out: seq<RegionBranch>)
    requires i < |keys| && forall r :: r in keys ==> InRegion(snap, r) != []
    requires members == InRegion(snap, keys[i]) && before == Branches(snap, keys[..i])
    ensures out == Branches(snap, keys[..i + 1])
  {
    var branch := BuildBranch(snap, keys[i], members);
    out := before + [branch];
    assert keys[..i + 1][..i] == keys[..i];
  }

  method BuildBranches(snap: Snapshot, keys: seq<string>, regions: map<string, seq<TServer>>)
    returns (out: seq<RegionBranch>)
    requires forall k :: k in keys ==> k in regions && regions[k] == InRegion(snap, k) && regions[k] != []
    ensures out == Branches(snap, keys)
  {
    assert forall k :: k in keys ==> InRegion(snap, k) != [];
    out := [];
    for i := 0 to |keys|
      invariant out == Branches(snap, keys[..i])
    {
      out := AppendBranch(snap, keys, i, regions[keys[i]], out);
    }
    assert keys[..|keys|] == keys;
  }

  method BuildTopologyTree(snap: Snapshot) returns (out: seq<RegionBranch>)
    ensures out == Tree(snap)
  {
    var keys, regions := SortedGroups(snap.tservers, RegionKey());
    out := BuildBranches(snap, keys, regions);
  }

  // ----- the whole report

  method SimulateNodes(snap: Snapshot) returns (sims: seq<FailureSim>)
    ensures sims == NodeSims(snap, snap.tservers)
  {
    sims := [];
    for i := 0 to |snap.tservers|
      invariant sims == NodeSims(snap, snap.tservers[..i])
    {
      assert snap.tservers[..i + 1][..i] == snap.tservers[..i];
      var ts := snap.tservers[i];
      var sim := EvalFailure(snap, "Lose " + ts.DisplayName(), NodeLoss, [ts.DisplayName()], {ts.id});
      sims := sims + [sim];
    }
    assert snap.tservers[..|snap.tservers|] == snap.tservers;
  }

  method SimulateZone(snap: Snapshot, z: string, members: seq<TServer>) returns (sim: FailureSim)
    requires members == InZone(snap, z) && members != []
    ensures sim == ZoneSim(snap, z)
  {
    var lost := IDsOf(members);
    var names := NamesOf(members);
    sim := EvalFailure(snap, "Lose " + ZoneLabel(members[0].placement), AZLoss, names, lost);
  }

  method SimulatePair(snap: Snapshot, z: string, w: string, a: seq<TServer>, b: seq<TServer>) returns (sim: FailureSim)
    requires a == InZone(snap, z) && b == InZone(snap, w) && a != [] && b != []
    ensures sim == PairSim(snap, z, w)
  {
    var lostA := IDsOf(a);
    var lostB := IDsOf(b);
    var namesA := NamesOf(a);
    var namesB := NamesOf(b);
    sim := EvalFailure(snap, "Lose " + (ZoneLabel(a[0].placement) + " + " + ZoneLabel(b[0].placement)), AZPairLoss,
                       namesA + namesB, lostA + lostB);
  }

  method SimulateRegion(snap: Snapshot, r: string, members: seq<TServer>) returns (sim: FailureSim)
    requires members == InRegion(snap, r) && members != []
    ensures sim == RegionSim(snap, r)
  {
    var lost := IDsOf(members);
    var names := NamesOf(members);
    sim := EvalFailure(snap, "Lose " + RegionLabel(members[0].placement, r), RegionLoss, names, lost);
  }

  method SimulateZones(snap: Snapshot, keys: seq<string>, zones: map<string, seq<TServer>>)
    returns (sims: seq<FailureSim>)
    requires forall k :: k in keys ==> k in zones && zones[k] == InZone(snap, k) && zones[k] != []
    ensures sims == ZoneSims(snap, keys)
  {
    sims := [];
    for i := 0 to |keys|
      invariant sims == ZoneSims(snap, keys[..i])
    {
      assert keys[..i + 1][..i] == keys[..i];
      var sim := SimulateZone(snap, keys[i], zones[keys[i]]);
      sims := sims + [sim];
    }
    assert keys[..|keys|] == keys;
  }

  method SimulateFirstPair(snap: Snapshot, keys: seq<string>, zones: map<string, seq<TServer>>)
    returns (sims: seq<FailureSim>)
    requires forall k :: k in keys ==> k in zones && zones[k] == InZone(snap, k) && zones[k] != []
    ensures sims == PairSims(snap, keys)
  {
    sims := [];
    if |keys| >= 2 {
      var sim := SimulatePair(snap, keys[0], keys[1], zones[keys[0]], zones[keys[1]]);
      sims := [sim];
    }
  }

  method SimulateRegions(snap: Snapshot, keys: seq<string>, regions: map<string, seq<TServer>>)
    returns (sims: seq<FailureSim>)
    requires forall k :: k in keys ==> k in regions && regions[k] == InRegion(snap, k) && regions[k] != []
    ensures sims == RegionSims(snap, keys)
  {
    sims := [];
    for i := 0 to |keys|
      invariant sims == RegionSims(snap, keys[..i])
    {
      assert keys[..i + 1][..i] == keys[..i];
      var sim := SimulateRegion(snap, keys[i], regions[keys[i]]);
      sims := sims + [sim];
    }
    assert keys[..|keys|] == keys;
  }

  method SimulateResilience(snap: Snapshot) returns (res: ResilienceReport)
    ensures res == Report(snap)
  {
    var tree := BuildTopologyTree(snap);
    var nodeSims := SimulateNodes(snap);
    var zoneKeys, zones := SortedGroups(snap.tservers, ZoneKey());
    var zoneSims := SimulateZones(snap, zoneKeys, zones);
    var pairSims := SimulateFirstPair(snap, zoneKeys, zones);
    var regionKeys, regions := SortedGroups(snap.tservers, RegionKey());
    var regionSims := SimulateRegions(snap, regionKeys, regions);
    var sims := nodeSims + (zoneSims + pairSims) + regionSims;
    var advice := Recommendation(snap, sims);
    res := ResilienceReport(tree, sims, advice);
  }

  ghost function Report(snap: Snapshot): ResilienceReport {
    ResilienceReport(Tree(snap), Simulations(snap), Recommended(snap, Simulations(snap)))
  }
}
