/** What the failure simulator's verdicts imply about each other and about the placement. */
module ResilienceTheorems {
  import opened Counting
  import opened Strings
  import opened Domain
  import opened Grouping
  import opened Resilience

  // ----- monotonicity

  lemma FewerSurvive(snap: Snapshot, lost: set<NodeID>, more: set<NodeID>, t: Tablet)
    requires lost <= more
    ensures Survivors(snap, more, t) <= Survivors(snap, lost, t)
  {
    CountMonotone(VotingPeers(t), Survives(snap, more), Survives(snap, lost));
  }

  /** Losing more servers never saves a tablet. */
  lemma LosingMoreFailsMore(snap: Snapshot, lost: set<NodeID>, more: set<NodeID>)
    requires lost <= more
    ensures FailedTablets(snap, lost) <= FailedTablets(snap, more)
  {
    forall t | t in snap.tablets && LosesQuorum(snap, lost)(t) ensures LosesQuorum(snap, more)(t) {
      FewerSurvive(snap, lost, more, t);
    }
    CountMonotone(snap.tablets, LosesQuorum(snap, lost), LosesQuorum(snap, more));
  }

  lemma FailsIff(snap: Snapshot, name: string, kind: SimKind, names: seq<string>, lost: set<NodeID>)
    ensures Outcome(snap, name, kind, names, lost).status == Fail <==> FailedTablets(snap, lost) > 0
    ensures Outcome(snap, name, kind, names, lost).status == Fail <==>
            exists t :: t in snap.tablets && LosesQuorum(snap, lost)(t)
    ensures Outcome(snap, name, kind, names, lost).tabletsFailed == FailedTablets(snap, lost)
  {
    CountZero(snap.tablets, LosesQuorum(snap, lost));
  }

  lemma MemberIDs(nodes: seq<TServer>, key: TServer -> string, ts: TServer)
    requires ts in nodes
    ensures ts in Members(nodes, key, key(ts)) && ts.id in IDs(Members(nodes, key, key(ts)))
  {
    MemberHasKey(nodes, key, key(ts), ts);
  }

  /** A node whose loss breaks quorum takes its zone's simulation down with it. */
  lemma NodeFailsThenZoneFails(snap: Snapshot, ts: TServer)
    requires ts in snap.tservers
    ensures InZone(snap, ts.placement.Key()) != []
    ensures NodeSim(snap, ts).tabletsFailed <= ZoneSim(snap, ts.placement.Key()).tabletsFailed
    ensures NodeSim(snap, ts).status == Fail ==> ZoneSim(snap, ts.placement.Key()).status == Fail
  {
    var z := ts.placement.Key();
    MemberIDs(snap.tservers, ZoneKey(), ts);
    assert ts in InZone(snap, z) && ts.id in IDs(InZone(snap, z));
    LosingMoreFailsMore(snap, {ts.id}, IDs(InZone(snap, z)));
  }

  /** No zone key spans two region keys. */
  ghost predicate ZonesWithinRegions(tservers: seq<TServer>) {
    forall a, b :: a in tservers && b in tservers && a.placement.Key() == b.placement.Key() ==>
      a.placement.RegionKey() == b.placement.RegionKey()
  }

  lemma DotFreeZonesNest(tservers: seq<TServer>)
    requires AllDotFree(tservers)
    ensures ZonesWithinRegions(tservers)
  {
    forall a, b | a in tservers && b in tservers && a.placement.Key() == b.placement.Key()
      ensures a.placement.RegionKey() == b.placement.RegionKey()
    {
      ZoneRefinesRegion(a, b);
    }
  }

  /** Where zones lie within regions, as they do on dot-free names, a failing zone takes
      its region's simulation down with it. */
  lemma ZoneFailsThenRegionFails(snap: Snapshot, ts: TServer)
    requires ts in snap.tservers && ZonesWithinRegions(snap.tservers)
    ensures InZone(snap, ts.placement.Key()) != [] && InRegion(snap, ts.placement.RegionKey()) != []
    ensures ZoneSim(snap, ts.placement.Key()).tabletsFailed <= RegionSim(snap, ts.placement.RegionKey()).tabletsFailed
    ensures ZoneSim(snap, ts.placement.Key()).status == Fail ==>
            RegionSim(snap, ts.placement.RegionKey()).status == Fail
  {
    var z, r := ts.placement.Key(), ts.placement.RegionKey();
    MemberIDs(snap.tservers, ZoneKey(), ts);
    MemberIDs(snap.tservers, RegionKey(), ts);
    assert ts in InZone(snap, z) && ts in InRegion(snap, r);
    forall id | id in IDs(InZone(snap, z)) ensures id in IDs(InRegion(snap, r)) {
      var n :| n in InZone(snap, z) && n.id == id;
      MemberHasKey(snap.tservers, ZoneKey(), z, n);
      MemberHasKey(snap.tservers, RegionKey(), r, n);
    }
    LosingMoreFailsMore(snap, IDs(InZone(snap, z)), IDs(InRegion(snap, r)));
  }

  /** A pair of zones that can be lost together can be lost one at a time. */
  lemma PairPassesThenZonesPass(snap: Snapshot, a: string, b: string)
    requires InZone(snap, a) != [] && InZone(snap, b) != []
    ensures ZoneSim(snap, a).tabletsFailed <= PairSim(snap, a, b).tabletsFailed
    ensures ZoneSim(snap, b).tabletsFailed <= PairSim(snap, a, b).tabletsFailed
    ensures PairSim(snap, a, b).status == Pass ==> ZoneSim(snap, a).status == Pass && ZoneSim(snap, b).status == Pass
  {
    var la, lb := IDs(InZone(snap, a)), IDs(InZone(snap, b));
    LosingMoreFailsMore(snap, la, la + lb);
    LosingMoreFailsMore(snap, lb, la + lb);
  }

  /** The zones with the two least keys. */
  ghost predicate FirstTwoZones(snap: Snapshot, z: string, w: string) {
    && InZone(snap, z) != [] && InZone(snap, w) != [] && Less(z, w)
    && forall ts :: ts in snap.tservers ==>
         AtMost(z, ts.placement.Key()) && (ts.placement.Key() != z ==> AtMost(w, ts.placement.Key()))
  }

  /** The only pair of zones that is lost together is the one with the two least keys. */
  lemma PairIsTheFirst(snap: Snapshot, sim: FailureSim) returns (z: string, w: string)
    requires sim in Simulations(snap) && sim.kind == AZPairLoss
    ensures FirstTwoZones(snap, z, w)
    ensures sim.tabletsFailed == FailedTablets(snap, IDs(InZone(snap, z)) + IDs(InZone(snap, w)))
  {
    PairSimOf(snap, sim);
    z, w := Zones(snap)[0], Zones(snap)[1];
    LeastTwoKeys(snap);
    FailsIff(snap, sim.name, sim.kind, sim.lost, IDs(InZone(snap, z)) + IDs(InZone(snap, w)));
  }

  lemma LeastTwoKeys(snap: Snapshot)
    requires |Zones(snap)| >= 2
    ensures FirstTwoZones(snap, Zones(snap)[0], Zones(snap)[1])
  {
    var zs := Zones(snap);
    assert zs[0] in zs && zs[1] in zs;
    GroupsNonempty(snap);
    SortedSetSorts(KeySet(snap.tservers, ZoneKey()));
    forall ts | ts in snap.tservers
      ensures AtMost(zs[0], ts.placement.Key()) && (ts.placement.Key() != zs[0] ==> AtMost(zs[1], ts.placement.Key()))
    {
      ZoneOf(snap, ts);
      KeyFrom(zs, ts.placement.Key());
    }
  }

  lemma KeyFrom(zs: seq<string>, k: string)
    requires |zs| >= 2 && StrictlySorted(zs) && k in zs
    ensures AtMost(zs[0], k) && (k != zs[0] ==> AtMost(zs[1], k))
  {
    var i :| 0 <= i < |zs| && zs[i] == k;
  }

  lemma PairSimOf(snap: Snapshot, sim: FailureSim)
    requires sim in Simulations(snap) && sim.kind == AZPairLoss
    ensures |Zones(snap)| >= 2 && InZone(snap, Zones(snap)[0]) != [] && InZone(snap, Zones(snap)[1]) != []
    ensures sim == PairSim(snap, Zones(snap)[0], Zones(snap)[1])
  {
    GroupsNonempty(snap);
    HasNodeSims(snap, snap.tservers);
    HasZoneSims(snap, Zones(snap));
    RegionSimsKind(snap, Regions(snap));
    InFourParts(NodeSims(snap, snap.tservers), ZoneSims(snap, Zones(snap)), PairSims(snap, Zones(snap)),
                RegionSims(snap, Regions(snap)));
    if |Zones(snap)| >= 2 {
      assert Zones(snap)[0] in Zones(snap) && Zones(snap)[1] in Zones(snap);
    }
  }

  /** The names a zone or region simulation says are lost are the display names of exactly
      its servers, in order. */
  lemma LostNames(snap: Snapshot, key: TServer -> string, k: string)
    ensures Sorted(SortStrings(Names(Members(snap.tservers, key, k))))
    ensures forall name :: name in SortStrings(Names(Members(snap.tservers, key, k))) <==>
              exists ts :: ts in snap.tservers && key(ts) == k && ts.DisplayName() == name
  {
    var members := Members(snap.tservers, key, k);
    SortStringsSorts(Names(members));
    forall name ensures name in SortStrings(Names(members)) <==>
                        exists ts :: ts in snap.tservers && key(ts) == k && ts.DisplayName() == name
    {
      assert name in SortStrings(Names(members)) <==> name in multiset(SortStrings(Names(members)));
      assert name in Names(members) <==> name in multiset(Names(members));
      NamesMembers(members, name);
      if ts :| ts in snap.tservers && key(ts) == k && ts.DisplayName() == name {
        MemberHasKey(snap.tservers, key, k, ts);
      }
      if ts :| ts in members && ts.DisplayName() == name {
        MemberHasKey(snap.tservers, key, k, ts);
      }
    }
  }

  lemma NamesMembers(nodes: seq<TServer>, name: string)
    ensures name in Names(nodes) <==> exists ts :: ts in nodes && ts.DisplayName() == name
  {
    if name in Names(nodes) {
      var i :| 0 <= i < |nodes| && Names(nodes)[i] == name;
      assert nodes[i] in nodes;
    }
    if ts :| ts in nodes && ts.DisplayName() == name {
      var i :| 0 <= i < |nodes| && nodes[i] == ts;
      assert Names(nodes)[i] == name;
    }
  }

  // ----- what is among the simulations

  lemma SomeFailsConcat(a: seq<FailureSim>, b: seq<FailureSim>, kind: SimKind)
    ensures SomeFails(a + b, kind) <==> SomeFails(a, kind) || SomeFails(b, kind)
  {
  }

  lemma SomeFailsOne(sims: seq<FailureSim>, sim: FailureSim, kind: SimKind)
    ensures SomeFails(sims + [sim], kind) <==> SomeFails(sims, kind) || (sim.kind == kind && sim.status == Fail)
  {
    SomeFailsConcat(sims, [sim], kind);
    assert sim in [sim];
  }

  ghost predicate NodeFailsAmong(snap: Snapshot, nodes: seq<TServer>) {
    exists ts :: ts in nodes && NodeSim(snap, ts).status == Fail
  }

  ghost predicate ZoneFailsAmong(snap: Snapshot, zs: seq<string>) {
    exists z :: z in zs && InZone(snap, z) != [] && ZoneSim(snap, z).status == Fail
  }

  ghost predicate RegionFailsAmong(snap: Snapshot, rs: seq<string>) {
    exists r :: r in rs && InRegion(snap, r) != [] && RegionSim(snap, r).status == Fail
  }

  lemma {:induction false} NodeSimsFail(snap: Snapshot, nodes: seq<TServer>, kind: SimKind)
    ensures SomeFails(NodeSims(snap, nodes), kind) <==> kind == NodeLoss && NodeFailsAmong(snap, nodes)
  {
    if nodes != [] {
      var n := |nodes| - 1;
      assert nodes == nodes[..n] + [nodes[n]];
      NodeSimsFail(snap, nodes[..n], kind);
      SomeFailsOne(NodeSims(snap, nodes[..n]), NodeSim(snap, nodes[n]), kind);
      NodeFailsOneMore(snap, nodes[..n], nodes[n]);
    }
  }

  lemma NodeFailsOneMore(snap: Snapshot, nodes: seq<TServer>, ts: TServer)
    ensures NodeFailsAmong(snap, nodes + [ts]) <==> NodeFailsAmong(snap, nodes) || NodeSim(snap, ts).status == Fail
  {
    assert ts in nodes + [ts];
    assert forall x :: x in nodes ==> x in nodes + [ts];
  }

  lemma ZoneSimsOneMore(snap: Snapshot, zs: seq<string>, z: string, kind: SimKind)
    requires InZone(snap, z) != [] && forall x :: x in zs ==> InZone(snap, x) != []
    ensures forall x :: x in zs + [z] ==> InZone(snap, x) != []
    ensures SomeFails(ZoneSims(snap, zs + [z]), kind) <==>
            SomeFails(ZoneSims(snap, zs), kind) || (kind == AZLoss && ZoneSim(snap, z).status == Fail)
  {
    assert (zs + [z])[..|zs|] == zs;
    SomeFailsOne(ZoneSims(snap, zs), ZoneSim(snap, z), kind);
  }

  lemma {:induction false} ZoneSimsFail(snap: Snapshot, zs: seq<string>, kind: SimKind)
    requires forall z :: z in zs ==> InZone(snap, z) != []
    ensures SomeFails(ZoneSims(snap, zs), kind) <==> kind == AZLoss && ZoneFailsAmong(snap, zs)
  {
    if zs != [] {
      var before, z := zs[..|zs| - 1], zs[|zs| - 1];
      assert zs == before + [z];
      ZoneSimsFail(snap, before, kind);
      ZoneSimsOneMore(snap, before, z, kind);
      ZoneFailsOneMore(snap, before, z);
    }
  }

  lemma ZoneFailsOneMore(snap: Snapshot, zs: seq<string>, z: string)
    requires InZone(snap, z) != []
    ensures ZoneFailsAmong(snap, zs + [z]) <==> ZoneFailsAmong(snap, zs) || ZoneSim(snap, z).status == Fail
  {
    assert z in zs + [z];
    assert forall x :: x in zs ==> x in zs + [z];
  }

  lemma RegionSimsOneMore(snap: Snapshot, rs: seq<string>, r: string, kind: SimKind)
    requires InRegion(snap, r) != [] && forall x :: x in rs ==> InRegion(snap, x) != []
    ensures forall x :: x in rs + [r] ==> InRegion(snap, x) != []
    ensures SomeFails(RegionSims(snap, rs + [r]), kind) <==>
            SomeFails(RegionSims(snap, rs), kind) || (kind == RegionLoss && RegionSim(snap, r).status == Fail)
  {
    assert (rs + [r])[..|rs|] == rs;
    SomeFailsOne(RegionSims(snap, rs), RegionSim(snap, r), kind);
  }

  lemma {:induction false} RegionSimsFail(snap: Snapshot, rs: seq<string>, kind: SimKind)
    requires forall r :: r in rs ==> InRegion(snap, r) != []
    ensures SomeFails(RegionSims(snap, rs), kind) <==> kind == RegionLoss && RegionFailsAmong(snap, rs)
  {
    if rs != [] {
      var before, r := rs[..|rs| - 1], rs[|rs| - 1];
      assert rs == before + [r];
      RegionSimsFail(snap, before, kind);
      RegionSimsOneMore(snap, before, r, kind);
      RegionFailsOneMore(snap, before, r);
    }
  }

  lemma RegionFailsOneMore(snap: Snapshot, rs: seq<string>, r: string)
    requires InRegion(snap, r) != []
    ensures RegionFailsAmong(snap, rs + [r]) <==> RegionFailsAmong(snap, rs) || RegionSim(snap, r).status == Fail
  {
    assert r in rs + [r];
    assert forall x :: x in rs ==> x in rs + [r];
  }

  ghost predicate SomeNodeFails(snap: Snapshot) {
    NodeFailsAmong(snap, snap.tservers)
  }

  ghost predicate SomeZoneFails(snap: Snapshot) {
    ZoneFailsAmong(snap, Zones(snap))
  }

  ghost predicate SomeRegionFails(snap: Snapshot) {
    RegionFailsAmong(snap, Regions(snap))
  }

  /** A simulation of each kind fails exactly when one over the TServers, the zones
      or the regions does; no other simulation carries that kind. */
  lemma FailuresByKind(snap: Snapshot)
    ensures SomeFails(Simulations(snap), NodeLoss) <==> SomeNodeFails(snap)
    ensures SomeFails(Simulations(snap), AZLoss) <==> SomeZoneFails(snap)
    ensures SomeFails(Simulations(snap), RegionLoss) <==> SomeRegionFails(snap)
  {
    FailuresOfKind(snap, NodeLoss);
    FailuresOfKind(snap, AZLoss);
    FailuresOfKind(snap, RegionLoss);
  }

  lemma FailuresOfKind(snap: Snapshot, kind: SimKind)
    requires kind != AZPairLoss
    ensures SomeFails(Simulations(snap), kind) <==>
            if kind == NodeLoss then SomeNodeFails(snap)
            else if kind == AZLoss then SomeZoneFails(snap)
            else SomeRegionFails(snap)
  {
    GroupsNonempty(snap);
    var zs, rs := Zones(snap), Regions(snap);
    NodeSimsFail(snap, snap.tservers, kind);
    ZoneSimsFail(snap, zs, kind);
    RegionSimsFail(snap, rs, kind);
    PairSimsKind(snap, zs, kind);
    SomeFailsInParts(NodeSims(snap, snap.tservers), ZoneSims(snap, zs), PairSims(snap, zs), RegionSims(snap, rs), kind);
  }

  lemma PairSimsKind(snap: Snapshot, zs: seq<string>, kind: SimKind)
    requires forall z :: z in zs ==> InZone(snap, z) != []
    requires kind != AZPairLoss
    ensures !SomeFails(PairSims(snap, zs), kind)
  {
  }

  lemma SomeFailsInParts(a: seq<FailureSim>, b: seq<FailureSim>, c: seq<FailureSim>, d: seq<FailureSim>, kind: SimKind)
    ensures SomeFails(a + (b + c) + d, kind) <==>
            SomeFails(a, kind) || SomeFails(b, kind) || SomeFails(c, kind) || SomeFails(d, kind)
  {
    SomeFailsConcat(b, c, kind);
    SomeFailsConcat(a, b + c, kind);
    SomeFailsConcat(a + (b + c), d, kind);
  }

  lemma ZoneOf(snap: Snapshot, ts: TServer)
    requires ts in snap.tservers
    ensures ts.placement.Key() in Zones(snap) && ts.placement.RegionKey() in Regions(snap)
  {
    assert ZoneKey()(ts) in KeySet(snap.tservers, ZoneKey());
    assert RegionKey()(ts) in KeySet(snap.tservers, RegionKey());
  }

  /** Over the whole report: a failing node means a failing zone, and where zones lie
      within regions a failing zone means a failing region. */
  lemma FailuresNest(snap: Snapshot)
    ensures SomeFails(Simulations(snap), NodeLoss) ==> SomeFails(Simulations(snap), AZLoss)
    ensures ZonesWithinRegions(snap.tservers) && SomeFails(Simulations(snap), AZLoss) ==>
              SomeFails(Simulations(snap), RegionLoss)
  {
    FailuresByKind(snap);
    if SomeNodeFails(snap) {
      var ts :| ts in snap.tservers && NodeSim(snap, ts).status == Fail;
      NodeFailsThenZoneFails(snap, ts);
      ZoneOf(snap, ts);
    }
    if ZonesWithinRegions(snap.tservers) && SomeZoneFails(snap) {
      var z :| z in Zones(snap) && InZone(snap, z) != [] && ZoneSim(snap, z).status == Fail;
      var ts := InZone(snap, z)[0];
      MemberHasKey(snap.tservers, ZoneKey(), z, ts);
      ZoneFailsThenRegionFails(snap, ts);
      ZoneOf(snap, ts);
    }
  }

  /** What each recommendation tells the operator. The last one is given exactly when no
      region loss fails, although its text speaks of nodes and zones; that needs zones to
      lie within regions, the rest holds always. */
  lemma RecommendationMeans(snap: Snapshot)
    ensures var advice := Report(snap).recommendation;
            && (advice == AddNodes <==> SomeNodeFails(snap))
            && (advice == OneReplicaPerAZ <==> SomeZoneFails(snap) && !SomeNodeFails(snap))
            && (advice == AddCrossRegion <==> SomeRegionFails(snap) && !SomeZoneFails(snap) && |Regions(snap)| == 1)
            && (advice == AddRegionReplica <==> SomeRegionFails(snap) && !SomeZoneFails(snap) && |Regions(snap)| > 1)
            && (advice == Tolerates <==> !SomeRegionFails(snap) && !SomeZoneFails(snap))
            && (ZonesWithinRegions(snap.tservers) ==> (advice == Tolerates <==> !SomeRegionFails(snap)))
  {
    FailuresByKind(snap);
    FailuresNest(snap);
  }

  // ----- when a zone can fail and no region

  /** As ZonesWithinRegions, but dead servers do not count. */
  ghost predicate AliveZonesWithinRegions(tservers: seq<TServer>) {
    forall a, b ::
      a in tservers && b in tservers && a.Alive() && b.Alive() && a.placement.Key() == b.placement.Key() ==>
        a.placement.RegionKey() == b.placement.RegionKey()
  }

  lemma SameID(tservers: seq<TServer>, a: TServer, b: TServer)
    requires DistinctIDs(tservers) && a in tservers && b in tservers && a.id == b.id
    ensures a == b && FindTServer(tservers, a.id) == Some(a)
  {
    var i :| 0 <= i < |tservers| && tservers[i] == a;
    var j :| 0 <= j < |tservers| && tservers[j] == b;
    FindDistinct(tservers, i);
    FindDistinct(tservers, j);
  }

  /** A region that holds the alive servers of a zone fails with it. */
  lemma RegionOfAliveFails(snap: Snapshot, z: string, r: string, t: Tablet)
    requires DistinctIDs(snap.tservers)
    requires forall n :: n in InZone(snap, z) && n.Alive() ==> n in InRegion(snap, r)
    requires LosesQuorum(snap, IDs(InZone(snap, z)))(t)
    ensures LosesQuorum(snap, IDs(InRegion(snap, r)))(t)
  {
    var lz, lr := IDs(InZone(snap, z)), IDs(InRegion(snap, r));
    assert forall n :: n in InZone(snap, z) && n.Alive() ==> n.id in lr;
    forall p | p in VotingPeers(t) && Survives(snap, lr)(p) ensures Survives(snap, lz)(p) {
      if p.tserverID in lz {
        var n :| n in InZone(snap, z) && n.id == p.tserverID;
        MemberHasKey(snap.tservers, ZoneKey(), z, n);
        SameID(snap.tservers, n, n);
      }
    }
    CountMonotone(VotingPeers(t), Survives(snap, lr), Survives(snap, lz));
  }

  lemma RegionFailsWithZone(snap: Snapshot, z: string, r: string)
    requires DistinctIDs(snap.tservers)
    requires forall n :: n in InZone(snap, z) && n.Alive() ==> n in InRegion(snap, r)
    requires InZone(snap, z) != [] && InRegion(snap, r) != [] && ZoneSim(snap, z).status == Fail
    ensures RegionSim(snap, r).status == Fail
  {
    var zone, region := ZoneSim(snap, z), RegionSim(snap, r);
    FailsIff(snap, zone.name, AZLoss, zone.lost, IDs(InZone(snap, z)));
    var t :| t in snap.tablets && LosesQuorum(snap, IDs(InZone(snap, z)))(t);
    RegionOfAliveFails(snap, z, r, t);
    FailsIff(snap, region.name, RegionLoss, region.lost, IDs(InRegion(snap, r)));
  }

  /** Some region holds all alive servers of the zone. */
  lemma RegionOfZone(snap: Snapshot, z: string) returns (r: string)
    requires AliveZonesWithinRegions(snap.tservers) && InZone(snap, z) != []
    ensures r in Regions(snap) && InRegion(snap, r) != []
    ensures forall n :: n in InZone(snap, z) && n.Alive() ==> n in InRegion(snap, r)
  {
    var a := InZone(snap, z)[0];
    if n :| n in InZone(snap, z) && n.Alive() {
      a := n;
    }
    MemberHasKey(snap.tservers, ZoneKey(), z, a);
    r := a.placement.RegionKey();
    forall n | n in InZone(snap, z) && n.Alive() ensures n in InRegion(snap, r) {
      MemberHasKey(snap.tservers, ZoneKey(), z, n);
      MemberHasKey(snap.tservers, RegionKey(), r, n);
    }
    ZoneOf(snap, a);
    GroupsNonempty(snap);
  }

  lemma AliveZoneNests(snap: Snapshot)
    requires DistinctIDs(snap.tservers) && AliveZonesWithinRegions(snap.tservers)
    ensures SomeZoneFails(snap) ==> SomeRegionFails(snap)
  {
    if SomeZoneFails(snap) {
      var z :| z in Zones(snap) && InZone(snap, z) != [] && ZoneSim(snap, z).status == Fail;
      var r := RegionOfZone(snap, z);
      RegionFailsWithZone(snap, z, r);
    }
  }

  /** One tablet with RF 1, on the two servers. */
  function PairSnapshot(tservers: seq<TServer>, a: TServer, b: TServer): Snapshot {
    var peers := [TabletPeer(a.id, Leader, OtherState(""), 0), TabletPeer(b.id, Follower, OtherState(""), 0)];
    Snapshot(1, [], tservers, [Tablet("t", a.id, peers, 0.0, 0.0)], [], [], Performance(0.0, map[]))
  }

  lemma PairSurvives(tservers: seq<TServer>, a: TServer, b: TServer, x: TServer, r: string)
    requires DistinctIDs(tservers) && x in tservers && x.Alive() && (x == a || x == b)
    requires x.placement.RegionKey() != r
    ensures !LosesQuorum(PairSnapshot(tservers, a, b), IDs(InRegion(PairSnapshot(tservers, a, b), r)))
              (PairSnapshot(tservers, a, b).tablets[0])
  {
    var snap := PairSnapshot(tservers, a, b);
    var t, lost := snap.tablets[0], IDs(InRegion(snap, r));
    FilterKeepsAll(t.peers, IsVoting());
    var p := if x == a then t.peers[0] else t.peers[1];
    assert p in VotingPeers(t);
    SameID(tservers, x, x);
    if x.id in lost {
      var n :| n in InRegion(snap, r) && n.id == x.id;
      MemberHasKey(tservers, RegionKey(), r, n);
      SameID(tservers, x, n);
    }
    assert Survives(snap, lost)(p);
    CountZero(VotingPeers(t), Survives(snap, lost));
  }

  /** Two alive servers of one zone and two regions: losing the zone fails the tablet,
      losing either region leaves one of them. */
  lemma SpanningZoneFailsAlone(tservers: seq<TServer>, a: TServer, b: TServer)
    requires DistinctIDs(tservers) && a in tservers && b in tservers && a.Alive() && b.Alive()
    requires a.placement.Key() == b.placement.Key() && a.placement.RegionKey() != b.placement.RegionKey()
    ensures var snap := PairSnapshot(tservers, a, b);
            SomeFails(Simulations(snap), AZLoss) && !SomeFails(Simulations(snap), RegionLoss)
  {
    var snap := PairSnapshot(tservers, a, b);
    FailuresByKind(snap);
    SpanningZoneFails(tservers, a, b);
    forall r | r in Regions(snap) && InRegion(snap, r) != [] ensures RegionSim(snap, r).status != Fail {
      SpanningRegionPasses(tservers, a, b, r);
    }
  }

  lemma SpanningRegionPasses(tservers: seq<TServer>, a: TServer, b: TServer, r: string)
    requires DistinctIDs(tservers) && a in tservers && b in tservers && a.Alive() && b.Alive()
    requires a.placement.RegionKey() != b.placement.RegionKey()
    requires InRegion(PairSnapshot(tservers, a, b), r) != []
    ensures RegionSim(PairSnapshot(tservers, a, b), r).status != Fail
  {
    var snap := PairSnapshot(tservers, a, b);
    var sim := RegionSim(snap, r);
    PairSurvives(tservers, a, b, if a.placement.RegionKey() != r then a else b, r);
    FailsIff(snap, sim.name, RegionLoss, sim.lost, IDs(InRegion(snap, r)));
  }

  lemma SpanningZoneFails(tservers: seq<TServer>, a: TServer, b: TServer)
    requires a in tservers && b in tservers && a.placement.Key() == b.placement.Key()
    ensures SomeZoneFails(PairSnapshot(tservers, a, b))
  {
    var snap, z := PairSnapshot(tservers, a, b), a.placement.Key();
    MemberIDs(tservers, ZoneKey(), a);
    MemberIDs(tservers, ZoneKey(), b);
    ZoneOf(snap, a);
    assert a in InZone(snap, z);
    PairLost(tservers, a, b, IDs(InZone(snap, z)));
    FailsIff(snap, ZoneSim(snap, z).name, AZLoss, ZoneSim(snap, z).lost, IDs(InZone(snap, z)));
  }

  lemma PairLost(tservers: seq<TServer>, a: TServer, b: TServer, lost: set<NodeID>)
    requires a.id in lost && b.id in lost
    ensures var snap := PairSnapshot(tservers, a, b);
            snap.tablets[0] in snap.tablets && LosesQuorum(snap, lost)(snap.tablets[0])
  {
    var snap := PairSnapshot(tservers, a, b);
    FilterKeepsAll(snap.tablets[0].peers, IsVoting());
    CountZero(VotingPeers(snap.tablets[0]), Survives(snap, lost));
  }

  /** Exactly which servers let zone failures nest in region failures, whatever tablets
      they carry: those of which no two alive ones share a zone but not a region. */
  lemma NestingIff(tservers: seq<TServer>)
    requires DistinctIDs(tservers)
    ensures (forall snap: Snapshot :: snap.tservers == tservers && SomeFails(Simulations(snap), AZLoss) ==>
               SomeFails(Simulations(snap), RegionLoss))
            <==> AliveZonesWithinRegions(tservers)
  {
    if AliveZonesWithinRegions(tservers) {
      forall snap: Snapshot | snap.tservers == tservers && SomeFails(Simulations(snap), AZLoss)
        ensures SomeFails(Simulations(snap), RegionLoss)
      {
        FailuresByKind(snap);
        AliveZoneNests(snap);
      }
    } else {
      var a, b :|
        && a in tservers && b in tservers && a.Alive() && b.Alive() && a.placement.Key() == b.placement.Key()
        && a.placement.RegionKey() != b.placement.RegionKey();
      SpanningZoneFailsAlone(tservers, a, b);
    }
  }

  /** Dotted names make such servers: a zone loss fails and no region loss does. */
  lemma ZoneCanFailAlone() returns (snap: Snapshot)
    ensures DistinctIDs(snap.tservers)
    ensures SomeFails(Simulations(snap), AZLoss) && !SomeFails(Simulations(snap), RegionLoss)
  {
    var a := TServer("1", "n1", "", Up, Placement("a.b", "c", "d"));
    var b := TServer("2", "n2", "", Up, Placement("a", "b", "c.d"));
    assert a.placement.Key() == "a.b.c.d" == b.placement.Key();
    assert |a.placement.RegionKey()| == 5 && |b.placement.RegionKey()| == 3;
    assert "1"[0] != "2"[0];
    SpanningZoneFailsAlone([a, b], a, b);
    snap := PairSnapshot([a, b], a, b);
  }

  // ----- three zones are needed

  /** Placed, on fewer voters than two majorities: with RF of at least one, every placed
      tablet with at most RF voters is. */
  predicate HasNoTwoMajorities(snap: Snapshot, t: Tablet) {
    0 < ReplicaCount(t) < 2 * QuorumSize(snap.replicationFactor)
  }

  /** If each voter of such a tablet is hit by one of two losses, one of the losses breaks
      its quorum: two disjoint sets of survivors cannot both be majorities. */
  lemma TwoLossesCannotBothKeepQuorum(snap: Snapshot, a: set<NodeID>, b: set<NodeID>, t: Tablet)
    requires HasNoTwoMajorities(snap, t)
    requires forall p :: p in VotingPeers(t) ==> p.tserverID in a || p.tserverID in b
    ensures LosesQuorum(snap, a)(t) || LosesQuorum(snap, b)(t)
  {
    CountDisjoint(VotingPeers(t), Survives(snap, a), Survives(snap, b));
  }

  /** Surviving the loss of every zone takes at least three zones, however the replicas
      are placed: with one or two zones some zone simulation fails, and the report
      recommends more nodes or one replica per zone. */
  lemma AtMostTwoZonesFail(snap: Snapshot, t: Tablet)
    requires |Zones(snap)| <= 2
    requires t in snap.tablets && HasNoTwoMajorities(snap, t)
    requires forall p :: p in VotingPeers(t) ==> Listed(snap.tservers, p.tserverID)
    ensures SomeFails(Simulations(snap), AZLoss)
    ensures Report(snap).recommendation == AddNodes || Report(snap).recommendation == OneReplicaPerAZ
  {
    GroupsNonempty(snap);
    var z, w := CoveringZones(snap, t);
    var a, b := IDs(InZone(snap, z)), IDs(InZone(snap, w));
    TwoLossesCannotBothKeepQuorum(snap, a, b, t);
    FailsIff(snap, ZoneSim(snap, z).name, AZLoss, ZoneSim(snap, z).lost, a);
    FailsIff(snap, ZoneSim(snap, w).name, AZLoss, ZoneSim(snap, w).lost, b);
    assert SomeZoneFails(snap);
    FailuresByKind(snap);
  }

  /** With at most two zones, some two (perhaps equal) hold every voter of a tablet. */
  lemma CoveringZones(snap: Snapshot, t: Tablet) returns (z: string, w: string)
    requires |Zones(snap)| <= 2
    requires ReplicaCount(t) > 0
    requires forall p :: p in VotingPeers(t) ==> Listed(snap.tservers, p.tserverID)
    ensures z in Zones(snap) && w in Zones(snap)
    ensures forall p :: p in VotingPeers(t) ==>
            p.tserverID in IDs(InZone(snap, z)) || p.tserverID in IDs(InZone(snap, w))
  {
    var p0 := VotingPeers(t)[0];
    assert p0 in VotingPeers(t);
    var z0 := ZoneOfVoter(snap, p0);
    var zones := Zones(snap);
    z, w := zones[0], zones[|zones| - 1];
    assert z in zones && w in zones;
    forall p | p in VotingPeers(t)
      ensures p.tserverID in IDs(InZone(snap, z)) || p.tserverID in IDs(InZone(snap, w))
    {
      var k := ZoneOfVoter(snap, p);
      EndsOfShortList(zones, k);
    }
  }

  lemma EndsOfShortList(zones: seq<string>, k: string)
    requires k in zones && |zones| <= 2
    ensures k == zones[0] || k == zones[|zones| - 1]
  {
  }

  lemma ZoneOfVoter(snap: Snapshot, p: TabletPeer) returns (z: string)
    requires Listed(snap.tservers, p.tserverID)
    ensures z in Zones(snap) && p.tserverID in IDs(InZone(snap, z))
  {
    var ts :| ts in snap.tservers && ts.id == p.tserverID;
    z := ts.placement.Key();
    ZoneOf(snap, ts);
    MemberIDs(snap.tservers, ZoneKey(), ts);
  }

  // ----- the quorum threshold

  ghost predicate FullyAlive(snap: Snapshot) {
    forall ts :: ts in snap.tservers ==> ts.Alive()
  }

  /** Every tablet has exactly as many voters as the replication factor. */
  ghost predicate FullyReplicated(snap: Snapshot) {
    snap.replicationFactor >= 1 && forall t :: t in snap.tablets ==> ReplicaCount(t) == snap.replicationFactor
  }

  function InLost(lost: set<NodeID>): TabletPeer -> bool {
    (p: TabletPeer) => p.tserverID in lost
  }

  lemma SurvivorsWhenAlive(snap: Snapshot, lost: set<NodeID>, t: Tablet)
    requires FullyAlive(snap)
    ensures Survivors(snap, lost, t) + CountIf(VotingPeers(t), InLost(lost)) == ReplicaCount(t)
  {
    CountSplit(VotingPeers(t), Survives(snap, lost), InLost(lost));
  }

  /** On a healthy, fully replicated snapshot a loss is survived exactly when no
      tablet has more than (RF-1)/2 of its voters among the lost. */
  lemma QuorumThreshold(snap: Snapshot, name: string, kind: SimKind, names: seq<string>, lost: set<NodeID>)
    requires FullyAlive(snap) && FullyReplicated(snap)
    ensures Outcome(snap, name, kind, names, lost).status != Fail <==>
            forall t :: t in snap.tablets ==> CountIf(VotingPeers(t), InLost(lost)) <= (snap.replicationFactor - 1) / 2
  {
    FailsIff(snap, name, kind, names, lost);
    forall t | t in snap.tablets
      ensures LosesQuorum(snap, lost)(t) <==> CountIf(VotingPeers(t), InLost(lost)) > (snap.replicationFactor - 1) / 2
    {
      SurvivorsWhenAlive(snap, lost, t);
    }
  }

  /** The ids of servers that are not up. */
  function DownIDs(tservers: seq<TServer>): set<NodeID> {
    set ts | ts in tservers && ts.status != Up :: ts.id
  }

  /** Servers that share an id are all up or all down. */
  predicate StatusByID(tservers: seq<TServer>) {
    forall a, b :: a in tservers && b in tservers && a.id == b.id ==> (a.status == Up <==> b.status == Up)
  }

  /** The voters that are not gone are no majority of rf. */
  function LeftInMinority(rf: int, gone: set<NodeID>): Tablet -> bool {
    (t: Tablet) => ReplicaCount(t) > 0 && 2 * (ReplicaCount(t) - CountIf(VotingPeers(t), InLost(gone))) <= Clamp(rf)
  }

  lemma GoneOrSurviving(snap: Snapshot, lost: set<NodeID>, t: Tablet)
    requires StatusByID(snap.tservers)
    ensures Survivors(snap, lost, t) == ReplicaCount(t) - CountIf(VotingPeers(t), InLost(lost + DownIDs(snap.tservers)))
  {
    CountSplit(VotingPeers(t), Survives(snap, lost), InLost(lost + DownIDs(snap.tservers)));
  }

  /** What a simulation says, whatever the replication of the tablets: it counts the placed
      tablets whose voters outside the loss, and not down already, are no more than half of
      the replication factor; it fails if there is one, passes if there is none, and warns
      if there is no tablet at all. */
  lemma MajorityDecides(snap: Snapshot, name: string, kind: SimKind, names: seq<string>, lost: set<NodeID>)
    requires StatusByID(snap.tservers)
    ensures var sim := Outcome(snap, name, kind, names, lost);
            var minority := LeftInMinority(snap.replicationFactor, lost + DownIDs(snap.tservers));
            && sim.tabletsFailed == CountIf(snap.tablets, minority)
            && (sim.status == Fail <==> exists t :: t in snap.tablets && minority(t))
            && (sim.status == Warn <==> snap.tablets == [])
            && (sim.status == Pass <==> snap.tablets != [] && forall t :: t in snap.tablets ==> !minority(t))
  {
    var minority := LeftInMinority(snap.replicationFactor, lost + DownIDs(snap.tservers));
    forall t | t in snap.tablets ensures LosesQuorum(snap, lost)(t) == minority(t) {
      GoneOrSurviving(snap, lost, t);
    }
    CountSame(snap.tablets, LosesQuorum(snap, lost), minority);
    CountZero(snap.tablets, minority);
  }

  /** No zone holds two voters of one tablet. */
  ghost predicate OneReplicaPerZone(snap: Snapshot) {
    forall t, z :: t in snap.tablets && z in Zones(snap) ==>
      CountIf(VotingPeers(t), InLost(IDs(InZone(snap, z)))) <= 1
  }

  /** The placement the recommendation asks for: with RF at least 3 and one replica
      per zone, every node loss and every zone loss is survived. */
  lemma OneReplicaPerZoneTolerates(snap: Snapshot)
    requires FullyAlive(snap) && FullyReplicated(snap)
    requires snap.replicationFactor >= 3 && OneReplicaPerZone(snap)
    ensures !SomeFails(Simulations(snap), AZLoss) && !SomeFails(Simulations(snap), NodeLoss)
  {
    forall z | z in Zones(snap) && InZone(snap, z) != [] ensures ZoneSim(snap, z).status != Fail {
      OneReplicaZonePasses(snap, z);
    }
    FailuresByKind(snap);
    FailuresNest(snap);
  }

  lemma OneReplicaZonePasses(snap: Snapshot, z: string)
    requires FullyAlive(snap) && FullyReplicated(snap)
    requires snap.replicationFactor >= 3 && OneReplicaPerZone(snap)
    requires z in Zones(snap) && InZone(snap, z) != []
    ensures ZoneSim(snap, z).status != Fail
  {
    var sim := ZoneSim(snap, z);
    QuorumThreshold(snap, sim.name, AZLoss, sim.lost, IDs(InZone(snap, z)));
  }

  /** With RF 1 or 2 no placement helps: losing the server of any voter of a tablet with
      at most RF voters fails. */
  lemma LowReplicationNeverTolerates(snap: Snapshot, t: Tablet, p: TabletPeer)
    requires t in snap.tablets && ReplicaCount(t) <= snap.replicationFactor <= 2
    requires p in VotingPeers(t) && Listed(snap.tservers, p.tserverID)
    ensures Report(snap).recommendation == AddNodes
  {
    var ts :| ts in snap.tservers && ts.id == p.tserverID;
    var sim := NodeSim(snap, ts);
    CountZero(VotingPeers(t), InLost({ts.id}));
    assert InLost({ts.id})(p);
    CountDisjoint(VotingPeers(t), Survives(snap, {ts.id}), InLost({ts.id}));
    FailsIff(snap, sim.name, NodeLoss, sim.lost, {ts.id});
    assert LosesQuorum(snap, {ts.id})(t);
    assert SomeNodeFails(snap);
    FailuresByKind(snap);
  }

  // ----- dead servers and total loss

  /** A dead server is already lost: naming it in a loss changes nothing. */
  lemma DeadAlreadyLost(snap: Snapshot, lost: set<NodeID>, dead: set<NodeID>)
    requires forall id :: id in dead ==> KnownDead(snap, id)
    ensures FailedTablets(snap, lost + dead) == FailedTablets(snap, lost)
  {
    forall t | t in snap.tablets ensures LosesQuorum(snap, lost + dead)(t) == LosesQuorum(snap, lost)(t) {
      CountSame(VotingPeers(t), Survives(snap, lost + dead), Survives(snap, lost));
    }
    CountSame(snap.tablets, LosesQuorum(snap, lost + dead), LosesQuorum(snap, lost));
  }

  /** With distinct ids, a dead TServer of the snapshot is known dead by its id; so
      its own simulation repeats the failures the cluster already has. */
  lemma DeadNodeSimulation(snap: Snapshot, ts: TServer)
    requires DistinctIDs(snap.tservers) && ts in snap.tservers && !ts.Alive()
    ensures NodeSim(snap, ts).tabletsFailed == FailedTablets(snap, {})
  {
    var i :| 0 <= i < |snap.tservers| && snap.tservers[i] == ts;
    FindDistinct(snap.tservers, i);
    DeadAlreadyLost(snap, {}, {ts.id});
    assert {} + {ts.id} == {ts.id};
  }

  function Placed(): Tablet -> bool {
    (t: Tablet) => ReplicaCount(t) > 0
  }

  /** Losing every listed server fails exactly the placed tablets. */
  lemma TotalLoss(snap: Snapshot, lost: set<NodeID>)
    requires IDs(snap.tservers) <= lost
    requires forall t, p :: t in snap.tablets && p in VotingPeers(t) ==> Listed(snap.tservers, p.tserverID)
    ensures FailedTablets(snap, lost) == CountIf(snap.tablets, Placed())
  {
    forall t | t in snap.tablets ensures LosesQuorum(snap, lost)(t) == Placed()(t) {
      forall p | p in VotingPeers(t) ensures !Survives(snap, lost)(p) {
        var ts :| ts in snap.tservers && ts.id == p.tserverID;
        assert ts.id in IDs(snap.tservers);
      }
      CountZero(VotingPeers(t), Survives(snap, lost));
    }
    CountSame(snap.tablets, LosesQuorum(snap, lost), Placed());
  }

  /** A single-region snapshot with a placed tablet is never said to tolerate. */
  lemma SingleRegionNeverTolerates(snap: Snapshot)
    requires |Regions(snap)| == 1
    requires forall t, p :: t in snap.tablets && p in VotingPeers(t) ==> Listed(snap.tservers, p.tserverID)
    requires exists t :: t in snap.tablets && ReplicaCount(t) > 0
    ensures RegionSim(snap, Regions(snap)[0]).tabletsFailed == CountIf(snap.tablets, Placed())
    ensures Report(snap).recommendation != Tolerates
  {
    var r := Regions(snap)[0];
    assert r in Regions(snap);
    GroupsNonempty(snap);
    var lost := IDs(InRegion(snap, r));
    forall id | id in IDs(snap.tservers) ensures id in lost {
      var ts :| ts in snap.tservers && ts.id == id;
      ZoneOf(snap, ts);
      MemberIDs(snap.tservers, RegionKey(), ts);
    }
    TotalLoss(snap, lost);
    CountZero(snap.tablets, Placed());
    FailsIff(snap, RegionSim(snap, r).name, RegionLoss, RegionSim(snap, r).lost, lost);
    assert SomeRegionFails(snap);
    FailuresByKind(snap);
  }

  // ----- the shape of the report

  lemma {:induction false} SimListLengths(snap: Snapshot, nodes: seq<TServer>, zs: seq<string>, rs: seq<string>)
    requires forall z :: z in zs ==> InZone(snap, z) != []
    requires forall r :: r in rs ==> InRegion(snap, r) != []
    ensures |NodeSims(snap, nodes)| == |nodes|
    ensures |ZoneSims(snap, zs)| == |zs|
    ensures |RegionSims(snap, rs)| == |rs|
    decreases |nodes| + |zs| + |rs|
  {
    if nodes != [] || zs != [] || rs != [] {
      SimListLengths(snap,
                     if nodes == [] then [] else nodes[..|nodes| - 1],
                     if zs == [] then [] else zs[..|zs| - 1],
                     if rs == [] then [] else rs[..|rs| - 1]);
    }
  }

  /** A report holds one simulation per TServer, per zone, per region, and one for the
      first two zones if there are two. */
  lemma SimulationCount(snap: Snapshot)
    ensures var zones, regions := |KeySet(snap.tservers, ZoneKey())|, |KeySet(snap.tservers, RegionKey())|;
            |Report(snap).simulations| == |snap.tservers| + zones + (if zones >= 2 then 1 else 0) + regions
  {
    GroupsNonempty(snap);
    SimListLengths(snap, snap.tservers, Zones(snap), Regions(snap));
  }

  lemma {:induction false} HasNodeSims(snap: Snapshot, nodes: seq<TServer>)
    ensures nodes != [] ==> exists sim :: sim in NodeSims(snap, nodes) && sim.kind == NodeLoss
    ensures forall sim :: sim in NodeSims(snap, nodes) ==> sim.kind == NodeLoss
  {
    if nodes != [] {
      HasNodeSims(snap, nodes[..|nodes| - 1]);
      assert NodeSim(snap, nodes[|nodes| - 1]) in NodeSims(snap, nodes);
    }
  }

  lemma {:induction false} HasZoneSims(snap: Snapshot, zs: seq<string>)
    requires forall z :: z in zs ==> InZone(snap, z) != []
    ensures zs != [] ==> exists sim :: sim in ZoneSims(snap, zs) && sim.kind == AZLoss
    ensures forall sim :: sim in ZoneSims(snap, zs) ==> sim.kind == AZLoss
  {
    if zs != [] {
      HasZoneSims(snap, zs[..|zs| - 1]);
      assert ZoneSim(snap, zs[|zs| - 1]) in ZoneSims(snap, zs);
    }
  }

  lemma {:induction false} RegionSimsKind(snap: Snapshot, rs: seq<string>)
    requires forall r :: r in rs ==> InRegion(snap, r) != []
    ensures forall sim :: sim in RegionSims(snap, rs) ==> sim.kind == RegionLoss
  {
    if rs != [] {
      RegionSimsKind(snap, rs[..|rs| - 1]);
    }
  }

  lemma PairKind(snap: Snapshot, zs: seq<string>)
    requires forall z :: z in zs ==> InZone(snap, z) != []
    ensures forall sim :: sim in PairSims(snap, zs) ==> sim.kind == AZPairLoss
  {
  }

  lemma InFourParts(a: seq<FailureSim>, b: seq<FailureSim>, c: seq<FailureSim>, d: seq<FailureSim>)
    ensures forall sim :: sim in a + (b + c) + d <==> sim in a || sim in b || sim in c || sim in d
  {
  }

  function OfKind(kind: SimKind): FailureSim -> bool {
    (sim: FailureSim) => sim.kind == kind
  }

  /** The report holds one zone simulation per zone. */
  lemma ZoneSimulationCount(snap: Snapshot)
    ensures CountIf(Report(snap).simulations, OfKind(AZLoss)) == |KeySet(snap.tservers, ZoneKey())|
  {
    GroupsNonempty(snap);
    var nodes, zones, pairs, regions :=
      NodeSims(snap, snap.tservers), ZoneSims(snap, Zones(snap)), PairSims(snap, Zones(snap)),
      RegionSims(snap, Regions(snap));
    HasNodeSims(snap, snap.tservers);
    HasZoneSims(snap, Zones(snap));
    PairKind(snap, Zones(snap));
    RegionSimsKind(snap, Regions(snap));
    CountZero(nodes, OfKind(AZLoss));
    FilterKeepsAll(zones, OfKind(AZLoss));
    CountZero(pairs, OfKind(AZLoss));
    CountZero(regions, OfKind(AZLoss));
    CountConcat(zones, pairs, OfKind(AZLoss));
    CountConcat(nodes, zones + pairs, OfKind(AZLoss));
    CountConcat(nodes + (zones + pairs), regions, OfKind(AZLoss));
    SimListLengths(snap, snap.tservers, Zones(snap), Regions(snap));
  }

  function ZoneBranches(tree: seq<RegionBranch>): nat {
    if tree == [] then 0 else ZoneBranches(tree[..|tree| - 1]) + |tree[|tree| - 1].zones|
  }

  lemma {:induction false} AZBranchesLength(nodes: seq<TServer>, zones: seq<string>)
    ensures |AZBranches(nodes, zones)| == |zones|
  {
    if zones != [] {
      AZBranchesLength(nodes, zones[..|zones| - 1]);
    }
  }

  lemma {:induction false} BranchesCount(snap: Snapshot, rs: seq<string>)
    requires forall r :: r in rs ==> InRegion(snap, r) != []
    ensures ZoneBranches(Branches(snap, rs)) == ZonesPerRegion(snap.tservers, rs)
  {
    if rs != [] {
      var n := |rs| - 1;
      assert rs == rs[..n] + [rs[n]];
      BranchesCount(snap, rs[..n]);
      AZBranchesLength(InRegion(snap, rs[n]), SortedSet(KeySet(InRegion(snap, rs[n]), ZoneName())));
      assert Branches(snap, rs)[..n] == Branches(snap, rs[..n]) by { BranchesLength(snap, rs[..n]); }
    }
  }

  lemma {:induction false} BranchesLength(snap: Snapshot, rs: seq<string>)
    requires forall r :: r in rs ==> InRegion(snap, r) != []
    ensures |Branches(snap, rs)| == |rs|
  {
    if rs != [] {
      BranchesLength(snap, rs[..|rs| - 1]);
    }
  }

  lemma SortedSetDistinct(s: set<string>)
    ensures Distinct(SortedSet(s))
  {
    SortedSetSorts(s);
    forall i, j | 0 <= i < j < |SortedSet(s)| ensures SortedSet(s)[i] != SortedSet(s)[j] {
      StrictlySortedDistinct(SortedSet(s), i, j);
    }
  }

  /** On dot-free names the tree and the simulations agree on the zones: the tree has
      one zone branch for every zone simulation. */
  lemma TreeMatchesZoneSimulations(snap: Snapshot)
    requires AllDotFree(snap.tservers)
    ensures ZoneBranches(Report(snap).topologyTree) == CountIf(Report(snap).simulations, OfKind(AZLoss))
  {
    GroupsNonempty(snap);
    ZoneSimulationCount(snap);
    BranchesCount(snap, Regions(snap));
    SortedSetDistinct(KeySet(snap.tservers, RegionKey()));
    ZonesCountedOnce(snap.tservers, Regions(snap));
  }

  function BranchNames(zones: seq<AZBranch>): multiset<string> {
    if zones == [] then multiset{} else BranchNames(zones[..|zones| - 1]) + multiset(zones[|zones| - 1].nodes)
  }

  function TreeNames(tree: seq<RegionBranch>): multiset<string> {
    if tree == [] then multiset{} else TreeNames(tree[..|tree| - 1]) + BranchNames(tree[|tree| - 1].zones)
  }

  lemma {:induction false} AZBranchNames(nodes: seq<TServer>, zones: seq<string>)
    ensures BranchNames(AZBranches(nodes, zones)) == multiset(Names(Flatten(nodes, ZoneName(), zones)))
  {
    if zones == [] {
      assert Names(Flatten(nodes, ZoneName(), zones)) == [];
    } else {
      var n := |zones| - 1;
      var before, last := AZBranches(nodes, zones[..n]), AZBranchOf(nodes, zones[n]);
      AZBranchNames(nodes, zones[..n]);
      assert AZBranches(nodes, zones)[..|before|] == before;
      SortStringsSorts(Names(Members(nodes, ZoneName(), zones[n])));
      NamesConcat(Flatten(nodes, ZoneName(), zones[..n]), Members(nodes, ZoneName(), zones[n]));
    }
  }

  lemma RegionNames(nodes: seq<TServer>)
    ensures BranchNames(AZBranches(nodes, SortedSet(KeySet(nodes, ZoneName())))) == multiset(Names(nodes))
  {
    var zones := SortedSet(KeySet(nodes, ZoneName()));
    AZBranchNames(nodes, zones);
    SortedSetDistinct(KeySet(nodes, ZoneName()));
    GroupsPartition(nodes, ZoneName(), zones);
    NamesOfPermutation(Flatten(nodes, ZoneName(), zones), nodes);
  }

  lemma {:induction false} BranchesNames(snap: Snapshot, rs: seq<string>)
    requires forall r :: r in rs ==> InRegion(snap, r) != []
    ensures TreeNames(Branches(snap, rs)) == multiset(Names(Flatten(snap.tservers, RegionKey(), rs)))
  {
    if rs == [] {
      assert Names(Flatten(snap.tservers, RegionKey(), rs)) == [];
    } else {
      var n := |rs| - 1;
      assert rs == rs[..n] + [rs[n]];
      var before := Branches(snap, rs[..n]);
      BranchesNames(snap, rs[..n]);
      assert Branches(snap, rs)[..|before|] == before;
      RegionNames(InRegion(snap, rs[n]));
      NamesConcat(Flatten(snap.tservers, RegionKey(), rs[..n]), InRegion(snap, rs[n]));
    }
  }

  /** The tree shows every display name exactly as often as the snapshot does. */
  lemma TreeKeepsEveryName(snap: Snapshot)
    ensures TreeNames(Report(snap).topologyTree) == multiset(Names(snap.tservers))
  {
    GroupsNonempty(snap);
    var rs := Regions(snap);
    BranchesNames(snap, rs);
    SortedSetDistinct(KeySet(snap.tservers, RegionKey()));
    GroupsPartition(snap.tservers, RegionKey(), rs);
    NamesOfPermutation(Flatten(snap.tservers, RegionKey(), rs), snap.tservers);
  }
}
