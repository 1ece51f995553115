/** The repository's own scenarios, end to end: a plan without counts is expanded with
    the default counts and simulated. */
module Scenarios {
  import opened Counting
  import opened Domain
  import opened Grouping
  import opened Resilience
  import opened ResilienceTheorems
  import opened Fixture
  import opened Faults
  import opened FixtureTheorems
  import opened FixtureExact

  /** What Expand returns for a plan that lists servers but no leader counts. */
  ghost predicate DefaultExpansion(plan: Plan, snap: Snapshot) {
    && plan.tservers != [] && |plan.leaders| == 0
    && snap.tservers == plan.tservers && snap.replicationFactor == PlanRF(plan)
    && FaultedTablets(
         Expanded(BalancedLeaders(plan.tservers, DEFAULT_TABLETS),
                  BalancedFollowers(plan.tservers, DEFAULT_TABLETS, PlanRF(plan)), PlanRF(plan)),
         plan, snap.tablets)
  }

  lemma {:induction false} BalancedKeys(nodes: seq<TServer>, tablets: nat, rf: int)
    requires nodes != []
    ensures BalancedLeaders(nodes, tablets).Keys <= IDs(nodes)
    ensures BalancedFollowers(nodes, tablets, rf).Keys <= IDs(nodes)
  {
    if tablets > 0 {
      BalancedKeys(nodes, tablets - 1, rf);
      assert nodes[(tablets - 1) % |nodes|] in nodes;
      FollowRoundKeys(BalancedFollowers(nodes, tablets - 1, rf), nodes, tablets - 1, rf);
    }
  }

  lemma {:induction false} FollowRoundKeys(m: Counts, nodes: seq<TServer>, i: nat, r: int)
    requires nodes != []
    ensures FollowRound(m, nodes, i, r).Keys <= m.Keys + IDs(nodes)
    decreases Clamp(r)
  {
    if r > 1 {
      FollowRoundKeys(m, nodes, i, r - 1);
      assert nodes[(i + r - 1) % |nodes|] in nodes;
    }
  }

  /** Faults move no peer and retire none; under-replication drops the last of several. */
  lemma FaultedKeepsPeers(ts: seq<Tablet>, plan: Plan, i: nat)
    requires i < |ts|
    ensures var was, now := ts[i].peers, FaultedAt(ts, plan, i).peers;
            && |now| == |was| - (if i < plan.underReplicated && |was| > 1 then 1 else 0)
            && forall j :: 0 <= j < |now| ==> now[j].tserverID == was[j].tserverID && now[j].state == was[j].state
  {
  }

  /** A tablet of the allocator, as far as faults leave it alone. */
  lemma AllocatedTablet(leaders: Counts, followers: Counts, rf: int, i: nat)
    requires i < |Expanded(leaders, followers, rf)|
    ensures var t := Expanded(leaders, followers, rf)[i];
            && WellFormedTablet(t, rf)
            && (forall p :: p in t.peers ==> p.state == OtherState("") && p.tserverID in leaders.Keys + followers.Keys)
  {
    ExpandedAt(leaders, followers, rf);
    AllocatorIsSafe(leaders, followers, rf);
    ReplicasArePlanned(leaders, followers, rf);
    assert Expanded(leaders, followers, rf)[i] in Expanded(leaders, followers, rf);
  }

  /** In every default expansion, whatever the fault knobs do, each of the nine tablets has
      between one and RF voting peers, on listed servers that all have different ids. */
  lemma DefaultTablet(plan: Plan, snap: Snapshot, i: nat)
    requires DefaultExpansion(plan, snap) && i < DEFAULT_TABLETS
    ensures |snap.tablets| == DEFAULT_TABLETS
    ensures var t := snap.tablets[i];
            && VotingPeers(t) == t.peers
            && 1 <= |t.peers| && (|t.peers| <= snap.replicationFactor || |t.peers| == 1)
            && (forall p :: p in t.peers ==> Listed(snap.tservers, p.tserverID))
            && (forall j, k :: 0 <= j < k < |t.peers| ==> t.peers[j].tserverID != t.peers[k].tserverID)
  {
    var nodes, rf := plan.tservers, PlanRF(plan);
    var leaders, followers := BalancedLeaders(nodes, DEFAULT_TABLETS), BalancedFollowers(nodes, DEFAULT_TABLETS, rf);
    BalancedQueueLength(nodes, DEFAULT_TABLETS);
    ExpandedAt(leaders, followers, rf);
    BalancedKeys(nodes, DEFAULT_TABLETS, rf);
    DamagedTablet(leaders, followers, rf, plan, i);
    forall p | p in snap.tablets[i].peers ensures Listed(snap.tservers, p.tserverID) {
      assert p.tserverID in IDs(nodes);
    }
  }

  lemma DamagedTablet(leaders: Counts, followers: Counts, rf: int, plan: Plan, i: nat)
    requires i < |Expanded(leaders, followers, rf)|
    ensures var t := FaultedAt(Expanded(leaders, followers, rf), plan, i);
            && VotingPeers(t) == t.peers
            && 1 <= |t.peers| && (|t.peers| <= rf || |t.peers| == 1)
            && (forall p :: p in t.peers ==> p.tserverID in leaders.Keys + followers.Keys)
            && (forall j, k :: 0 <= j < k < |t.peers| ==> t.peers[j].tserverID != t.peers[k].tserverID)
  {
    var ts := Expanded(leaders, followers, rf);
    AllocatedTablet(leaders, followers, rf, i);
    FaultedKeepsPeers(ts, plan, i);
    DamagedPeers(ts[i].peers, FaultedAt(ts, plan, i).peers, leaders.Keys + followers.Keys);
  }

  /** Peers that are the first ones of a tablet, up to their role and lag. */
  lemma DamagedPeers(was: seq<TabletPeer>, now: seq<TabletPeer>, ids: set<NodeID>)
    requires |now| <= |was|
    requires forall j :: 0 <= j < |now| ==> now[j].tserverID == was[j].tserverID && now[j].state == was[j].state
    requires forall p :: p in was ==> p.state == OtherState("") && p.tserverID in ids
    ensures forall p :: p in now ==> p.tserverID in ids
    ensures Filter(now, IsVoting()) == now
  {
    forall p | p in now ensures p.state == OtherState("") && p.tserverID in ids {
      var j :| 0 <= j < |now| && now[j] == p;
      assert was[j] in was;
    }
    FilterKeepsAll(now, IsVoting());
  }

  /** Over enough proper servers and without under-replication the tablets are full. */
  lemma DefaultTabletIsFull(plan: Plan, snap: Snapshot, i: nat)
    requires DefaultExpansion(plan, snap) && i < DEFAULT_TABLETS
    requires GoodNodes(plan.tservers) && 1 <= PlanRF(plan) <= |plan.tservers| && PlanRF(plan) <= DEFAULT_TABLETS
    requires plan.underReplicated <= 0
    ensures |snap.tablets| == DEFAULT_TABLETS
    ensures ReplicaCount(snap.tablets[i]) == snap.replicationFactor
  {
    var nodes, rf := plan.tservers, PlanRF(plan);
    var leaders, followers := BalancedLeaders(nodes, DEFAULT_TABLETS), BalancedFollowers(nodes, DEFAULT_TABLETS, rf);
    DefaultTablet(plan, snap, i);
    DefaultCountsReplicate(nodes, DEFAULT_TABLETS, rf);
    FaultedKeepsPeers(Expanded(leaders, followers, rf), plan, i);
    assert Expanded(leaders, followers, rf)[i] in Expanded(leaders, followers, rf);
  }

  /** No two servers share a zone. */
  ghost predicate ZonePerNode(tservers: seq<TServer>) {
    forall i, j :: 0 <= i < j < |tservers| ==> tservers[i].placement.Key() != tservers[j].placement.Key()
  }

  lemma ZoneIsOneNode(snap: Snapshot, z: string, a: NodeID, b: NodeID)
    requires ZonePerNode(snap.tservers)
    requires a in IDs(InZone(snap, z)) && b in IDs(InZone(snap, z))
    ensures a == b
  {
    var x :| x in InZone(snap, z) && x.id == a;
    var y :| y in InZone(snap, z) && y.id == b;
    MemberHasKey(snap.tservers, ZoneKey(), z, x);
    MemberHasKey(snap.tservers, ZoneKey(), z, y);
    var i :| 0 <= i < |snap.tservers| && snap.tservers[i] == x;
    var j :| 0 <= j < |snap.tservers| && snap.tservers[j] == y;
    assert i == j;
  }

  lemma {:induction false} AtMostOneLost(peers: seq<TabletPeer>, lost: set<NodeID>)
    requires forall j, k :: 0 <= j < k < |peers| ==> peers[j].tserverID != peers[k].tserverID
    requires forall a, b :: a in lost && b in lost ==> a == b
    ensures CountIf(peers, InLost(lost)) <= 1
  {
    if peers != [] {
      var n := |peers| - 1;
      AtMostOneLost(peers[..n], lost);
      if peers[n].tserverID in lost {
        forall p | p in peers[..n] ensures !InLost(lost)(p) {
          var j :| 0 <= j < n && peers[j] == p;
        }
        CountZero(peers[..n], InLost(lost));
      }
    }
  }

  /** The healthy scenario: alive servers, one per zone and at least as many as replicas,
      of which there are three to nine, no counts and no under-replication. Every node and
      every zone loss is survived; if the servers share a region, its loss is not. */
  lemma HealthyScenario(plan: Plan, snap: Snapshot)
    requires DefaultExpansion(plan, snap)
    requires GoodNodes(plan.tservers) && 3 <= PlanRF(plan) <= |plan.tservers| && PlanRF(plan) <= DEFAULT_TABLETS
    requires plan.underReplicated <= 0
    requires FullyAlive(snap) && ZonePerNode(snap.tservers)
    ensures !SomeFails(Simulations(snap), NodeLoss) && !SomeFails(Simulations(snap), AZLoss)
    ensures |Regions(snap)| == 1 ==> Report(snap).recommendation == AddCrossRegion
  {
    DefaultIsReplicated(plan, snap);
    DefaultSpreadsReplicas(plan, snap);
    OneReplicaPerZoneTolerates(snap);
    if |Regions(snap)| == 1 {
      DefaultPeersListed(plan, snap);
      SingleRegionNeverTolerates(snap);
    }
  }

  lemma DefaultIsReplicated(plan: Plan, snap: Snapshot)
    requires DefaultExpansion(plan, snap)
    requires GoodNodes(plan.tservers) && 1 <= PlanRF(plan) <= |plan.tservers| && PlanRF(plan) <= DEFAULT_TABLETS
    requires plan.underReplicated <= 0
    ensures FullyReplicated(snap)
  {
    DefaultTablet(plan, snap, 0);
    forall t | t in snap.tablets ensures ReplicaCount(t) == snap.replicationFactor {
      var i :| 0 <= i < |snap.tablets| && snap.tablets[i] == t;
      DefaultTabletIsFull(plan, snap, i);
    }
  }

  lemma DefaultSpreadsReplicas(plan: Plan, snap: Snapshot)
    requires DefaultExpansion(plan, snap) && ZonePerNode(snap.tservers)
    ensures OneReplicaPerZone(snap)
  {
    DefaultTablet(plan, snap, 0);
    forall t, z | t in snap.tablets && z in Zones(snap)
      ensures CountIf(VotingPeers(t), InLost(IDs(InZone(snap, z)))) <= 1
    {
      var i :| 0 <= i < |snap.tablets| && snap.tablets[i] == t;
      DefaultTablet(plan, snap, i);
      forall a, b | a in IDs(InZone(snap, z)) && b in IDs(InZone(snap, z)) ensures a == b {
        ZoneIsOneNode(snap, z, a, b);
      }
      AtMostOneLost(t.peers, IDs(InZone(snap, z)));
    }
  }

  lemma DefaultPeersListed(plan: Plan, snap: Snapshot)
    requires DefaultExpansion(plan, snap)
    ensures forall t, p :: t in snap.tablets && p in VotingPeers(t) ==> Listed(snap.tservers, p.tserverID)
    ensures exists t :: t in snap.tablets && HasNoTwoMajorities(snap, t)
  {
    DefaultTablet(plan, snap, 0);
    forall t, p | t in snap.tablets && p in VotingPeers(t) ensures Listed(snap.tservers, p.tserverID) {
      var i :| 0 <= i < |snap.tablets| && snap.tablets[i] == t;
      DefaultTablet(plan, snap, i);
    }
    assert snap.tablets[0] in snap.tablets;
  }

  /** The AZ-failure scenario: no default expansion over at most two zones survives the
      loss of each, whatever the servers, the replication factor and the fault knobs. */
  lemma AZFailureScenario(plan: Plan, snap: Snapshot)
    requires DefaultExpansion(plan, snap)
    requires |Zones(snap)| <= 2
    ensures SomeFails(Simulations(snap), AZLoss)
  {
    DefaultPeersListed(plan, snap);
    var t :| t in snap.tablets && HasNoTwoMajorities(snap, t);
    AtMostTwoZonesFail(snap, t);
  }
}
