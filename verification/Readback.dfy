/** End to end: what the analyzers read back from an expanded scenario. */
module Readback {
  import opened Counting
  import opened Strings
  import opened Domain
  import opened Config
  import opened Fixture
  import opened Faults
  import opened FixtureTheorems
  import opened FixtureExact
  import opened Raft
  import T = Tablets
  import TT = TabletsTheorems

  // ----- leaders and followers

  lemma VotersOfPlacement(i: nat, leader: NodeID, picked: seq<NodeID>)
    ensures VotingPeers(TabletOf(i, leader, picked)) == PeersOf(picked)
  {
    FilterKeepsAll(PeersOf(picked), IsVoting());
  }

  lemma {:induction false} LeadsOnce(picked: seq<NodeID>, t: Tablet, id: NodeID)
    requires Distinct(picked) && |picked| >= 1 && t.leaderID == picked[0]
    ensures CountIf(PeersOf(picked), T.LeadsOn(t, id)) == if picked[0] == id then 1 else 0
  {
    var n := |picked| - 1;
    assert PeersOf(picked)[..n] == PeersOf(picked[..n]);
    if n > 0 {
      LeadsOnce(picked[..n], t, id);
    } else {
      assert PeersOf(picked)[..0] == [];
    }
  }

  lemma {:induction false} LeadersOnPlan(queue: seq<NodeID>, placements: seq<seq<NodeID>>, rf: int, id: NodeID)
    requires |queue| == |placements|
    requires forall i :: 0 <= i < |queue| ==> SafePlacement(queue[i], placements[i], rf)
    ensures T.LeadersOn(TabletsOf(queue, placements), id) == CountIf(queue, Is(id))
  {
    if queue != [] {
      var n := |queue| - 1;
      LeadersOnPlan(queue[..n], placements[..n], rf, id);
      TabletsOfAt(queue[..n], placements[..n]);
      assert TabletsOf(queue, placements)[..n] == TabletsOf(queue[..n], placements[..n]);
      VotersOfPlacement(n, queue[n], placements[n]);
      LeadsOnce(placements[n], TabletOf(n, queue[n], placements[n]), id);
    }
  }

  lemma NodeReadsBack(leaders: Counts, followers: Counts, rf: int, id: NodeID)
    ensures var ts := Expanded(leaders, followers, rf);
            && T.LeadersOn(ts, id) == Clamp(Get(leaders, id))
            && T.FollowersOn(ts, id) == Get(followers, id) - Get(AllocationOf(leaders, followers, rf).remain, id)
  {
    ExpandedAt(leaders, followers, rf);
    var q, ps := Queue(leaders), AllocationOf(leaders, followers, rf).placements;
    LeadersOnPlan(q, ps, rf, id);
    QueueCount(leaders, id);
    DemandConserved(leaders, followers, rf, id);
    FollowersOnPlan(q, ps, rf, id);
  }

  lemma {:induction false} FollowsUnlessFirst(picked: seq<NodeID>, t: Tablet, id: NodeID)
    requires Distinct(picked) && |picked| >= 1 && t.leaderID == picked[0]
    ensures CountIf(PeersOf(picked), T.FollowsOn(t, id)) == CountIf(PeersOf(picked), OnAsFollower(id))
  {
    forall p | p in PeersOf(picked) ensures T.FollowsOn(t, id)(p) == OnAsFollower(id)(p) {
      var j :| 0 <= j < |picked| && PeersOf(picked)[j] == p;
    }
    CountSame(PeersOf(picked), T.FollowsOn(t, id), OnAsFollower(id));
  }

  lemma {:induction false} FollowersOnPlan(queue: seq<NodeID>, placements: seq<seq<NodeID>>, rf: int, id: NodeID)
    requires |queue| == |placements|
    requires forall i :: 0 <= i < |queue| ==> SafePlacement(queue[i], placements[i], rf)
    ensures T.FollowersOn(TabletsOf(queue, placements), id) == PeerCount(TabletsOf(queue, placements), OnAsFollower(id))
  {
    if queue != [] {
      var n := |queue| - 1;
      FollowersOnPlan(queue[..n], placements[..n], rf, id);
      TabletsOfAt(queue[..n], placements[..n]);
      assert TabletsOf(queue, placements)[..n] == TabletsOf(queue[..n], placements[..n]);
      VotersOfPlacement(n, queue[n], placements[n]);
      FollowsUnlessFirst(placements[n], TabletOf(n, queue[n], placements[n]), id);
    }
  }

  /** The rows the tablet analyzer returns for a fault-free plan: every TServer has one,
      and in every row the leaders are the planned ones and the followers the planned
      demand less what the allocator left of it. */
  lemma PlanReadsBack(leaders: Counts, followers: Counts, rf: int, snap: Snapshot, rows: seq<T.NodeTabletStats>)
    requires snap.tablets == Expanded(leaders, followers, rf) && T.IsRows(snap, rows)
    ensures forall ts :: ts in snap.tservers ==> exists r :: r in rows && r.nodeID == ts.id
    ensures forall r :: r in rows ==>
              && r.leaders == Clamp(Get(leaders, r.nodeID))
              && r.followers == Get(followers, r.nodeID) - Get(AllocationOf(leaders, followers, rf).remain, r.nodeID)
  {
    TT.SummaryRows(snap, rows);
    forall r | r in rows
      ensures r.leaders == Clamp(Get(leaders, r.nodeID))
      ensures r.followers == Get(followers, r.nodeID) - Get(AllocationOf(leaders, followers, rf).remain, r.nodeID)
    {
      NodeReadsBack(leaders, followers, rf, r.nodeID);
    }
    forall ts | ts in snap.tservers ensures exists r :: r in rows && r.nodeID == ts.id {
      TT.ServerHasRow(snap, rows, ts);
    }
  }

  /** With as many nodes as replicas and a complete demand, the rows of the nodes hold
      both the leader and the follower counts exactly as planned, and every tablet. */
  lemma CompletePlanReadsBack(nodes: set<NodeID>, leaders: Counts, followers: Counts, snap: Snapshot,
                              rows: seq<T.NodeTabletStats>)
    requires CompleteDemand(nodes, leaders, followers)
    requires snap.tablets == Expanded(leaders, followers, |nodes|) && T.IsRows(snap, rows)
    ensures forall r :: r in rows && r.nodeID in nodes ==>
              && r.leaders == Clamp(Get(leaders, r.nodeID))
              && r.followers == Get(followers, r.nodeID)
              && r.total == |snap.tablets|
  {
    CompleteDemandRealised(nodes, leaders, followers);
    PlanReadsBack(leaders, followers, |nodes|, snap, rows);
    TT.RowsAddUp(snap, rows);
    ExpandedAt(leaders, followers, |nodes|);
  }

  // ----- faults

  /** The shape of a fault-free tablet with rf replicas. */
  ghost predicate Fresh(t: Tablet, rf: int) {
    && |t.peers| == rf >= 1
    && forall j :: 0 <= j < |t.peers| ==>
         t.peers[j].role == (if j == 0 then Leader else Follower) && t.peers[j].lag == 0
             && t.peers[j].state == OtherState("")
  }

  lemma ExpandedIsFresh(leaders: Counts, followers: Counts, rf: int)
    requires rf >= 1 && FullyPlaced(leaders, followers, rf)
    ensures forall t :: t in Expanded(leaders, followers, rf) ==> Fresh(t, rf)
  {
    ExpandedAt(leaders, followers, rf);
    var ts := Expanded(leaders, followers, rf);
    forall t | t in ts ensures Fresh(t, rf) {
      var i :| 0 <= i < |ts| && ts[i] == t;
    }
  }

  lemma FreshFollower(t: Tablet, rf: int)
    requires Fresh(t, rf)
    ensures HasFollower(t) <==> rf >= 2
    ensures rf >= 2 ==> FirstFollower(t.peers) == 1
  {
    if rf >= 2 {
      assert t.peers[1] in t.peers;
      assert t.peers[FirstFollower(t.peers)].role == Follower || FirstFollower(t.peers) == |t.peers|;
    }
  }

  lemma SlowReach(ts: seq<Tablet>, rf: int, n: int, i: nat)
    requires forall t :: t in ts ==> Fresh(t, rf)
    requires i < |ts|
    ensures SlowAt(ts, n, i) <==> rf >= 2 && i < n
  {
    assert ts[i] in ts;
    FreshFollower(ts[i], rf);
    if rf >= 2 {
      forall t | t in ts[..i] ensures HasFollower(t) {
        assert t in ts;
        FreshFollower(t, rf);
      }
      FilterKeepsAll(ts[..i], IsFollower());
    }
  }

  /** The lag threshold is on, and an injected lag reaches it. */
  predicate Noticed(lag: int) {
    0 < lag <= 1_500_000_000
  }

  /** Everything the analyzers will look at in one damaged tablet. */
  lemma FaultedShape(ts: seq<Tablet>, plan: Plan, rf: int, lag: int, i: nat)
    requires forall t :: t in ts ==> Fresh(t, rf)
    requires i < |ts|
    ensures var t := FaultedAt(ts, plan, i);
            && |t.peers| == (if rf >= 2 && i < plan.underReplicated then rf - 1 else rf)
            && VotingPeers(t) == t.peers
            && (HasLeader(t) <==> !(i < plan.leaderless))
            && CountIf(t.peers, IsSlow(lag)) ==
               (if Noticed(lag) && i < plan.slowFollowers && (rf >= 3 || (rf == 2 && !(i < plan.underReplicated)))
                then 1 else 0)
  {
    assert ts[i] in ts;
    FaultedPeers(ts, plan, rf, i);
    ShapeOf(FaultedAt(ts, plan, i), i < plan.leaderless, i < plan.slowFollowers, lag);
  }

  lemma ShapeOf(t: Tablet, orphaned: bool, slowed: bool, lag: int)
    requires |t.peers| >= 1
    requires orphaned ==> t.leaderID == ""
    requires forall j :: 0 <= j < |t.peers| ==>
               && t.peers[j].state == OtherState("")
               && t.peers[j].role == (if j == 0 && !orphaned then Leader else Follower)
               && t.peers[j].lag == (if j == 1 && slowed then SLOW_LAG else 0)
    ensures VotingPeers(t) == t.peers
    ensures HasLeader(t) <==> !orphaned
    ensures CountIf(t.peers, IsSlow(lag)) == if Noticed(lag) && slowed && |t.peers| >= 2 then 1 else 0
  {
    FilterKeepsAll(t.peers, IsVoting());
    FaultedLeader(t, orphaned);
    FaultedSlow(t.peers, lag, slowed);
  }

  lemma FaultedLeader(t: Tablet, orphaned: bool)
    requires |t.peers| >= 1 && VotingPeers(t) == t.peers
    requires orphaned ==> t.leaderID == ""
    requires forall j :: 0 <= j < |t.peers| ==> t.peers[j].role == (if j == 0 && !orphaned then Leader else Follower)
    ensures HasLeader(t) <==> !orphaned
  {
    assert t.peers[0] in t.peers;
  }

  lemma FaultedSlow(peers: seq<TabletPeer>, lag: int, slowed: bool)
    requires forall j :: 0 <= j < |peers| ==>
               && (j > 0 ==> peers[j].role == Follower)
               && peers[j].lag == (if j == 1 && slowed then SLOW_LAG else 0)
    ensures CountIf(peers, IsSlow(lag)) == if Noticed(lag) && slowed && |peers| >= 2 then 1 else 0
  {
    CountSecond(peers, IsSlow(lag), Noticed(lag) && slowed);
  }

  /** The damaged tablet, peer by peer. */
  lemma FaultedPeers(ts: seq<Tablet>, plan: Plan, rf: int, i: nat)
    requires forall t :: t in ts ==> Fresh(t, rf)
    requires i < |ts|
    ensures var t := FaultedAt(ts, plan, i);
            && |t.peers| == (if rf >= 2 && i < plan.underReplicated then rf - 1 else rf)
            && (i < plan.leaderless ==> t.leaderID == "")
            && forall j :: 0 <= j < |t.peers| ==>
                 && t.peers[j].state == OtherState("")
                 && t.peers[j].role == (if j == 0 && !(i < plan.leaderless) then Leader else Follower)
                 && t.peers[j].lag == (if j == 1 && i < plan.slowFollowers then SLOW_LAG else 0)
  {
    assert ts[i] in ts;
    SlowReach(ts, rf, plan.slowFollowers, i);
    FreshFollower(ts[i], rf);
  }

  lemma {:induction false} CountSecond(peers: seq<TabletPeer>, p: TabletPeer -> bool, on: bool)
    requires forall j :: 0 <= j < |peers| ==> (p(peers[j]) <==> j == 1 && on)
    ensures CountIf(peers, p) == if on && |peers| >= 2 then 1 else 0
  {
    if peers != [] {
      CountSecond(peers[..|peers| - 1], p, on);
    }
  }

  /** How many slow followers the analyzer finds, for every replication factor: with two
      replicas an under-replicated tablet has lost its slow follower, with one replica
      there never was a follower; and a threshold the injected lag misses finds none. */
  function SlowFound(plan: Plan, rf: int, lag: int, t: nat): int {
    if !Noticed(lag) then 0
    else if rf >= 3 then Capped(plan.slowFollowers, t)
    else if rf == 2 then Clamp(Capped(plan.slowFollowers, t) - Capped(plan.underReplicated, t))
    else 0
  }

  lemma SlowPeersAt(ts: seq<Tablet>, plan: Plan, rf: int, lag: int, i: nat)
    requires forall t :: t in ts ==> Fresh(t, rf)
    requires i < |ts| && rf >= 1
    ensures CountIf(FaultedAt(ts, plan, i).peers, IsSlow(lag)) ==
            SlowFound(plan, rf, lag, i + 1) - SlowFound(plan, rf, lag, i)
  {
    FaultedShape(ts, plan, rf, lag, i);
    SlowFoundStep(plan, rf, lag, i);
  }

  lemma SlowFoundStep(plan: Plan, rf: int, lag: int, i: nat)
    requires rf >= 1
    ensures SlowFound(plan, rf, lag, i + 1) - SlowFound(plan, rf, lag, i) ==
            if Noticed(lag) && i < plan.slowFollowers && (rf >= 3 || (rf == 2 && !(i < plan.underReplicated)))
            then 1 else 0
  {
  }

  lemma {:induction false} SlowPeersUpTo(ts: seq<Tablet>, out: seq<Tablet>, plan: Plan, rf: int, lag: int, n: nat)
    requires forall t :: t in ts ==> Fresh(t, rf)
    requires FaultedTablets(ts, plan, out) && n <= |out| && rf >= 1
    ensures PeerCount(out[..n], IsSlow(lag)) == SlowFound(plan, rf, lag, n)
  {
    if n > 0 {
      SlowPeersUpTo(ts, out, plan, rf, lag, n - 1);
      SlowPeersAt(ts, plan, rf, lag, n - 1);
      assert out[..n][..n - 1] == out[..n - 1];
    }
  }

  /** The injected faults come back through the Raft analyzer, for every combination of
      the three knobs although they damage the same tablets. */
  lemma FaultsReadBack(leaders: Counts, followers: Counts, plan: Plan, snap: Snapshot, th: Thresholds)
    requires var rf := PlanRF(plan);
             && rf >= 1 && FullyPlaced(leaders, followers, rf)
             && snap.replicationFactor == rf
             && FaultedTablets(Expanded(leaders, followers, rf), plan, snap.tablets)
             && snap.underReplicatedIDs == [] && snap.leaderlessIDs == []
    ensures var raft, rf, t := RaftOf(snap, th), PlanRF(plan), |snap.tablets|;
            && raft.leaderless == Capped(plan.leaderless, t)
            && raft.underReplicated == (if rf >= 2 then Capped(plan.underReplicated, t) else 0)
            && raft.slowFollowers == SlowFound(plan, rf, th.slowFollowerLag, t)
  {
    var rf, lag := PlanRF(plan), th.slowFollowerLag;
    var ts, out := Expanded(leaders, followers, rf), snap.tablets;
    ExpandedIsFresh(leaders, followers, rf);
    forall i | 0 <= i < |out|
      ensures IsLeaderless()(out[i]) <==> i < plan.leaderless
      ensures IsUnderReplicated(rf)(out[i]) <==> rf >= 2 && i < plan.underReplicated
    {
      FaultedShape(ts, plan, rf, lag, i);
    }
    CountPrefix(out, IsLeaderless(), plan.leaderless);
    CountPrefix(out, IsUnderReplicated(rf), if rf >= 2 then plan.underReplicated else 0);
    SlowPeersUpTo(ts, out, plan, rf, lag, |out|);
    assert out[..|out|] == out;
  }

  /** When the leader counts allow full replication, all three knobs come back as
      injected if and only if the lag threshold notices slow followers or none was asked
      for, and the replication factor is at least three or the knobs that collide at lower
      factors reach no tablet. */
  lemma FaultsReadBackIff(leaders: Counts, followers: Counts, plan: Plan, snap: Snapshot, th: Thresholds)
    requires var rf := PlanRF(plan);
             && rf >= 1 && CanReplicate(leaders, rf)
             && snap.replicationFactor == rf
             && FaultedTablets(Expanded(leaders, followers, rf), plan, snap.tablets)
             && snap.underReplicatedIDs == [] && snap.leaderlessIDs == []
    ensures var raft, rf, t := RaftOf(snap, th), PlanRF(plan), |snap.tablets|;
            var slow, under := Capped(plan.slowFollowers, t), Capped(plan.underReplicated, t);
            (raft.leaderless == Capped(plan.leaderless, t) && raft.underReplicated == under
                && raft.slowFollowers == slow)
            <==> (Noticed(th.slowFollowerLag) || slow == 0)
                 && (rf >= 3 || (rf == 2 && (slow == 0 || under == 0)) || (rf == 1 && slow == 0 && under == 0))
  {
    ReplicatesIf(leaders, followers, PlanRF(plan));
    FaultsReadBack(leaders, followers, plan, snap, th);
  }

  /** Any two servers at RF 2 and no counts, one slow follower and one under-replicated
      tablet asked for. */
  function CollidingPlan(a: TServer, b: TServer): Plan {
    Plan(2, [], [a, b], map[], map[], 1, 0, 0, 1, Performance(0.0, map[]))
  }

  /** The slow follower sits on the very tablet that loses its follower: of the nine
      tablets, every one placed in full, one comes back under-replicated and none slow. */
  lemma FaultsCanCollide(a: TServer, b: TServer, snap: Snapshot, th: Thresholds)
    requires a.id != "" && b.id != "" && a.id != b.id
    requires IsExpansion(CollidingPlan(a, b), snap.tablets)
    requires snap.replicationFactor == 2 && snap.underReplicatedIDs == [] && snap.leaderlessIDs == []
    ensures forall leaders, followers ::
              PlanCounts(CollidingPlan(a, b), leaders, followers) ==> FullyPlaced(leaders, followers, 2)
    ensures |snap.tablets| == 9
    ensures RaftOf(snap, th).underReplicated == 1 && RaftOf(snap, th).slowFollowers == 0
  {
    var plan := CollidingPlan(a, b);
    CollidingPlanIsPlaced(a, b);
    var leaders, followers :|
      PlanCounts(plan, leaders, followers) && FaultedTablets(Expanded(leaders, followers, 2), plan, snap.tablets);
    FaultsReadBack(leaders, followers, plan, snap, th);
  }

  lemma CollidingPlanIsPlaced(a: TServer, b: TServer)
    requires a.id != "" && b.id != "" && a.id != b.id
    ensures forall leaders, followers :: PlanCounts(CollidingPlan(a, b), leaders, followers) ==>
              FullyPlaced(leaders, followers, 2) && |Expanded(leaders, followers, 2)| == DEFAULT_TABLETS
  {
    BalancedCountsAreRealised([a, b], DEFAULT_TABLETS);
  }

  // ----- hot tablets

  /** The rates every tablet is expanded with, wherever its replicas are. */
  ghost predicate AtRest(t: Tablet) {
    t.readOps == READ_OPS && t.writeOps == 0.0
  }

  lemma ExpandedAtRest(leaders: Counts, followers: Counts, rf: int)
    ensures forall t :: t in Expanded(leaders, followers, rf) ==> AtRest(t)
  {
    ExpandedAt(leaders, followers, rf);
    var ts := Expanded(leaders, followers, rf);
    forall t | t in ts ensures AtRest(t) {
      var i :| 0 <= i < |ts| && ts[i] == t;
    }
  }

  lemma FaultedRate(ts: seq<Tablet>, plan: Plan, i: nat)
    requires i < |ts| && AtRest(ts[i])
    ensures FaultedAt(ts, plan, i).Ops() == READ_OPS + (if i < plan.hotTablets then HOT_WRITE_OPS else 0.0)
  {
  }

  lemma {:induction false} FaultedOps(ts: seq<Tablet>, out: seq<Tablet>, plan: Plan, n: nat)
    requires forall t :: t in ts ==> AtRest(t)
    requires FaultedTablets(ts, plan, out) && n <= |out|
    ensures T.SumOps(out[..n]) == READ_OPS * n as real + HOT_WRITE_OPS * Capped(plan.hotTablets, n) as real
  {
    if n > 0 {
      FaultedOps(ts, out, plan, n - 1);
      assert ts[n - 1] in ts;
      FaultedRate(ts, plan, n - 1);
      assert out[..n][..n - 1] == out[..n - 1];
      OneMoreTablet(n - 1, Capped(plan.hotTablets, n - 1), Capped(plan.hotTablets, n));
    }
  }

  lemma OneMoreTablet(n: nat, h: nat, h': nat)
    requires h' == h || h' == h + 1
    ensures READ_OPS * (n + 1) as real == READ_OPS * n as real + READ_OPS
    ensures HOT_WRITE_OPS * h' as real == HOT_WRITE_OPS * h as real + (if h' == h then 0.0 else HOT_WRITE_OPS)
  {
  }

  /** A rate reaches ratio times the average of t tablets exactly if t times the rate
      reaches ratio times their sum. */
  lemma RateThreshold(rate: real, sum: real, t: nat, ratio: real)
    requires t > 0
    ensures rate >= sum / t as real * ratio <==> rate * t as real >= ratio * sum
  {
    var n := t as real;
    var avg := sum / n;
    assert avg * n == sum;
    assert (avg * ratio) * n == ratio * (avg * n);
    ScaleTo(rate, avg * ratio, n, ratio * sum);
  }

  lemma AveragePositive(sum: real, t: nat)
    requires t > 0 && sum > 0.0
    ensures sum / t as real > 0.0
  {
    var n := t as real;
    ScaleTo(0.0, sum / n, n, sum);
  }

  lemma ScaleTo(x: real, y: real, k: real, yk: real)
    requires k > 0.0 && y * k == yk
    ensures x >= y <==> x * k >= yk
  {
    ScaleCompare(x, y, k);
  }

  lemma ScaleCompare(x: real, y: real, k: real)
    requires k > 0.0
    ensures x >= y <==> x * k >= y * k
    ensures x > y <==> x * k > y * k
  {
    assert (x - y) * k == x * k - y * k;
    SignOfProduct(x - y, k);
  }

  lemma SignOfProduct(d: real, k: real)
    requires k > 0.0
    ensures d > 0.0 ==> d * k > 0.0
    ensures d < 0.0 ==> d * k < 0.0
    ensures d == 0.0 ==> d * k == 0.0
  {
  }

  /** The rates of t tablets, h of them hot, add up to this. */
  function InjectedOps(t: nat, h: nat): real {
    READ_OPS * t as real + HOT_WRITE_OPS * h as real
  }

  /** Tablet i runs at the hot rate if i < n, and at the plain one otherwise. */
  ghost predicate RunsHot(out: seq<Tablet>, n: int) {
    && T.SumOps(out) == InjectedOps(|out|, Capped(n, |out|))
    && forall i :: 0 <= i < |out| ==> out[i].Ops() == READ_OPS + (if i < n then HOT_WRITE_OPS else 0.0)
  }

  lemma InjectedRates(leaders: Counts, followers: Counts, plan: Plan, out: seq<Tablet>)
    requires FaultedTablets(Expanded(leaders, followers, PlanRF(plan)), plan, out)
    ensures RunsHot(out, plan.hotTablets)
  {
    var ts := Expanded(leaders, followers, PlanRF(plan));
    ExpandedAtRest(leaders, followers, PlanRF(plan));
    FaultedOps(ts, out, plan, |out|);
    assert out[..|out|] == out;
    forall i | 0 <= i < |out| ensures out[i].Ops() == READ_OPS + (if i < plan.hotTablets then HOT_WRITE_OPS else 0.0) {
      assert ts[i] in ts;
      FaultedRate(ts, plan, i);
    }
  }

  /** How many of the hot and how many of the other tablets reach a bound. */
  lemma CountTwoRates(out: seq<Tablet>, n: int, bound: real)
    requires RunsHot(out, n)
    ensures CountIf(out, T.IsHot(bound)) ==
            (if READ_OPS + HOT_WRITE_OPS >= bound then Capped(n, |out|) else 0) +
            (if READ_OPS >= bound then |out| - Capped(n, |out|) else 0)
  {
    if READ_OPS >= bound {
      CountPrefix(out, T.IsHot(bound), |out|);
    } else {
      CountPrefix(out, T.IsHot(bound), if READ_OPS + HOT_WRITE_OPS >= bound then n else 0);
    }
  }

  /** The rate reaches ratio times the average of t tablets, h of them hot. */
  predicate Reaches(rate: real, ratio: real, t: nat, h: nat) {
    rate * t as real >= ratio * InjectedOps(t, h)
  }

  lemma BoundReached(out: seq<Tablet>, n: int, ratio: real, rate: real)
    requires RunsHot(out, n) && out != []
    ensures T.AverageOps(out) > 0.0
    ensures rate >= T.HotBound(out, ratio) <==> Reaches(rate, ratio, |out|, Capped(n, |out|))
  {
    AveragePositive(T.SumOps(out), |out|);
    RateThreshold(rate, T.SumOps(out), |out|, ratio);
  }

  /** For every plan and every ratio: the h injected hot tablets are counted exactly if
      their rate reaches ratio times the average, and the others exactly if theirs does. */
  lemma HotTabletsReadBack(leaders: Counts, followers: Counts, plan: Plan, out: seq<Tablet>, ratio: real)
    requires FaultedTablets(Expanded(leaders, followers, PlanRF(plan)), plan, out)
    ensures var t, h := |out|, Capped(plan.hotTablets, |out|);
            T.HotTabletCount(out, ratio) ==
            (if Reaches(READ_OPS + HOT_WRITE_OPS, ratio, t, h) then h else 0) +
            (if Reaches(READ_OPS, ratio, t, h) then t - h else 0)
  {
    if out != [] {
      InjectedRates(leaders, followers, plan, out);
      BoundReached(out, plan.hotTablets, ratio, READ_OPS + HOT_WRITE_OPS);
      BoundReached(out, plan.hotTablets, ratio, READ_OPS);
      CountTwoRates(out, plan.hotTablets, T.HotBound(out, ratio));
    }
  }

  /** At the default ratio 3 the injected hot tablets are read back exactly when they are
      few enough not to raise the average past a third of their own rate: 250 h <= 83 T.
      Otherwise none is. */
  lemma HotTabletsAtDefaultRatio(leaders: Counts, followers: Counts, plan: Plan, out: seq<Tablet>)
    requires FaultedTablets(Expanded(leaders, followers, PlanRF(plan)), plan, out)
    ensures var h := Capped(plan.hotTablets, |out|);
            T.HotTabletCount(out, 3.0) == if 250 * h <= 83 * |out| then h else 0
  {
    HotTabletsReadBack(leaders, followers, plan, out, 3.0);
    AtDefaultRatio(|out|, Capped(plan.hotTablets, |out|));
  }

  lemma AtDefaultRatio(t: nat, h: nat)
    requires h <= t
    ensures Reaches(READ_OPS + HOT_WRITE_OPS, 3.0, t, h) <==> 250 * h <= 83 * t
    ensures t > 0 ==> !Reaches(READ_OPS, 3.0, t, h)
  {
    assert (83 * t) as real == 83.0 * t as real && (250 * h) as real == 250.0 * h as real;
  }
}
