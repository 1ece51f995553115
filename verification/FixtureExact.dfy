/** When every tablet gets its full replica set, and when the allocator realises the
    planned follower counts exactly. */
module FixtureExact {
  import opened Counting
  import opened Strings
  import opened Domain
  import opened Grouping
  import opened Fixture
  import opened Faults
  import opened FixtureTheorems

  // ----- full replication

  ghost predicate FullyPlaced(leaders: Counts, followers: Counts, rf: int) {
    forall t :: t in Expanded(leaders, followers, rf) ==> |t.peers| == rf
  }

  /** The empty id is no leader key, or no other id leads a tablet. */
  predicate EmptyIDHarmless(leaders: Counts) {
    "" in leaders ==> forall id :: id in leaders && id != "" ==> leaders[id] <= 0
  }

  /** What the leader counts must satisfy for every tablet to reach rf, whatever the
      follower counts are. */
  predicate CanReplicate(leaders: Counts, rf: int) {
    || rf == 1
    || (forall id :: id in leaders ==> leaders[id] <= 0)
    || (rf > 1 && |leaders| >= rf && EmptyIDHarmless(leaders))
  }

  lemma {:induction false} DistinctWithin(s: seq<NodeID>, bound: set<NodeID>)
    requires Distinct(s) && forall x :: x in s ==> x in bound
    ensures |s| <= |bound|
    ensures |s| == |bound| ==> forall x :: x in bound ==> x in s
  {
    if s != [] {
      var n := |s| - 1;
      assert s == s[..n] + [s[n]];
      DistinctWithin(s[..n], bound - {s[n]});
    } else if |bound| == 0 {
      assert bound == {};
    }
  }

  /** With fewer picks than ids, some id is still free. */
  lemma {:induction false} FreeID(ids: set<NodeID>, picked: seq<NodeID>)
    requires |picked| < |ids|
    ensures exists id :: id in ids && id !in picked
  {
    if picked == [] {
      var id :| id in ids;
    } else {
      var n := |picked| - 1;
      assert picked == picked[..n] + [picked[n]];
      var rest := ids - {picked[n]};
      FreeID(rest, picked[..n]);
      var id :| id in rest && id !in picked[..n];
    }
  }

  lemma {:induction false} PickFills(remain: Counts, picked: seq<NodeID>, ids: seq<NodeID>, all: set<NodeID>, rf: int)
    requires forall id :: id in ids <==> id in all
    requires |picked| <= rf <= |all|
    requires "" in all ==> "" in picked
    ensures |Pick(remain, picked, ids, rf).picked| == rf
    decreases rf - |picked|
  {
    if |picked| < rf {
      FreeID(all, picked);
      FallbackIs(ids, picked);
      var id := Next(remain, picked, ids);
      PickFills(remain[id := Get(remain, id) - 1], picked + [id], ids, all, rf);
    }
  }

  lemma {:induction false} AllocateFills(queue: seq<NodeID>, ids: seq<NodeID>, all: set<NodeID>, followers: Counts,
                                         rf: int)
    requires forall id :: id in ids <==> id in all
    requires 1 <= rf && (rf == 1 || rf <= |all|)
    requires rf == 1 || ("" in all ==> forall x :: x in queue ==> x == "")
    ensures forall p :: p in Allocate(queue, ids, followers, rf).placements ==> |p| == rf
  {
    if queue != [] {
      var n := |queue| - 1;
      assert queue[n] in queue && forall x :: x in queue[..n] ==> x in queue;
      var before := Allocate(queue[..n], ids, followers, rf);
      AllocateFills(queue[..n], ids, all, followers, rf);
      if rf > 1 {
        PickFills(before.remain, [queue[n]], ids, all, rf);
      }
    }
  }

  lemma ReplicatesIf(leaders: Counts, followers: Counts, rf: int)
    requires CanReplicate(leaders, rf)
    ensures FullyPlaced(leaders, followers, rf)
  {
    ExpandedAt(leaders, followers, rf);
    QueueMembers(leaders);
    var q, ps, ts := Queue(leaders), AllocationOf(leaders, followers, rf).placements, Expanded(leaders, followers, rf);
    if |q| > 0 {
      assert q[0] in q;
      AllocateFills(q, IDOrder(leaders), leaders.Keys, followers, rf);
      forall t | t in ts ensures |t.peers| == rf {
        var i :| 0 <= i < |ts| && ts[i] == t;
        assert ps[i] in ps;
      }
    }
  }

  // Without follower counts only the fallback chooses.

  ghost predicate NoDemand(remain: Counts) {
    forall id :: id in remain ==> remain[id] <= 0
  }

  lemma {:induction false} PickWithoutDemand(remain: Counts, picked: seq<NodeID>, ids: seq<NodeID>, rf: int)
    requires NoDemand(remain) && Distinct(picked)
    ensures var c := Pick(remain, picked, ids, rf);
            && NoDemand(c.remain) && Distinct(c.picked)
            && forall j :: |picked| <= j < |c.picked| ==> c.picked[j] in ids
    decreases Clamp(rf - |picked|)
  {
    BestIsCandidate(remain, picked);
    FallbackIs(ids, picked);
    var id := Next(remain, picked, ids);
    PickIsSafe(remain, picked, ids, rf);
    if |picked| < rf && id != "" {
      var remain' := remain[id := Get(remain, id) - 1];
      NextIsFresh(remain, picked, ids);
      PickIsSafe(remain', picked + [id], ids, rf);
      PickWithoutDemand(remain', picked + [id], ids, rf);
      assert Pick(remain, picked, ids, rf).picked[|picked|] == (picked + [id])[|picked|];
    }
  }

  lemma {:induction false} AllocateWithoutDemand(queue: seq<NodeID>, ids: seq<NodeID>, rf: int)
    ensures NoDemand(Allocate(queue, ids, map[], rf).remain)
    ensures var ps := Allocate(queue, ids, map[], rf).placements;
            |ps| == |queue| &&
            forall i :: 0 <= i < |queue| ==>
              Distinct(ps[i]) && |ps[i]| >= 1 && ps[i][0] == queue[i] && forall j :: 1 <= j < |ps[i]| ==>
                  ps[i][j] in ids
    ensures var ps := Allocate(queue, ids, map[], rf).placements;
            rf > 1 && ids != [] && ids[0] == "" ==> forall i :: 0 <= i < |queue| && queue[i] != "" ==> |ps[i]| == 1
  {
    if queue != [] {
      var n := |queue| - 1;
      var before := Allocate(queue[..n], ids, map[], rf);
      AllocateWithoutDemand(queue[..n], ids, rf);
      PickWithoutDemand(before.remain, [queue[n]], ids, rf);
      PickIsSafe(before.remain, [queue[n]], ids, rf);
      BestIsCandidate(before.remain, [queue[n]]);
    }
  }

  lemma EmptyIDFirst(leaders: Counts)
    requires "" in leaders
    ensures IDOrder(leaders) != [] && IDOrder(leaders)[0] == ""
  {
    IDOrderDistinct(leaders);
    var ids := IDOrder(leaders);
    assert "" in ids;
    assert forall k :: 0 < k < |ids| ==> Less(ids[0], ids[k]);
  }

  lemma ReplicatesOnlyIf(leaders: Counts, rf: int)
    requires !CanReplicate(leaders, rf)
    ensures !FullyPlaced(leaders, map[], rf)
  {
    var ids, q := IDOrder(leaders), Queue(leaders);
    var ps, ts := AllocationOf(leaders, map[], rf).placements, Expanded(leaders, map[], rf);
    ExpandedAt(leaders, map[], rf);
    QueueMembers(leaders);
    AllocateWithoutDemand(q, ids, rf);
    if rf <= 0 {
      var leader :| leader in leaders && leaders[leader] > 0;
      var i :| 0 <= i < |q| && q[i] == leader;
      assert ts[i] in ts && |ts[i].peers| >= 1;
    } else if |leaders| < rf {
      var leader :| leader in leaders && leaders[leader] > 0;
      var i :| 0 <= i < |q| && q[i] == leader;
      WithinIDs(ps[i], ids, leaders);
      assert ts[i] in ts && |ts[i].peers| == |ps[i]|;
    } else {
      EmptyIDFirst(leaders);
      var id :| id in leaders && id != "" && leaders[id] > 0;
      var i :| 0 <= i < |q| && q[i] == id;
      assert ts[i] in ts && |ts[i].peers| == |ps[i]|;
    }
  }

  /** A leader and distinct fallback ids are no more than the leader keys. */
  lemma WithinIDs(placement: seq<NodeID>, ids: seq<NodeID>, leaders: Counts)
    requires Distinct(placement) && |placement| >= 1 && placement[0] in leaders
    requires forall id :: id in ids <==> id in leaders
    requires forall j :: 1 <= j < |placement| ==> placement[j] in ids
    ensures |placement| <= |leaders|
  {
    forall x | x in placement ensures x in leaders.Keys {
      var j :| 0 <= j < |placement| && placement[j] == x;
      assert j == 0 || x in ids;
    }
    DistinctWithin(placement, leaders.Keys);
  }

  /** Every tablet gets exactly rf peers for every follower plan if and only if there
      are rf leader keys and the empty id is not among them (or leads alone): having
      rf non-empty keys is not enough, because a fallback that lands on "" gives up. */
  lemma FullReplicationIff(leaders: Counts, rf: int)
    ensures (forall followers :: FullyPlaced(leaders, followers, rf)) <==> CanReplicate(leaders, rf)
  {
    if CanReplicate(leaders, rf) {
      forall followers ensures FullyPlaced(leaders, followers, rf) {
        ReplicatesIf(leaders, followers, rf);
      }
    } else {
      ReplicatesOnlyIf(leaders, rf);
    }
  }

  /** The empty id spoils a plan with three proper leader keys and RF 3. */
  lemma EmptyIDSpoilsReplication()
    ensures var leaders: Counts := map["" := 1, "a" := 1, "b" := 1, "c" := 1];
            |leaders| >= 3 + 1 && !FullyPlaced(leaders, map[], 3)
  {
    var leaders: Counts := map["" := 1, "a" := 1, "b" := 1, "c" := 1];
    assert leaders.Keys == {"", "a", "b", "c"};
    assert "a"[0] != "b"[0] && "b"[0] != "c"[0] && "a"[0] != "c"[0];
    assert leaders["a"] == 1;
    ReplicatesOnlyIf(leaders, 3);
  }

  // ----- exact realisation when rf is the number of nodes

  /** The demand of a plan in which every tablet sits on every node. */
  ghost predicate CompleteDemand(nodes: set<NodeID>, leaders: Counts, followers: Counts) {
    && "" !in nodes
    && leaders.Keys <= nodes
    && (forall id :: id in nodes ==> Get(followers, id) == |Queue(leaders)| - Clamp(Get(leaders, id)))
    && (forall id :: id in followers && id !in nodes ==> followers[id] <= 0)
  }

  ghost predicate DemandLeft(remain: Counts, picked: seq<NodeID>, nodes: set<NodeID>) {
    && (forall id :: id in nodes && id !in picked ==> Get(remain, id) > 0)
    && (forall id :: id in remain && id !in nodes ==> remain[id] <= 0)
  }

  /** While somebody with demand is free the greedy choice is taken, not the fallback. */
  lemma NextIsGreedy(remain: Counts, picked: seq<NodeID>, ids: seq<NodeID>, nodes: set<NodeID>)
    requires "" !in nodes && |picked| < |nodes| && DemandLeft(remain, picked, nodes)
    ensures Next(remain, picked, ids) == Best(remain, picked)
    ensures Best(remain, picked) in nodes && Best(remain, picked) !in picked
  {
    FreeID(nodes, picked);
    var free :| free in nodes && free !in picked;
    assert Candidate(remain, picked, free);
    BestIsCandidate(remain, picked);
  }

  lemma {:induction false} PickEverybody(remain: Counts, picked: seq<NodeID>, ids: seq<NodeID>, nodes: set<NodeID>)
    requires "" !in nodes && DemandLeft(remain, picked, nodes)
    requires Distinct(picked) && forall x :: x in picked ==> x in nodes
    ensures var c := Pick(remain, picked, ids, |nodes|);
            && |c.picked| == |nodes|
            && (forall x :: x in c.picked <==> x in nodes)
            && (forall id :: id in nodes ==> Get(c.remain, id) == Get(remain, id) - (if id in picked then 0 else 1))
            && (forall id :: id in c.remain && id !in nodes ==> c.remain[id] <= 0)
    ensures Pick(remain, picked, ids, |nodes|) == Pick(remain, picked, [], |nodes|)
    decreases |nodes| - |picked|
  {
    DistinctWithin(picked, nodes);
    if |picked| < |nodes| {
      NextIsGreedy(remain, picked, ids, nodes);
      NextIsGreedy(remain, picked, [], nodes);
      var id := Best(remain, picked);
      var remain', picked' := remain[id := Get(remain, id) - 1], picked + [id];
      assert forall x :: x in picked' <==> x in picked || x == id;
      assert Pick(remain, picked, ids, |nodes|) == Pick(remain', picked', ids, |nodes|);
      PickEverybody(remain', picked', ids, nodes);
    }
  }

  /** One tablet more: everybody but its leader still wants it, and gets it. */
  lemma PickForLeader(remain: Counts, leader: NodeID, ids: seq<NodeID>, nodes: set<NodeID>)
    requires "" !in nodes && leader in nodes
    requires forall id :: id in nodes && id != leader ==> Get(remain, id) > 0
    requires forall id :: id in remain && id !in nodes ==> remain[id] <= 0
    ensures var c := Pick(remain, [leader], ids, |nodes|);
            && |c.picked| == |nodes|
            && (forall x :: x in c.picked <==> x in nodes)
            && (forall id :: id in nodes ==> Get(c.remain, id) == Get(remain, id) - (if id == leader then 0 else 1))
            && (forall id :: id in c.remain && id !in nodes ==> c.remain[id] <= 0)
    ensures Pick(remain, [leader], ids, |nodes|) == Pick(remain, [leader], [], |nodes|)
  {
    PickEverybody(remain, [leader], ids, nodes);
  }

  /** Every tablet of the queue is on every node, and each node's demand has gone down by
      the tablets it does not lead. */
  ghost predicate OnEverybody(a: Allocation, queue: seq<NodeID>, followers: Counts, nodes: set<NodeID>) {
    && (forall p :: p in a.placements ==> |p| == |nodes| && forall x :: x in p <==> x in nodes)
    && (forall id :: id in nodes ==> Get(a.remain, id) == Get(followers, id) - (|queue| - CountIf(queue, Is(id))))
    && (forall id :: id in a.remain && id !in nodes ==> a.remain[id] <= 0)
  }

  lemma OneMoreOnEverybody(before: Allocation, queue: seq<NodeID>, leader: NodeID, ids: seq<NodeID>, followers: Counts,
                           nodes: set<NodeID>)
    requires "" !in nodes && leader in nodes && OnEverybody(before, queue, followers, nodes)
    requires forall id :: id in nodes && id != leader ==> Get(before.remain, id) > 0
    ensures var c := Pick(before.remain, [leader], ids, |nodes|);
            && OnEverybody(Allocation(before.placements + [c.picked], c.remain), queue + [leader], followers, nodes)
            && c == Pick(before.remain, [leader], [], |nodes|)
  {
    PickForLeader(before.remain, leader, ids, nodes);
    forall id | id in nodes
      ensures CountIf(queue + [leader], Is(id)) == CountIf(queue, Is(id)) + (if id == leader then 1 else 0)
    {
      assert (queue + [leader])[..|queue|] == queue;
    }
  }

  lemma {:induction false} AllocateEverybody(queue: seq<NodeID>, ids: seq<NodeID>, followers: Counts,
                                             nodes: set<NodeID>)
    requires "" !in nodes && forall x :: x in queue ==> x in nodes
    // enough demand for every remaining tablet a node does not lead
    requires forall id :: id in nodes ==> Get(followers, id) >= |queue| - CountIf(queue, Is(id))
    requires forall id :: id in followers && id !in nodes ==> followers[id] <= 0
    ensures OnEverybody(Allocate(queue, ids, followers, |nodes|), queue, followers, nodes)
    ensures Allocate(queue, ids, followers, |nodes|) == Allocate(queue, [], followers, |nodes|)
  {
    if queue != [] {
      var n := |queue| - 1;
      assert queue == queue[..n] + [queue[n]];
      AllocateEverybody(queue[..n], ids, followers, nodes);
      OneMoreOnEverybody(Allocate(queue[..n], ids, followers, |nodes|), queue[..n], queue[n], ids, followers, nodes);
    }
  }

  /** A complete demand is realised exactly: every tablet is on every node, nothing of
      the demand is left over or overdrawn on any node, and the fallback is never taken
      (the allocation is the same with no fallback ids at all). */
  lemma CompleteDemandRealised(nodes: set<NodeID>, leaders: Counts, followers: Counts)
    requires CompleteDemand(nodes, leaders, followers)
    ensures var a := AllocationOf(leaders, followers, |nodes|);
            && (forall p :: p in a.placements ==> |p| == |nodes| && forall x :: x in p <==> x in nodes)
            && (forall id :: id in nodes ==> Get(a.remain, id) == 0)
            && a == Allocate(Queue(leaders), [], followers, |nodes|)
  {
    var q := Queue(leaders);
    QueueMembers(leaders);
    forall id | id in nodes ensures CountIf(q, Is(id)) == Clamp(Get(leaders, id)) {
      QueueCount(leaders, id);
    }
    AllocateEverybody(q, IDOrder(leaders), followers, nodes);
  }

  lemma {:induction false} FollowsWhereNotLeading(queue: seq<NodeID>, placements: seq<seq<NodeID>>, rf: int, id: NodeID)
    requires |queue| == |placements|
    requires forall i :: 0 <= i < |queue| ==> SafePlacement(queue[i], placements[i], rf) && id in placements[i]
    ensures PickedAsFollower(placements, id) == |queue| - CountIf(queue, Is(id))
  {
    if queue != [] {
      var n := |queue| - 1;
      var p := placements[n];
      FollowsWhereNotLeading(queue[..n], placements[..n], rf, id);
      DistinctMultiset(p);
      assert p == [p[0]] + p[1..];
      assert multiset(p)[id] == 1;
    }
  }

  /** Every tablet sits on exactly the nodes, and no demand is left or overdrawn on them. */
  ghost predicate ExactlyRealised(nodes: set<NodeID>, leaders: Counts, followers: Counts) {
    var a := AllocationOf(leaders, followers, |nodes|);
    && (forall p :: p in a.placements ==> |p| == |nodes| && forall x :: x in p <==> x in nodes)
    && (forall id :: id in nodes ==> Get(a.remain, id) == 0)
  }

  /** When only the nodes lead and only they are wanted, the plan is realised exactly if
      and only if each node wants precisely the tablets it does not lead. */
  lemma ExactRealisationIff(nodes: set<NodeID>, leaders: Counts, followers: Counts)
    requires "" !in nodes && leaders.Keys <= nodes
    requires forall id :: id in followers && id !in nodes ==> followers[id] <= 0
    ensures ExactlyRealised(nodes, leaders, followers)
            <==> forall id :: id in nodes ==> Get(followers, id) == |Queue(leaders)| - Clamp(Get(leaders, id))
  {
    if CompleteDemand(nodes, leaders, followers) {
      CompleteDemandRealised(nodes, leaders, followers);
    }
    if ExactlyRealised(nodes, leaders, followers) {
      forall id | id in nodes ensures Get(followers, id) == |Queue(leaders)| - Clamp(Get(leaders, id)) {
        ExactDemand(nodes, leaders, followers, id);
      }
    }
  }

  lemma ExactDemand(nodes: set<NodeID>, leaders: Counts, followers: Counts, id: NodeID)
    requires ExactlyRealised(nodes, leaders, followers) && id in nodes
    ensures Get(followers, id) == |Queue(leaders)| - Clamp(Get(leaders, id))
  {
    var q, ids := Queue(leaders), IDOrder(leaders);
    var a := AllocationOf(leaders, followers, |nodes|);
    AllocateIsSafe(q, ids, followers, |nodes|);
    AllocateConserves(q, ids, followers, |nodes|, id);
    QueueCount(leaders, id);
    forall i | 0 <= i < |q| ensures id in a.placements[i] {
      assert a.placements[i] in a.placements;
    }
    FollowsWhereNotLeading(q, a.placements, |nodes|, id);
  }

  // ----- balanced counts are complete when rf is the number of nodes

  predicate GoodNodes(nodes: seq<TServer>) {
    nodes != [] && DistinctIDs(nodes) && forall ts :: ts in nodes ==> ts.id != ""
  }

  /** Offset of the node at position k from tablet i's leader, going round. */
  function Offset(n: nat, i: nat, k: nat): int
    requires 0 < n
  {
    (k - i) % n
  }

  lemma OffsetHits(n: nat, i: nat, k: nat, r: nat)
    requires 0 < n && k < n && r < n
    ensures (i + r) % n == k <==> r == Offset(n, i, k)
  {
    var o := Offset(n, i, k);
    assert (k - i) == n * ((k - i) / n) + o;
    if (i + r) % n == k {
      assert i + r == n * ((i + r) / n) + k;
      ModSame(k - i, r, n, -((i + r) / n));
    }
    if r == o {
      ModSame(i + r, k, n, -((k - i) / n));
    }
  }

  lemma ModSame(a: int, b: int, n: int, q: int)
    requires 0 <= b < n && a == n * q + b
    ensures a % n == b
  {
    var q', b' := a / n, a % n;
    assert n * (q' - q) == b - b';
    MultiplesApart(n, q' - q);
  }

  lemma MultiplesApart(n: int, d: int)
    requires n > 0
    ensures d >= 1 ==> n * d >= n
    ensures d <= -1 ==> n * d <= -n
  {
  }

  /** One round increments exactly the nodes whose offset lies in [1, r). */
  lemma {:induction false} FollowRoundCounts(m: Counts, nodes: seq<TServer>, i: nat, r: int, k: nat)
    requires nodes != [] && DistinctIDs(nodes) && k < |nodes| && r <= |nodes|
    ensures Get(FollowRound(m, nodes, i, r), nodes[k].id)
            == Get(m, nodes[k].id) + (if 1 <= Offset(|nodes|, i, k) < r then 1 else 0)
    ensures FollowRound(m, nodes, i, r).Keys <= m.Keys + IDs(nodes)
    decreases Clamp(r)
  {
    if r > 1 {
      FollowRoundCounts(m, nodes, i, r - 1, k);
      OffsetHits(|nodes|, i, k, r - 1);
      var j := (i + r - 1) % |nodes|;
      assert nodes[j] in nodes;
      assert nodes[j].id == nodes[k].id <==> j == k;
    }
  }

  /** After i tablets every node has been counted i times, as leader or as follower. */
  lemma {:induction false} BalancedIsComplete(nodes: seq<TServer>, tablets: nat, k: nat)
    requires nodes != [] && DistinctIDs(nodes) && k < |nodes|
    ensures Get(BalancedLeaders(nodes, tablets), nodes[k].id)
            + Get(BalancedFollowers(nodes, tablets, |nodes|), nodes[k].id) == tablets
    ensures Get(BalancedLeaders(nodes, tablets), nodes[k].id) >= 0
    ensures BalancedLeaders(nodes, tablets).Keys <= IDs(nodes)
    ensures BalancedFollowers(nodes, tablets, |nodes|).Keys <= IDs(nodes)
  {
    if tablets > 0 {
      var i, n := tablets - 1, |nodes|;
      BalancedIsComplete(nodes, i, k);
      FollowRoundCounts(BalancedFollowers(nodes, i, n), nodes, i, n, k);
      LeaderOffset(nodes, i, k);
    }
  }

  /** Tablet i is led by node k exactly if k has offset zero. */
  lemma LeaderOffset(nodes: seq<TServer>, i: nat, k: nat)
    requires nodes != [] && DistinctIDs(nodes) && k < |nodes|
    ensures nodes[i % |nodes|] in nodes
    ensures nodes[i % |nodes|].id == nodes[k].id <==> Offset(|nodes|, i, k) == 0
    ensures 0 <= Offset(|nodes|, i, k) < |nodes|
  {
    OffsetHits(|nodes|, i, k, 0);
    assert (i + 0) % |nodes| == i % |nodes|;
    assert nodes[i % |nodes|].id == nodes[k].id <==> i % |nodes| == k;
  }

  /** The planned leads add up to the number of tablets. */
  lemma {:induction false} BalancedQueueLength(nodes: seq<TServer>, tablets: nat)
    requires nodes != []
    ensures |Queue(BalancedLeaders(nodes, tablets))| == tablets
  {
    BalancedTotal(nodes, tablets);
    QueueLength(BalancedLeaders(nodes, tablets));
  }

  lemma {:induction false} BalancedTotal(nodes: seq<TServer>, tablets: nat)
    requires nodes != []
    ensures Total(BalancedLeaders(nodes, tablets)) == tablets
    ensures forall id :: id in BalancedLeaders(nodes, tablets) ==> BalancedLeaders(nodes, tablets)[id] >= 0
  {
    if tablets > 0 {
      BalancedTotal(nodes, tablets - 1);
      var before := BalancedLeaders(nodes, tablets - 1);
      var id := nodes[(tablets - 1) % |nodes|].id;
      TotalUpdate(before, id, Get(before, id) + 1);
    }
  }

  lemma {:induction false} RepeatLength(id: NodeID, n: int)
    ensures |Repeat(id, n)| == Clamp(n)
    decreases Clamp(n)
  {
    if n > 0 {
      RepeatLength(id, n - 1);
    }
  }

  lemma {:induction false} LeaderQueueLength(ids: seq<NodeID>, leaders: Counts, part: Counts)
    requires Distinct(ids)
    requires forall id :: id in ids <==> id in part
    requires forall id :: id in part ==> id in leaders && part[id] == leaders[id] >= 0
    ensures |LeaderQueue(ids, leaders)| == Total(part)
  {
    if ids == [] {
      assert part == map[];
    } else {
      var n := |ids| - 1;
      var id := ids[n];
      assert ids == ids[..n] + [id];
      assert id in part;
      TotalWithout(part, id);
      RepeatLength(id, Get(leaders, id));
      LeaderQueueLength(ids[..n], leaders, part - {id});
    }
  }

  lemma QueueLength(leaders: Counts)
    requires forall id :: id in leaders ==> leaders[id] >= 0
    ensures |Queue(leaders)| == Total(leaders)
  {
    IDOrderDistinct(leaders);
    LeaderQueueLength(IDOrder(leaders), leaders, leaders);
  }

  lemma {:induction false} IDsCount(nodes: seq<TServer>)
    requires DistinctIDs(nodes)
    ensures |IDs(nodes)| == |nodes|
  {
    if nodes != [] {
      var n := |nodes| - 1;
      assert nodes == nodes[..n] + [nodes[n]];
      IDsCount(nodes[..n]);
      assert IDs(nodes) == IDs(nodes[..n]) + {nodes[n].id};
      LastIDIsNew(nodes);
    }
  }

  lemma LastIDIsNew(nodes: seq<TServer>)
    requires nodes != [] && DistinctIDs(nodes)
    ensures nodes[|nodes| - 1].id !in IDs(nodes[..|nodes| - 1])
  {
    var n := |nodes| - 1;
    forall ts | ts in nodes[..n] ensures ts.id != nodes[n].id {
      var j :| 0 <= j < n && nodes[j] == ts;
    }
  }

  /** The default counts of a scenario with as many nodes as replicas are complete,
      so the allocator puts every tablet on every node and leaves no demand. */
  lemma BalancedCountsAreRealised(nodes: seq<TServer>, tablets: nat)
    requires GoodNodes(nodes)
    ensures var leaders, followers := BalancedLeaders(nodes, tablets), BalancedFollowers(nodes, tablets, |nodes|);
            && CompleteDemand(IDs(nodes), leaders, followers)
            && (forall id :: id in IDs(nodes) ==> Get(AllocationOf(leaders, followers, |nodes|).remain, id) == 0)
            && |Expanded(leaders, followers, |nodes|)| == tablets
            && FullyPlaced(leaders, followers, |nodes|)
  {
    var leaders, followers := BalancedLeaders(nodes, tablets), BalancedFollowers(nodes, tablets, |nodes|);
    IDsCount(nodes);
    BalancedQueueLength(nodes, tablets);
    forall id | id in IDs(nodes) ensures Get(followers, id) == tablets - Clamp(Get(leaders, id)) {
      var ts :| ts in nodes && ts.id == id;
      var k :| 0 <= k < |nodes| && nodes[k] == ts;
      BalancedIsComplete(nodes, tablets, k);
    }
    BalancedIsComplete(nodes, tablets, 0);
    CompleteDemandRealised(IDs(nodes), leaders, followers);
    ExpandedAt(leaders, followers, |nodes|);
    var ps, ts := AllocationOf(leaders, followers, |nodes|).placements, Expanded(leaders, followers, |nodes|);
    forall t | t in ts ensures |t.peers| == |nodes| {
      var i :| 0 <= i < |ts| && ts[i] == t;
      assert ps[i] in ps;
    }
  }

  // ----- default counts at any replication factor

  lemma {:induction false} FollowRoundTotal(m: Counts, nodes: seq<TServer>, i: nat, r: int)
    requires nodes != []
    ensures Total(FollowRound(m, nodes, i, r)) == Total(m) + Clamp(r - 1)
    decreases Clamp(r)
  {
    if r > 1 {
      FollowRoundTotal(m, nodes, i, r - 1);
      var before := FollowRound(m, nodes, i, r - 1);
      var id := nodes[(i + r - 1) % |nodes|].id;
      TotalUpdate(before, id, Get(before, id) + 1);
    }
  }

  /** The default follower counts plan rf-1 followers per tablet. */
  lemma {:induction false} BalancedFollowersTotal(nodes: seq<TServer>, tablets: nat, rf: int)
    requires nodes != [] && rf >= 1
    ensures Total(BalancedFollowers(nodes, tablets, rf)) == tablets * (rf - 1)
  {
    if tablets > 0 {
      BalancedFollowersTotal(nodes, tablets - 1, rf);
      FollowRoundTotal(BalancedFollowers(nodes, tablets - 1, rf), nodes, tablets - 1, rf);
      assert tablets * (rf - 1) == (tablets - 1) * (rf - 1) + (rf - 1);
    }
  }

  /** The first nodes lead a tablet each, as far as the tablets go. */
  lemma {:induction false} EarlyNodeLeads(nodes: seq<TServer>, tablets: nat, k: nat)
    requires nodes != [] && k < |nodes| && k < tablets
    ensures nodes[k].id in BalancedLeaders(nodes, tablets)
  {
    if k < tablets - 1 {
      EarlyNodeLeads(nodes, tablets - 1, k);
    } else {
      assert k % |nodes| == k;
    }
  }

  lemma EnoughLeaders(nodes: seq<TServer>, tablets: nat, rf: int)
    requires GoodNodes(nodes) && 1 <= rf <= |nodes| && rf <= tablets
    ensures CanReplicate(BalancedLeaders(nodes, tablets), rf)
  {
    var leaders := BalancedLeaders(nodes, tablets);
    BalancedIsComplete(nodes, tablets, 0);
    forall id | id in IDs(nodes[..rf]) ensures id in leaders {
      var ts :| ts in nodes[..rf] && ts.id == id;
      var k :| 0 <= k < rf && nodes[k] == ts;
      EarlyNodeLeads(nodes, tablets, k);
    }
    IDsCount(nodes[..rf]);
    SubsetSize(IDs(nodes[..rf]), leaders.Keys);
  }

  /** Default counts over at least rf nodes and for at least rf tablets give every tablet
      its rf replicas, and what the allocator overdraws on one node it leaves over on
      others. */
  lemma DefaultCountsReplicate(nodes: seq<TServer>, tablets: nat, rf: int)
    requires GoodNodes(nodes) && 1 <= rf <= |nodes| && rf <= tablets
    ensures var leaders, followers := BalancedLeaders(nodes, tablets), BalancedFollowers(nodes, tablets, rf);
            && |Expanded(leaders, followers, rf)| == tablets
            && FullyPlaced(leaders, followers, rf)
            && Total(AllocationOf(leaders, followers, rf).remain) == 0
  {
    var leaders, followers := BalancedLeaders(nodes, tablets), BalancedFollowers(nodes, tablets, rf);
    EnoughLeaders(nodes, tablets, rf);
    ReplicatesIf(leaders, followers, rf);
    BalancedQueueLength(nodes, tablets);
    ExpandedAt(leaders, followers, rf);
    BalancedFollowersTotal(nodes, tablets, rf);
    RemaindersCancel(leaders, followers, rf);
  }
}
