/** What injected faults, default counts and renamed counts come to, position by position. */
module FaultsMeaning {
  import opened Counting
  import opened Domain
  import opened Fixture
  import opened Faults
  import opened RemapTheorems

  // ----- the faults

  /** The peer at j is the tablet's first follower. */
  predicate FollowsFirst(t: Tablet, j: int) {
    && 0 <= j < |t.peers| && t.peers[j].role == Follower
    && forall k :: 0 <= k < j ==> t.peers[k].role != Follower
  }

  /** The tablets before position i that have a follower. */
  function FollowedBefore(tablets: seq<Tablet>, i: nat): set<int>
    requires i <= |tablets|
  {
    set k | 0 <= k < i && exists p :: p in tablets[k].peers && p.role == Follower
  }

  lemma FollowedCounted(tablets: seq<Tablet>, i: nat)
    requires i <= |tablets|
    ensures CountIf(tablets[..i], IsFollower()) == |FollowedBefore(tablets, i)|
  {
    CountIsSize(tablets[..i], IsFollower(), FollowedBefore(tablets, i));
  }

  /** The knobs damage the first tablets, all starting at the same one: a slow follower is
      the first follower of a tablet, and tablets without followers use up no budget; a hot
      tablet gets the hot rate of writes; a leaderless one loses its leader id and all its
      peers follow; and an under-replicated one loses its last peer, never its only one. */
  lemma FaultsSpelledOut(tablets: seq<Tablet>, plan: Plan, out: seq<Tablet>, i: nat)
    requires FaultedTablets(tablets, plan, out) && i < |tablets|
    ensures |out| == |tablets|
    ensures var was, now := tablets[i], out[i];
            && now.id == was.id && now.readOps == was.readOps
            && now.leaderID == (if i < plan.leaderless then "" else was.leaderID)
            && now.writeOps == (if i < plan.hotTablets then 5000.0 else was.writeOps)
            && |now.peers| == (if i < plan.underReplicated && |was.peers| > 1 then |was.peers| - 1 else |was.peers|)
            && forall j :: 0 <= j < |now.peers| ==>
                 && now.peers[j].tserverID == was.peers[j].tserverID && now.peers[j].state == was.peers[j].state
                 && now.peers[j].role == (if i < plan.leaderless then Follower else was.peers[j].role)
                 && now.peers[j].lag == (if FollowsFirst(was, j) && |FollowedBefore(tablets, i)| < plan.slowFollowers
                                         then 1_500_000_000 else was.peers[j].lag)
  {
    SlowedAt(tablets, plan.slowFollowers, i);
    var t := if SlowAt(tablets, plan.slowFollowers, i) then SlowDown(tablets[i]) else tablets[i];
    OtherFaults(t, out[i], plan, i);
  }

  lemma OtherFaults(t: Tablet, now: Tablet, plan: Plan, i: nat)
    requires var t2 := if i < plan.hotTablets then HeatUp(t) else t;
             var t3 := if i < plan.leaderless then Orphan(t2) else t2;
             now == if i < plan.underReplicated then DropLast(t3) else t3
    ensures now.id == t.id && now.readOps == t.readOps
    ensures now.leaderID == (if i < plan.leaderless then "" else t.leaderID)
    ensures now.writeOps == (if i < plan.hotTablets then 5000.0 else t.writeOps)
    ensures |now.peers| == (if i < plan.underReplicated && |t.peers| > 1 then |t.peers| - 1 else |t.peers|)
    ensures forall j :: 0 <= j < |now.peers| ==>
              now.peers[j] == if i < plan.leaderless then t.peers[j].(role := Follower) else t.peers[j]
  {
  }

  lemma FirstFollowerAt(t: Tablet)
    ensures forall j :: FollowsFirst(t, j) <==> 0 <= j < |t.peers| && j == FirstFollower(t.peers)
    ensures HasFollower(t) <==> FirstFollower(t.peers) < |t.peers|
  {
    if HasFollower(t) {
      var p :| p in t.peers && p.role == Follower;
      var k :| 0 <= k < |t.peers| && t.peers[k] == p;
    }
  }

  lemma SlowedAt(tablets: seq<Tablet>, n: int, i: nat)
    requires i < |tablets|
    ensures var was := tablets[i];
            var now := if SlowAt(tablets, n, i) then SlowDown(was) else was;
            && now == was.(peers := now.peers) && |now.peers| == |was.peers|
            && forall j :: 0 <= j < |was.peers| ==>
                 now.peers[j] == if FollowsFirst(was, j) && |FollowedBefore(tablets, i)| < n
                                 then was.peers[j].(lag := 1_500_000_000) else was.peers[j]
  {
    FollowedCounted(tablets, i);
    FirstFollowerAt(tablets[i]);
  }

  // ----- the default counts

  /** Place r of tablet i falls to the id, going round robin over the nodes. */
  predicate FallsTo(nodes: seq<TServer>, i: int, r: int, id: NodeID) {
    nodes != [] && nodes[(i + r) % |nodes|].id == id
  }

  function LedBy(nodes: seq<TServer>, tablets: nat, id: NodeID): set<int> {
    set i | 0 <= i < tablets && FallsTo(nodes, i, 0, id)
  }

  function FollowedBy(nodes: seq<TServer>, tablets: nat, rf: int, id: NodeID): set<(int, int)> {
    set i, r | 0 <= i < tablets && 1 <= r < rf && FallsTo(nodes, i, r, id) :: (i, r)
  }

  lemma LedStep(nodes: seq<TServer>, last: nat, id: NodeID)
    ensures |LedBy(nodes, last + 1, id)| == |LedBy(nodes, last, id)| + if FallsTo(nodes, last, 0, id) then 1 else 0
  {
    var before := LedBy(nodes, last, id);
    assert last !in before;
    assert LedBy(nodes, last + 1, id) == before + if FallsTo(nodes, last, 0, id) then {last} else {};
  }

  lemma OneMore(m: Counts, other: NodeID, id: NodeID)
    ensures Get(Increment(m, other), id) == Get(m, id) + if other == id then 1 else 0
  {
  }

  lemma {:induction false} LeadersLed(nodes: seq<TServer>, tablets: nat, id: NodeID)
    requires nodes != []
    ensures Get(BalancedLeaders(nodes, tablets), id) == |LedBy(nodes, tablets, id)|
  {
    if tablets == 0 {
      assert LedBy(nodes, 0, id) == {};
    } else {
      var last := tablets - 1;
      LeadersLed(nodes, last, id);
      OneMore(BalancedLeaders(nodes, last), nodes[last % |nodes|].id, id);
      LedStep(nodes, last, id);
    }
  }

  /** The places of tablet i up to the r-th that fall to the id as a follower. */
  function Round(nodes: seq<TServer>, i: int, r: int, id: NodeID): set<(int, int)> {
    set q | 1 <= q < r && FallsTo(nodes, i, q, id) :: (i, q)
  }

  lemma RoundStep(nodes: seq<TServer>, i: int, r: int, id: NodeID)
    requires r > 1
    ensures |Round(nodes, i, r, id)| == |Round(nodes, i, r - 1, id)| + if FallsTo(nodes, i, r - 1, id) then 1 else 0
  {
    var before, place := Round(nodes, i, r - 1, id), (i, r - 1);
    assert place !in before;
    assert Round(nodes, i, r, id) == before + if FallsTo(nodes, i, r - 1, id) then {place} else {};
  }

  lemma {:induction false} RoundFollowed(m: Counts, nodes: seq<TServer>, i: nat, r: int, id: NodeID)
    requires nodes != []
    ensures Get(FollowRound(m, nodes, i, r), id) == Get(m, id) + |Round(nodes, i, r, id)|
    decreases Clamp(r)
  {
    if r <= 1 {
      assert Round(nodes, i, r, id) == {};
    } else {
      RoundFollowed(m, nodes, i, r - 1, id);
      RoundStep(nodes, i, r, id);
    }
  }

  lemma FollowedStep(nodes: seq<TServer>, tablets: nat, rf: int, id: NodeID)
    requires tablets > 0
    ensures |FollowedBy(nodes, tablets, rf, id)| ==
            |FollowedBy(nodes, tablets - 1, rf, id)| + |Round(nodes, tablets - 1, rf, id)|
  {
    var before, last := FollowedBy(nodes, tablets - 1, rf, id), Round(nodes, tablets - 1, rf, id);
    assert FollowedBy(nodes, tablets, rf, id) == before + last;
    assert before !! last;
  }

  lemma {:induction false} FollowersFollowed(nodes: seq<TServer>, tablets: nat, rf: int, id: NodeID)
    requires nodes != []
    ensures Get(BalancedFollowers(nodes, tablets, rf), id) == |FollowedBy(nodes, tablets, rf, id)|
  {
    if tablets == 0 {
      assert FollowedBy(nodes, 0, rf, id) == {};
    } else {
      FollowersFollowed(nodes, tablets - 1, rf, id);
      RoundFollowed(BalancedFollowers(nodes, tablets - 1, rf), nodes, tablets - 1, rf, id);
      FollowedStep(nodes, tablets, rf, id);
    }
  }

  /** Nine tablets by default, and three replicas: going round robin over the servers, a
      tablet is led from its own place and followed from the next ones. */
  lemma DefaultCountsMean(plan: Plan, leaders: Counts, followers: Counts, id: NodeID)
    requires plan.tservers != [] && |plan.leaders| == 0 && PlanCounts(plan, leaders, followers)
    ensures Get(leaders, id) == |LedBy(plan.tservers, 9, id)|
    ensures plan.replicationFactor != 0 ==>
              Get(followers, id) == |FollowedBy(plan.tservers, 9, plan.replicationFactor, id)|
    ensures plan.replicationFactor == 0 ==> Get(followers, id) == |FollowedBy(plan.tservers, 9, 3, id)|
  {
    LeadersLed(plan.tservers, 9, id);
    FollowersFollowed(plan.tservers, 9, PlanRF(plan), id);
  }

  // ----- renamed counts

  /** A planned count may call the server by its name, or by its host if it has none. */
  predicate GoesBy(ts: TServer, k: string) {
    ts.name == k || (ts.name == "" && ts.host == k)
  }

  /** Server i is the last one that goes by k. */
  predicate LastNamed(tservers: seq<TServer>, k: string, i: nat) {
    i < |tservers| && GoesBy(tservers[i], k) && forall j :: i < j < |tservers| ==> !GoesBy(tservers[j], k)
  }

  lemma {:induction false} NamesMean(tservers: seq<TServer>, k: string)
    ensures k in NamesToIDs(tservers) <==> exists ts :: ts in tservers && GoesBy(ts, k)
    ensures forall i: nat :: LastNamed(tservers, k, i) ==>
              k in NamesToIDs(tservers) && NamesToIDs(tservers)[k] == tservers[i].id
  {
    if tservers != [] {
      var n := |tservers| - 1;
      assert tservers == tservers[..n] + [tservers[n]];
      NamesMean(tservers[..n], k);
      assert k in NamesToIDs(tservers) <==> k in NamesToIDs(tservers[..n]) || GoesBy(tservers[n], k);
      assert forall ts :: ts in tservers <==> ts in tservers[..n] || ts == tservers[n];
      forall i: nat | LastNamed(tservers, k, i)
        ensures k in NamesToIDs(tservers) && NamesToIDs(tservers)[k] == tservers[i].id
      {
        if i < n {
          assert LastNamed(tservers[..n], k, i);
        }
      }
    }
  }

  /** A planned count that no other one contradicts reaches the last server that goes by
      its key, or, if none does, the id the key spells. */
  lemma RenamedCountsLand(tservers: seq<TServer>, counts: map<string, int>, out: Counts, k: string)
    requires IsRemapped(counts, NamesToIDs(tservers), out) && Agreeing(counts, NamesToIDs(tservers)) && k in counts
    ensures forall i: nat :: LastNamed(tservers, k, i) ==> Get(out, tservers[i].id) == counts[k]
    ensures (forall ts :: ts in tservers ==> !GoesBy(ts, k)) ==> Get(out, k) == counts[k]
  {
    NamesMean(tservers, k);
    AgreeingCountsLand(counts, NamesToIDs(tservers), out);
  }
}
