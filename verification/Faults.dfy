/** Fault injection, default counts, and the expansion of a whole plan. */
module Faults {
  import opened Counting
  import opened Domain
  import opened Fixture

  // ----- what each fault does to one tablet

  predicate HasFollower(t: Tablet) {
    exists p :: p in t.peers && p.role == Follower
  }

  function IsFollower(): Tablet -> bool {
    (t: Tablet) => HasFollower(t)
  }

  /** The index of the first follower, or the length if there is none. */
  function FirstFollower(peers: seq<TabletPeer>): (j: nat)
    ensures j <= |peers|
    ensures j < |peers| ==> peers[j].role == Follower
    ensures forall k :: 0 <= k < j ==> peers[k].role != Follower
  {
    if peers == [] || peers[0].role == Follower then 0 else 1 + FirstFollower(peers[1..])
  }

  function SlowDown(t: Tablet): Tablet {
    var j := FirstFollower(t.peers);
    if j < |t.peers| then t.(peers := t.peers[j := t.peers[j].(lag := SLOW_LAG)]) else t
  }

  function HeatUp(t: Tablet): Tablet {
    t.(writeOps := HOT_WRITE_OPS)
  }

  function AsFollowers(peers: seq<TabletPeer>): seq<TabletPeer> {
    seq(|peers|, j requires 0 <= j < |peers| => peers[j].(role := Follower))
  }

  function Orphan(t: Tablet): Tablet {
    t.(leaderID := "", peers := AsFollowers(t.peers))
  }

  function DropLast(t: Tablet): Tablet {
    if |t.peers| > 1 then t.(peers := t.peers[..|t.peers| - 1]) else t
  }

  /** The slow-follower budget reaches tablet i: it has a follower and fewer than
      n earlier tablets do. */
  predicate SlowAt(tablets: seq<Tablet>, n: int, i: nat)
    requires i < |tablets|
  {
    HasFollower(tablets[i]) && CountIf(tablets[..i], IsFollower()) < n
  }

  function FaultedAt(tablets: seq<Tablet>, plan: Plan, i: nat): Tablet
    requires i < |tablets|
  {
    var t1 := if SlowAt(tablets, plan.slowFollowers, i) then SlowDown(tablets[i]) else tablets[i];
    var t2 := if i < plan.hotTablets then HeatUp(t1) else t1;
    var t3 := if i < plan.leaderless then Orphan(t2) else t2;
    if i < plan.underReplicated then DropLast(t3) else t3
  }

  // ----- the injector, in place

  method SlowFollowers(tablets: array<Tablet>, n: int)
    modifies tablets
    ensures forall i :: 0 <= i < tablets.Length ==>
              tablets[i] == if SlowAt(old(tablets[..]), n, i) then SlowDown(old(tablets[i])) else old(tablets[i])
  {
    var slow := n;
    ghost var was := tablets[..];
    var i := 0;
    while i < tablets.Length && slow > 0
      invariant 0 <= i <= tablets.Length
      invariant slow == n - CountIf(was[..i], IsFollower())
      invariant forall k :: i <= k < tablets.Length ==> tablets[k] == was[k]
      invariant forall k :: 0 <= k < i ==> tablets[k] == if SlowAt(was, n, k) then SlowDown(was[k]) else was[k]
    {
      CountStep(was, IsFollower(), i);
      var peers := tablets[i].peers;
      var j := 0;
      while j < |peers|
        invariant 0 <= j <= |peers|
        invariant forall k :: 0 <= k < j ==> peers[k].role != Follower
      {
        if peers[j].role == Follower {
          break;
        }
        j := j + 1;
      }
      FirstFollowerIs(peers, j);
      if j < |peers| {
        tablets[i] := tablets[i].(peers := peers[j := peers[j].(lag := SLOW_LAG)]);
        slow := slow - 1;
      }
      i := i + 1;
    }
    forall k | i <= k < tablets.Length ensures !SlowAt(was, n, k) {
      assert was[..k] == was[..i] + was[i..k];
      CountConcat(was[..i], was[i..k], IsFollower());
    }
  }

  lemma FirstFollowerIs(peers: seq<TabletPeer>, j: nat)
    requires j <= |peers| && (j < |peers| ==> peers[j].role == Follower)
    requires forall k :: 0 <= k < j ==> peers[k].role != Follower
    ensures FirstFollower(peers) == j
    ensures (exists p :: p in peers && p.role == Follower) <==> j < |peers|
  {
    var f := FirstFollower(peers);
    if j < |peers| {
      assert peers[j] in peers;
    }
  }

  method HotTablets(tablets: array<Tablet>, n: int)
    modifies tablets
    ensures forall i :: 0 <= i < tablets.Length ==>
              tablets[i] == if i < n then HeatUp(old(tablets[i])) else old(tablets[i])
  {
    var i := 0;
    while i < n && i < tablets.Length
      invariant 0 <= i <= tablets.Length
      invariant forall k :: 0 <= k < tablets.Length ==>
                  tablets[k] == if k < i && k < n then HeatUp(old(tablets[k])) else old(tablets[k])
    {
      tablets[i] := tablets[i].(writeOps := HOT_WRITE_OPS);
      i := i + 1;
    }
  }

  method LeaderlessTablets(tablets: array<Tablet>, n: int)
    modifies tablets
    ensures forall i :: 0 <= i < tablets.Length ==>
              tablets[i] == if i < n then Orphan(old(tablets[i])) else old(tablets[i])
  {
    var i := 0;
    while i < n && i < tablets.Length
      invariant 0 <= i <= tablets.Length
      invariant forall k :: 0 <= k < tablets.Length ==>
                  tablets[k] == if k < i && k < n then Orphan(old(tablets[k])) else old(tablets[k])
    {
      var peers := tablets[i].peers;
      ghost var was := peers;
      for j := 0 to |peers|
        invariant |peers| == |was|
        invariant forall k :: 0 <= k < |peers| ==> peers[k] == if k < j then was[k].(role := Follower) else was[k]
      {
        peers := peers[j := peers[j].(role := Follower)];
      }
      assert peers == AsFollowers(was);
      tablets[i] := tablets[i].(leaderID := "", peers := peers);
      i := i + 1;
    }
  }

  method UnderReplicatedTablets(tablets: array<Tablet>, n: int)
    modifies tablets
    ensures forall i :: 0 <= i < tablets.Length ==>
              tablets[i] == if i < n then DropLast(old(tablets[i])) else old(tablets[i])
  {
    var i := 0;
    while i < n && i < tablets.Length
      invariant 0 <= i <= tablets.Length
      invariant forall k :: 0 <= k < tablets.Length ==>
                  tablets[k] == if k < i && k < n then DropLast(old(tablets[k])) else old(tablets[k])
    {
      if |tablets[i].peers| > 1 {
        tablets[i] := tablets[i].(peers := tablets[i].peers[..|tablets[i].peers| - 1]);
      }
      i := i + 1;
    }
  }

  method ApplyFaults(tablets: array<Tablet>, plan: Plan)
    modifies tablets
    ensures forall i :: 0 <= i < tablets.Length ==> tablets[i] == FaultedAt(old(tablets[..]), plan, i)
  {
    SlowFollowers(tablets, plan.slowFollowers);
    HotTablets(tablets, plan.hotTablets);
    LeaderlessTablets(tablets, plan.leaderless);
    UnderReplicatedTablets(tablets, plan.underReplicated);
  }

  // ----- default counts

  /** Tablet i is led by node i, and followed by the next rf-1 nodes, round robin. */
  function BalancedLeaders(nodes: seq<TServer>, tablets: nat): Counts
    requires nodes != []
  {
    if tablets == 0 then map[]
    else
      var before := BalancedLeaders(nodes, tablets - 1);
      Increment(before, nodes[(tablets - 1) % |nodes|].id)
  }

  function Increment(m: Counts, id: NodeID): Counts {
    m[id := Get(m, id) + 1]
  }

  function FollowRound(m: Counts, nodes: seq<TServer>, i: nat, r: int): Counts
    requires nodes != []
    decreases Clamp(r)
  {
    if r <= 1 then m
    else Increment(FollowRound(m, nodes, i, r - 1), nodes[(i + r - 1) % |nodes|].id)
  }

  function BalancedFollowers(nodes: seq<TServer>, tablets: nat, rf: int): Counts
    requires nodes != []
  {
    if tablets == 0 then map[]
    else FollowRound(BalancedFollowers(nodes, tablets - 1, rf), nodes, tablets - 1, rf)
  }

  method BalancedCounts(nodes: seq<TServer>, tablets: nat, rf: int) returns (leaders: Counts, followers: Counts)
    requires nodes != []
    ensures leaders == BalancedLeaders(nodes, tablets)
    ensures followers == BalancedFollowers(nodes, tablets, rf)
  {
    leaders, followers := map[], map[];
    for i := 0 to tablets
      invariant leaders == BalancedLeaders(nodes, i)
      invariant followers == BalancedFollowers(nodes, i, rf)
    {
      var leader := nodes[i % |nodes|].id;
      leaders := leaders[leader := (if leader in leaders then leaders[leader] else 0) + 1];
      ghost var before := followers;
      var r := 1;
      while r < rf
        invariant 1 <= r && (r <= rf || r == 1)
        invariant followers == FollowRound(before, nodes, i, r)
      {
        var id := nodes[(i + r) % |nodes|].id;
        followers := followers[id := (if id in followers then followers[id] else 0) + 1];
        r := r + 1;
      }
      assert FollowRound(before, nodes, i, rf) == FollowRound(before, nodes, i, r);
    }
  }

  // ----- renaming the planned counts

  function NamesToIDs(tservers: seq<TServer>): map<string, NodeID> {
    if tservers == [] then map[]
    else
      var ts := tservers[|tservers| - 1];
      var named := NamesToIDs(tservers[..|tservers| - 1])[ts.name := ts.id];
      if ts.name == "" then named[ts.host := ts.id] else named
  }

  method CollectNames(tservers: seq<TServer>) returns (byName: map<string, NodeID>)
    ensures byName == NamesToIDs(tservers)
  {
    byName := map[];
    for i := 0 to |tservers|
      invariant byName == NamesToIDs(tservers[..i])
    {
      assert tservers[..i + 1][..i] == tservers[..i];
      var ts := tservers[i];
      byName := byName[ts.name := ts.id];
      if ts.name == "" {
        byName := byName[ts.host := ts.id];
      }
    }
    assert tservers[..|tservers|] == tservers;
  }

  function Resolve(byName: map<string, NodeID>, k: string): NodeID {
    if k in byName then byName[k] else k
  }

  /** out holds, for each node some key denotes, the count of such a key. */
  ghost predicate IsRemapped(counts: map<string, int>, byName: map<string, NodeID>, out: Counts) {
    && (forall k :: k in counts ==> Resolve(byName, k) in out)
    && (forall id :: id in out ==> exists k :: k in counts && Resolve(byName, k) == id && counts[k] == out[id])
  }

  method RemapCounts(counts: map<string, int>, byName: map<string, NodeID>) returns (out: Counts)
    ensures IsRemapped(counts, byName, out)
  {
    out := map[];
    var left := counts.Keys;
    while left != {}
      invariant left <= counts.Keys
      invariant forall k :: k in counts && k !in left ==> Resolve(byName, k) in out
      invariant forall id :: id in out ==> exists k :: k in counts && Resolve(byName, k) == id && counts[k] == out[id]
      decreases |left|
    {
      var k :| k in left;
      left := left - {k};
      if k in byName {
        out := out[byName[k] := counts[k]];
      } else {
        out := out[k := counts[k]];
      }
    }
  }

  // ----- a whole plan

  datatype ExpandResult = Ok(snap: Snapshot) | NoTServers

  const DEFAULT_TABLETS: nat := 9

  function PlanRF(plan: Plan): int {
    if plan.replicationFactor == 0 then 3 else plan.replicationFactor
  }

  /** The counts a plan may be expanded with. */
  ghost predicate PlanCounts(plan: Plan, leaders: Counts, followers: Counts)
    requires plan.tservers != []
  {
    var byName := NamesToIDs(plan.tservers);
    if |plan.leaders| == 0 then
      && leaders == BalancedLeaders(plan.tservers, DEFAULT_TABLETS)
      && followers == BalancedFollowers(plan.tservers, DEFAULT_TABLETS, PlanRF(plan))
    else IsRemapped(plan.leaders, byName, leaders) && IsRemapped(plan.followers, byName, followers)
  }

  ghost predicate FaultedTablets(tablets: seq<Tablet>, plan: Plan, out: seq<Tablet>) {
    |out| == |tablets| && forall i :: 0 <= i < |out| ==> out[i] == FaultedAt(tablets, plan, i)
  }

  /** The tablets a plan expands to, with one of the counts it allows. */
  ghost predicate IsExpansion(plan: Plan, tablets: seq<Tablet>)
    requires plan.tservers != []
  {
    exists leaders, followers ::
      PlanCounts(plan, leaders, followers) && FaultedTablets(Expanded(leaders, followers, PlanRF(plan)), plan, tablets)
  }

  method Expand(plan: Plan) returns (res: ExpandResult)
    ensures res.NoTServers? <==> plan.tservers == []
    ensures res.Ok? ==>
              && IsExpansion(plan, res.snap.tablets)
              && res.snap == Snapshot(PlanRF(plan), plan.masters, plan.tservers, res.snap.tablets, [], [],
                  plan.performance)
  {
    if |plan.tservers| == 0 {
      return NoTServers;
    }
    var rf := plan.replicationFactor;
    if rf == 0 {
      rf := 3;
    }
    var byName := CollectNames(plan.tservers);
    var lead := RemapCounts(plan.leaders, byName);
    var follow := RemapCounts(plan.followers, byName);
    NothingRemapped(plan.leaders, byName, lead);
    if |lead| == 0 {
      lead, follow := BalancedCounts(plan.tservers, DEFAULT_TABLETS, rf);
    }
    assert PlanCounts(plan, lead, follow);
    var expanded := ExpandTablets(lead, follow, rf);
    var tablets := InjectFaults(expanded, plan);
    res := Ok(Snapshot(rf, plan.masters, plan.tservers, tablets, [], [], plan.performance));
  }

  method InjectFaults(expanded: seq<Tablet>, plan: Plan) returns (out: seq<Tablet>)
    ensures FaultedTablets(expanded, plan, out)
  {
    var tablets := new Tablet[|expanded|](i requires 0 <= i < |expanded| => expanded[i]);
    assert tablets[..] == expanded;
    ApplyFaults(tablets, plan);
    out := tablets[..];
  }

  lemma NothingRemapped(counts: map<string, int>, byName: map<string, NodeID>, out: Counts)
    requires IsRemapped(counts, byName, out)
    ensures |out| == 0 <==> |counts| == 0
  {
    if |counts| != 0 {
      var k :| k in counts;
      assert Resolve(byName, k) in out.Keys;
    }
    if |out| != 0 {
      var id :| id in out;
      var k :| k in counts && Resolve(byName, k) == id && counts[k] == out[id];
      assert k in counts.Keys;
    }
  }
}
