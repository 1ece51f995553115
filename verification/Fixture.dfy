/** Scenario expansion: a greedy allocator turns per-node leader and follower counts
    into tablets, and a fault injector then damages some of them in place. */
module Fixture {
  import opened Counting
  import opened Strings
  import opened Domain

  type Counts = map<NodeID, int>

  const SLOW_LAG: int := 1_500_000_000  // 1500 ms in nanoseconds
  const READ_OPS: real := 10.0
  const HOT_WRITE_OPS: real := 5000.0

  datatype Plan = Plan(
    replicationFactor: int,
    masters: seq<Master>,
    tservers: seq<TServer>,
    leaders: map<string, int>,
    followers: map<string, int>,
    slowFollowers: int,
    hotTablets: int,
    leaderless: int,
    underReplicated: int,
    performance: Performance)

  /** Reading a Go map: an absent key counts zero. */
  function Get(m: Counts, id: NodeID): int {
    if id in m then m[id] else 0
  }

  method Contains(ids: seq<NodeID>, id: NodeID) returns (found: bool)
    ensures found == (id in ids)
  {
    for i := 0 to |ids|
      invariant id !in ids[..i]
    {
      if ids[i] == id {
        return true;
      }
    }
    assert ids[..|ids|] == ids;
    return false;
  }

  // ----- the leader queue

  function Repeat(id: NodeID, n: int): seq<NodeID>
    decreases Clamp(n)
  {
    if n <= 0 then [] else Repeat(id, n - 1) + [id]
  }

  /** Each id as often as it is to lead, in the order of ids. */
  function LeaderQueue(ids: seq<NodeID>, leaders: Counts): seq<NodeID> {
    if ids == [] then []
    else LeaderQueue(ids[..|ids| - 1], leaders) + Repeat(ids[|ids| - 1], Get(leaders, ids[|ids| - 1]))
  }

  method BuildLeaderQueue(ids: seq<NodeID>, leaders: Counts) returns (queue: seq<NodeID>)
    requires forall id :: id in ids ==> id in leaders
    ensures queue == LeaderQueue(ids, leaders)
  {
    queue := [];
    for i := 0 to |ids|
      invariant queue == LeaderQueue(ids[..i], leaders)
    {
      assert ids[..i + 1][..i] == ids[..i];
      var id := ids[i];
      assert id in leaders;
      ghost var before := queue;
      var n := 0;
      while n < leaders[id]
        invariant n <= Clamp(leaders[id])
        invariant queue == before + Repeat(id, n)
      {
        queue := queue + [id];
        n := n + 1;
      }
      assert Repeat(id, leaders[id]) == Repeat(id, n);
    }
    assert ids[..|ids|] == ids;
  }

  // ----- choosing one replica

  /** A server not yet picked that still wants a follower. */
  predicate Candidate(remain: Counts, picked: seq<NodeID>, id: NodeID) {
    id in remain && remain[id] > 0 && id !in picked
  }

  /** id precedes other in the greedy order: more remaining demand, then smaller id. */
  predicate Precedes(remain: Counts, id: NodeID, other: NodeID)
    requires id in remain && other in remain
  {
    remain[other] < remain[id] || (remain[other] == remain[id] && AtMost(id, other))
  }

  ghost predicate IsBest(remain: Counts, picked: seq<NodeID>, id: NodeID) {
    && Candidate(remain, picked, id)
    && forall other :: Candidate(remain, picked, other) ==> Precedes(remain, id, other)
  }

  /** The greedy choice, or "" if nobody is left to choose. */
  ghost function Best(remain: Counts, picked: seq<NodeID>): NodeID {
    if exists id :: IsBest(remain, picked, id) then
      var id :| IsBest(remain, picked, id);
      id
    else ""
  }

  lemma BestUnique(remain: Counts, picked: seq<NodeID>, a: NodeID, b: NodeID)
    requires IsBest(remain, picked, a) && IsBest(remain, picked, b)
    ensures a == b
  {
    AtMostAntisymmetric(a, b);
  }

  /** Scans the remaining demand in an arbitrary order, as ranging over a Go map does. */
  method ScanDemand(remain: Counts, picked: seq<NodeID>) returns (best: NodeID)
    ensures best == Best(remain, picked)
    ensures (exists id :: Candidate(remain, picked, id)) ==> IsBest(remain, picked, best)
  {
    best := "";
    var bestN := -1;
    var left := remain.Keys;
    while left != {}
      invariant left <= remain.Keys
      invariant bestN == -1 ==> best == "" && forall id :: Candidate(remain, picked, id) ==> id in left
      invariant bestN != -1 ==> Candidate(remain, picked, best) && bestN == remain[best] && best !in left
      invariant bestN != -1 ==> forall id :: Candidate(remain, picked, id) && id !in left ==> Precedes(remain, best, id)
      decreases |left|
    {
      var id :| id in left;
      left := left - {id};
      var taken := Contains(picked, id);
      if taken || remain[id] <= 0 { continue; }
      if remain[id] > bestN || (remain[id] == bestN && Less(id, best)) {
        forall other | bestN != -1 && Candidate(remain, picked, other) && other !in left
          ensures Precedes(remain, id, other)
        {
          if other != id && remain[id] == remain[other] {
            AtMostTransitive(id, best, other);
          }
        }
        bestN := remain[id];
        best := id;
      } else {
        LessTotal(id, best);
      }
    }
    if bestN != -1 {
      assert IsBest(remain, picked, best);
      BestUnique(remain, picked, best, Best(remain, picked));
    }
  }

  /** The first id not yet picked, or "" if all are. */
  function Fallback(ids: seq<NodeID>, picked: seq<NodeID>): NodeID {
    if ids == [] then ""
    else if ids[0] !in picked then ids[0]
    else Fallback(ids[1..], picked)
  }

  method ScanFallback(ids: seq<NodeID>, picked: seq<NodeID>) returns (best: NodeID)
    ensures best == Fallback(ids, picked)
  {
    best := "";
    for i := 0 to |ids|
      invariant Fallback(ids, picked) == Fallback(ids[i..], picked)
    {
      assert ids[i..][1..] == ids[i + 1..];
      var taken := Contains(picked, ids[i]);
      if !taken {
        return ids[i];
      }
    }
  }

  ghost function Next(remain: Counts, picked: seq<NodeID>, ids: seq<NodeID>): NodeID {
    if Best(remain, picked) != "" then Best(remain, picked) else Fallback(ids, picked)
  }

  // ----- choosing all replicas of one tablet, and of all tablets

  datatype Choice = Choice(picked: seq<NodeID>, remain: Counts)

  ghost function Pick(remain: Counts, picked: seq<NodeID>, ids: seq<NodeID>, rf: int): Choice
    decreases Clamp(rf - |picked|)
  {
    if |picked| >= rf then Choice(picked, remain)
    else
      var id := Next(remain, picked, ids);
      if id == "" then Choice(picked, remain)
      else Pick(remain[id := Get(remain, id) - 1], picked + [id], ids, rf)
  }

  method PickReplicas(remain: Counts, leader: NodeID, ids: seq<NodeID>, rf: int)
    returns (picked: seq<NodeID>, remain': Counts)
    ensures Choice(picked, remain') == Pick(remain, [leader], ids, rf)
  {
    picked := [leader];
    remain' := remain;
    while |picked| < rf
      invariant Pick(remain', picked, ids, rf) == Pick(remain, [leader], ids, rf)
      decreases rf - |picked|
    {
      var best := ScanDemand(remain', picked);
      if best == "" {
        best := ScanFallback(ids, picked);
      }
      if best == "" { break; }
      picked := picked + [best];
      remain' := remain'[best := (if best in remain' then remain'[best] else 0) - 1];
    }
  }

  datatype Allocation = Allocation(placements: seq<seq<NodeID>>, remain: Counts)

  /** The replica sets of the queued leaders in turn, each drawing on what the
      previous ones left of the demand. */
  ghost function Allocate(queue: seq<NodeID>, ids: seq<NodeID>, followers: Counts, rf: int): Allocation {
    if queue == [] then Allocation([], followers)
    else
      var before := Allocate(queue[..|queue| - 1], ids, followers, rf);
      var choice := Pick(before.remain, [queue[|queue| - 1]], ids, rf);
      Allocation(before.placements + [choice.picked], choice.remain)
  }

  ghost function IDOrder(leaders: Counts): seq<NodeID> {
    SortedSet(leaders.Keys)
  }

  ghost function Queue(leaders: Counts): seq<NodeID> {
    LeaderQueue(IDOrder(leaders), leaders)
  }

  ghost function AllocationOf(leaders: Counts, followers: Counts, rf: int): Allocation {
    Allocate(Queue(leaders), IDOrder(leaders), followers, rf)
  }

  // ----- tablets

  function Decimal(n: nat): string {
    if n < 10 then [('0' as int + n) as char] else Decimal(n / 10) + [('0' as int + n % 10) as char]
  }

  function Padded(s: string, width: nat): string
    decreases width - |s|
  {
    if |s| >= width then s else Padded("0" + s, width)
  }

  /** t0000, t0001, and so on. */
  function TabletName(i: nat): TabletID {
    "t" + Padded(Decimal(i), 4)
  }

  function PeersOf(picked: seq<NodeID>): seq<TabletPeer> {
    seq(|picked|, j requires 0 <= j < |picked| =>
      TabletPeer(picked[j], if j == 0 then Leader else Follower, OtherState(""), 0))
  }

  function TabletOf(i: nat, leader: NodeID, picked: seq<NodeID>): Tablet {
    Tablet(TabletName(i), leader, PeersOf(picked), READ_OPS, 0.0)
  }

  function TabletsOf(queue: seq<NodeID>, placements: seq<seq<NodeID>>): seq<Tablet>
    requires |queue| == |placements|
  {
    if queue == [] then []
    else
      var n := |queue| - 1;
      TabletsOf(queue[..n], placements[..n]) + [TabletOf(n, queue[n], placements[n])]
  }

  lemma {:induction false} AllocateLength(queue: seq<NodeID>, ids: seq<NodeID>, followers: Counts, rf: int)
    ensures |Allocate(queue, ids, followers, rf).placements| == |queue|
  {
    if queue != [] {
      AllocateLength(queue[..|queue| - 1], ids, followers, rf);
    }
  }

  /** What the allocator returns. It is a function of the counts alone. */
  ghost function Expanded(leaders: Counts, followers: Counts, rf: int): seq<Tablet> {
    AllocateLength(Queue(leaders), IDOrder(leaders), followers, rf);
    TabletsOf(Queue(leaders), AllocationOf(leaders, followers, rf).placements)
  }

  method BuildPeers(picked: seq<NodeID>) returns (peers: seq<TabletPeer>)
    ensures peers == PeersOf(picked)
  {
    peers := [];
    for j := 0 to |picked|
      invariant peers == PeersOf(picked)[..j]
    {
      var role := Follower;
      if j == 0 {
        role := Leader;
      }
      peers := peers + [TabletPeer(picked[j], role, OtherState(""), 0)];
    }
  }

  method ExpandTablets(leaders: Counts, followers: Counts, rf: int) returns (tablets: seq<Tablet>)
    ensures tablets == Expanded(leaders, followers, rf)
  {
    var ids := CollectSorted(leaders.Keys);
    var queue := BuildLeaderQueue(ids, leaders);
    tablets := AllocateQueue(queue, ids, followers, rf);
  }

  method AllocateQueue(queue: seq<NodeID>, ids: seq<NodeID>, followers: Counts, rf: int) returns (tablets: seq<Tablet>)
    ensures |Allocate(queue, ids, followers, rf).placements| == |queue|
    ensures tablets == TabletsOf(queue, Allocate(queue, ids, followers, rf).placements)
  {
    var remain := followers;
    tablets := [];
    ghost var placements: seq<seq<NodeID>> := [];
    for i := 0 to |queue|
      invariant |placements| == i
      invariant Allocate(queue[..i], ids, followers, rf) == Allocation(placements, remain)
      invariant tablets == TabletsOf(queue[..i], placements)
    {
      assert queue[..i + 1][..i] == queue[..i];
      var picked, left := PickReplicas(remain, queue[i], ids, rf);
      var peers := BuildPeers(picked);
      remain := left;
      assert (placements + [picked])[..i] == placements;
      placements := placements + [picked];
      tablets := tablets + [Tablet(TabletName(i), queue[i], peers, READ_OPS, 0.0)];
    }
    assert queue[..|queue|] == queue;
  }
}
