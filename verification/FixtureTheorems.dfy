/** What the greedy allocator guarantees for arbitrary counts, and when it realises
    the planned counts exactly. */
module FixtureTheorems {
  import opened Counting
  import opened Strings
  import opened Domain
  import opened Fixture

  // ----- the scan always finds the best candidate

  ghost predicate BestAmong(remain: Counts, picked: seq<NodeID>, among: set<NodeID>, id: NodeID) {
    && id in among && Candidate(remain, picked, id)
    && forall other :: other in among && Candidate(remain, picked, other) ==> Precedes(remain, id, other)
  }

  lemma {:induction false} BestExists(remain: Counts, picked: seq<NodeID>, among: set<NodeID>)
    requires exists id :: id in among && Candidate(remain, picked, id)
    ensures exists id :: BestAmong(remain, picked, among, id)
    decreases |among|
  {
    var x :| x in among && Candidate(remain, picked, x);
    var rest := among - {x};
    if exists id :: id in rest && Candidate(remain, picked, id) {
      BestExists(remain, picked, rest);
      var y :| BestAmong(remain, picked, rest, y);
      LessTotal(x, y);
      if Precedes(remain, y, x) {
        assert BestAmong(remain, picked, among, y);
      } else {
        forall other | other in among && Candidate(remain, picked, other) ensures Precedes(remain, x, other) {
          if other != x {
            assert Precedes(remain, y, other);
            if remain[x] == remain[other] {
              AtMostTransitive(x, y, other);
            }
          }
        }
        assert BestAmong(remain, picked, among, x);
      }
    } else {
      assert BestAmong(remain, picked, among, x);
    }
  }

  lemma BestIsCandidate(remain: Counts, picked: seq<NodeID>)
    ensures (exists id :: Candidate(remain, picked, id)) ==> IsBest(remain, picked, Best(remain, picked))
    ensures (forall id :: !Candidate(remain, picked, id)) ==> Best(remain, picked) == ""
  {
    if exists id :: Candidate(remain, picked, id) {
      BestExists(remain, picked, remain.Keys);
      var id :| BestAmong(remain, picked, remain.Keys, id);
      assert IsBest(remain, picked, id);
    }
  }

  /** The fallback is a fresh id, or "" when every id is taken or "" itself is the
      first that is not. */
  lemma {:induction false} FallbackIs(ids: seq<NodeID>, picked: seq<NodeID>)
    ensures Fallback(ids, picked) != "" ==> Fallback(ids, picked) in ids && Fallback(ids, picked) !in picked
    ensures (forall id :: id in ids ==> id in picked) ==> Fallback(ids, picked) == ""
    ensures (exists id :: id in ids && id !in picked) && ("" in ids ==> "" in picked) ==> Fallback(ids, picked) != ""
  {
    if ids != [] {
      assert ids == [ids[0]] + ids[1..];
      FallbackIs(ids[1..], picked);
    }
  }

  lemma NextIsFresh(remain: Counts, picked: seq<NodeID>, ids: seq<NodeID>)
    ensures Next(remain, picked, ids) != "" ==> Next(remain, picked, ids) !in picked
    ensures Next(remain, picked, ids) != "" ==> Next(remain, picked, ids) in ids || Next(remain, picked, ids) in remain
  {
    BestIsCandidate(remain, picked);
    FallbackIs(ids, picked);
  }

  // ----- safety

  lemma {:induction false} PickIsSafe(remain: Counts, picked: seq<NodeID>, ids: seq<NodeID>, rf: int)
    requires Distinct(picked)
    ensures var c := Pick(remain, picked, ids, rf);
            && Distinct(c.picked) && picked <= c.picked
            && |picked| <= |c.picked| <= (if rf > |picked| then rf else |picked|)
            && forall j :: |picked| <= j < |c.picked| ==> c.picked[j] != ""
    decreases Clamp(rf - |picked|)
  {
    var id := Next(remain, picked, ids);
    if |picked| < rf && id != "" {
      NextIsFresh(remain, picked, ids);
      PickIsSafe(remain[id := Get(remain, id) - 1], picked + [id], ids, rf);
      assert (picked + [id])[|picked|] == id;
    }
  }

  /** Every replica set starts with its leader, has no repetition, and has at most rf
      members (but always its leader). */
  ghost predicate SafePlacement(leader: NodeID, placement: seq<NodeID>, rf: int) {
    && Distinct(placement)
    && 1 <= |placement| && placement[0] == leader
    && (|placement| <= rf || |placement| == 1)
    && forall j :: 1 <= j < |placement| ==> placement[j] != ""
  }

  lemma {:induction false} AllocateIsSafe(queue: seq<NodeID>, ids: seq<NodeID>, followers: Counts, rf: int)
    ensures var ps := Allocate(queue, ids, followers, rf).placements;
            |ps| == |queue| && forall i :: 0 <= i < |queue| ==> SafePlacement(queue[i], ps[i], rf)
  {
    if queue != [] {
      var n := |queue| - 1;
      AllocateIsSafe(queue[..n], ids, followers, rf);
      PickIsSafe(Allocate(queue[..n], ids, followers, rf).remain, [queue[n]], ids, rf);
    }
  }

  lemma {:induction false} TabletsOfAt(queue: seq<NodeID>, placements: seq<seq<NodeID>>)
    requires |queue| == |placements|
    ensures |TabletsOf(queue, placements)| == |queue|
    ensures forall i :: 0 <= i < |queue| ==> TabletsOf(queue, placements)[i] == TabletOf(i, queue[i], placements[i])
  {
    if queue != [] {
      TabletsOfAt(queue[..|queue| - 1], placements[..|queue| - 1]);
    }
  }

  /** The tablets, one by one, in terms of the queue and the placements. */
  lemma ExpandedAt(leaders: Counts, followers: Counts, rf: int)
    ensures var q := Queue(leaders);
            var ps := AllocationOf(leaders, followers, rf).placements;
            var ts := Expanded(leaders, followers, rf);
            && |ts| == |q| == |ps|
            && forall i :: 0 <= i < |q| ==> ts[i] == TabletOf(i, q[i], ps[i]) && SafePlacement(q[i], ps[i], rf)
  {
    AllocateIsSafe(Queue(leaders), IDOrder(leaders), followers, rf);
    TabletsOfAt(Queue(leaders), AllocationOf(leaders, followers, rf).placements);
  }

  ghost predicate WellFormedTablet(t: Tablet, rf: int) {
    && (forall i, j :: 0 <= i < j < |t.peers| ==> t.peers[i].tserverID != t.peers[j].tserverID)
    && 1 <= |t.peers| && (|t.peers| <= rf || |t.peers| == 1)
    && t.peers[0].tserverID == t.leaderID
    && forall j :: 0 <= j < |t.peers| ==>
        (t.peers[j].role == Leader <==> j == 0) && (t.peers[j].role == Follower <==> j > 0)
  }

  /** For arbitrary counts: no tablet has two peers on one server, exactly the first
      peer leads, it is the tablet's leader, and there are at most rf peers. */
  lemma AllocatorIsSafe(leaders: Counts, followers: Counts, rf: int)
    ensures forall t :: t in Expanded(leaders, followers, rf) ==> WellFormedTablet(t, rf)
  {
    ExpandedAt(leaders, followers, rf);
    var ts := Expanded(leaders, followers, rf);
    forall t | t in ts ensures WellFormedTablet(t, rf) {
      var i :| 0 <= i < |ts| && ts[i] == t;
    }
  }

  // ----- where replicas go

  lemma {:induction false} PickStaysWithin(remain: Counts, picked: seq<NodeID>, ids: seq<NodeID>, rf: int,
                                           all: set<NodeID>)
    requires remain.Keys <= all
    requires (forall x :: x in picked ==> x in all) && forall x :: x in ids ==> x in all
    ensures var c := Pick(remain, picked, ids, rf);
            c.remain.Keys <= all && forall x :: x in c.picked ==> x in all
    decreases Clamp(rf - |picked|)
  {
    var id := Next(remain, picked, ids);
    if |picked| < rf && id != "" {
      NextIsFresh(remain, picked, ids);
      PickStaysWithin(remain[id := Get(remain, id) - 1], picked + [id], ids, rf, all);
    }
  }

  lemma {:induction false} AllocateStaysWithin(queue: seq<NodeID>, ids: seq<NodeID>, followers: Counts, rf: int,
                                               all: set<NodeID>)
    requires followers.Keys <= all
    requires (forall x :: x in queue ==> x in all) && forall x :: x in ids ==> x in all
    ensures var a := Allocate(queue, ids, followers, rf);
            a.remain.Keys <= all && forall p, x :: p in a.placements && x in p ==> x in all
  {
    if queue != [] {
      var n := |queue| - 1;
      assert queue[n] in queue;
      AllocateStaysWithin(queue[..n], ids, followers, rf, all);
      PickStaysWithin(Allocate(queue[..n], ids, followers, rf).remain, [queue[n]], ids, rf, all);
    }
  }

  /** The allocator places replicas only on ids that the leader or follower counts name. */
  lemma ReplicasArePlanned(leaders: Counts, followers: Counts, rf: int)
    ensures forall t, p :: t in Expanded(leaders, followers, rf) && p in t.peers ==>
              p.tserverID in leaders.Keys + followers.Keys
  {
    var all := leaders.Keys + followers.Keys;
    var q, ps, ts := Queue(leaders), AllocationOf(leaders, followers, rf).placements, Expanded(leaders, followers, rf);
    ExpandedAt(leaders, followers, rf);
    QueueMembers(leaders);
    SortedSetSorts(leaders.Keys);
    AllocateStaysWithin(q, IDOrder(leaders), followers, rf, all);
    forall t, p | t in ts && p in t.peers ensures p.tserverID in all {
      var i :| 0 <= i < |ts| && ts[i] == t;
      assert ps[i] in ps;
      PeersWithin(ps[i], all);
    }
  }

  lemma PeersWithin(placement: seq<NodeID>, all: set<NodeID>)
    requires forall x :: x in placement ==> x in all
    ensures forall p :: p in PeersOf(placement) ==> p.tserverID in all
  {
    forall p | p in PeersOf(placement) ensures p.tserverID in all {
      var j :| 0 <= j < |placement| && PeersOf(placement)[j] == p;
      assert placement[j] in placement;
    }
  }

  // ----- who leads what

  function Is(id: NodeID): NodeID -> bool {
    (x: NodeID) => x == id
  }

  lemma {:induction false} RepeatCount(id: NodeID, n: int, x: NodeID)
    ensures CountIf(Repeat(id, n), Is(x)) == if x == id then Clamp(n) else 0
    decreases Clamp(n)
  {
    if n > 0 {
      RepeatCount(id, n - 1, x);
      assert Repeat(id, n)[..|Repeat(id, n)| - 1] == Repeat(id, n - 1);
    }
  }

  lemma {:induction false} LeaderQueueCount(ids: seq<NodeID>, leaders: Counts, x: NodeID)
    requires Distinct(ids)
    ensures CountIf(LeaderQueue(ids, leaders), Is(x)) == if x in ids then Clamp(Get(leaders, x)) else 0
  {
    if ids != [] {
      var n := |ids| - 1;
      assert ids == ids[..n] + [ids[n]];
      LeaderQueueCount(ids[..n], leaders, x);
      RepeatCount(ids[n], Get(leaders, ids[n]), x);
      CountConcat(LeaderQueue(ids[..n], leaders), Repeat(ids[n], Get(leaders, ids[n])), Is(x));
      assert ids[n] !in ids[..n];
    }
  }

  lemma IDOrderDistinct(leaders: Counts)
    ensures StrictlySorted(IDOrder(leaders)) && Distinct(IDOrder(leaders))
  {
    SortedSetSorts(leaders.Keys);
    forall i, j | 0 <= i < j < |IDOrder(leaders)| ensures IDOrder(leaders)[i] != IDOrder(leaders)[j] {
      StrictlySortedDistinct(IDOrder(leaders), i, j);
    }
  }

  lemma QueueCount(leaders: Counts, x: NodeID)
    ensures CountIf(Queue(leaders), Is(x)) == Clamp(Get(leaders, x))
  {
    IDOrderDistinct(leaders);
    LeaderQueueCount(IDOrder(leaders), leaders, x);
  }

  lemma QueueMembers(leaders: Counts)
    ensures forall x :: x in Queue(leaders) <==> x in leaders && leaders[x] > 0
  {
    forall x ensures x in Queue(leaders) <==> x in leaders && leaders[x] > 0 {
      QueueCount(leaders, x);
      CountZero(Queue(leaders), Is(x));
    }
  }

  function LedBy(id: NodeID): Tablet -> bool {
    (t: Tablet) => t.leaderID == id
  }

  lemma {:induction false} LedByCount(queue: seq<NodeID>, placements: seq<seq<NodeID>>, x: NodeID)
    requires |queue| == |placements|
    ensures CountIf(TabletsOf(queue, placements), LedBy(x)) == CountIf(queue, Is(x))
  {
    if queue != [] {
      var n := |queue| - 1;
      LedByCount(queue[..n], placements[..n], x);
      TabletsOfAt(queue[..n], placements[..n]);
      assert TabletsOf(queue, placements)[..n] == TabletsOf(queue[..n], placements[..n]);
    }
  }

  /** Every node leads exactly as many tablets as planned, a negative plan counting zero. */
  lemma LeadersAsPlanned(leaders: Counts, followers: Counts, rf: int, id: NodeID)
    ensures CountIf(Expanded(leaders, followers, rf), LedBy(id)) == Clamp(Get(leaders, id))
  {
    AllocateLength(Queue(leaders), IDOrder(leaders), followers, rf);
    LedByCount(Queue(leaders), AllocationOf(leaders, followers, rf).placements, id);
    QueueCount(leaders, id);
  }

  ghost predicate InOrder(queue: seq<NodeID>) {
    forall i, j :: 0 <= i < j < |queue| ==> AtMost(queue[i], queue[j])
  }

  lemma {:induction false} RepeatIs(id: NodeID, n: int)
    ensures forall k :: 0 <= k < |Repeat(id, n)| ==> Repeat(id, n)[k] == id
    decreases Clamp(n)
  {
    if n > 0 {
      RepeatIs(id, n - 1);
    }
  }

  lemma {:induction false} LeaderQueueOrder(ids: seq<NodeID>, leaders: Counts)
    requires StrictlySorted(ids)
    ensures InOrder(LeaderQueue(ids, leaders))
    ensures forall x :: x in LeaderQueue(ids, leaders) ==> x in ids
  {
    if ids != [] {
      var n := |ids| - 1;
      assert ids == ids[..n] + [ids[n]];
      LeaderQueueOrder(ids[..n], leaders);
      RepeatIs(ids[n], Get(leaders, ids[n]));
      QueueBelow(LeaderQueue(ids[..n], leaders), ids, n);
    }
  }

  lemma QueueBelow(before: seq<NodeID>, ids: seq<NodeID>, n: nat)
    requires StrictlySorted(ids) && n < |ids|
    requires forall x :: x in before ==> x in ids[..n]
    ensures forall i :: 0 <= i < |before| ==> AtMost(before[i], ids[n])
  {
    forall i | 0 <= i < |before| ensures AtMost(before[i], ids[n]) {
      assert before[i] in before;
      var k :| 0 <= k < n && ids[..n][k] == before[i];
      assert Less(ids[k], ids[n]);
    }
  }

  /** The tablets come in the order of their leaders' ids; with the number each node
      leads this fixes the leader of every tablet. */
  lemma LeadersInOrder(leaders: Counts, followers: Counts, rf: int)
    ensures var ts := Expanded(leaders, followers, rf);
            forall i, j :: 0 <= i < j < |ts| ==> AtMost(ts[i].leaderID, ts[j].leaderID)
  {
    ExpandedAt(leaders, followers, rf);
    IDOrderDistinct(leaders);
    LeaderQueueOrder(IDOrder(leaders), leaders);
  }

  // ----- tablet names

  /** Reads a decimal number back, leading zeros allowed. */
  function Value(s: string): int {
    if s == [] then 0 else Value(s[..|s| - 1]) * 10 + (s[|s| - 1] as int - '0' as int)
  }

  lemma {:induction false} DecimalValue(n: nat)
    ensures Value(Decimal(n)) == n
  {
    if n < 10 {
      assert Decimal(n)[..0] == [];
    } else {
      DecimalValue(n / 10);
      var d := Decimal(n);
      assert d[..|d| - 1] == Decimal(n / 10);
    }
  }

  lemma {:induction false} LeadingZero(s: string)
    ensures Value("0" + s) == Value(s)
  {
    if s == [] {
      assert ("0" + s)[..0] == [];
      assert ("0" + s)[0] == '0';
    } else {
      var n := |s| - 1;
      LeadingZero(s[..n]);
      assert ("0" + s)[..|"0" + s| - 1] == "0" + s[..n];
      assert ("0" + s)[|"0" + s| - 1] == s[n];
    }
  }

  lemma {:induction false} PaddedValue(s: string, width: nat)
    ensures Value(Padded(s, width)) == Value(s)
    ensures |Padded(s, width)| >= width
    decreases width - |s|
  {
    if |s| < width {
      LeadingZero(s);
      PaddedValue("0" + s, width);
    }
  }

  /** A tablet's name is t and at least four digits that spell its position, so no two
      tablets share a name. */
  lemma TabletNamesDiffer(i: nat, j: nat)
    ensures |TabletName(i)| >= 5 && TabletName(i)[0] == 't' && Value(TabletName(i)[1..]) == i
    ensures TabletName(i) == TabletName(j) ==> i == j
  {
    forall k: nat | k == i || k == j ensures Value(TabletName(k)[1..]) == k && |TabletName(k)| >= 5 {
      DecimalValue(k);
      PaddedValue(Decimal(k), 4);
      assert TabletName(k)[1..] == Padded(Decimal(k), 4);
    }
  }

  // ----- conservation of demand

  lemma {:induction false} PickConserves(remain: Counts, picked: seq<NodeID>, ids: seq<NodeID>, rf: int, id: NodeID)
    ensures var c := Pick(remain, picked, ids, rf);
            Get(remain, id) + multiset(picked)[id] == Get(c.remain, id) + multiset(c.picked)[id]
    decreases Clamp(rf - |picked|)
  {
    var next := Next(remain, picked, ids);
    if |picked| < rf && next != "" {
      PickConserves(remain[next := Get(remain, next) - 1], picked + [next], ids, rf, id);
    }
  }

  /** How many follower peers the placements put on id. */
  function PickedAsFollower(placements: seq<seq<NodeID>>, id: NodeID): nat {
    if placements == [] then 0
    else
      var n := |placements| - 1;
      PickedAsFollower(placements[..n], id) + (if placements[n] == [] then 0 else multiset(placements[n][1..])[id])
  }

  lemma {:induction false} AllocateConserves(queue: seq<NodeID>, ids: seq<NodeID>, followers: Counts, rf: int,
                                             id: NodeID)
    ensures var a := Allocate(queue, ids, followers, rf);
            Get(followers, id) - Get(a.remain, id) == PickedAsFollower(a.placements, id)
  {
    if queue != [] {
      var n := |queue| - 1;
      var before := Allocate(queue[..n], ids, followers, rf);
      AllocateConserves(queue[..n], ids, followers, rf, id);
      var c := Pick(before.remain, [queue[n]], ids, rf);
      PickConserves(before.remain, [queue[n]], ids, rf, id);
      PickIsSafe(before.remain, [queue[n]], ids, rf);
      assert c.picked == [queue[n]] + c.picked[1..];
      assert (before.placements + [c.picked])[..|before.placements|] == before.placements;
    }
  }

  function OnAsFollower(id: NodeID): TabletPeer -> bool {
    (p: TabletPeer) => p.tserverID == id && p.role == Follower
  }

  lemma {:induction false} FollowerPeersOfPlacement(placement: seq<NodeID>, id: NodeID)
    ensures CountIf(PeersOf(placement), OnAsFollower(id)) == if placement == [] then 0 else multiset(placement[1..])[id]
  {
    if |placement| > 1 {
      var n := |placement| - 1;
      FollowerPeersOfPlacement(placement[..n], id);
      assert PeersOf(placement)[..n] == PeersOf(placement[..n]);
      assert placement[1..] == placement[..n][1..] + [placement[n]];
    } else if |placement| == 1 {
      assert PeersOf(placement)[..0] == [];
    }
  }

  lemma {:induction false} FollowerPeersCount(queue: seq<NodeID>, placements: seq<seq<NodeID>>, id: NodeID)
    requires |queue| == |placements|
    ensures PeerCount(TabletsOf(queue, placements), OnAsFollower(id)) == PickedAsFollower(placements, id)
  {
    if queue != [] {
      var n := |queue| - 1;
      FollowerPeersCount(queue[..n], placements[..n], id);
      FollowerPeersOfPlacement(placements[n], id);
      TabletsOfAt(queue[..n], placements[..n]);
      assert TabletsOf(queue, placements)[..n] == TabletsOf(queue[..n], placements[..n]);
    }
  }

  /** Demand is conserved node by node: what was planned and is not left over is
      exactly what was placed, however often the fallback overdrew a node. */
  lemma DemandConserved(leaders: Counts, followers: Counts, rf: int, id: NodeID)
    ensures Get(followers, id) - Get(AllocationOf(leaders, followers, rf).remain, id)
            == PeerCount(Expanded(leaders, followers, rf), OnAsFollower(id))
  {
    AllocateLength(Queue(leaders), IDOrder(leaders), followers, rf);
    AllocateConserves(Queue(leaders), IDOrder(leaders), followers, rf, id);
    FollowerPeersCount(Queue(leaders), AllocationOf(leaders, followers, rf).placements, id);
  }

  ghost function AnyKey(m: Counts): (k: NodeID)
    requires m != map[]
    ensures k in m
  {
    var k :| k in m;
    k
  }

  ghost function Total(m: Counts): int
    decreases |m|
  {
    if m == map[] then 0
    else
      var k := AnyKey(m);
      RemoveOne(m, k);
      m[k] + Total(m - {k})
  }

  lemma RemoveOne(m: Counts, j: NodeID)
    requires j in m
    ensures |m - {j}| == |m| - 1
  {
    assert (m - {j}).Keys == m.Keys - {j};
  }

  lemma RemoveTwo(m: Counts, j: NodeID, k: NodeID)
    requires j in m && k in m && j != k
    ensures k in m - {j} && (m - {j})[k] == m[k]
    ensures m - {j} - {k} == m - {k} - {j}
  {
  }

  lemma {:induction false} TotalWithout(m: Counts, k: NodeID)
    requires k in m
    ensures Total(m) == m[k] + Total(m - {k})
    decreases |m|
  {
    RemoveOne(m, k);
    var j := AnyKey(m);
    if j != k {
      RemoveOne(m, j);
      RemoveTwo(m, j, k);
      RemoveTwo(m, k, j);
      TotalWithout(m - {j}, k);
      TotalWithout(m - {k}, j);
    }
  }

  lemma TotalUpdate(m: Counts, k: NodeID, v: int)
    ensures Total(m[k := v]) == Total(m) - Get(m, k) + v
  {
    TotalWithout(m[k := v], k);
    assert m[k := v] - {k} == m - {k};
    if k in m {
      TotalWithout(m, k);
    } else {
      assert m - {k} == m;
    }
  }

  lemma {:induction false} PickTotal(remain: Counts, picked: seq<NodeID>, ids: seq<NodeID>, rf: int)
    ensures var c := Pick(remain, picked, ids, rf);
            Total(remain) - Total(c.remain) == |c.picked| - |picked|
    decreases Clamp(rf - |picked|)
  {
    var next := Next(remain, picked, ids);
    if |picked| < rf && next != "" {
      TotalUpdate(remain, next, Get(remain, next) - 1);
      PickTotal(remain[next := Get(remain, next) - 1], picked + [next], ids, rf);
    }
  }

  lemma {:induction false} AllocateTotal(queue: seq<NodeID>, ids: seq<NodeID>, followers: Counts, rf: int)
    requires forall p :: p in Allocate(queue, ids, followers, rf).placements ==> |p| == rf
    ensures Total(followers) - Total(Allocate(queue, ids, followers, rf).remain) == |queue| * (rf - 1)
  {
    if queue != [] {
      var n := |queue| - 1;
      var before := Allocate(queue[..n], ids, followers, rf);
      var c := Pick(before.remain, [queue[n]], ids, rf);
      var all := Allocate(queue, ids, followers, rf);
      assert all == Allocation(before.placements + [c.picked], c.remain);
      assert all.placements[|before.placements|] == c.picked;
      assert forall p :: p in before.placements ==> p in all.placements;
      AllocateTotal(queue[..n], ids, followers, rf);
      PickTotal(before.remain, [queue[n]], ids, rf);
      assert |queue| * (rf - 1) == n * (rf - 1) + (rf - 1);
    }
  }

  /** When the plan adds up and every tablet reaches rf, overshoots and shortfalls of
      the remaining demand cancel exactly. */
  lemma RemaindersCancel(leaders: Counts, followers: Counts, rf: int)
    requires forall t :: t in Expanded(leaders, followers, rf) ==> |t.peers| == rf
    requires Total(followers) == |Expanded(leaders, followers, rf)| * (rf - 1)
    ensures Total(AllocationOf(leaders, followers, rf).remain) == 0
  {
    ExpandedAt(leaders, followers, rf);
    var ps := AllocationOf(leaders, followers, rf).placements;
    var ts := Expanded(leaders, followers, rf);
    forall p | p in ps ensures |p| == rf {
      var i :| 0 <= i < |ps| && ps[i] == p;
      assert ts[i] in ts;
    }
    AllocateTotal(Queue(leaders), IDOrder(leaders), followers, rf);
  }
}
