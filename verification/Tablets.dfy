/** Distribution of tablets, leaders and operations over the TServers. */
module Tablets {
  import opened Counting
  import opened Strings
  import opened StableSort
  import opened Domain
  import opened Config
  import opened Raft

  datatype NodeTabletStats = NodeTabletStats(
    name: string, nodeID: NodeID, leaders: nat, followers: nat, total: nat, sstBytes: int, pendingCompactionBytes: int)

  type StatsMap = map<NodeID, NodeTabletStats>

  /** A max/min quotient; the source returns +Inf when the minimum is not positive. */
  datatype Ratio = Finite(value: real) | Infinite {
    predicate AtLeast(bound: real) {
      Infinite? || value >= bound
    }
  }

  datatype TabletSummary = TabletSummary(
    total: nat,
    underReplicated: nat,
    leaderless: nat,
    leaderImbalance: CheckStatus,
    tabletImbalance: CheckStatus,
    hotTablets: nat,
    perNode: seq<NodeTabletStats>,
    leaderRatio: Ratio,
    tabletRatio: Ratio,
    hottestNode: string,
    coldestNode: string,
    sstImbalance: CheckStatus,
    sstRatio: Ratio,
    sstHottestNode: string,
    sstColdestNode: string)

  // ----- per-node counts

  function OnNode(id: NodeID): TabletPeer -> bool {
    (p: TabletPeer) => p.tserverID == id
  }

  predicate Leads(t: Tablet, p: TabletPeer) {
    p.role == Leader || (t.leaderID != "" && p.tserverID == t.leaderID)
  }

  function LeadsOn(t: Tablet, id: NodeID): TabletPeer -> bool {
    (p: TabletPeer) => p.tserverID == id && Leads(t, p)
  }

  function FollowsOn(t: Tablet, id: NodeID): TabletPeer -> bool {
    (p: TabletPeer) => p.tserverID == id && !Leads(t, p)
  }

  function TotalOn(tablets: seq<Tablet>, id: NodeID): nat {
    if tablets == [] then 0
    else TotalOn(tablets[..|tablets| - 1], id) + CountIf(VotingPeers(tablets[|tablets| - 1]), OnNode(id))
  }

  function LeadersOn(tablets: seq<Tablet>, id: NodeID): nat {
    if tablets == [] then 0
    else
      var t := tablets[|tablets| - 1];
      LeadersOn(tablets[..|tablets| - 1], id) + CountIf(VotingPeers(t), LeadsOn(t, id))
  }

  function FollowersOn(tablets: seq<Tablet>, id: NodeID): nat {
    if tablets == [] then 0
    else
      var t := tablets[|tablets| - 1];
      FollowersOn(tablets[..|tablets| - 1], id) + CountIf(VotingPeers(t), FollowsOn(t, id))
  }

  /** The name of the last listed TServer with this id; an unlisted id names itself. */
  function NodeName(tservers: seq<TServer>, id: NodeID): string {
    if tservers == [] then id
    else if tservers[|tservers| - 1].id == id then tservers[|tservers| - 1].DisplayName()
    else NodeName(tservers[..|tservers| - 1], id)
  }

  /** The row of each node after the given tablets. */
  function StatsFor(tservers: seq<TServer>, tablets: seq<Tablet>): NodeID -> NodeTabletStats {
    (id: NodeID) =>
      NodeTabletStats(NodeName(tservers, id), id, LeadersOn(tablets, id), FollowersOn(tablets, id),
                      TotalOn(tablets, id), 0, 0)
  }

  function StatsOf(snap: Snapshot, id: NodeID): NodeTabletStats {
    StatsFor(snap.tservers, snap.tablets)(id)
  }

  // ----- the order in which rows appear

  function ListedIDs(tservers: seq<TServer>): seq<NodeID> {
    if tservers == [] then [] else ListedIDs(tservers[..|tservers| - 1]) + [tservers[|tservers| - 1].id]
  }

  function AppendNew(order: seq<NodeID>, peers: seq<TabletPeer>): seq<NodeID> {
    if peers == [] then order
    else
      var before := AppendNew(order, peers[..|peers| - 1]);
      var id := peers[|peers| - 1].tserverID;
      if id in before then before else before + [id]
  }

  function AppendTablets(order: seq<NodeID>, tablets: seq<Tablet>): seq<NodeID> {
    if tablets == [] then order
    else AppendNew(AppendTablets(order, tablets[..|tablets| - 1]), VotingPeers(tablets[|tablets| - 1]))
  }

  /** The listed ids, then the unlisted ones as the tablets name them. */
  function RowOrder(snap: Snapshot): seq<NodeID> {
    AppendTablets(ListedIDs(snap.tservers), snap.tablets)
  }

  function SumOps(tablets: seq<Tablet>): real {
    if tablets == [] then 0.0 else SumOps(tablets[..|tablets| - 1]) + tablets[|tablets| - 1].Ops()
  }

  method StartRows(snap: Snapshot) returns (perNode: StatsMap, order: seq<NodeID>)
    ensures order == ListedIDs(snap.tservers)
    ensures forall id :: id in perNode <==> id in order
    ensures forall id :: id in perNode ==>
              perNode[id] == NodeTabletStats(NodeName(snap.tservers, id), id, 0, 0, 0, 0, 0)
  {
    perNode := map[];
    order := [];
    for i := 0 to |snap.tservers|
      invariant order == ListedIDs(snap.tservers[..i])
      invariant forall id :: id in perNode <==> id in order
      invariant forall id :: id in perNode ==>
                  perNode[id] == NodeTabletStats(NodeName(snap.tservers[..i], id), id, 0, 0, 0, 0, 0)
    {
      assert snap.tservers[..i + 1][..i] == snap.tservers[..i];
      var ts := snap.tservers[i];
      perNode := perNode[ts.id := NodeTabletStats(ts.DisplayName(), ts.id, 0, 0, 0, 0, 0)];
      order := order + [ts.id];
    }
    assert snap.tservers[..|snap.tservers|] == snap.tservers;
  }

  /** The row of a node after the tablets, and after some peers of one more. */
  function StatsUpTo(tservers: seq<TServer>, tablets: seq<Tablet>, t: Tablet, peers: seq<TabletPeer>,
                     id: NodeID): NodeTabletStats
  {
    NodeTabletStats(NodeName(tservers, id), id,
                    LeadersOn(tablets, id) + CountIf(peers, LeadsOn(t, id)),
                    FollowersOn(tablets, id) + CountIf(peers, FollowsOn(t, id)),
                    TotalOn(tablets, id) + CountIf(peers, OnNode(id)), 0, 0)
  }

  function Blank(name: string, id: NodeID): NodeTabletStats {
    NodeTabletStats(name, id, 0, 0, 0, 0, 0)
  }

  /** perNode holds what stats says of the nodes of order; any other node is blank. */
  ghost predicate Holds(perNode: StatsMap, order: seq<NodeID>, stats: NodeID -> NodeTabletStats) {
    && (forall id :: id in perNode <==> id in order)
    && (forall id :: id in perNode ==> perNode[id] == stats(id))
    && (forall id :: id !in order ==> stats(id) == Blank(id, id))
  }

  function PartStats(tservers: seq<TServer>, tablets: seq<Tablet>, t: Tablet,
                     peers: seq<TabletPeer>): NodeID -> NodeTabletStats
  {
    (id: NodeID) => StatsUpTo(tservers, tablets, t, peers, id)
  }

  lemma NameOfUnlisted(tservers: seq<TServer>, id: NodeID)
    requires id !in ListedIDs(tservers)
    ensures NodeName(tservers, id) == id
  {
  }

  /** The row of p's node after p is counted. */
  function Bumped(st: NodeTabletStats, t: Tablet, p: TabletPeer): NodeTabletStats {
    if Leads(t, p) then st.(total := st.total + 1, leaders := st.leaders + 1)
    else st.(total := st.total + 1, followers := st.followers + 1)
  }

  /** Counting one more peer bumps the row of its node and no other. */
  lemma CountPeerStep(tservers: seq<TServer>, tablets: seq<Tablet>, t: Tablet, peers: seq<TabletPeer>, j: nat,
                      id: NodeID)
    requires j < |peers|
    ensures var before := StatsUpTo(tservers, tablets, t, peers[..j], id);
            StatsUpTo(tservers, tablets, t, peers[..j + 1], id) ==
            if id == peers[j].tserverID then Bumped(before, t, peers[j]) else before
  {
    CountStep(peers, LeadsOn(t, id), j);
    CountStep(peers, FollowsOn(t, id), j);
    CountStep(peers, OnNode(id), j);
  }

  /** The same for whole maps. */
  lemma BumpHolds(perNode: StatsMap, order: seq<NodeID>, id0: NodeID, st: NodeTabletStats,
                  before: NodeID -> NodeTabletStats, after: NodeID -> NodeTabletStats)
    requires id0 in perNode && Holds(perNode, order, before)
    requires forall id :: after(id) == if id == id0 then st else before(id)
    ensures Holds(perNode[id0 := st], order, after)
  {
  }

  method CountPeer(tservers: seq<TServer>, ghost tablets: seq<Tablet>, t: Tablet, peers: seq<TabletPeer>, j: nat,
                   perNode: StatsMap, order: seq<NodeID>)
    returns (perNode': StatsMap, order': seq<NodeID>)
    requires j < |peers|
    requires Holds(perNode, order, PartStats(tservers, tablets, t, peers[..j]))
    ensures Holds(perNode', order', PartStats(tservers, tablets, t, peers[..j + 1]))
    ensures order' == if peers[j].tserverID in order then order else order + [peers[j].tserverID]
  {
    var p := peers[j];
    perNode', order' := perNode, order;
    if p.tserverID !in perNode' {
      perNode' := perNode'[p.tserverID := Blank(p.tserverID, p.tserverID)];
      order' := order' + [p.tserverID];
    }
    var st := perNode'[p.tserverID];
    ghost var rows := perNode';
    st := st.(total := st.total + 1);
    if p.role == Leader || (t.leaderID != "" && p.tserverID == t.leaderID) {
      st := st.(leaders := st.leaders + 1);
    } else {
      st := st.(followers := st.followers + 1);
    }
    perNode' := perNode'[p.tserverID := st];
    ghost var before, after := PartStats(tservers, tablets, t, peers[..j]),
        PartStats(tservers, tablets, t, peers[..j + 1]);
    forall id ensures after(id) == if id == p.tserverID then st else before(id) {
      CountPeerStep(tservers, tablets, t, peers, j, id);
    }
    BumpHolds(rows, order', p.tserverID, st, before, after);
  }

  lemma AppendNewStep(order: seq<NodeID>, peers: seq<TabletPeer>, j: nat)
    requires j < |peers|
    ensures var before := AppendNew(order, peers[..j]);
            AppendNew(order, peers[..j + 1]) ==
                if peers[j].tserverID in before then before else before + [peers[j].tserverID]
  {
    assert peers[..j + 1][..j] == peers[..j];
  }

  lemma HoldsAlike(perNode: StatsMap, order: seq<NodeID>, stats: NodeID -> NodeTabletStats,
                   same: NodeID -> NodeTabletStats)
    requires Holds(perNode, order, stats) && forall id :: stats(id) == same(id)
    ensures Holds(perNode, order, same)
  {
  }

  lemma StartTablet(tservers: seq<TServer>, tablets: seq<Tablet>, t: Tablet, perNode: StatsMap, order: seq<NodeID>,
                    none: seq<TabletPeer>)
    requires none == [] && Holds(perNode, order, StatsFor(tservers, tablets))
    ensures Holds(perNode, order, PartStats(tservers, tablets, t, none))
  {
    HoldsAlike(perNode, order, StatsFor(tservers, tablets), PartStats(tservers, tablets, t, none));
  }

  lemma FinishTablet(tservers: seq<TServer>, tablets: seq<Tablet>, t: Tablet, perNode: StatsMap, order: seq<NodeID>)
    requires Holds(perNode, order, PartStats(tservers, tablets, t, VotingPeers(t)))
    ensures Holds(perNode, order, StatsFor(tservers, tablets + [t]))
  {
    assert (tablets + [t])[..|tablets|] == tablets;
    HoldsAlike(perNode, order, PartStats(tservers, tablets, t, VotingPeers(t)), StatsFor(tservers, tablets + [t]));
  }

  method CountTablet(tservers: seq<TServer>, ghost tablets: seq<Tablet>, t: Tablet, perNode: StatsMap,
                     order: seq<NodeID>)
    returns (perNode': StatsMap, order': seq<NodeID>)
    requires Holds(perNode, order, StatsFor(tservers, tablets))
    ensures Holds(perNode', order', StatsFor(tservers, tablets + [t]))
    ensures order' == AppendNew(order, VotingPeers(t))
  {
    var peers := CollectVotingPeers(t);
    perNode', order' := perNode, order;
    StartTablet(tservers, tablets, t, perNode, order, peers[..0]);
    for j := 0 to |peers|
      invariant Holds(perNode', order', PartStats(tservers, tablets, t, peers[..j]))
      invariant order' == AppendNew(order, peers[..j])
    {
      AppendNewStep(order, peers, j);
      perNode', order' := CountPeer(tservers, tablets, t, peers, j, perNode', order');
    }
    assert peers[..|peers|] == peers;
    FinishTablet(tservers, tablets, t, perNode', order');
  }

  lemma AppendTabletsStep(order: seq<NodeID>, tablets: seq<Tablet>, i: nat)
    requires i < |tablets|
    ensures AppendTablets(order, tablets[..i + 1]) ==
            AppendNew(AppendTablets(order, tablets[..i]), VotingPeers(tablets[i]))
    ensures SumOps(tablets[..i + 1]) == SumOps(tablets[..i]) + tablets[i].Ops()
  {
    assert tablets[..i + 1][..i] == tablets[..i];
  }

  lemma NothingCounted(tservers: seq<TServer>, perNode: StatsMap, order: seq<NodeID>)
    requires order == ListedIDs(tservers)
    requires forall id :: id in perNode <==> id in order
    requires forall id :: id in perNode ==> perNode[id] == NodeTabletStats(NodeName(tservers, id), id, 0, 0, 0, 0, 0)
    ensures Holds(perNode, order, StatsFor(tservers, []))
  {
    forall id | id !in order ensures NodeName(tservers, id) == id {
      NameOfUnlisted(tservers, id);
    }
  }

  method CountTablets(tservers: seq<TServer>, tablets: seq<Tablet>, perNode: StatsMap, order: seq<NodeID>)
    returns (perNode': StatsMap, order': seq<NodeID>, opsSum: real)
    requires Holds(perNode, order, StatsFor(tservers, []))
    ensures Holds(perNode', order', StatsFor(tservers, tablets))
    ensures order' == AppendTablets(order, tablets)
    ensures opsSum == SumOps(tablets)
  {
    perNode', order', opsSum := perNode, order, 0.0;
    assert tablets[..0] == [];
    for i := 0 to |tablets|
      invariant Holds(perNode', order', StatsFor(tservers, tablets[..i]))
      invariant order' == AppendTablets(order, tablets[..i])
      invariant opsSum == SumOps(tablets[..i])
    {
      assert tablets[..i + 1] == tablets[..i] + [tablets[i]];
      AppendTabletsStep(order, tablets, i);
      opsSum := opsSum + tablets[i].Ops();
      perNode', order' := CountTablet(tservers, tablets[..i], tablets[i], perNode', order');
    }
    assert tablets[..|tablets|] == tablets;
  }

  method CountReplicas(snap: Snapshot) returns (perNode: StatsMap, order: seq<NodeID>, opsSum: real)
    ensures order == RowOrder(snap)
    ensures forall id :: id in perNode <==> id in order
    ensures forall id :: id in perNode ==> perNode[id] == StatsOf(snap, id)
    ensures opsSum == SumOps(snap.tablets)
  {
    perNode, order := StartRows(snap);
    NothingCounted(snap.tservers, perNode, order);
    perNode, order, opsSum := CountTablets(snap.tservers, snap.tablets, perNode, order);
  }

  // ----- rows and the counts of the alive nodes

  function RowsOf(snap: Snapshot, order: seq<NodeID>): seq<NodeTabletStats> {
    if order == [] then [] else RowsOf(snap, order[..|order| - 1]) + [StatsOf(snap, order[|order| - 1])]
  }

  predicate AliveID(snap: Snapshot, id: NodeID) {
    var ts := FindTServer(snap.tservers, id);
    ts.Some? && ts.value.Alive()
  }

  /** The leader (or peer) counts of the alive nodes, in row order. */
  function AliveCounts(snap: Snapshot, order: seq<NodeID>, leaders: bool): seq<int> {
    if order == [] then []
    else
      var id := order[|order| - 1];
      var before := AliveCounts(snap, order[..|order| - 1], leaders);
      if AliveID(snap, id) then before + [if leaders then LeadersOn(snap.tablets, id) else TotalOn(snap.tablets, id)]
      else before
  }

  method CollectRows(snap: Snapshot, perNode: StatsMap, order: seq<NodeID>)
    returns (rows: seq<NodeTabletStats>, aliveLeaders: seq<int>, aliveTotals: seq<int>)
    requires forall id :: id in order ==> id in perNode && perNode[id] == StatsOf(snap, id)
    ensures rows == RowsOf(snap, order)
    ensures aliveLeaders == AliveCounts(snap, order, true)
    ensures aliveTotals == AliveCounts(snap, order, false)
  {
    rows, aliveLeaders, aliveTotals := [], [], [];
    for i := 0 to |order|
      invariant rows == RowsOf(snap, order[..i])
      invariant aliveLeaders == AliveCounts(snap, order[..i], true)
      invariant aliveTotals == AliveCounts(snap, order[..i], false)
    {
      assert order[..i + 1][..i] == order[..i];
      var st := perNode[order[i]];
      rows := rows + [st];
      var ts := TServerByID(snap, order[i]);
      if ts.Some? && ts.value.Alive() {
        aliveLeaders := aliveLeaders + [st.leaders];
        aliveTotals := aliveTotals + [st.total];
      }
    }
    assert order[..|order|] == order;
  }

  function ByName(): (NodeTabletStats, NodeTabletStats) -> bool {
    (a: NodeTabletStats, b: NodeTabletStats) => AtMost(a.name, b.name)
  }

  /** sort.Slice by name. It is not stable: only sortedness and the contents are promised. */
  method SortRows(rows: seq<NodeTabletStats>) returns (out: seq<NodeTabletStats>)
    ensures SortedBy(out, ByName())
    ensures multiset(out) == multiset(rows) && |out| == |rows|
  {
    out := SortBy(rows, ByName());
    forall a, b | a in rows && b in rows ensures ByName()(a, b) || ByName()(b, a) {
      LessTotal(a.name, b.name);
    }
    forall a, b, c | a in rows && b in rows && c in rows && ByName()(a, b) && ByName()(b, c) ensures ByName()(a, c) {
      AtMostTransitive(a.name, b.name, c.name);
    }
    SortBySorted(rows, ByName());
    SortByKeeps(rows, ByName());
  }

  /** The row with the storage figures of its node, if the node reports any. */
  function WithStorage(snap: Snapshot, row: NodeTabletStats): NodeTabletStats {
    if row.name in snap.performance.nodes then
      var rt := snap.performance.nodes[row.name];
      row.(sstBytes := rt.sstFileBytes, pendingCompactionBytes := rt.pendingCompactionBytes)
    else row
  }

  method AddStorage(snap: Snapshot, rows: seq<NodeTabletStats>) returns (out: seq<NodeTabletStats>)
    ensures |out| == |rows|
    ensures forall i :: 0 <= i < |rows| ==> out[i] == WithStorage(snap, rows[i])
  {
    out := rows;
    for i := 0 to |rows|
      invariant |out| == |rows|
      invariant forall k :: 0 <= k < |rows| ==> out[k] == if k < i then WithStorage(snap, rows[k]) else rows[k]
    {
      if out[i].name in snap.performance.nodes {
        var rt := snap.performance.nodes[out[i].name];
        out := out[i := out[i].(sstBytes := rt.sstFileBytes, pendingCompactionBytes := rt.pendingCompactionBytes)];
      }
    }
  }

  // ----- extremes

  function QuotientOf(maxV: int, minV: int): Ratio {
    if minV <= 0 then (if maxV == 0 then Finite(1.0) else Infinite)
    else Finite(maxV as real / minV as real)
  }

  predicate FirstMaximum(values: seq<int>, i: int) {
    && 0 <= i < |values|
    && (forall k :: 0 <= k < |values| ==> values[k] <= values[i])
    && (forall k :: 0 <= k < i ==> values[k] < values[i])
  }

  predicate FirstMinimum(values: seq<int>, i: int) {
    && 0 <= i < |values|
    && (forall k :: 0 <= k < |values| ==> values[i] <= values[k])
    && (forall k :: 0 <= k < i ==> values[i] < values[k])
  }

  lemma FirstMaximumUnique(values: seq<int>, i: int, j: int)
    requires FirstMaximum(values, i) && FirstMaximum(values, j)
    ensures i == j
  {
    assert values[i] <= values[j] && values[j] <= values[i];
  }

  lemma FirstMinimumUnique(values: seq<int>, i: int, j: int)
    requires FirstMinimum(values, i) && FirstMinimum(values, j)
    ensures i == j
  {
    assert values[i] <= values[j] && values[j] <= values[i];
  }

  function MaxIndex(values: seq<int>): (i: nat)
    requires values != []
    ensures FirstMaximum(values, i)
  {
    var n := |values| - 1;
    if n == 0 then 0
    else
      var i := MaxIndex(values[..n]);
      if values[n] > values[i] then n else i
  }

  function MinIndex(values: seq<int>): (i: nat)
    requires values != []
    ensures FirstMinimum(values, i)
  {
    var n := |values| - 1;
    if n == 0 then 0
    else
      var i := MinIndex(values[..n]);
      if values[n] < values[i] then n else i
  }

  /** The quotient of the greatest and the smallest value, one if there are none. */
  function RatioOf(values: seq<int>): Ratio {
    if values == [] then Finite(1.0) else QuotientOf(values[MaxIndex(values)], values[MinIndex(values)])
  }

  method MaxMinRatio(values: seq<int>) returns (ratio: Ratio, maxIdx: int, minIdx: int)
    ensures values == [] ==> ratio == Finite(1.0) && maxIdx == minIdx == -1
    ensures values != [] ==> FirstMaximum(values, maxIdx) && FirstMinimum(values, minIdx)
    ensures ratio == RatioOf(values)
  {
    if |values| == 0 {
      return Finite(1.0), -1, -1;
    }
    maxIdx, minIdx := 0, 0;
    var maxV, minV := values[0], values[0];
    for i := 0 to |values|
      invariant 0 <= maxIdx < |values| && 0 <= minIdx < |values|
      invariant maxV == values[maxIdx] && minV == values[minIdx]
      invariant forall k :: 0 <= k < i ==> values[k] <= maxV && minV <= values[k]
      invariant forall k :: 0 <= k < maxIdx ==> values[k] < maxV
      invariant forall k :: 0 <= k < minIdx ==> minV < values[k]
    {
      if values[i] > maxV {
        maxV, maxIdx := values[i], i;
      }
      if values[i] < minV {
        minV, minIdx := values[i], i;
      }
    }
    FirstMaximumUnique(values, maxIdx, MaxIndex(values));
    FirstMinimumUnique(values, minIdx, MinIndex(values));
    if minV <= 0 {
      if maxV == 0 {
        return Finite(1.0), maxIdx, minIdx;
      }
      return Infinite, maxIdx, minIdx;
    }
    ratio := Finite(maxV as real / minV as real);
  }

  predicate Eligible(tservers: seq<TServer>, perNode: StatsMap, i: int) {
    0 <= i < |tservers| && tservers[i].Alive() && tservers[i].id in perNode
  }

  function CountAt(tservers: seq<TServer>, perNode: StatsMap, leaders: bool, i: int): int
    requires Eligible(tservers, perNode, i)
  {
    var st := perNode[tservers[i].id];
    if leaders then st.leaders else st.total
  }

  /** Position i is the first alive node with the greatest count. */
  ghost predicate Hottest(tservers: seq<TServer>, perNode: StatsMap, leaders: bool, i: int) {
    && Eligible(tservers, perNode, i)
    && forall k :: Eligible(tservers, perNode, k) ==>
         && CountAt(tservers, perNode, leaders, k) <= CountAt(tservers, perNode, leaders, i)
         && (k < i ==> CountAt(tservers, perNode, leaders, k) < CountAt(tservers, perNode, leaders, i))
  }

  /** Position i is the first alive node with the smallest count. */
  ghost predicate Coldest(tservers: seq<TServer>, perNode: StatsMap, leaders: bool, i: int) {
    && Eligible(tservers, perNode, i)
    && forall k :: Eligible(tservers, perNode, k) ==>
         && CountAt(tservers, perNode, leaders, i) <= CountAt(tservers, perNode, leaders, k)
         && (k < i ==> CountAt(tservers, perNode, leaders, i) < CountAt(tservers, perNode, leaders, k))
  }

  ghost predicate IsExtremes(tservers: seq<TServer>, perNode: StatsMap, leaders: bool, hot: string, cold: string) {
    if forall k :: !Eligible(tservers, perNode, k) then hot == cold == ""
    else
      && (exists i :: Hottest(tservers, perNode, leaders, i) && hot == perNode[tservers[i].id].name)
      && (exists i :: Coldest(tservers, perNode, leaders, i) && cold == perNode[tservers[i].id].name)
  }

  method ExtremeAliveNames(snap: Snapshot, perNode: StatsMap, leaders: bool) returns (hot: string, cold: string)
    ensures IsExtremes(snap.tservers, perNode, leaders, hot, cold)
  {
    hot, cold := "", "";
    var maxN, minN := 0, 0;
    var first := true;
    ghost var hotAt, coldAt := 0, 0;
    for i := 0 to |snap.tservers|
      invariant first ==> hot == cold == "" && forall k :: 0 <= k < i ==> !Eligible(snap.tservers, perNode, k)
      invariant !first ==> Eligible(snap.tservers, perNode, hotAt) && Eligible(snap.tservers, perNode, coldAt)
      invariant !first ==> maxN == CountAt(snap.tservers, perNode, leaders, hotAt)
      invariant !first ==> hot == perNode[snap.tservers[hotAt].id].name
      invariant !first ==> minN == CountAt(snap.tservers, perNode, leaders, coldAt)
      invariant !first ==> cold == perNode[snap.tservers[coldAt].id].name
      invariant !first ==> forall k :: k < i && Eligible(snap.tservers, perNode, k) ==>
                  && minN <= CountAt(snap.tservers, perNode, leaders, k) <= maxN
                  && (k < hotAt ==> CountAt(snap.tservers, perNode, leaders, k) < maxN)
                  && (k < coldAt ==> minN < CountAt(snap.tservers, perNode, leaders, k))
      invariant !first ==> hotAt < i && coldAt < i
    {
      var ts := snap.tservers[i];
      if !ts.Alive() || ts.id !in perNode { continue; }
      var st := perNode[ts.id];
      var n := if leaders then st.leaders else st.total;
      if first {
        maxN, minN := n, n;
        hot, cold := st.name, st.name;
        hotAt, coldAt := i, i;
        first := false;
        continue;
      }
      if n > maxN {
        maxN, hot, hotAt := n, st.name, i;
      }
      if n < minN {
        minN, cold, coldAt := n, st.name, i;
      }
    }
    if !first {
      assert Hottest(snap.tservers, perNode, leaders, hotAt);
      assert Coldest(snap.tservers, perNode, leaders, coldAt);
    }
  }

  // ----- SST skew

  function SSTBytes(snap: Snapshot, name: string): int {
    if name in snap.performance.nodes then snap.performance.nodes[name].sstFileBytes else 0
  }

  /** The display names of the alive TServers, in order. */
  function AliveNames(tservers: seq<TServer>): seq<string> {
    if tservers == [] then []
    else
      var ts := tservers[|tservers| - 1];
      var before := AliveNames(tservers[..|tservers| - 1]);
      if ts.Alive() then before + [ts.DisplayName()] else before
  }

  function SSTValues(snap: Snapshot, names: seq<string>): seq<int> {
    seq(|names|, i requires 0 <= i < |names| => SSTBytes(snap, names[i]))
  }

  datatype Skew = Skew(ratio: Ratio, hot: string, cold: string)

  /** The extremes of SST bytes over at least two alive nodes. */
  function SkewOf(snap: Snapshot): Skew {
    var names := AliveNames(snap.tservers);
    var values := SSTValues(snap, names);
    if |names| < 2 then Skew(Finite(1.0), "", "")
    else Skew(RatioOf(values), names[MaxIndex(values)], names[MinIndex(values)])
  }

  method SSTSkew(snap: Snapshot) returns (ratio: Ratio, hot: string, cold: string)
    ensures Skew(ratio, hot, cold) == SkewOf(snap)
  {
    var alive: seq<string> := [];
    for i := 0 to |snap.tservers|
      invariant alive == AliveNames(snap.tservers[..i])
    {
      assert snap.tservers[..i + 1][..i] == snap.tservers[..i];
      if !snap.tservers[i].Alive() { continue; }
      alive := alive + [snap.tservers[i].DisplayName()];
    }
    assert snap.tservers[..|snap.tservers|] == snap.tservers;
    if |alive| < 2 {
      return Finite(1.0), "", "";
    }
    ghost var values := SSTValues(snap, alive);
    var maxP, minP := 0, 0;
    for i := 1 to |alive|
      invariant 0 <= maxP < i && 0 <= minP < i
      invariant forall k :: 0 <= k < i ==> values[k] <= values[maxP] && values[minP] <= values[k]
      invariant forall k :: 0 <= k < maxP ==> values[k] < values[maxP]
      invariant forall k :: 0 <= k < minP ==> values[minP] < values[k]
    {
      if SSTBytes(snap, alive[i]) > SSTBytes(snap, alive[maxP]) {
        maxP := i;
      }
      if SSTBytes(snap, alive[i]) < SSTBytes(snap, alive[minP]) {
        minP := i;
      }
    }
    FirstMaximumUnique(values, maxP, MaxIndex(values));
    FirstMinimumUnique(values, minP, MinIndex(values));
    var maxN, minN := SSTBytes(snap, alive[maxP]), SSTBytes(snap, alive[minP]);
    hot, cold := alive[maxP], alive[minP];
    if minN <= 0 {
      if maxN == 0 {
        return Finite(1.0), hot, cold;
      }
      return Infinite, hot, cold;
    }
    ratio := Finite(maxN as real / minN as real);
  }

  // ----- the summary

  function IsHot(bound: real): Tablet -> bool {
    (t: Tablet) => t.Ops() >= bound
  }

  function AverageOps(tablets: seq<Tablet>): real {
    if tablets == [] then 0.0 else SumOps(tablets) / |tablets| as real
  }

  function HotBound(tablets: seq<Tablet>, ratio: real): real {
    AverageOps(tablets) * ratio
  }

  function HotTabletCount(tablets: seq<Tablet>, ratio: real): nat {
    if AverageOps(tablets) > 0.0 then CountIf(tablets, IsHot(HotBound(tablets, ratio))) else 0
  }

  method CountHotTablets(tablets: seq<Tablet>, opsSum: real, ratio: real) returns (hot: nat)
    requires opsSum == SumOps(tablets)
    ensures hot == HotTabletCount(tablets, ratio)
  {
    var avg := 0.0;
    if |tablets| > 0 {
      avg := opsSum / |tablets| as real;
    }
    assert avg == AverageOps(tablets);
    hot := 0;
    if avg > 0.0 {
      var bound := avg * ratio;
      assert bound == HotBound(tablets, ratio);
      for i := 0 to |tablets|
        invariant hot == CountIf(tablets[..i], IsHot(bound))
      {
        CountStep(tablets, IsHot(bound), i);
        if tablets[i].Ops() >= bound {
          hot := hot + 1;
        }
      }
      assert tablets[..|tablets|] == tablets;
    }
  }

  /** The rows of the summary: one per node of the row order, with storage figures,
      sorted by name. */
  ghost predicate IsRows(snap: Snapshot, rows: seq<NodeTabletStats>) {
    && |rows| == |RowOrder(snap)|
    && exists plain :: IsPlainRows(snap, plain, rows)
  }

  ghost predicate IsPlainRows(snap: Snapshot, plain: seq<NodeTabletStats>, rows: seq<NodeTabletStats>) {
    && multiset(plain) == multiset(RowsOf(snap, RowOrder(snap)))
    && SortedBy(plain, ByName())
    && |plain| == |rows|
    && forall i :: 0 <= i < |rows| ==> rows[i] == WithStorage(snap, plain[i])
  }

  function Imbalance(ratio: Ratio, bound: real, nodes: nat): CheckStatus {
    if ratio.AtLeast(bound) && nodes > 1 then Warn else Pass
  }

  ghost predicate IsSummary(snap: Snapshot, th: Thresholds, sum: TabletSummary) {
    var order := RowOrder(snap);
    var leaders, totals := AliveCounts(snap, order, true), AliveCounts(snap, order, false);
    && sum.total == |snap.tablets|
    && sum.underReplicated ==
        CountedOr(snap.underReplicatedIDs, snap.tablets, IsUnderReplicated(snap.replicationFactor))
    && sum.leaderless == CountedOr(snap.leaderlessIDs, snap.tablets, IsLeaderless())
    && IsRows(snap, sum.perNode)
    && sum.leaderRatio == RatioOf(leaders) && sum.tabletRatio == RatioOf(totals)
    && sum.leaderImbalance == Imbalance(sum.leaderRatio, th.leaderImbalanceRatio, |leaders|)
    && sum.tabletImbalance == Imbalance(sum.tabletRatio, th.tabletImbalanceRatio, |totals|)
    && IsExtremes(snap.tservers, StatsMapOf(snap), true, sum.hottestNode, sum.coldestNode)
    && Skew(sum.sstRatio, sum.sstHottestNode, sum.sstColdestNode) == SkewOf(snap)
    && sum.sstImbalance == (if sum.sstRatio.AtLeast(th.sstImbalanceRatio) && sum.sstHottestNode != sum.sstColdestNode
                            && sum.sstHottestNode != "" then Warn else Pass)
    && sum.hotTablets == HotTabletCount(snap.tablets, th.hotTabletOpsRatio)
  }

  /** The per-node statistics, keyed by id. */
  function StatsMapOf(snap: Snapshot): StatsMap {
    map id | id in RowOrder(snap) :: StatsOf(snap, id)
  }

  lemma {:induction false} RowsLength(snap: Snapshot, order: seq<NodeID>)
    ensures |RowsOf(snap, order)| == |order|
  {
    if order != [] {
      RowsLength(snap, order[..|order| - 1]);
    }
  }

  method FinishRows(snap: Snapshot, rows: seq<NodeTabletStats>) returns (out: seq<NodeTabletStats>)
    requires rows == RowsOf(snap, RowOrder(snap))
    ensures IsRows(snap, out)
  {
    RowsLength(snap, RowOrder(snap));
    var plain := SortRows(rows);
    out := AddStorage(snap, plain);
    assert IsPlainRows(snap, plain, out);
  }

  method AnalyzeBalance(values: seq<int>, bound: real) returns (ratio: Ratio, status: CheckStatus)
    ensures ratio == RatioOf(values)
    ensures status == Imbalance(ratio, bound, |values|)
  {
    var maxIdx, minIdx;
    ratio, maxIdx, minIdx := MaxMinRatio(values);
    status := Pass;
    if ratio.AtLeast(bound) && |values| > 1 {
      status := Warn;
    }
  }

  method AnalyzeTablets(snap: Snapshot, th: Thresholds) returns (sum: TabletSummary)
    ensures IsSummary(snap, th, sum)
  {
    var under := CountIDsOr(snap.underReplicatedIDs, snap.tablets, IsUnderReplicated(snap.replicationFactor));
    var leaderless := CountIDsOr(snap.leaderlessIDs, snap.tablets, IsLeaderless());
    var perNode, order, opsSum := CountReplicas(snap);
    assert perNode == StatsMapOf(snap);
    var rows, aliveLeaders, aliveTotals := CollectRows(snap, perNode, order);
    var finished := FinishRows(snap, rows);
    var leaderRatio, leaderStatus := AnalyzeBalance(aliveLeaders, th.leaderImbalanceRatio);
    var tabletRatio, tabletStatus := AnalyzeBalance(aliveTotals, th.tabletImbalanceRatio);
    var hot, cold := ExtremeAliveNames(snap, perNode, true);
    var sstRatio, sstHot, sstCold := SSTSkew(snap);
    var sstStatus := Pass;
    if sstRatio.AtLeast(th.sstImbalanceRatio) && sstHot != sstCold && sstHot != "" {
      sstStatus := Warn;
    }
    var hotTablets := CountHotTablets(snap.tablets, opsSum, th.hotTabletOpsRatio);
    sum := TabletSummary(|snap.tablets|, under, leaderless, leaderStatus, tabletStatus, hotTablets, finished,
                         leaderRatio, tabletRatio, hot, cold, sstStatus, sstRatio, sstHot, sstCold);
  }
}
