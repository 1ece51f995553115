/** What the tablet summary says about the snapshot, for every snapshot. */
module TabletsTheorems {
  import opened Counting
  import opened Strings
  import opened Domain
  import opened Tablets

  // ----- rows add up

  lemma {:induction false} CountSum<T>(s: seq<T>, p: T -> bool, q: T -> bool, both: T -> bool)
    requires forall x :: x in s ==> both(x) == (p(x) || q(x)) && !(p(x) && q(x))
    ensures CountIf(s, both) == CountIf(s, p) + CountIf(s, q)
  {
    if s != [] {
      assert s[|s| - 1] in s;
      assert forall x :: x in s[..|s| - 1] ==> x in s;
      CountSum(s[..|s| - 1], p, q, both);
    }
  }

  lemma {:induction false} LeadersPlusFollowers(tablets: seq<Tablet>, id: NodeID)
    ensures LeadersOn(tablets, id) + FollowersOn(tablets, id) == TotalOn(tablets, id)
  {
    if tablets != [] {
      var t := tablets[|tablets| - 1];
      LeadersPlusFollowers(tablets[..|tablets| - 1], id);
      CountSum(VotingPeers(t), LeadsOn(t, id), FollowsOn(t, id), OnNode(id));
    }
  }

  lemma {:induction false} RowsMembers(snap: Snapshot, order: seq<NodeID>)
    ensures forall r :: r in RowsOf(snap, order) ==> r.nodeID in order && r == StatsOf(snap, r.nodeID)
    ensures forall id :: id in order ==> StatsOf(snap, id) in RowsOf(snap, order)
  {
    if order != [] {
      var n := |order| - 1;
      assert order == order[..n] + [order[n]];
      RowsMembers(snap, order[..n]);
    }
  }

  /** The rows of a summary are the nodes of the row order, each with its own counts. */
  lemma SummaryRows(snap: Snapshot, rows: seq<NodeTabletStats>)
    requires IsRows(snap, rows)
    ensures forall r :: r in rows ==> r.nodeID in RowOrder(snap) && r == WithStorage(snap, StatsOf(snap, r.nodeID))
  {
    var order := RowOrder(snap);
    var plain :| IsPlainRows(snap, plain, rows);
    RowsMembers(snap, order);
    forall r | r in rows ensures r.nodeID in order && r == WithStorage(snap, StatsOf(snap, r.nodeID)) {
      var i :| 0 <= i < |rows| && rows[i] == r;
      assert plain[i] in multiset(plain);
      assert plain[i] in RowsOf(snap, order);
    }
  }

  lemma SummaryHasRow(snap: Snapshot, rows: seq<NodeTabletStats>, id: NodeID)
    requires IsRows(snap, rows) && id in RowOrder(snap)
    ensures WithStorage(snap, StatsOf(snap, id)) in rows
  {
    var plain :| IsPlainRows(snap, plain, rows);
    RowsMembers(snap, RowOrder(snap));
    assert StatsOf(snap, id) in multiset(RowsOf(snap, RowOrder(snap)));
    assert StatsOf(snap, id) in plain;
    var i :| 0 <= i < |plain| && plain[i] == StatsOf(snap, id);
    assert rows[i] in rows;
  }

  lemma ServerHasRow(snap: Snapshot, rows: seq<NodeTabletStats>, ts: TServer)
    requires IsRows(snap, rows) && ts in snap.tservers
    ensures exists r :: r in rows && r.nodeID == ts.id
  {
    var i :| 0 <= i < |snap.tservers| && snap.tservers[i] == ts;
    ListedIDsAre(snap.tservers);
    AppendTabletsCovers(ListedIDs(snap.tservers), snap.tablets);
    assert RowOrder(snap)[i] == ts.id;
    SummaryHasRow(snap, rows, ts.id);
  }

  /** In every row of a summary, leaders and followers add up to the total. */
  lemma RowsAddUp(snap: Snapshot, rows: seq<NodeTabletStats>)
    requires IsRows(snap, rows)
    ensures forall r :: r in rows ==> r.leaders + r.followers == r.total
  {
    SummaryRows(snap, rows);
    forall r | r in rows ensures r.leaders + r.followers == r.total {
      LeadersPlusFollowers(snap.tablets, r.nodeID);
    }
  }

  // ----- the rows count every voting peer once

  function OnNodes(ids: seq<NodeID>): TabletPeer -> bool {
    (p: TabletPeer) => p.tserverID in ids
  }

  function VoterCount(tablets: seq<Tablet>): nat {
    if tablets == [] then 0 else VoterCount(tablets[..|tablets| - 1]) + ReplicaCount(tablets[|tablets| - 1])
  }

  function TotalOver(tablets: seq<Tablet>, ids: seq<NodeID>): nat {
    if ids == [] then 0 else TotalOver(tablets, ids[..|ids| - 1]) + TotalOn(tablets, ids[|ids| - 1])
  }

  function VotersOn(tablets: seq<Tablet>, ids: seq<NodeID>): nat {
    if tablets == [] then 0
    else VotersOn(tablets[..|tablets| - 1], ids) + CountIf(VotingPeers(tablets[|tablets| - 1]), OnNodes(ids))
  }

  lemma {:induction false} VotersOnNone(tablets: seq<Tablet>)
    ensures VotersOn(tablets, []) == 0
  {
    if tablets != [] {
      VotersOnNone(tablets[..|tablets| - 1]);
      CountZero(VotingPeers(tablets[|tablets| - 1]), OnNodes([]));
    }
  }

  lemma {:induction false} VotersOnOneMore(tablets: seq<Tablet>, ids: seq<NodeID>, id: NodeID)
    requires id !in ids
    ensures VotersOn(tablets, ids + [id]) == VotersOn(tablets, ids) + TotalOn(tablets, id)
  {
    if tablets != [] {
      VotersOnOneMore(tablets[..|tablets| - 1], ids, id);
      CountSum(VotingPeers(tablets[|tablets| - 1]), OnNodes(ids), OnNode(id), OnNodes(ids + [id]));
    }
  }

  lemma {:induction false} TotalOverIsVotersOn(tablets: seq<Tablet>, ids: seq<NodeID>)
    requires Distinct(ids)
    ensures TotalOver(tablets, ids) == VotersOn(tablets, ids)
  {
    if ids == [] {
      VotersOnNone(tablets);
    } else {
      var n := |ids| - 1;
      assert ids == ids[..n] + [ids[n]];
      TotalOverIsVotersOn(tablets, ids[..n]);
      VotersOnOneMore(tablets, ids[..n], ids[n]);
    }
  }

  lemma {:induction false} AllVotersOn(tablets: seq<Tablet>, ids: seq<NodeID>)
    requires forall t, p :: t in tablets && p in VotingPeers(t) ==> p.tserverID in ids
    ensures VotersOn(tablets, ids) == VoterCount(tablets)
  {
    if tablets != [] {
      var t := tablets[|tablets| - 1];
      assert t in tablets;
      assert forall x :: x in tablets[..|tablets| - 1] ==> x in tablets;
      AllVotersOn(tablets[..|tablets| - 1], ids);
      FilterKeepsAll(VotingPeers(t), OnNodes(ids));
    }
  }

  lemma {:induction false} AppendNewCovers(order: seq<NodeID>, peers: seq<TabletPeer>)
    ensures order <= AppendNew(order, peers)
    ensures Distinct(order) ==> Distinct(AppendNew(order, peers))
    ensures forall p :: p in peers ==> p.tserverID in AppendNew(order, peers)
    ensures forall id :: id in AppendNew(order, peers) ==> id in order || exists p :: p in peers && p.tserverID == id
  {
    if peers != [] {
      var n := |peers| - 1;
      assert peers == peers[..n] + [peers[n]];
      AppendNewCovers(order, peers[..n]);
      assert peers[n] in peers;
    }
  }

  lemma {:induction false} AppendTabletsCovers(order: seq<NodeID>, tablets: seq<Tablet>)
    ensures order <= AppendTablets(order, tablets)
    ensures Distinct(order) ==> Distinct(AppendTablets(order, tablets))
    ensures forall t, p :: t in tablets && p in VotingPeers(t) ==> p.tserverID in AppendTablets(order, tablets)
    ensures (forall t, p :: t in tablets && p in VotingPeers(t) ==> p.tserverID in order) ==>
            AppendTablets(order, tablets) == order
  {
    if tablets != [] {
      var n := |tablets| - 1;
      assert tablets == tablets[..n] + [tablets[n]];
      var before := AppendTablets(order, tablets[..n]);
      AppendTabletsCovers(order, tablets[..n]);
      AppendNewCovers(before, VotingPeers(tablets[n]));
      assert tablets[n] in tablets;
      forall t, p | t in tablets && p in VotingPeers(t) ensures p.tserverID in AppendTablets(order, tablets) {
        if t in tablets[..n] {
          assert p.tserverID in before;
        }
      }
      if forall t, p :: t in tablets && p in VotingPeers(t) ==> p.tserverID in order {
        NothingNew(before, VotingPeers(tablets[n]));
      }
    }
  }

  lemma {:induction false} NothingNew(order: seq<NodeID>, peers: seq<TabletPeer>)
    requires forall p :: p in peers ==> p.tserverID in order
    ensures AppendNew(order, peers) == order
  {
    if peers != [] {
      var n := |peers| - 1;
      assert peers[n] in peers;
      assert forall p :: p in peers[..n] ==> p in peers;
      NothingNew(order, peers[..n]);
    }
  }

  lemma {:induction false} ListedIDsAre(tservers: seq<TServer>)
    ensures |ListedIDs(tservers)| == |tservers|
    ensures forall i :: 0 <= i < |tservers| ==> ListedIDs(tservers)[i] == tservers[i].id
  {
    if tservers != [] {
      ListedIDsAre(tservers[..|tservers| - 1]);
    }
  }

  lemma RowOrderDistinct(snap: Snapshot)
    requires DistinctIDs(snap.tservers)
    ensures Distinct(RowOrder(snap))
    ensures forall ts :: ts in snap.tservers ==> ts.id in RowOrder(snap)
  {
    ListedIDsAre(snap.tservers);
    AppendTabletsCovers(ListedIDs(snap.tservers), snap.tablets);
    forall ts | ts in snap.tservers ensures ts.id in RowOrder(snap) {
      var i :| 0 <= i < |snap.tservers| && snap.tservers[i] == ts;
      assert RowOrder(snap)[i] == ListedIDs(snap.tservers)[i];
    }
  }

  function RowTotals(rows: seq<NodeTabletStats>): nat {
    if rows == [] then 0 else RowTotals(rows[..|rows| - 1]) + rows[|rows| - 1].total
  }

  lemma {:induction false} RowTotalsConcat(a: seq<NodeTabletStats>, b: seq<NodeTabletStats>)
    ensures RowTotals(a + b) == RowTotals(a) + RowTotals(b)
  {
    if b == [] {
      assert a + b == a;
    } else {
      RowTotalsConcat(a, b[..|b| - 1]);
      assert (a + b)[..|a + b| - 1] == a + b[..|b| - 1];
    }
  }

  lemma {:induction false} RowTotalsPermutation(a: seq<NodeTabletStats>, b: seq<NodeTabletStats>)
    requires multiset(a) == multiset(b)
    ensures RowTotals(a) == RowTotals(b)
  {
    assert |multiset(a)| == |a| && |multiset(b)| == |b|;
    if a != [] {
      var n := |a| - 1;
      var x := a[n];
      assert a == a[..n] + [x];
      assert x in multiset(b);
      var i :| 0 <= i < |b| && b[i] == x;
      var rest := b[..i] + b[i + 1..];
      assert b == b[..i] + [x] + b[i + 1..];
      assert multiset(a[..n]) == multiset(a) - multiset{x};
      assert multiset(rest) == multiset(b) - multiset{x};
      RowTotalsPermutation(a[..n], rest);
      RowTotalsConcat(b[..i], b[i + 1..]);
      RowTotalsConcat(b[..i] + [x], b[i + 1..]);
    }
  }

  lemma {:induction false} RowTotalsOf(snap: Snapshot, order: seq<NodeID>)
    ensures RowTotals(RowsOf(snap, order)) == TotalOver(snap.tablets, order)
  {
    if order != [] {
      RowTotalsOf(snap, order[..|order| - 1]);
    }
  }

  lemma {:induction false} StorageKeepsTotals(snap: Snapshot, a: seq<NodeTabletStats>, b: seq<NodeTabletStats>)
    requires |a| == |b| && forall i :: 0 <= i < |a| ==> b[i] == WithStorage(snap, a[i])
    ensures RowTotals(a) == RowTotals(b)
  {
    if a != [] {
      StorageKeepsTotals(snap, a[..|a| - 1], b[..|b| - 1]);
    }
  }

  /** With distinct ids the totals of the rows, sorted as they are, add up to the voting
      peers of all tablets, peers on unlisted servers included. */
  lemma TotalsCountEveryVoter(snap: Snapshot, rows: seq<NodeTabletStats>)
    requires IsRows(snap, rows) && DistinctIDs(snap.tservers)
    ensures RowTotals(rows) == VoterCount(snap.tablets)
  {
    var order := RowOrder(snap);
    var plain :| IsPlainRows(snap, plain, rows);
    StorageKeepsTotals(snap, plain, rows);
    RowTotalsPermutation(plain, RowsOf(snap, order));
    RowTotalsOf(snap, order);
    RowOrderDistinct(snap);
    TotalOverIsVotersOn(snap.tablets, order);
    AppendTabletsCovers(ListedIDs(snap.tservers), snap.tablets);
    AllVotersOn(snap.tablets, order);
  }

  ghost predicate AllPeersListed(snap: Snapshot) {
    forall t, p :: t in snap.tablets && p in VotingPeers(t) ==> p.tserverID in ListedIDs(snap.tservers)
  }

  /** If every voting peer is on a listed server, the summary has a row per TServer and
      no row outside the list. */
  lemma NoForeignRows(snap: Snapshot, rows: seq<NodeTabletStats>)
    requires IsRows(snap, rows) && AllPeersListed(snap)
    ensures |rows| == |snap.tservers|
    ensures forall r :: r in rows ==> Listed(snap.tservers, r.nodeID)
  {
    AppendTabletsCovers(ListedIDs(snap.tservers), snap.tablets);
    ListedIDsAre(snap.tservers);
    SummaryRows(snap, rows);
    forall r | r in rows ensures Listed(snap.tservers, r.nodeID) {
      var i :| 0 <= i < |snap.tservers| && ListedIDs(snap.tservers)[i] == r.nodeID;
      assert snap.tservers[i] in snap.tservers;
    }
  }

  // ----- named extremes

  function CountOf(snap: Snapshot, id: NodeID, leaders: bool): nat {
    if leaders then LeadersOn(snap.tablets, id) else TotalOn(snap.tablets, id)
  }

  lemma {:induction false} AliveCountsMembers(snap: Snapshot, order: seq<NodeID>, leaders: bool)
    ensures forall id :: id in order && AliveID(snap, id) ==>
            CountOf(snap, id, leaders) in AliveCounts(snap, order, leaders)
    ensures forall v :: v in AliveCounts(snap, order, leaders) ==>
              exists id :: id in order && AliveID(snap, id) && v == CountOf(snap, id, leaders)
  {
    if order != [] {
      var n := |order| - 1;
      assert order == order[..n] + [order[n]];
      AliveCountsMembers(snap, order[..n], leaders);
    }
  }

  /** With distinct ids every alive TServer's count is among the alive counts. */
  lemma AliveCountsHold(snap: Snapshot, leaders: bool, i: nat)
    requires DistinctIDs(snap.tservers) && i < |snap.tservers| && snap.tservers[i].Alive()
    ensures var stats, values := StatsMapOf(snap), AliveCounts(snap, RowOrder(snap), leaders);
            Eligible(snap.tservers, stats, i) && CountAt(snap.tservers, stats, leaders, i) in values
  {
    RowOrderDistinct(snap);
    AliveCountsMembers(snap, RowOrder(snap), leaders);
    FindDistinct(snap.tservers, i);
    assert snap.tservers[i] in snap.tservers;
  }

  /** And there are no other alive counts. */
  lemma AliveCountsOnly(snap: Snapshot, leaders: bool, v: int)
    requires DistinctIDs(snap.tservers) && v in AliveCounts(snap, RowOrder(snap), leaders)
    ensures exists i ::
              Eligible(snap.tservers, StatsMapOf(snap), i) && CountAt(snap.tservers, StatsMapOf(snap), leaders, i) == v
  {
    var stats, order := StatsMapOf(snap), RowOrder(snap);
    RowOrderDistinct(snap);
    AliveCountsMembers(snap, order, leaders);
    var id :| id in order && AliveID(snap, id) && v == CountOf(snap, id, leaders);
    var ts := FindTServer(snap.tservers, id).value;
    var i :| 0 <= i < |snap.tservers| && snap.tservers[i] == ts;
    assert Eligible(snap.tservers, stats, i) && CountAt(snap.tservers, stats, leaders, i) == v;
  }

  /** Position h of the list is the first alive node with the most leaders (or tablets), c
      the first with the fewest, and ratio is the exact quotient of the two counts, one if
      nobody has any and infinite if only the fewest are none. */
  ghost predicate Realises(snap: Snapshot, leaders: bool, h: int, c: int, ratio: Ratio) {
    && 0 <= h < |snap.tservers| && 0 <= c < |snap.tservers|
    && snap.tservers[h].Alive() && snap.tservers[c].Alive()
    && (forall ts :: ts in snap.tservers && ts.Alive() ==>
          CountOf(snap, snap.tservers[c].id, leaders) <= CountOf(snap, ts.id, leaders)
          <= CountOf(snap, snap.tservers[h].id, leaders))
    && (forall k :: 0 <= k < h && snap.tservers[k].Alive() ==>
          CountOf(snap, snap.tservers[k].id, leaders) < CountOf(snap, snap.tservers[h].id, leaders))
    && (forall k :: 0 <= k < c && snap.tservers[k].Alive() ==>
          CountOf(snap, snap.tservers[c].id, leaders) < CountOf(snap, snap.tservers[k].id, leaders))
    && IsQuotient(ratio, CountOf(snap, snap.tservers[h].id, leaders), CountOf(snap, snap.tservers[c].id, leaders))
  }

  predicate IsQuotient(ratio: Ratio, most: int, least: int) {
    if least > 0 then ratio == Finite(most as real / least as real)
    else if most == 0 then ratio == Finite(1.0)
    else ratio == Infinite
  }

  /** With distinct ids and an alive node, the names and the ratio the analysis gives, for
      leaders or for tablets, are those of alive nodes with the most and the fewest and the
      exact quotient of their counts. */
  lemma ExtremesRealiseRatio(snap: Snapshot, leaders: bool, ratio: Ratio, hot: string, cold: string)
    returns (h: int, c: int)
    requires DistinctIDs(snap.tservers) && exists ts :: ts in snap.tservers && ts.Alive()
    requires IsExtremes(snap.tservers, StatsMapOf(snap), leaders, hot, cold)
    requires ratio == RatioOf(AliveCounts(snap, RowOrder(snap), leaders))
    ensures Realises(snap, leaders, h, c, ratio)
    ensures hot == NodeName(snap.tservers, snap.tservers[h].id)
    ensures cold == NodeName(snap.tservers, snap.tservers[c].id)
  {
    var stats, values := StatsMapOf(snap), AliveCounts(snap, RowOrder(snap), leaders);
    var ts0 :| ts0 in snap.tservers && ts0.Alive();
    var k :| 0 <= k < |snap.tservers| && snap.tservers[k] == ts0;
    AliveCountsHold(snap, leaders, k);
    h, c := ExtremeIndices(snap.tservers, stats, leaders, hot, cold, k);
    SameExtremes(snap, leaders, h, c, MaxIndex(values), MinIndex(values));
    CountAtIs(snap, leaders, h);
    CountAtIs(snap, leaders, c);
    ExtremesAreRealised(snap, leaders, ratio, h, c);
  }

  lemma CountAtIs(snap: Snapshot, leaders: bool, i: int)
    requires Eligible(snap.tservers, StatsMapOf(snap), i)
    ensures CountAt(snap.tservers, StatsMapOf(snap), leaders, i) == CountOf(snap, snap.tservers[i].id, leaders)
  {
  }

  lemma ExtremeIndices(tservers: seq<TServer>, stats: StatsMap, leaders: bool, hot: string, cold: string, k: int)
    returns (h: int, c: int)
    requires IsExtremes(tservers, stats, leaders, hot, cold) && Eligible(tservers, stats, k)
    ensures Hottest(tservers, stats, leaders, h) && hot == stats[tservers[h].id].name
    ensures Coldest(tservers, stats, leaders, c) && cold == stats[tservers[c].id].name
  {
    h :| Hottest(tservers, stats, leaders, h) && hot == stats[tservers[h].id].name;
    c :| Coldest(tservers, stats, leaders, c) && cold == stats[tservers[c].id].name;
  }

  lemma ExtremesAreRealised(snap: Snapshot, leaders: bool, ratio: Ratio, h: int, c: int)
    requires DistinctIDs(snap.tservers)
    requires Hottest(snap.tservers, StatsMapOf(snap), leaders, h)
    requires Coldest(snap.tservers, StatsMapOf(snap), leaders, c)
    requires var nodes := snap.tservers;
             ratio == QuotientOf(CountOf(snap, nodes[h].id, leaders), CountOf(snap, nodes[c].id, leaders))
    ensures Realises(snap, leaders, h, c, ratio)
  {
    ExtremesBound(snap, leaders, h, c);
    ExtremesAreFirst(snap, leaders, h, c);
    assert snap.tservers[h] in snap.tservers;
  }

  lemma ExtremesAreFirst(snap: Snapshot, leaders: bool, h: int, c: int)
    requires DistinctIDs(snap.tservers)
    requires Hottest(snap.tservers, StatsMapOf(snap), leaders, h)
    requires Coldest(snap.tservers, StatsMapOf(snap), leaders, c)
    ensures forall k :: 0 <= k < h && snap.tservers[k].Alive() ==>
              CountOf(snap, snap.tservers[k].id, leaders) < CountOf(snap, snap.tservers[h].id, leaders)
    ensures forall k :: 0 <= k < c && snap.tservers[k].Alive() ==>
              CountOf(snap, snap.tservers[c].id, leaders) < CountOf(snap, snap.tservers[k].id, leaders)
  {
    RowOrderDistinct(snap);
    CountAtIs(snap, leaders, h);
    CountAtIs(snap, leaders, c);
    forall k | 0 <= k < |snap.tservers| && snap.tservers[k].Alive()
      ensures k < h ==> CountOf(snap, snap.tservers[k].id, leaders) < CountOf(snap, snap.tservers[h].id, leaders)
      ensures k < c ==> CountOf(snap, snap.tservers[c].id, leaders) < CountOf(snap, snap.tservers[k].id, leaders)
    {
      assert snap.tservers[k] in snap.tservers;
      assert Eligible(snap.tservers, StatsMapOf(snap), k);
      CountAtIs(snap, leaders, k);
    }
  }

  lemma ExtremesBound(snap: Snapshot, leaders: bool, h: int, c: int)
    requires DistinctIDs(snap.tservers)
    requires Hottest(snap.tservers, StatsMapOf(snap), leaders, h)
    requires Coldest(snap.tservers, StatsMapOf(snap), leaders, c)
    ensures forall ts :: ts in snap.tservers && ts.Alive() ==>
              CountOf(snap, snap.tservers[c].id, leaders) <= CountOf(snap, ts.id, leaders)
              <= CountOf(snap, snap.tservers[h].id, leaders)
  {
    RowOrderDistinct(snap);
    CountAtIs(snap, leaders, h);
    CountAtIs(snap, leaders, c);
    forall ts | ts in snap.tservers && ts.Alive()
      ensures CountOf(snap, snap.tservers[c].id, leaders) <= CountOf(snap, ts.id, leaders)
              <= CountOf(snap, snap.tservers[h].id, leaders)
    {
      var m :| 0 <= m < |snap.tservers| && snap.tservers[m] == ts;
      assert Eligible(snap.tservers, StatsMapOf(snap), m);
      CountAtIs(snap, leaders, m);
    }
  }

  /** The first maximum and minimum of the alive counts are those of the extreme nodes. */
  lemma SameExtremes(snap: Snapshot, leaders: bool, h: int, c: int, i: int, j: int)
    requires DistinctIDs(snap.tservers)
    requires Hottest(snap.tservers, StatsMapOf(snap), leaders, h)
    requires Coldest(snap.tservers, StatsMapOf(snap), leaders, c)
    requires FirstMaximum(AliveCounts(snap, RowOrder(snap), leaders), i)
    requires FirstMinimum(AliveCounts(snap, RowOrder(snap), leaders), j)
    ensures AliveCounts(snap, RowOrder(snap), leaders)[i] == CountAt(snap.tservers, StatsMapOf(snap), leaders, h)
    ensures AliveCounts(snap, RowOrder(snap), leaders)[j] == CountAt(snap.tservers, StatsMapOf(snap), leaders, c)
  {
    var values := AliveCounts(snap, RowOrder(snap), leaders);
    AliveCountsHold(snap, leaders, h);
    AliveCountsHold(snap, leaders, c);
    AliveCountsOnly(snap, leaders, values[i]);
    AliveCountsOnly(snap, leaders, values[j]);
  }

  lemma ExtremesUnique(tservers: seq<TServer>, perNode: StatsMap, leaders: bool, hot: string, cold: string,
                       hot': string, cold': string)
    requires IsExtremes(tservers, perNode, leaders, hot, cold) && IsExtremes(tservers, perNode, leaders, hot', cold')
    ensures hot == hot' && cold == cold'
  {
    if exists k :: Eligible(tservers, perNode, k) {
      var h :| Hottest(tservers, perNode, leaders, h) && hot == perNode[tservers[h].id].name;
      var h' :| Hottest(tservers, perNode, leaders, h') && hot' == perNode[tservers[h'].id].name;
      assert h == h';
      var c :| Coldest(tservers, perNode, leaders, c) && cold == perNode[tservers[c].id].name;
      var c' :| Coldest(tservers, perNode, leaders, c') && cold' == perNode[tservers[c'].id].name;
      assert c == c';
    }
  }

  /** Two statistics maps that agree on names and counts. */
  ghost predicate SameStats(a: StatsMap, b: StatsMap) {
    && (forall id :: id in a <==> id in b)
    && (forall id :: id in a ==>
        a[id].name == b[id].name && a[id].leaders == b[id].leaders && a[id].total == b[id].total)
  }

  lemma ExtremesCarryOver(tservers: seq<TServer>, a: StatsMap, b: StatsMap, leaders: bool, hot: string, cold: string)
    requires SameStats(a, b) && IsExtremes(tservers, a, leaders, hot, cold)
    ensures IsExtremes(tservers, b, leaders, hot, cold)
  {
    assert forall k :: Eligible(tservers, a, k) <==> Eligible(tservers, b, k);
    assert forall k :: Eligible(tservers, a, k) ==>
        CountAt(tservers, a, leaders, k) == CountAt(tservers, b, leaders, k);
    if exists k :: Eligible(tservers, a, k) {
      var h :| Hottest(tservers, a, leaders, h) && hot == a[tservers[h].id].name;
      assert Hottest(tservers, b, leaders, h);
      var c :| Coldest(tservers, a, leaders, c) && cold == a[tservers[c].id].name;
      assert Coldest(tservers, b, leaders, c);
    }
  }

  // ----- hot tablets

  /** n times x, by repeated addition. */
  function Times(n: nat, x: real): real {
    if n == 0 then 0.0 else Times(n - 1, x) + x
  }

  lemma {:induction false} TimesIsProduct(n: nat, x: real)
    ensures Times(n, x) == n as real * x
  {
    if n > 0 {
      TimesIsProduct(n - 1, x);
      OneMoreTime((n - 1) as real, x);
      assert n as real == (n - 1) as real + 1.0;
    }
  }

  lemma OneMoreTime(k: real, x: real)
    ensures (k + 1.0) * x == k * x + x
  {
  }

  lemma {:induction false} HotOpsBound(tablets: seq<Tablet>, bound: real)
    requires forall t :: t in tablets ==> t.Ops() >= 0.0
    ensures Times(CountIf(tablets, IsHot(bound)), bound) <= SumOps(tablets)
  {
    if tablets != [] {
      var n := |tablets| - 1;
      assert tablets[n] in tablets;
      assert forall t :: t in tablets[..n] ==> t in tablets;
      HotOpsBound(tablets[..n], bound);
    }
  }

  /** hot is at most a ratio-th of total. */
  predicate AtMostShare(hot: nat, ratio: real, total: nat) {
    hot as real * ratio <= total as real
  }

  /** Markov's inequality over the loop: with non-negative rates the hot tablets, each at
      least ratio times the average, are at most a ratio-th of all tablets. */
  lemma HotTabletsAreFew(tablets: seq<Tablet>, ratio: real)
    requires forall t :: t in tablets ==> t.Ops() >= 0.0
    ensures AtMostShare(HotTabletCount(tablets, ratio), ratio, |tablets|)
  {
    var avg, n := AverageOps(tablets), |tablets| as real;
    if avg > 0.0 {
      var bound := HotBound(tablets, ratio);
      HotOpsBound(tablets, bound);
      TimesIsProduct(HotTabletCount(tablets, ratio), bound);
      AverageTimesCount(tablets);
      ShareBound(HotTabletCount(tablets, ratio) as real, avg, ratio, n, SumOps(tablets));
    }
  }

  lemma AverageTimesCount(tablets: seq<Tablet>)
    requires tablets != []
    ensures AverageOps(tablets) * |tablets| as real == SumOps(tablets)
  {
  }

  lemma ShareBound(h: real, avg: real, ratio: real, n: real, sum: real)
    requires avg > 0.0 && h * (avg * ratio) <= sum == avg * n
    ensures h * ratio <= n
  {
    Reassociate(h, avg, ratio);
    ScaleDown(avg, h * ratio, n);
  }

  lemma Reassociate(h: real, a: real, r: real)
    ensures h * (a * r) == a * (h * r)
  {
  }

  lemma ScaleDown(a: real, x: real, y: real)
    requires a > 0.0 && a * x <= a * y
    ensures x <= y
  {
    assert a * (y - x) == a * y - a * x;
    NegativeProduct(a, y - x);
  }

  lemma NegativeProduct(a: real, d: real)
    requires a > 0.0
    ensures d < 0.0 ==> a * d < 0.0
  {
  }
}
