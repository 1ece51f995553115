/** What the rows and verdicts of a tablet summary say about the snapshot, in the terms of an
    operator: servers, tablets and peers, not the functions the summary is computed with. */
module TabletsMeaning {
  import opened Counting
  import opened Strings
  import opened Domain
  import opened Config
  import opened Raft
  import opened Tablets
  import opened TabletsTheorems

  // ----- when a spread of counts is a warning

  /** x is positive and at least bound times y. */
  predicate Outweighs(x: int, y: int, bound: real) {
    x > 0 && x as real >= bound * y as real
  }

  lemma QuotientReaches(x: int, y: int, bound: real)
    requires y > 0
    ensures x as real / y as real >= bound <==> x as real >= bound * y as real
  {
    var q := x as real / y as real;
    assert q * y as real == x as real;
    Scaled(q, bound, y as real);
  }

  lemma Scaled(p: real, q: real, k: real)
    requires k > 0.0
    ensures p >= q <==> p * k >= q * k
  {
    assert (p - q) * k == p * k - q * k;
  }

  /** The extremes decide for all values. */
  lemma ExtremesOutweigh(most: int, least: int, x: int, y: int, bound: real)
    requires 0 <= least <= y && x <= most && bound > 0.0
    requires Outweighs(x, y, bound)
    ensures Outweighs(most, least, bound)
  {
    assert bound * (y - least) as real >= 0.0;
    assert bound * (y - least) as real == bound * y as real - bound * least as real;
  }

  lemma RatioReaches(ratio: Ratio, most: int, least: int, bound: real)
    requires 0 <= least <= most && ratio == QuotientOf(most, least) && bound > 1.0
    ensures ratio.AtLeast(bound) <==> Outweighs(most, least, bound)
  {
    if least > 0 {
      QuotientReaches(most, least, bound);
    }
  }

  lemma RatioAtLeastOne(ratio: Ratio, most: int, least: int)
    requires 0 <= least <= most && ratio == QuotientOf(most, least)
    ensures ratio.AtLeast(1.0)
  {
    if least > 0 {
      QuotientReaches(most, least, 1.0);
    }
  }

  lemma OutweighsItself(x: int, bound: real)
    requires bound > 1.0
    ensures !Outweighs(x, x, bound)
  {
    if x > 0 {
      assert (bound - 1.0) * x as real > 0.0;
      assert (bound - 1.0) * x as real == bound * x as real - x as real;
    }
  }

  /** The ratio of some values reaches a bound above one exactly if one of them outweighs
      another that many times; it always reaches a bound of at most one. */
  lemma SpreadReaches(values: seq<int>, bound: real)
    requires forall v :: v in values ==> v >= 0
    ensures bound > 1.0 ==>
              (RatioOf(values).AtLeast(bound) <==> exists x, y :: x in values && y in values && Outweighs(x, y, bound))
    ensures bound <= 1.0 ==> RatioOf(values).AtLeast(bound)
  {
    if values != [] {
      var most, least := values[MaxIndex(values)], values[MinIndex(values)];
      assert most in values && least in values;
      RatioAtLeastOne(RatioOf(values), most, least);
      if bound > 1.0 {
        RatioReaches(RatioOf(values), most, least, bound);
        if x, y :| x in values && y in values && Outweighs(x, y, bound) {
          ExtremesOutweigh(most, least, x, y, bound);
        }
      }
    }
  }

  lemma OutweighingTakesTwo(values: seq<int>, x: int, y: int, bound: real)
    requires x in values && y in values && bound > 1.0 && Outweighs(x, y, bound)
    ensures |values| > 1
  {
    OutweighsItself(x, bound);
  }

  // ----- the two balance verdicts

  predicate IsUp(ts: TServer) {
    ts.status == Up
  }

  function UpServer(): TServer -> bool {
    (ts: TServer) => ts.status == Up
  }

  function AliveAt(snap: Snapshot): NodeID -> bool {
    (id: NodeID) => AliveID(snap, id)
  }

  lemma {:induction false} AliveCountsAre(snap: Snapshot, order: seq<NodeID>, leaders: bool)
    ensures |AliveCounts(snap, order, leaders)| == CountIf(order, AliveAt(snap))
    ensures forall v :: v in AliveCounts(snap, order, leaders) ==> v >= 0
  {
    if order != [] {
      AliveCountsAre(snap, order[..|order| - 1], leaders);
    }
  }

  lemma {:induction false} ListedUp(snap: Snapshot, n: nat)
    requires DistinctIDs(snap.tservers) && n <= |snap.tservers|
    ensures CountIf(ListedIDs(snap.tservers[..n]), AliveAt(snap)) == CountIf(snap.tservers[..n], UpServer())
  {
    if n > 0 {
      ListedUp(snap, n - 1);
      assert snap.tservers[..n][..n - 1] == snap.tservers[..n - 1];
      FindDistinct(snap.tservers, n - 1);
      var ids := ListedIDs(snap.tservers[..n - 1]);
      assert (ids + [snap.tservers[n - 1].id])[..|ids|] == ids;
    }
  }

  /** With distinct ids there is one count per server that is up. */
  lemma OneCountPerUpServer(snap: Snapshot, leaders: bool)
    requires DistinctIDs(snap.tservers)
    ensures |AliveCounts(snap, RowOrder(snap), leaders)| == CountIf(snap.tservers, UpServer())
  {
    var listed, order := ListedIDs(snap.tservers), RowOrder(snap);
    AliveCountsAre(snap, order, leaders);
    AppendTabletsCovers(listed, snap.tablets);
    var more := order[|listed|..];
    assert order == listed + more;
    CountConcat(listed, more, AliveAt(snap));
    NobodyElse(snap, listed, more);
    ListedUp(snap, |snap.tservers|);
    assert snap.tservers[..|snap.tservers|] == snap.tservers;
  }

  lemma PartsDiffer(a: seq<string>, b: seq<string>, i: nat, k: nat)
    requires Distinct(a + b) && i < |a| && k < |b|
    ensures a[i] != b[k]
  {
    assert (a + b)[i] == a[i] && (a + b)[|a| + k] == b[k];
  }

  lemma NobodyElse(snap: Snapshot, listed: seq<NodeID>, more: seq<NodeID>)
    requires DistinctIDs(snap.tservers) && listed == ListedIDs(snap.tservers) && RowOrder(snap) == listed + more
    ensures CountIf(more, AliveAt(snap)) == 0
  {
    RowOrderDistinct(snap);
    ListedIDsAre(snap.tservers);
    forall id | id in more ensures !AliveAt(snap)(id) {
      var k :| 0 <= k < |more| && more[k] == id;
      forall i | 0 <= i < |listed| ensures listed[i] != id {
        PartsDiffer(listed, more, i, k);
      }
    }
    CountZero(more, AliveAt(snap));
  }

  /** Some server that is up outweighs another, in leaders or in tablets. */
  ghost predicate SomeOutweighs(snap: Snapshot, leaders: bool, bound: real) {
    exists a, b :: a in snap.tservers && b in snap.tservers && IsUp(a) && IsUp(b)
                   && Outweighs(CountOf(snap, a.id, leaders), CountOf(snap, b.id, leaders), bound)
  }

  lemma CountsOfServers(snap: Snapshot, leaders: bool, bound: real)
    requires DistinctIDs(snap.tservers)
    ensures var values := AliveCounts(snap, RowOrder(snap), leaders);
            SomeOutweighs(snap, leaders, bound) <==>
            exists x, y :: x in values && y in values && Outweighs(x, y, bound)
  {
    var values := AliveCounts(snap, RowOrder(snap), leaders);
    if SomeOutweighs(snap, leaders, bound) {
      var a, b :| a in snap.tservers && b in snap.tservers && IsUp(a) && IsUp(b)
                  && Outweighs(CountOf(snap, a.id, leaders), CountOf(snap, b.id, leaders), bound);
      UpServerCounts(snap, leaders, a);
      UpServerCounts(snap, leaders, b);
    }
    if x, y :| x in values && y in values && Outweighs(x, y, bound) {
      var a := CountedServer(snap, leaders, x);
      var b := CountedServer(snap, leaders, y);
      assert Outweighs(CountOf(snap, a.id, leaders), CountOf(snap, b.id, leaders), bound);
    }
  }

  lemma UpServerCounts(snap: Snapshot, leaders: bool, ts: TServer)
    requires DistinctIDs(snap.tservers) && ts in snap.tservers && IsUp(ts)
    ensures CountOf(snap, ts.id, leaders) in AliveCounts(snap, RowOrder(snap), leaders)
  {
    var i :| 0 <= i < |snap.tservers| && snap.tservers[i] == ts;
    AliveCountsHold(snap, leaders, i);
    CountAtIs(snap, leaders, i);
  }

  lemma CountedServer(snap: Snapshot, leaders: bool, v: int) returns (ts: TServer)
    requires DistinctIDs(snap.tservers) && v in AliveCounts(snap, RowOrder(snap), leaders)
    ensures ts in snap.tservers && IsUp(ts) && CountOf(snap, ts.id, leaders) == v
  {
    AliveCountsOnly(snap, leaders, v);
    var i :| Eligible(snap.tservers, StatsMapOf(snap), i) && CountAt(snap.tservers, StatsMapOf(snap), leaders, i) == v;
    CountAtIs(snap, leaders, i);
    ts := snap.tservers[i];
  }

  lemma BalanceVerdict(snap: Snapshot, leaders: bool, bound: real, status: CheckStatus)
    requires DistinctIDs(snap.tservers)
    requires var values := AliveCounts(snap, RowOrder(snap), leaders);
             status == Imbalance(RatioOf(values), bound, |values|)
    ensures status == Warn || status == Pass
    ensures bound > 1.0 ==> (status == Warn <==> SomeOutweighs(snap, leaders, bound))
    ensures bound <= 1.0 ==> (status == Warn <==> CountIf(snap.tservers, UpServer()) >= 2)
  {
    var values := AliveCounts(snap, RowOrder(snap), leaders);
    AliveCountsAre(snap, RowOrder(snap), leaders);
    OneCountPerUpServer(snap, leaders);
    SpreadReaches(values, bound);
    CountsOfServers(snap, leaders, bound);
    if bound > 1.0 {
      if x, y :| x in values && y in values && Outweighs(x, y, bound) {
        OutweighingTakesTwo(values, x, y, bound);
      }
    }
  }

  /** With distinct ids and bounds above one, leaders (tablets) are reported unbalanced
      exactly if some server that is up leads (holds) at least bound times what another one
      does, and leads (holds) something; at a bound of one, exactly if two servers are up. */
  lemma ImbalanceMeans(snap: Snapshot, th: Thresholds, sum: TabletSummary)
    requires IsSummary(snap, th, sum) && DistinctIDs(snap.tservers)
    ensures th.leaderImbalanceRatio > 1.0 ==>
              (sum.leaderImbalance == Warn <==> SomeOutweighs(snap, true, th.leaderImbalanceRatio))
    ensures th.tabletImbalanceRatio > 1.0 ==>
              (sum.tabletImbalance == Warn <==> SomeOutweighs(snap, false, th.tabletImbalanceRatio))
    ensures th.leaderImbalanceRatio <= 1.0 ==>
              (sum.leaderImbalance == Warn <==> CountIf(snap.tservers, UpServer()) >= 2)
    ensures th.tabletImbalanceRatio <= 1.0 ==>
              (sum.tabletImbalance == Warn <==> CountIf(snap.tservers, UpServer()) >= 2)
    ensures sum.leaderImbalance == Warn || sum.leaderImbalance == Pass
    ensures sum.tabletImbalance == Warn || sum.tabletImbalance == Pass
  {
    BalanceVerdict(snap, true, th.leaderImbalanceRatio, sum.leaderImbalance);
    BalanceVerdict(snap, false, th.tabletImbalanceRatio, sum.tabletImbalance);
  }

  // ----- the SST verdict

  /** The SST bytes the server reports under its display name. */
  function BytesOf(snap: Snapshot, ts: TServer): int {
    var nodes := snap.performance.nodes;
    if ts.DisplayName() in nodes then nodes[ts.DisplayName()].sstFileBytes else 0
  }

  lemma {:induction false} AliveNamesAre(tservers: seq<TServer>, name: string)
    ensures name in AliveNames(tservers) <==> exists ts :: ts in tservers && IsUp(ts) && ts.DisplayName() == name
  {
    if tservers != [] {
      var n := |tservers| - 1;
      assert tservers == tservers[..n] + [tservers[n]];
      AliveNamesAre(tservers[..n], name);
    }
  }

  /** Some server that is up has at least bound times the bytes of another, and some. */
  ghost predicate SomeOutweighsInBytes(snap: Snapshot, bound: real) {
    exists a, b :: a in snap.tservers && b in snap.tservers && IsUp(a) && IsUp(b)
                   && Outweighs(BytesOf(snap, a), BytesOf(snap, b), bound)
  }

  ghost predicate SomeHaveMoreBytes(snap: Snapshot) {
    exists a, b :: a in snap.tservers && b in snap.tservers && IsUp(a) && IsUp(b)
                   && BytesOf(snap, a) > BytesOf(snap, b)
  }

  /** Servers that are up have display names, and no negative number of bytes. */
  ghost predicate ProperBytes(snap: Snapshot) {
    forall ts :: ts in snap.tservers && IsUp(ts) ==> ts.DisplayName() != "" && BytesOf(snap, ts) >= 0
  }

  lemma UpServerBytes(snap: Snapshot, ts: TServer)
    requires ts in snap.tservers && IsUp(ts)
    ensures BytesOf(snap, ts) in SSTValues(snap, AliveNames(snap.tservers))
  {
    AliveNamesAre(snap.tservers, ts.DisplayName());
    var names := AliveNames(snap.tservers);
    var i :| 0 <= i < |names| && names[i] == ts.DisplayName();
    assert SSTValues(snap, names)[i] == BytesOf(snap, ts);
  }

  lemma CountedBytes(snap: Snapshot, i: nat) returns (ts: TServer)
    requires i < |AliveNames(snap.tservers)|
    ensures ts in snap.tservers && IsUp(ts) && ts.DisplayName() == AliveNames(snap.tservers)[i]
    ensures BytesOf(snap, ts) == SSTValues(snap, AliveNames(snap.tservers))[i]
  {
    var name := AliveNames(snap.tservers)[i];
    assert name in AliveNames(snap.tservers);
    AliveNamesAre(snap.tservers, name);
    ts :| ts in snap.tservers && IsUp(ts) && ts.DisplayName() == name;
  }

  lemma BytesOutweigh(snap: Snapshot, bound: real)
    ensures var values := SSTValues(snap, AliveNames(snap.tservers));
            SomeOutweighsInBytes(snap, bound) <==>
            exists x, y :: x in values && y in values && Outweighs(x, y, bound)
  {
    var values := SSTValues(snap, AliveNames(snap.tservers));
    if a, b :| a in snap.tservers && b in snap.tservers && IsUp(a) && IsUp(b)
               && Outweighs(BytesOf(snap, a), BytesOf(snap, b), bound) {
      UpServerBytes(snap, a);
      UpServerBytes(snap, b);
    }
    if x, y :| x in values && y in values && Outweighs(x, y, bound) {
      var i :| 0 <= i < |values| && values[i] == x;
      var j :| 0 <= j < |values| && values[j] == y;
      var a := CountedBytes(snap, i);
      var b := CountedBytes(snap, j);
      assert Outweighs(BytesOf(snap, a), BytesOf(snap, b), bound);
    }
  }

  lemma ExtremesDiffer(values: seq<int>)
    requires values != []
    ensures MaxIndex(values) != MinIndex(values) ==> values[MaxIndex(values)] > values[MinIndex(values)]
  {
    var most, least := MaxIndex(values), MinIndex(values);
    if values[most] <= values[least] {
      assert values[least] <= values[0] <= values[most];
      assert most == 0;
      assert least == 0;
    }
  }

  lemma BytesDiffer(snap: Snapshot)
    requires AliveNames(snap.tservers) != []
    ensures var names := AliveNames(snap.tservers);
            var values := SSTValues(snap, names);
            SomeHaveMoreBytes(snap) <==> names[MaxIndex(values)] != names[MinIndex(values)]
  {
    var names := AliveNames(snap.tservers);
    var values := SSTValues(snap, names);
    var i, j := MaxIndex(values), MinIndex(values);
    if names[i] != names[j] {
      var a := CountedBytes(snap, i);
      var b := CountedBytes(snap, j);
      ExtremesDiffer(values);
      assert BytesOf(snap, a) > BytesOf(snap, b);
    }
    if a, b :| a in snap.tservers && b in snap.tservers && IsUp(a) && IsUp(b) && BytesOf(snap, a) > BytesOf(snap, b) {
      UpServerBytes(snap, a);
      UpServerBytes(snap, b);
      assert values[i] > values[j];
    }
  }

  /** SST files are reported unbalanced exactly if, at a bound above one, some server that is
      up has at least bound times the bytes of another and has some, and, at a bound of one,
      exactly if some have more than others. */
  lemma SSTImbalanceMeans(snap: Snapshot, th: Thresholds, sum: TabletSummary)
    requires IsSummary(snap, th, sum) && ProperBytes(snap)
    ensures th.sstImbalanceRatio > 1.0 ==>
              (sum.sstImbalance == Warn <==> SomeOutweighsInBytes(snap, th.sstImbalanceRatio))
    ensures th.sstImbalanceRatio <= 1.0 ==> (sum.sstImbalance == Warn <==> SomeHaveMoreBytes(snap))
    ensures sum.sstImbalance == Warn || sum.sstImbalance == Pass
  {
    SSTVerdict(snap, th.sstImbalanceRatio, sum.sstRatio, sum.sstHottestNode, sum.sstColdestNode);
  }

  lemma SSTVerdict(snap: Snapshot, bound: real, ratio: Ratio, hot: string, cold: string)
    requires Skew(ratio, hot, cold) == SkewOf(snap) && ProperBytes(snap)
    ensures bound > 1.0 ==>
              (ratio.AtLeast(bound) && hot != cold && hot != "" <==> SomeOutweighsInBytes(snap, bound))
    ensures bound <= 1.0 ==> (ratio.AtLeast(bound) && hot != cold && hot != "" <==> SomeHaveMoreBytes(snap))
  {
    if |AliveNames(snap.tservers)| < 2 {
      FewServers(snap, bound);
    } else {
      SkewNames(snap, bound);
      if bound > 1.0 && SomeOutweighsInBytes(snap, bound) {
        OutweighingIsMore(snap, bound);
      }
    }
  }

  lemma SkewNames(snap: Snapshot, bound: real)
    requires |AliveNames(snap.tservers)| >= 2 && ProperBytes(snap)
    ensures SkewOf(snap).hot != ""
    ensures SomeHaveMoreBytes(snap) <==> SkewOf(snap).hot != SkewOf(snap).cold
    ensures bound > 1.0 ==> (SkewOf(snap).ratio.AtLeast(bound) <==> SomeOutweighsInBytes(snap, bound))
    ensures bound <= 1.0 ==> SkewOf(snap).ratio.AtLeast(bound)
  {
    var names := AliveNames(snap.tservers);
    var values := SSTValues(snap, names);
    NamesProper(snap);
    assert names[MaxIndex(values)] in names;
    BytesDiffer(snap);
    ValuesNonNegative(snap);
    SpreadReaches(values, bound);
    BytesOutweigh(snap, bound);
  }

  lemma OutweighingIsMore(snap: Snapshot, bound: real)
    requires bound > 1.0 && SomeOutweighsInBytes(snap, bound) && ProperBytes(snap)
    ensures SomeHaveMoreBytes(snap)
  {
    var a, b :| a in snap.tservers && b in snap.tservers && IsUp(a) && IsUp(b)
                && Outweighs(BytesOf(snap, a), BytesOf(snap, b), bound);
    if BytesOf(snap, a) <= BytesOf(snap, b) {
      ExtremesOutweigh(BytesOf(snap, b), BytesOf(snap, b), BytesOf(snap, a), BytesOf(snap, b), bound);
      OutweighsItself(BytesOf(snap, b), bound);
    }
  }

  lemma FewServers(snap: Snapshot, bound: real)
    requires |AliveNames(snap.tservers)| < 2
    ensures !SomeHaveMoreBytes(snap) && (bound > 1.0 ==> !SomeOutweighsInBytes(snap, bound))
  {
    forall a, b | a in snap.tservers && b in snap.tservers && IsUp(a) && IsUp(b)
      ensures BytesOf(snap, a) == BytesOf(snap, b)
      ensures bound > 1.0 ==> !Outweighs(BytesOf(snap, a), BytesOf(snap, b), bound)
    {
      AliveNamesAre(snap.tservers, a.DisplayName());
      AliveNamesAre(snap.tservers, b.DisplayName());
      if bound > 1.0 {
        OutweighsItself(BytesOf(snap, a), bound);
      }
    }
  }

  lemma ValuesNonNegative(snap: Snapshot)
    requires ProperBytes(snap)
    ensures forall v :: v in SSTValues(snap, AliveNames(snap.tservers)) ==> v >= 0
  {
    var values := SSTValues(snap, AliveNames(snap.tservers));
    forall v | v in values ensures v >= 0 {
      var i :| 0 <= i < |values| && values[i] == v;
      var ts := CountedBytes(snap, i);
    }
  }

  lemma NamesProper(snap: Snapshot)
    requires ProperBytes(snap)
    ensures forall name :: name in AliveNames(snap.tservers) ==> name != ""
  {
    forall name | name in AliveNames(snap.tservers) ensures name != "" {
      AliveNamesAre(snap.tservers, name);
    }
  }

  /** With at least two servers up, the SST extremes are named after servers that are up with
      the most and the fewest bytes, and the ratio is the exact quotient. */
  lemma SkewRealises(snap: Snapshot) returns (a: TServer, b: TServer)
    requires |AliveNames(snap.tservers)| >= 2
    ensures a in snap.tservers && IsUp(a) && b in snap.tservers && IsUp(b)
    ensures forall ts :: ts in snap.tservers && IsUp(ts) ==> BytesOf(snap, b) <= BytesOf(snap, ts) <= BytesOf(snap, a)
    ensures SkewOf(snap).hot == a.DisplayName() && SkewOf(snap).cold == b.DisplayName()
    ensures IsQuotient(SkewOf(snap).ratio, BytesOf(snap, a), BytesOf(snap, b))
  {
    var values := SSTValues(snap, AliveNames(snap.tservers));
    a := CountedBytes(snap, MaxIndex(values));
    b := CountedBytes(snap, MinIndex(values));
    forall ts | ts in snap.tservers && IsUp(ts) ensures BytesOf(snap, b) <= BytesOf(snap, ts) <= BytesOf(snap, a) {
      UpServerBytes(snap, ts);
    }
  }

  // ----- the rows

  /** The tablet has a voter on the server that leads: by its role, or as the tablet's leader
      id. */
  predicate LedFrom(t: Tablet, id: NodeID) {
    exists p :: p in t.peers && p.tserverID == id && p.state != Tombstoned
                && (p.role == Leader || (t.leaderID == id && id != ""))
  }

  function Led(id: NodeID): Tablet -> bool {
    (t: Tablet) => LedFrom(t, id)
  }

  predicate Apart(peers: seq<TabletPeer>) {
    forall i, j :: 0 <= i < j < |peers| ==> peers[i].tserverID != peers[j].tserverID
  }

  /** No tablet has two peers on one server. */
  predicate PeersApart(tablets: seq<Tablet>) {
    forall t :: t in tablets ==> Apart(t.peers)
  }

  lemma {:induction false} AtMostOneLeads(voters: seq<TabletPeer>, t: Tablet, id: NodeID)
    requires Apart(voters)
    ensures CountIf(voters, LeadsOn(t, id)) <= 1
  {
    if voters != [] {
      var n := |voters| - 1;
      AtMostOneLeads(voters[..n], t, id);
      if voters[n].tserverID == id {
        forall p | p in voters[..n] ensures !LeadsOn(t, id)(p) {
          var i :| 0 <= i < n && voters[i] == p;
        }
        CountZero(voters[..n], LeadsOn(t, id));
      }
    }
  }

  lemma {:induction false} VotersApart(peers: seq<TabletPeer>)
    requires Apart(peers)
    ensures Apart(Filter(peers, IsVoting()))
  {
    if peers != [] {
      var n := |peers| - 1;
      var before := Filter(peers[..n], IsVoting());
      VotersApart(peers[..n]);
      assert Filter(peers, IsVoting()) == if IsVoting()(peers[n]) then before + [peers[n]] else before;
      forall i | 0 <= i < |before| ensures before[i].tserverID != peers[n].tserverID {
        assert before[i] in before && before[i] in peers[..n];
        var k :| 0 <= k < n && peers[..n][k] == before[i];
      }
    }
  }

  lemma OneTabletLed(t: Tablet, id: NodeID)
    requires PeersApart([t])
    ensures CountIf(VotingPeers(t), LeadsOn(t, id)) == if LedFrom(t, id) then 1 else 0
  {
    assert t in [t];
    VotersApart(t.peers);
    AtMostOneLeads(VotingPeers(t), t, id);
    CountZero(VotingPeers(t), LeadsOn(t, id));
    if LedFrom(t, id) {
      var p :| p in t.peers && p.tserverID == id && p.state != Tombstoned
               && (p.role == Leader || (t.leaderID == id && id != ""));
      assert IsVoting()(p) && p in VotingPeers(t) && LeadsOn(t, id)(p);
    }
  }

  /** With at most one peer of a tablet per server, the leader count of a row is the number
      of tablets its server leads. */
  lemma {:induction false} LeadersAreTabletsLed(tablets: seq<Tablet>, id: NodeID)
    requires PeersApart(tablets)
    ensures LeadersOn(tablets, id) == CountIf(tablets, Led(id))
  {
    if tablets != [] {
      var n := |tablets| - 1;
      assert tablets[n] in tablets;
      LeadersAreTabletsLed(tablets[..n], id);
      OneTabletLed(tablets[n], id);
    }
  }

  /** Rows come sorted by name; with distinct ids a listed server's row bears its name, or
      its host if it has none, and any other row bears its id; and each row has the storage
      figures reported under its name, or none. */
  lemma RowsMean(snap: Snapshot, rows: seq<NodeTabletStats>)
    requires IsRows(snap, rows) && DistinctIDs(snap.tservers)
    ensures forall i, j :: 0 <= i < j < |rows| ==> AtMost(rows[i].name, rows[j].name)
    ensures forall r, ts :: r in rows && ts in snap.tservers && ts.id == r.nodeID ==>
              r.name == if ts.name != "" then ts.name else ts.host
    ensures forall r :: r in rows && !Listed(snap.tservers, r.nodeID) ==> r.name == r.nodeID
    ensures forall r :: r in rows ==> StorageIsReported(snap, r)
  {
    RowsSorted(snap, rows);
    SummaryRows(snap, rows);
    forall r, ts | r in rows && ts in snap.tservers && ts.id == r.nodeID
      ensures r.name == if ts.name != "" then ts.name else ts.host
    {
      NameOfListed(snap.tservers, ts);
    }
    forall r | r in rows && !Listed(snap.tservers, r.nodeID) ensures r.name == r.nodeID {
      UnlistedIsNone(snap.tservers, r.nodeID);
      NameOfUnlisted(snap.tservers, r.nodeID);
    }
  }

  predicate StorageIsReported(snap: Snapshot, r: NodeTabletStats) {
    var nodes := snap.performance.nodes;
    if r.name in nodes
    then r.sstBytes == nodes[r.name].sstFileBytes && r.pendingCompactionBytes == nodes[r.name].pendingCompactionBytes
    else r.sstBytes == 0 && r.pendingCompactionBytes == 0
  }

  lemma RowsSorted(snap: Snapshot, rows: seq<NodeTabletStats>)
    requires IsRows(snap, rows)
    ensures forall i, j :: 0 <= i < j < |rows| ==> AtMost(rows[i].name, rows[j].name)
  {
    var plain: seq<NodeTabletStats> :| IsPlainRows(snap, plain, rows);
    forall i, j | 0 <= i < j < |rows| ensures AtMost(rows[i].name, rows[j].name) {
      assert ByName()(plain[i], plain[j]);
    }
  }

  lemma UnlistedIsNone(tservers: seq<TServer>, id: NodeID)
    requires !Listed(tservers, id)
    ensures id !in ListedIDs(tservers)
  {
    ListedIDsAre(tservers);
    forall i | 0 <= i < |tservers| ensures ListedIDs(tservers)[i] != id {
      assert tservers[i] in tservers;
    }
  }

  lemma {:induction false} NameOfListed(tservers: seq<TServer>, ts: TServer)
    requires DistinctIDs(tservers) && ts in tservers
    ensures NodeName(tservers, ts.id) == ts.DisplayName()
  {
    var n := |tservers| - 1;
    assert tservers == tservers[..n] + [tservers[n]];
    var i :| 0 <= i <= n && tservers[i] == ts;
    if i < n {
      NameOfListed(tservers[..n], ts);
    }
  }

  // ----- hot tablets

  /** The tablets whose rate is at least ratio times the average, all rates taken together. */
  function HotAt(tablets: seq<Tablet>, ratio: real): set<int> {
    set i | 0 <= i < |tablets|
            && (tablets[i].readOps + tablets[i].writeOps) * |tablets| as real >= ratio * SumOps(tablets)
  }

  lemma AverageMeans(rate: real, sum: real, n: real, ratio: real)
    requires n > 0.0
    ensures sum / n > 0.0 <==> sum > 0.0
    ensures rate >= sum / n * ratio <==> rate * n >= ratio * sum
  {
    var avg := sum / n;
    assert avg * n == sum;
    assert (avg * ratio) * n == ratio * sum;
    assert (rate - avg * ratio) * n == rate * n - ratio * sum;
  }

  lemma HotTabletsMean(tablets: seq<Tablet>, ratio: real)
    ensures HotTabletCount(tablets, ratio) == if SumOps(tablets) > 0.0 then |HotAt(tablets, ratio)| else 0
  {
    if tablets != [] {
      var n, sum := |tablets| as real, SumOps(tablets);
      AverageMeans(0.0, sum, n, ratio);
      forall i | 0 <= i < |tablets|
        ensures i in HotAt(tablets, ratio) <==> IsHot(HotBound(tablets, ratio))(tablets[i])
      {
        AverageMeans(tablets[i].readOps + tablets[i].writeOps, sum, n, ratio);
      }
      CountIsSize(tablets, IsHot(HotBound(tablets, ratio)), HotAt(tablets, ratio));
    }
  }

  // ----- replication counts

  /** Where the voters of the tablet stand in its list of peers. */
  function VotersAt(t: Tablet): set<int> {
    set j | 0 <= j < |t.peers| && t.peers[j].state != Tombstoned
  }

  lemma {:induction false} FilterLength<T>(s: seq<T>, p: T -> bool)
    ensures |Filter(s, p)| == CountIf(s, p)
  {
    if s != [] {
      FilterLength(s[..|s| - 1], p);
    }
  }

  lemma VotersCounted(t: Tablet)
    ensures ReplicaCount(t) == |VotersAt(t)|
  {
    FilterLength(t.peers, IsVoting());
    CountIsSize(t.peers, IsVoting(), VotersAt(t));
  }

  /** The tablets that have voters, but fewer than the replication factor. */
  function ShortAt(snap: Snapshot): set<int> {
    set i | 0 <= i < |snap.tablets| && 0 < |VotersAt(snap.tablets[i])| < snap.replicationFactor
  }

  ghost predicate NamesLeader(t: Tablet) {
    t.leaderID != "" || exists p :: p in t.peers && p.state != Tombstoned && p.role == Leader
  }

  /** The tablets that have voters, but no leader. */
  ghost function UnledAt(snap: Snapshot): set<int> {
    set i | 0 <= i < |snap.tablets| && VotersAt(snap.tablets[i]) != {} && !NamesLeader(snap.tablets[i])
  }

  /** A collected list of ids decides alone; without one the tablets are counted; and both
      summaries say the same. */
  lemma ReplicationCountsMean(snap: Snapshot, th: Thresholds, sum: TabletSummary)
    requires IsSummary(snap, th, sum)
    ensures sum.underReplicated == RaftOf(snap, th).underReplicated ==
            if snap.underReplicatedIDs != [] then |snap.underReplicatedIDs| else |ShortAt(snap)|
    ensures sum.leaderless == RaftOf(snap, th).leaderless ==
            if snap.leaderlessIDs != [] then |snap.leaderlessIDs| else |UnledAt(snap)|
    ensures sum.total == |snap.tablets|
  {
    forall t ensures ReplicaCount(t) == |VotersAt(t)| {
      VotersCounted(t);
    }
    forall t ensures HasLeader(t) <==> NamesLeader(t) {
      assert forall p :: p in VotingPeers(t) <==> p in t.peers && p.state != Tombstoned;
    }
    CountIsSize(snap.tablets, IsUnderReplicated(snap.replicationFactor), ShortAt(snap));
    CountIsSize(snap.tablets, IsLeaderless(), UnledAt(snap));
  }

  /** Where in which tablet the peers that have failed or are tombstoned stand. */
  function FailedAt(tablets: seq<Tablet>): set<(int, int)> {
    set i, j | 0 <= i < |tablets| && 0 <= j < |tablets[i].peers|
               && (tablets[i].peers[j].state == Failed || tablets[i].peers[j].state == Tombstoned) :: (i, j)
  }

  /** And the followers whose lag reaches the threshold, if there is one. */
  function SlowAt(tablets: seq<Tablet>, lag: int): set<(int, int)> {
    set i, j | 0 <= i < |tablets| && 0 <= j < |tablets[i].peers|
               && tablets[i].peers[j].role == Follower && 0 < lag <= tablets[i].peers[j].lag :: (i, j)
  }

  lemma PeerCountsMean(snap: Snapshot, th: Thresholds)
    ensures RaftOf(snap, th).failedPeers == |FailedAt(snap.tablets)|
    ensures RaftOf(snap, th).slowFollowers == |SlowAt(snap.tablets, th.slowFollowerLag)|
  {
    PeersCounted(snap.tablets, IsFailed());
    PeersCounted(snap.tablets, IsSlow(th.slowFollowerLag));
    assert FailedAt(snap.tablets) == PeersAt(snap.tablets, IsFailed());
    assert SlowAt(snap.tablets, th.slowFollowerLag) == PeersAt(snap.tablets, IsSlow(th.slowFollowerLag));
  }

  function PeersIn(peers: seq<TabletPeer>, i: int, p: TabletPeer -> bool): set<(int, int)> {
    set j | 0 <= j < |peers| && p(peers[j]) :: (i, j)
  }

  function PeersAt(tablets: seq<Tablet>, p: TabletPeer -> bool): set<(int, int)> {
    set i, j | 0 <= i < |tablets| && 0 <= j < |tablets[i].peers| && p(tablets[i].peers[j]) :: (i, j)
  }

  lemma {:induction false} PeersInCounted(peers: seq<TabletPeer>, i: int, p: TabletPeer -> bool)
    ensures CountIf(peers, p) == |PeersIn(peers, i, p)|
  {
    if peers == [] {
      assert PeersIn(peers, i, p) == {};
    } else {
      var n := |peers| - 1;
      PeersInCounted(peers[..n], i, p);
      assert forall j :: 0 <= j < n ==> peers[..n][j] == peers[j];
      assert PeersIn(peers, i, p) == PeersIn(peers[..n], i, p) + if p(peers[n]) then {(i, n)} else {};
    }
  }

  lemma {:induction false} PeersCounted(tablets: seq<Tablet>, p: TabletPeer -> bool)
    ensures PeerCount(tablets, p) == |PeersAt(tablets, p)|
  {
    if tablets == [] {
      assert PeersAt(tablets, p) == {};
    } else {
      var n := |tablets| - 1;
      PeersCounted(tablets[..n], p);
      PeersInCounted(tablets[n].peers, n, p);
      var before, last := PeersAt(tablets[..n], p), PeersIn(tablets[n].peers, n, p);
      assert forall i :: 0 <= i < n ==> tablets[..n][i] == tablets[i];
      assert PeersAt(tablets, p) == before + last;
      assert before !! last;
    }
  }
}
