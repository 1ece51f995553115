/** The snapshot every diagnosis reads, and the domain helpers over it.
    Identifiers are strings; a lag is a number of nanoseconds; rates are reals. */
module Domain {
  import opened Counting

  type NodeID = string
  type TabletID = string
  type FindingCode = string

  datatype Option<+T> = None | Some(value: T)

  datatype ReplicaRole = Leader | Follower | UnknownRole

  datatype PeerState = Failed | Tombstoned | OtherState(text: string)

  datatype NodeStatus = Up | Down | OtherStatus(text: string)

  datatype CheckStatus = Pass | Fail | Warn

  datatype Severity = High | Medium | Low

  /** A finding; its title, summary and evidence are text and are not modelled. */
  datatype Finding = Finding(severity: Severity, code: FindingCode, node: string)

  const LEADER_IMBALANCE: FindingCode := "leader-imbalance"
  const TABLET_IMBALANCE: FindingCode := "tablet-imbalance"
  const UNDER_REPLICATED: FindingCode := "under-replicated"
  const LEADERLESS: FindingCode := "leaderless-tablets"
  const SLOW_FOLLOWERS: FindingCode := "slow-followers"
  const COMPACTION_PRESSURE: FindingCode := "compaction-pressure"
  const SST_IMBALANCE: FindingCode := "sst-imbalance"
  const HOT_TABLETS: FindingCode := "hot-tablets"
  const DEAD_TSERVER: FindingCode := "dead-tserver"
  const MASTER_QUORUM: FindingCode := "master-quorum"
  const DISK_PRESSURE: FindingCode := "disk-pressure"
  const SINGLE_REGION: FindingCode := "single-region"
  const P99_LATENCY: FindingCode := "p99-latency"

  datatype Placement = Placement(cloud: string, region: string, zone: string) {
    /** cloud.region.zone, for grouping by availability zone. */
    function Key(): string {
      if cloud == "" && region == "" && zone == "" then "unspecified"
      else cloud + ("." + (region + ("." + zone)))
    }

    /** cloud.region, for grouping by region. */
    function RegionKey(): string {
      if cloud == "" && region == "" then "unspecified"
      else cloud + ("." + region)
    }

    /** Neither the cloud nor the region name contains the key separator. */
    predicate DotFree() {
      '.' !in cloud && '.' !in region
    }
  }

  datatype Master = Master(id: NodeID, healthy: bool)

  datatype TServer = TServer(id: NodeID, name: string, host: string, status: NodeStatus, placement: Placement) {
    predicate Alive() {
      status == Up
    }

    function DisplayName(): string {
      if name != "" then name else host
    }
  }

  datatype TabletPeer = TabletPeer(tserverID: NodeID, role: ReplicaRole, state: PeerState, lag: int)

  datatype Tablet = Tablet(id: TabletID, leaderID: NodeID, peers: seq<TabletPeer>, readOps: real, writeOps: real) {
    function Ops(): real {
      readOps + writeOps
    }
  }

  datatype NodeRuntime = NodeRuntime(diskPercent: real, pendingCompactionBytes: int, sstFileBytes: int)

  datatype Performance = Performance(p99YSQLMS: real, nodes: map<string, NodeRuntime>)

  datatype Snapshot = Snapshot(
    replicationFactor: int,
    masters: seq<Master>,
    tservers: seq<TServer>,
    tablets: seq<Tablet>,
    underReplicatedIDs: seq<TabletID>,
    leaderlessIDs: seq<TabletID>,
    performance: Performance)

  // ----- tablets

  function IsVoting(): TabletPeer -> bool {
    (p: TabletPeer) => p.state != Tombstoned
  }

  /** The peers that still count toward Raft quorum. */
  function VotingPeers(t: Tablet): seq<TabletPeer> {
    Filter(t.peers, IsVoting())
  }

  function ReplicaCount(t: Tablet): nat {
    |VotingPeers(t)|
  }

  /** How many peers of all the tablets satisfy p. */
  function PeerCount(tablets: seq<Tablet>, p: TabletPeer -> bool): nat {
    if tablets == [] then 0
    else PeerCount(tablets[..|tablets| - 1], p) + CountIf(tablets[|tablets| - 1].peers, p)
  }

  predicate HasLeader(t: Tablet) {
    t.leaderID != "" || exists p :: p in VotingPeers(t) && p.role == Leader
  }

  method CollectVotingPeers(t: Tablet) returns (out: seq<TabletPeer>)
    ensures out == VotingPeers(t)
  {
    out := [];
    for i := 0 to |t.peers|
      invariant out == Filter(t.peers[..i], IsVoting())
    {
      FilterStep(t.peers, IsVoting(), i);
      if t.peers[i].state != Tombstoned {
        out := out + [t.peers[i]];
      }
    }
    assert t.peers[..|t.peers|] == t.peers;
  }

  method CheckLeader(t: Tablet) returns (found: bool)
    ensures found == HasLeader(t)
  {
    if t.leaderID != "" {
      return true;
    }
    var peers := CollectVotingPeers(t);
    for i := 0 to |peers|
      invariant forall j :: 0 <= j < i ==> peers[j].role != Leader
    {
      if peers[i].role == Leader {
        assert peers[i] in VotingPeers(t);
        return true;
      }
    }
    return false;
  }

  // ----- servers

  /** The first listed TServer with the given id. */
  function FindTServer(tservers: seq<TServer>, id: NodeID): (r: Option<TServer>)
    ensures r.Some? ==> r.value in tservers && r.value.id == id
    ensures r.None? <==> forall ts :: ts in tservers ==> ts.id != id
  {
    if tservers == [] then None
    else if tservers[0].id == id then Some(tservers[0])
    else
      assert tservers == [tservers[0]] + tservers[1..];
      FindTServer(tservers[1..], id)
  }

  method TServerByID(snap: Snapshot, id: NodeID) returns (r: Option<TServer>)
    ensures r == FindTServer(snap.tservers, id)
  {
    for i := 0 to |snap.tservers|
      invariant FindTServer(snap.tservers, id) == FindTServer(snap.tservers[i..], id)
    {
      assert snap.tservers[i..][1..] == snap.tservers[i + 1..];
      if snap.tservers[i].id == id {
        return Some(snap.tservers[i]);
      }
    }
    return None;
  }

  predicate DistinctIDs(tservers: seq<TServer>) {
    forall i, j :: 0 <= i < j < |tservers| ==> tservers[i].id != tservers[j].id
  }

  lemma {:induction false} FindDistinct(tservers: seq<TServer>, i: nat)
    requires DistinctIDs(tservers) && i < |tservers|
    ensures FindTServer(tservers, tservers[i].id) == Some(tservers[i])
  {
    if i > 0 {
      FindDistinct(tservers[1..], i - 1);
    }
  }

  predicate Listed(tservers: seq<TServer>, id: NodeID) {
    exists ts :: ts in tservers && ts.id == id
  }

  function QuorumSize(replicationFactor: int): int {
    if replicationFactor < 1 then 1 else replicationFactor / 2 + 1
  }

  function IsHealthy(): Master -> bool {
    (m: Master) => m.healthy
  }

  function IsAlive(): TServer -> bool {
    (ts: TServer) => ts.Alive()
  }

  method HealthyMasters(snap: Snapshot) returns (healthy: nat, total: nat)
    ensures healthy == CountIf(snap.masters, IsHealthy()) && total == |snap.masters|
  {
    total := |snap.masters|;
    healthy := 0;
    for i := 0 to |snap.masters|
      invariant healthy == CountIf(snap.masters[..i], IsHealthy())
    {
      CountStep(snap.masters, IsHealthy(), i);
      if snap.masters[i].healthy {
        healthy := healthy + 1;
      }
    }
    assert snap.masters[..|snap.masters|] == snap.masters;
  }

  method HealthyTServers(snap: Snapshot) returns (healthy: nat, total: nat)
    ensures healthy == CountIf(snap.tservers, IsAlive()) && total == |snap.tservers|
  {
    total := |snap.tservers|;
    healthy := 0;
    for i := 0 to |snap.tservers|
      invariant healthy == CountIf(snap.tservers[..i], IsAlive())
    {
      CountStep(snap.tservers, IsAlive(), i);
      if snap.tservers[i].Alive() {
        healthy := healthy + 1;
      }
    }
    assert snap.tservers[..|snap.tservers|] == snap.tservers;
  }

  // ----- placement keys

  /** What precedes the first separator, and what follows it, can be read back. */
  lemma SplitAtDot(a: string, x: string, b: string, y: string)
    requires '.' !in a && '.' !in b
    requires a + ("." + x) == b + ("." + y)
    ensures a == b && x == y
  {
    var s, t := a + ("." + x), b + ("." + y);
    assert s[|a|] == '.' && t[|b|] == '.';
    assert forall i :: 0 <= i < |a| ==> s[i] == a[i] && s[i] != '.';
    assert forall i :: 0 <= i < |b| ==> t[i] == b[i] && t[i] != '.';
    assert a == s[..|a|] && b == t[..|b|];
    assert x == s[|a| + 1..] && y == t[|b| + 1..];
  }

  lemma UnspecifiedHasNoDot()
    ensures '.' !in "unspecified"
  {
  }

  lemma KeyHasDot(p: Placement)
    requires p.Key() != "unspecified" || p.cloud != "" || p.region != "" || p.zone != ""
    ensures '.' in p.Key()
  {
    assert p.Key()[|p.cloud|] == '.';
  }

  /** On dot-free names the zone key identifies the placement. */
  lemma KeyIdentifiesPlacement(p: Placement, q: Placement)
    requires p.DotFree() && q.DotFree()
    ensures p.Key() == q.Key() <==> p == q
  {
    if p.Key() == q.Key() {
      UnspecifiedHasNoDot();
      if p.cloud == "" && p.region == "" && p.zone == "" {
        if q != p { KeyHasDot(q); }
      } else {
        KeyHasDot(p);
        SplitAtDot(p.cloud, p.region + ("." + p.zone), q.cloud, q.region + ("." + q.zone));
        SplitAtDot(p.region, p.zone, q.region, q.zone);
      }
    }
  }

  /** On dot-free names the region key identifies the cloud and the region. */
  lemma RegionKeyIdentifiesRegion(p: Placement, q: Placement)
    requires p.DotFree() && q.DotFree()
    ensures p.RegionKey() == q.RegionKey() <==> p.cloud == q.cloud && p.region == q.region
  {
    if p.RegionKey() == q.RegionKey() {
      UnspecifiedHasNoDot();
      if p.cloud != "" || p.region != "" { assert p.RegionKey()[|p.cloud|] == '.'; }
      if q.cloud != "" || q.region != "" { assert q.RegionKey()[|q.cloud|] == '.'; }
      if p.cloud != "" || p.region != "" {
        SplitAtDot(p.cloud, p.region, q.cloud, q.region);
      }
    }
  }

  /** Without that condition one zone key can span two region keys. */
  lemma DottedNamesCanShareAZone()
    ensures exists p: Placement, q: Placement :: p.Key() == q.Key() && p.RegionKey() != q.RegionKey()
  {
    var p, q := Placement("a.b", "c", "d"), Placement("a", "b", "c.d");
    assert p.Key() == "a.b.c.d" == q.Key();
    assert p.RegionKey() == "a.b.c" && q.RegionKey() == "a.b";
    assert |p.RegionKey()| == 5 && |q.RegionKey()| == 3;
  }

  function IsDot(): char -> bool {
    (c: char) => c == '.'
  }

  lemma DotsOfJoin(a: string, b: string)
    ensures CountIf(a + ("." + b), IsDot()) == CountIf(a, IsDot()) + 1 + CountIf(b, IsDot())
  {
    CountConcat(a, "." + b, IsDot());
    CountConcat(".", b, IsDot());
    assert "."[..0] == [];
  }

  lemma DotFreeIff(s: string)
    ensures '.' !in s <==> CountIf(s, IsDot()) == 0
  {
    CountZero(s, IsDot());
  }

  /** A zone key has two dots more than its parts, unless it is "unspecified". */
  lemma DotsOfKey(p: Placement)
    requires p != Placement("", "", "")
    ensures CountIf(p.Key(), IsDot()) ==
            2 + CountIf(p.cloud, IsDot()) + CountIf(p.region, IsDot()) + CountIf(p.zone, IsDot())
  {
    DotsOfJoin(p.cloud, p.region + ("." + p.zone));
    DotsOfJoin(p.region, p.zone);
  }

  lemma SplitAtSomeDot(s: string) returns (u: string, v: string)
    requires '.' in s
    ensures s == u + ("." + v)
  {
    var i :| 0 <= i < |s| && s[i] == '.';
    u, v := s[..i], s[i + 1..];
  }

  /** A dotted part can be cut at its dot and the key read as another placement's, of
      another region. */
  lemma DottedPlacementClashes(p: Placement) returns (q: Placement)
    requires '.' in p.cloud || '.' in p.region || '.' in p.zone
    ensures q.Key() == p.Key() && q.RegionKey() != p.RegionKey()
  {
    if '.' in p.cloud {
      var x, y := SplitAtSomeDot(p.cloud);
      q := Placement(x, y, p.region + ("." + p.zone));
      assert p.Key() == q.Key();
      RegionKeyShape(p);
      RegionKeyShape(q);
    } else if '.' in p.region {
      var x, y := SplitAtSomeDot(p.region);
      q := Placement(p.cloud, x, y + ("." + p.zone));
      assert p.Key() == q.Key();
      RegionKeyShape(p);
      RegionKeyShape(q);
    } else {
      var x, y := SplitAtSomeDot(p.zone);
      q := Placement(p.cloud + ("." + p.region), x, y);
      assert p.Key() == q.Key();
      RegionKeyShape(p);
      RegionKeyShape(q);
    }
  }

  /** A region key that is not "unspecified" has its cloud's length, a dot, its region's. */
  lemma RegionKeyShape(p: Placement)
    ensures p.cloud == "" && p.region == "" ==> p.RegionKey() == "unspecified" && '.' !in p.RegionKey()
    ensures p.cloud != "" || p.region != "" ==> |p.RegionKey()| == |p.cloud| + 1 + |p.region| && '.' in p.RegionKey()
  {
    UnspecifiedHasNoDot();
    if p.cloud != "" || p.region != "" {
      assert p.RegionKey()[|p.cloud|] == '.';
    }
  }

  /** A placement's zone key determines the region key, among all placements, exactly if
      none of its three names contains a dot. */
  lemma KeyDeterminesRegionIff(p: Placement)
    ensures (forall q: Placement :: q.Key() == p.Key() ==> q.RegionKey() == p.RegionKey())
            <==> '.' !in p.cloud && '.' !in p.region && '.' !in p.zone
  {
    if '.' in p.cloud || '.' in p.region || '.' in p.zone {
      var q := DottedPlacementClashes(p);
    } else {
      forall q: Placement | q.Key() == p.Key() ensures q.RegionKey() == p.RegionKey() {
        SameKeySamePlacement(p, q);
      }
    }
  }

  lemma SameKeySamePlacement(p: Placement, q: Placement)
    requires '.' !in p.cloud && '.' !in p.region && '.' !in p.zone
    requires q.Key() == p.Key()
    ensures p == q
  {
    UnspecifiedHasNoDot();
    var blank := Placement("", "", "");
    DotFreeIff(p.cloud);
    DotFreeIff(p.region);
    DotFreeIff(p.zone);
    DotFreeIff(q.cloud);
    DotFreeIff(q.region);
    if p == blank {
      if q != blank { KeyHasDot(q); }
    } else {
      KeyHasDot(p);
      DotsOfKey(p);
      DotsOfKey(q);
      KeyIdentifiesPlacement(p, q);
    }
  }
}
