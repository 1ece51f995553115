/** References between tablets and servers after an overlay. */
module OverlayTheorems {
  import opened Counting
  import opened Domain
  import G = Grouping
  import T = Tablets
  import TT = TabletsTheorems
  import opened Overlay

  /** Each server goes by its host name, which no other has, and has an id. */
  ghost predicate NamedByHost(tservers: seq<TServer>) {
    && (forall i :: 0 <= i < |tservers| ==> tservers[i].name == tservers[i].host && tservers[i].id != "")
    && (forall i, j :: 0 <= i < j < |tservers| ==> tservers[i].host != tservers[j].host)
  }

  // ----- what a server ends up with

  /** The last UUID reported for the server, if any row reports one. */
  function LastUUID(servers: seq<ServerRow>, ts: TServer): string {
    if servers == [] then ""
    else
      var s := servers[|servers| - 1];
      if Matches(s, ts) && s.uuid != "" then s.uuid else LastUUID(servers[..|servers| - 1], ts)
  }

  /** The first placement with a region reported for the server. */
  function FirstPlacement(servers: seq<ServerRow>, ts: TServer): Option<Placement> {
    if servers == [] then None
    else
      var s := servers[|servers| - 1];
      var before := FirstPlacement(servers[..|servers| - 1], ts);
      if before.None? && Matches(s, ts) && s.region != "" then Some(Placement(s.cloud, s.region, s.zone)) else before
  }

  lemma {:induction false} FirstPlacementHasRegion(servers: seq<ServerRow>, ts: TServer)
    ensures FirstPlacement(servers, ts).Some? ==> FirstPlacement(servers, ts).value.region != ""
  {
    if servers != [] {
      FirstPlacementHasRegion(servers[..|servers| - 1], ts);
    }
  }

  /** An overlay gives every server the last UUID reported for it and, only if it had no
      region, the first placement reported for it; nothing else changes. */
  lemma {:induction false} ServerOutcome(tservers: seq<TServer>, servers: seq<ServerRow>, i: nat)
    requires i < |tservers|
    ensures var was, now := tservers[i], ServersAfter(tservers, servers)[i];
            && now.host == was.host && now.name == was.name && now.status == was.status
            && now.id == (if LastUUID(servers, was) != "" then LastUUID(servers, was) else was.id)
            && now.placement == (if was.placement.region == "" && FirstPlacement(servers, was).Some?
                                 then FirstPlacement(servers, was).value else was.placement)
  {
    if servers != [] {
      var n := |servers| - 1;
      ServerOutcome(tservers, servers[..n], i);
      FirstPlacementHasRegion(servers[..n], tservers[i]);
      var before := ServersAfter(tservers, servers[..n])[i];
      assert Matches(servers[n], before) == Matches(servers[n], tservers[i]);
    }
  }

  /** Row k names the server by its host or its name, and reports a UUID. */
  predicate Identifies(servers: seq<ServerRow>, ts: TServer, k: nat) {
    k < |servers| && (servers[k].host == ts.host || servers[k].host == ts.name) && servers[k].uuid != ""
  }

  predicate Places(servers: seq<ServerRow>, ts: TServer, k: nat) {
    k < |servers| && (servers[k].host == ts.host || servers[k].host == ts.name) && servers[k].region != ""
  }

  /** The last row that identifies the server decides. */
  lemma {:induction false} LastUUIDIs(servers: seq<ServerRow>, ts: TServer, k: nat)
    requires Identifies(servers, ts, k) && forall j :: k < j < |servers| ==> !Identifies(servers, ts, j)
    ensures LastUUID(servers, ts) == servers[k].uuid
  {
    var n := |servers| - 1;
    if k < n {
      assert !Identifies(servers, ts, n);
      assert forall j :: k <= j < n ==> (Identifies(servers[..n], ts, j) <==> Identifies(servers, ts, j));
      LastUUIDIs(servers[..n], ts, k);
    }
  }

  lemma {:induction false} NoUUID(servers: seq<ServerRow>, ts: TServer)
    requires forall j :: 0 <= j < |servers| ==> !Identifies(servers, ts, j)
    ensures LastUUID(servers, ts) == ""
  {
    if servers != [] {
      var n := |servers| - 1;
      assert !Identifies(servers, ts, n);
      assert forall j :: 0 <= j < n ==> (Identifies(servers[..n], ts, j) <==> Identifies(servers, ts, j));
      NoUUID(servers[..n], ts);
    }
  }

  /** The first row that places the server decides. */
  lemma {:induction false} FirstPlacementIs(servers: seq<ServerRow>, ts: TServer, k: nat)
    requires Places(servers, ts, k) && forall j :: 0 <= j < k ==> !Places(servers, ts, j)
    ensures FirstPlacement(servers, ts) == Some(Placement(servers[k].cloud, servers[k].region, servers[k].zone))
  {
    var n := |servers| - 1;
    assert forall j :: 0 <= j < n ==> (Places(servers[..n], ts, j) <==> Places(servers, ts, j));
    if k < n {
      FirstPlacementIs(servers[..n], ts, k);
    } else {
      NoPlacement(servers[..n], ts);
    }
  }

  lemma {:induction false} NoPlacement(servers: seq<ServerRow>, ts: TServer)
    requires forall j :: 0 <= j < |servers| ==> !Places(servers, ts, j)
    ensures FirstPlacement(servers, ts) == None
  {
    if servers != [] {
      var n := |servers| - 1;
      assert !Places(servers, ts, n);
      assert forall j :: 0 <= j < n ==> (Places(servers[..n], ts, j) <==> Places(servers, ts, j));
      NoPlacement(servers[..n], ts);
    }
  }

  /** A server takes the UUID of the last row that identifies it, and keeps its id if none
      does; a server without a region takes the first placement with one, if there is any. */
  lemma ServerSpelledOut(tservers: seq<TServer>, servers: seq<ServerRow>, i: nat)
    requires i < |tservers|
    ensures var was, now := tservers[i], ServersAfter(tservers, servers)[i];
            && (forall k: nat :: Identifies(servers, was, k)
                                 && (forall j :: k < j < |servers| ==> !Identifies(servers, was, j)) ==>
                  now.id == servers[k].uuid)
            && ((forall j :: 0 <= j < |servers| ==> !Identifies(servers, was, j)) ==> now.id == was.id)
            && (was.placement.region != "" ==> now.placement == was.placement)
            && (forall k: nat :: was.placement.region == "" && Places(servers, was, k)
                                 && (forall j :: 0 <= j < k ==> !Places(servers, was, j)) ==>
                  now.placement == Placement(servers[k].cloud, servers[k].region, servers[k].zone))
            && ((forall j :: 0 <= j < |servers| ==> !Places(servers, was, j)) ==> now.placement == was.placement)
  {
    var was, now := tservers[i], ServersAfter(tservers, servers)[i];
    ServerOutcome(tservers, servers, i);
    forall k: nat | Identifies(servers, was, k) && forall j :: k < j < |servers| ==> !Identifies(servers, was, j)
      ensures now.id == servers[k].uuid
    {
      LastUUIDIs(servers, was, k);
    }
    if forall j :: 0 <= j < |servers| ==> !Identifies(servers, was, j) {
      NoUUID(servers, was);
    }
    forall k: nat | Places(servers, was, k) && forall j :: 0 <= j < k ==> !Places(servers, was, j)
      ensures FirstPlacement(servers, was) == Some(Placement(servers[k].cloud, servers[k].region, servers[k].zone))
    {
      FirstPlacementIs(servers, was, k);
    }
    if forall j :: 0 <= j < |servers| ==> !Places(servers, was, j) {
      NoPlacement(servers, was);
    }
  }

  // ----- known hosts resolve to the updated id

  ghost predicate Resolves(hosts: HostMap, tservers: seq<TServer>) {
    forall i :: 0 <= i < |tservers| ==> IDOf(hosts, tservers[i].host) == tservers[i].id
  }

  lemma {:induction false} InitialHostsResolve(tservers: seq<TServer>)
    requires NamedByHost(tservers)
    ensures Resolves(InitialHosts(tservers), tservers)
  {
    if tservers != [] {
      InitialHostsResolve(tservers[..|tservers| - 1]);
    }
  }

  lemma ServerStepResolves(hosts: HostMap, tservers: seq<TServer>, s: ServerRow)
    requires NamedByHost(tservers) && Resolves(hosts, tservers)
    ensures NamedByHost(UpdatedServers(s, tservers))
    ensures Resolves(if s.uuid != "" then hosts[s.host := s.uuid] else hosts, UpdatedServers(s, tservers))
  {
    var now := UpdatedServers(s, tservers);
    assert forall i :: 0 <= i < |tservers| ==> now[i].host == tservers[i].host && now[i].name == tservers[i].name;
  }

  lemma {:induction false} HostsResolve(tservers: seq<TServer>, servers: seq<ServerRow>)
    requires NamedByHost(tservers)
    ensures NamedByHost(ServersAfter(tservers, servers))
    ensures Resolves(HostsAfter(InitialHosts(tservers), servers), ServersAfter(tservers, servers))
  {
    if servers == [] {
      InitialHostsResolve(tservers);
    } else {
      var n := |servers| - 1;
      HostsResolve(tservers, servers[..n]);
      ServerStepResolves(HostsAfter(InitialHosts(tservers), servers[..n]), ServersAfter(tservers, servers[..n]),
          servers[n]);
    }
  }

  ghost predicate KnownHost(tservers: seq<TServer>, host: string) {
    exists i :: 0 <= i < |tservers| && tservers[i].host == host
  }

  /** After an overlay every replica on a known host carries that server's updated id. */
  lemma ReplicasFollowServers(tservers: seq<TServer>, servers: seq<ServerRow>, replica: string, i: nat)
    requires NamedByHost(tservers) && i < |tservers| && tservers[i].host == HostOf(replica)
    ensures ReplicaID(HostsAfter(InitialHosts(tservers), servers), replica) == ServersAfter(tservers, servers)[i].id
  {
    HostsResolve(tservers, servers);
    ServerOutcome(tservers, servers, i);
    assert ServersAfter(tservers, servers)[i].id != "";
  }

  /** Row k is the last with a UUID for the host. */
  predicate LastFor(servers: seq<ServerRow>, host: string, k: nat) {
    && k < |servers| && servers[k].host == host && servers[k].uuid != ""
    && forall j :: k < j < |servers| ==> servers[j].host != host || servers[j].uuid == ""
  }

  /** Server i is the last with this host or name. */
  predicate LastCalled(tservers: seq<TServer>, host: string, i: nat) {
    && i < |tservers| && (tservers[i].host == host || tservers[i].name == host)
    && forall j :: i < j < |tservers| ==> tservers[j].host != host && tservers[j].name != host
  }

  lemma {:induction false} InitialHostIs(tservers: seq<TServer>, host: string, i: nat)
    requires LastCalled(tservers, host, i)
    ensures IDOf(InitialHosts(tservers), host) == tservers[i].id
  {
    var n := |tservers| - 1;
    if i < n {
      InitialHostIs(tservers[..n], host, i);
    }
  }

  predicate Uncalled(tservers: seq<TServer>, host: string) {
    forall i :: 0 <= i < |tservers| ==> tservers[i].host != host && tservers[i].name != host
  }

  lemma {:induction false} UncalledIsNone(tservers: seq<TServer>, host: string)
    requires Uncalled(tservers, host)
    ensures IDOf(InitialHosts(tservers), host) == ""
  {
    if tservers != [] {
      UncalledIsNone(tservers[..|tservers| - 1], host);
    }
  }

  lemma {:induction false} LastRowDecides(hosts: HostMap, servers: seq<ServerRow>, host: string, k: nat)
    requires LastFor(servers, host, k)
    ensures IDOf(HostsAfter(hosts, servers), host) == servers[k].uuid
  {
    var n := |servers| - 1;
    if k < n {
      LastRowDecides(hosts, servers[..n], host, k);
    }
  }

  predicate Unreported(servers: seq<ServerRow>, host: string) {
    forall k :: 0 <= k < |servers| ==> servers[k].host != host || servers[k].uuid == ""
  }

  lemma {:induction false} UnreportedKept(hosts: HostMap, servers: seq<ServerRow>, host: string)
    requires Unreported(servers, host)
    ensures IDOf(HostsAfter(hosts, servers), host) == IDOf(hosts, host)
  {
    if servers != [] {
      UnreportedKept(hosts, servers[..|servers| - 1], host);
    }
  }

  /** A host stands for the last UUID a row reports for it; else for the last server with
      that host or name; else for nothing. */
  lemma HostStandsFor(tservers: seq<TServer>, servers: seq<ServerRow>, host: string)
    ensures var id := IDOf(HostsAfter(InitialHosts(tservers), servers), host);
            && (forall k: nat :: LastFor(servers, host, k) ==> id == servers[k].uuid)
            && (forall i: nat :: Unreported(servers, host) && LastCalled(tservers, host, i) ==> id == tservers[i].id)
            && (Unreported(servers, host) && Uncalled(tservers, host) ==> id == "")
  {
    var hosts := InitialHosts(tservers);
    forall k: nat | LastFor(servers, host, k) ensures IDOf(HostsAfter(hosts, servers), host) == servers[k].uuid {
      LastRowDecides(hosts, servers, host, k);
    }
    if Unreported(servers, host) {
      UnreportedKept(hosts, servers, host);
      forall i: nat | LastCalled(tservers, host, i) ensures IDOf(hosts, host) == tservers[i].id {
        InitialHostIs(tservers, host, i);
      }
      if Uncalled(tservers, host) {
        UncalledIsNone(tservers, host);
      }
    }
  }

  // ----- leaders

  lemma {:induction false} PeersOfRowAre(hosts: HostMap, row: TabletRow, replicas: seq<string>)
    ensures |PeersOfRow(hosts, row, replicas)| == |replicas|
    ensures forall j :: 0 <= j < |replicas| ==> PeersOfRow(hosts, row, replicas)[j] == PeerOf(hosts, row, replicas[j])
  {
    if replicas != [] {
      PeersOfRowAre(hosts, row, replicas[..|replicas| - 1]);
    }
  }

  lemma {:induction false} LeaderIDIs(hosts: HostMap, row: TabletRow, replicas: seq<string>)
    ensures (exists r :: r in replicas && IsLeaderReplica(row, r)) ==>
            LeaderIDOf(hosts, row, replicas) == ReplicaID(hosts, row.leader)
    ensures (forall r :: r in replicas ==> !IsLeaderReplica(row, r)) ==>
            LeaderIDOf(hosts, row, replicas) == IDOf(hosts, HostOf(row.leader))
  {
    if replicas != [] {
      var n := |replicas| - 1;
      assert replicas == replicas[..n] + [replicas[n]];
      LeaderIDIs(hosts, row, replicas[..n]);
    }
  }

  /** Whatever the rows are: all leader peers of a tablet share one id, which is the
      tablet's leader id; and the tablet has a leader peer exactly when some replica is
      on the leader's host. */
  lemma LeadersAgree(hosts: HostMap, row: TabletRow)
    ensures var t := TabletOfRow(hosts, row);
            && (forall p :: p in t.peers && p.role == Leader ==> p.tserverID == t.leaderID)
            && ((exists p :: p in t.peers && p.role == Leader)
                <==> exists r :: r in row.replicas && HostOf(r) == HostOf(row.leader))
  {
    LeaderPeersShareID(hosts, row);
    LeaderPeerIff(hosts, row);
  }

  lemma LeaderPeersShareID(hosts: HostMap, row: TabletRow)
    ensures var t := TabletOfRow(hosts, row);
            forall p :: p in t.peers && p.role == Leader ==> p.tserverID == t.leaderID
  {
    var t := TabletOfRow(hosts, row);
    PeersOfRowAre(hosts, row, row.replicas);
    LeaderIDIs(hosts, row, row.replicas);
    forall p | p in t.peers && p.role == Leader ensures p.tserverID == t.leaderID {
      var j :| 0 <= j < |t.peers| && t.peers[j] == p;
      assert row.replicas[j] in row.replicas && IsLeaderReplica(row, row.replicas[j]);
    }
  }

  lemma LeaderPeerIff(hosts: HostMap, row: TabletRow)
    ensures var t := TabletOfRow(hosts, row);
            (exists p :: p in t.peers && p.role == Leader)
                <==> exists r :: r in row.replicas && HostOf(r) == HostOf(row.leader)
  {
    var t := TabletOfRow(hosts, row);
    PeersOfRowAre(hosts, row, row.replicas);
    if r :| r in row.replicas && HostOf(r) == HostOf(row.leader) {
      var j :| 0 <= j < |row.replicas| && row.replicas[j] == r;
      assert t.peers[j] in t.peers && t.peers[j].role == Leader;
    }
    if p :| p in t.peers && p.role == Leader {
      var j :| 0 <= j < |t.peers| && t.peers[j] == p;
      assert row.replicas[j] in row.replicas;
    }
  }

  /** A row becomes a tablet with a healthy peer per replica, in order: a replica on a host
      that stands for an id carries it, any other its own host; and it leads exactly if it
      is on the leader's host. */
  lemma RowSpelledOut(hosts: HostMap, row: TabletRow)
    ensures var t := TabletOfRow(hosts, row);
            && t.id == row.tabletID && t.readOps == t.writeOps == 0.0 && |t.peers| == |row.replicas|
            && (forall j :: 0 <= j < |t.peers| ==>
                  var host := HostOf(row.replicas[j]);
                  && t.peers[j].tserverID == (if host in hosts && hosts[host] != "" then hosts[host] else host)
                  && t.peers[j].role == (if host == HostOf(row.leader) then Leader else Follower)
                  && t.peers[j].state == OtherState("") && t.peers[j].lag == 0)
            && t.leaderID == (if HostOf(row.leader) in hosts && hosts[HostOf(row.leader)] != ""
                              then hosts[HostOf(row.leader)]
                              else if exists r :: r in row.replicas && HostOf(r) == HostOf(row.leader)
                              then HostOf(row.leader) else "")
  {
    PeersOfRowAre(hosts, row, row.replicas);
    LeaderIDIs(hosts, row, row.replicas);
  }

  function HasReplicas(): TabletRow -> bool {
    (row: TabletRow) => row.replicas != []
  }

  /** The new tablets are those of the rows with replicas, in the order of the rows. */
  lemma {:induction false} RowsInOrder(hosts: HostMap, rows: seq<TabletRow>)
    ensures |TabletsOfRows(hosts, rows)| == |Filter(rows, HasReplicas())|
    ensures forall i :: 0 <= i < |Filter(rows, HasReplicas())| ==>
              TabletsOfRows(hosts, rows)[i] == TabletOfRow(hosts, Filter(rows, HasReplicas())[i])
  {
    if rows != [] {
      var n := |rows| - 1;
      RowsInOrder(hosts, rows[..n]);
      var before, kept := TabletsOfRows(hosts, rows[..n]), Filter(rows[..n], HasReplicas());
      if rows[n].replicas == [] {
        assert TabletsOfRows(hosts, rows) == before && Filter(rows, HasReplicas()) == kept;
      } else {
        assert TabletsOfRows(hosts, rows) == before + [TabletOfRow(hosts, rows[n])];
        assert Filter(rows, HasReplicas()) == kept + [rows[n]];
      }
    }
  }

  // ----- no rows outside the list

  lemma {:induction false} TabletsOfRowsAre(hosts: HostMap, rows: seq<TabletRow>)
    ensures forall t :: t in TabletsOfRows(hosts, rows) ==> exists row :: row in rows && t == TabletOfRow(hosts, row)
  {
    if rows != [] {
      var n := |rows| - 1;
      assert rows == rows[..n] + [rows[n]];
      TabletsOfRowsAre(hosts, rows[..n]);
    }
  }

  /** If the overlay's replicas are all on known hosts, every voting peer of every new
      tablet is on a listed server. */
  lemma OverlaidPeersListed(tservers: seq<TServer>, servers: seq<ServerRow>, rows: seq<TabletRow>, snap: Snapshot)
    requires NamedByHost(tservers)
    requires forall row, r :: row in rows && r in row.replicas ==> KnownHost(tservers, HostOf(r))
    requires snap.tservers == ServersAfter(tservers, servers)
    requires snap.tablets == TabletsOfRows(HostsAfter(InitialHosts(tservers), servers), rows)
    ensures TT.AllPeersListed(snap)
  {
    var hosts := HostsAfter(InitialHosts(tservers), servers);
    TabletsOfRowsAre(hosts, rows);
    TT.ListedIDsAre(snap.tservers);
    forall t, p | t in snap.tablets && p in VotingPeers(t) ensures p.tserverID in T.ListedIDs(snap.tservers) {
      var row :| row in rows && t == TabletOfRow(hosts, row);
      PeersOfRowAre(hosts, row, row.replicas);
      var j :| 0 <= j < |t.peers| && t.peers[j] == p;
      var r := row.replicas[j];
      assert r in row.replicas;
      var i :| 0 <= i < |tservers| && tservers[i].host == HostOf(r);
      ReplicasFollowServers(tservers, servers, r, i);
      assert T.ListedIDs(snap.tservers)[i] == p.tserverID;
    }
  }

  /** Then a tablet summary has a row per server and none outside the list. */
  lemma OverlayAddsNoRows(tservers: seq<TServer>, servers: seq<ServerRow>, rows: seq<TabletRow>, snap: Snapshot,
                          out: seq<T.NodeTabletStats>)
    requires NamedByHost(tservers)
    requires forall row, r :: row in rows && r in row.replicas ==> KnownHost(tservers, HostOf(r))
    requires snap.tservers == ServersAfter(tservers, servers)
    requires snap.tablets == TabletsOfRows(HostsAfter(InitialHosts(tservers), servers), rows)
    requires T.IsRows(snap, out)
    ensures |out| == |snap.tservers| && forall r :: r in out ==> Listed(snap.tservers, r.nodeID)
  {
    OverlaidPeersListed(tservers, servers, rows, snap);
    TT.NoForeignRows(snap, out);
  }

  // ----- tablets that are kept

  /** Every voting peer of the tablets is on a listed server. */
  ghost predicate References(tservers: seq<TServer>, tablets: seq<Tablet>) {
    forall t, p :: t in tablets && p in VotingPeers(t) ==> Listed(tservers, p.tserverID)
  }

  /** The id a server goes by after the server rows. */
  function FinalID(servers: seq<ServerRow>, ts: TServer): NodeID {
    if LastUUID(servers, ts) != "" then LastUUID(servers, ts) else ts.id
  }

  lemma NoReplicasNoTablets(hosts: HostMap, rows: seq<TabletRow>)
    requires forall row :: row in rows ==> row.replicas == []
    ensures TabletsOfRows(hosts, rows) == []
  {
    if rows != [] {
      assert rows[|rows| - 1] in rows;
      NoReplicasNoTablets(hosts, rows[..|rows| - 1]);
    }
  }

  function FinalIDs(tservers: seq<TServer>, servers: seq<ServerRow>): set<NodeID> {
    set ts | ts in tservers :: FinalID(servers, ts)
  }

  /** An id is listed after the server rows exactly if it is some server's final id. */
  lemma ListedAfterIff(tservers: seq<TServer>, servers: seq<ServerRow>, id: NodeID)
    ensures Listed(ServersAfter(tservers, servers), id) <==> id in FinalIDs(tservers, servers)
  {
    var after := ServersAfter(tservers, servers);
    forall i | 0 <= i < |tservers| ensures after[i].id == FinalID(servers, tservers[i]) {
      ServerOutcome(tservers, servers, i);
    }
    if Listed(after, id) {
      var ts :| ts in after && ts.id == id;
      var i :| 0 <= i < |after| && after[i] == ts;
      assert tservers[i] in tservers;
    }
    if id in FinalIDs(tservers, servers) {
      var ts :| ts in tservers && FinalID(servers, ts) == id;
      var i :| 0 <= i < |tservers| && tservers[i] == ts;
      assert after[i] in after;
    }
  }

  /** The least tablet that refers to an id. */
  function Referring(id: NodeID): Tablet {
    Tablet("t", id, [TabletPeer(id, Leader, OtherState(""), 0)], 0.0, 0.0)
  }

  lemma ReferringAlone(tservers: seq<TServer>, id: NodeID)
    ensures References(tservers, [Referring(id)]) <==> Listed(tservers, id)
  {
    var t := Referring(id);
    FilterKeepsAll(t.peers, IsVoting());
    assert t in [t] && t.peers[0] in VotingPeers(t);
  }

  /** Whatever tablets soundly refer to the servers, what the overlay leaves of them soundly
      refers to the servers it leaves. */
  ghost predicate KeepsReferences(tservers: seq<TServer>, servers: seq<ServerRow>, rows: seq<TabletRow>) {
    forall tablets: seq<Tablet> :: References(tservers, tablets) ==>
      References(ServersAfter(tservers, servers), TabletsAfter(tservers, tablets, servers, rows))
  }

  /** An overlay whose rows bring no tablets keeps the old ones, and their references stay
      sound exactly if every old id is the final id of some server, be it another one. */
  lemma KeptReferencesIff(tservers: seq<TServer>, servers: seq<ServerRow>, rows: seq<TabletRow>)
    requires forall row :: row in rows ==> row.replicas == []
    ensures KeepsReferences(tservers, servers, rows) <==> G.IDs(tservers) <= FinalIDs(tservers, servers)
  {
    if G.IDs(tservers) <= FinalIDs(tservers, servers) {
      OldIDsKeepReferences(tservers, servers, rows);
    } else {
      var id :| id in G.IDs(tservers) && id !in FinalIDs(tservers, servers);
      LostIDBreaksReferences(tservers, servers, rows, id);
    }
  }

  lemma OldIDsKeepReferences(tservers: seq<TServer>, servers: seq<ServerRow>, rows: seq<TabletRow>)
    requires forall row :: row in rows ==> row.replicas == []
    requires G.IDs(tservers) <= FinalIDs(tservers, servers)
    ensures KeepsReferences(tservers, servers, rows)
  {
    NoReplicasNoTablets(HostsAfter(InitialHosts(tservers), servers), rows);
    forall tablets: seq<Tablet> | References(tservers, tablets)
      ensures References(ServersAfter(tservers, servers), TabletsAfter(tservers, tablets, servers, rows))
    {
      ReferencesKept(tservers, servers, tablets);
    }
  }

  lemma ReferencesKept(tservers: seq<TServer>, servers: seq<ServerRow>, tablets: seq<Tablet>)
    requires G.IDs(tservers) <= FinalIDs(tservers, servers) && References(tservers, tablets)
    ensures References(ServersAfter(tservers, servers), tablets)
  {
    forall t, p | t in tablets && p in VotingPeers(t)
      ensures Listed(ServersAfter(tservers, servers), p.tserverID)
    {
      assert p.tserverID in G.IDs(tservers);
      ListedAfterIff(tservers, servers, p.tserverID);
    }
  }

  lemma LostIDBreaksReferences(tservers: seq<TServer>, servers: seq<ServerRow>, rows: seq<TabletRow>, id: NodeID)
    requires forall row :: row in rows ==> row.replicas == []
    requires id in G.IDs(tservers) && id !in FinalIDs(tservers, servers)
    ensures !KeepsReferences(tservers, servers, rows)
  {
    NoReplicasNoTablets(HostsAfter(InitialHosts(tservers), servers), rows);
    UnlistedIDDangles(tservers, servers, id);
    assert TabletsAfter(tservers, [Referring(id)], servers, rows) == [Referring(id)];
  }

  lemma UnlistedIDDangles(tservers: seq<TServer>, servers: seq<ServerRow>, id: NodeID)
    requires id in G.IDs(tservers) && id !in FinalIDs(tservers, servers)
    ensures References(tservers, [Referring(id)])
    ensures !References(ServersAfter(tservers, servers), [Referring(id)])
  {
    ListedAfterIff(tservers, servers, id);
    ReferringAlone(tservers, id);
    ReferringAlone(ServersAfter(tservers, servers), id);
  }

  /** So a sound snapshot can come out of an overlay with a dangling reference. */
  lemma KeptTabletsCanDangle() returns (tservers: seq<TServer>, tablets: seq<Tablet>, servers: seq<ServerRow>)
    ensures NamedByHost(tservers) && References(tservers, tablets)
    ensures !References(ServersAfter(tservers, servers), TabletsAfter(tservers, tablets, servers, []))
  {
    var ts := TServer("n1", "h", "h", Up, Placement("", "r", ""));
    tservers, tablets, servers := [ts], [Referring("n1")], [ServerRow("h", "u2", "", "", "")];
    assert "n1"[0] != "u2"[0];
    assert ts in tservers;
    UnlistedIDDangles(tservers, servers, "n1");
  }
}
