/** Overlaying what YSQL reports (server UUIDs, placements and the tablet map) on a
    snapshot collected over Master HTTP, in place. */
module Overlay {
  import opened Domain

  /** A row of yb_servers(). */
  datatype ServerRow = ServerRow(host: string, uuid: string, cloud: string, region: string, zone: string)

  /** A row of yb_tablet_metadata; table names are text and are left out. */
  datatype TabletRow = TabletRow(tabletID: string, leader: string, replicas: seq<string>)

  type HostMap = map<string, NodeID>

  /** The address up to its first colon. */
  function HostOf(addr: string): string {
    if addr == [] || addr[0] == ':' then [] else [addr[0]] + HostOf(addr[1..])
  }

  /** What is left out starts with a colon, and the host has none. */
  lemma {:induction false} HostOfCuts(addr: string)
    ensures ':' !in HostOf(addr)
    ensures HostOf(addr) <= addr
    ensures HostOf(addr) == addr || addr[|HostOf(addr)|] == ':'
  {
    if addr != [] && addr[0] != ':' {
      HostOfCuts(addr[1..]);
    }
  }

  /** Reading a Go map: an absent host has the empty id. */
  function IDOf(hosts: HostMap, host: string): NodeID {
    if host in hosts then hosts[host] else ""
  }

  // ----- servers

  predicate Matches(s: ServerRow, ts: TServer) {
    ts.host == s.host || ts.name == s.host
  }

  function InitialHosts(tservers: seq<TServer>): HostMap {
    if tservers == [] then map[]
    else
      var ts := tservers[|tservers| - 1];
      InitialHosts(tservers[..|tservers| - 1])[ts.host := ts.id][ts.name := ts.id]
  }

  function UpdatedServer(s: ServerRow, ts: TServer): TServer {
    if !Matches(s, ts) then ts
    else
      var t1 := if s.uuid != "" then ts.(id := s.uuid) else ts;
      if t1.placement.region == "" && s.region != "" then t1.(placement := Placement(s.cloud, s.region, s.zone)) else t1
  }

  function UpdatedServers(s: ServerRow, tservers: seq<TServer>): seq<TServer> {
    seq(|tservers|, i requires 0 <= i < |tservers| => UpdatedServer(s, tservers[i]))
  }

  function HostsAfter(hosts: HostMap, servers: seq<ServerRow>): HostMap {
    if servers == [] then hosts
    else
      var s := servers[|servers| - 1];
      var before := HostsAfter(hosts, servers[..|servers| - 1]);
      if s.uuid != "" then before[s.host := s.uuid] else before
  }

  function ServersAfter(tservers: seq<TServer>, servers: seq<ServerRow>): (r: seq<TServer>)
    ensures |r| == |tservers|
  {
    if servers == [] then tservers
    else UpdatedServers(servers[|servers| - 1], ServersAfter(tservers, servers[..|servers| - 1]))
  }

  // ----- tablets

  /** A replica's id: the one its host is known by, or else the host itself. */
  function ReplicaID(hosts: HostMap, replica: string): NodeID {
    var id := IDOf(hosts, HostOf(replica));
    if id == "" then HostOf(replica) else id
  }

  predicate IsLeaderReplica(row: TabletRow, replica: string) {
    HostOf(replica) == HostOf(row.leader) || replica == row.leader
  }

  function PeerOf(hosts: HostMap, row: TabletRow, replica: string): TabletPeer {
    TabletPeer(ReplicaID(hosts, replica), if IsLeaderReplica(row, replica) then Leader else Follower, OtherState(""), 0)
  }

  function PeersOfRow(hosts: HostMap, row: TabletRow, replicas: seq<string>): seq<TabletPeer> {
    if replicas == [] then []
    else PeersOfRow(hosts, row, replicas[..|replicas| - 1]) + [PeerOf(hosts, row, replicas[|replicas| - 1])]
  }

  /** The id of the last replica on the leader's host, or what that host is known by. */
  function LeaderIDOf(hosts: HostMap, row: TabletRow, replicas: seq<string>): NodeID {
    if replicas == [] then IDOf(hosts, HostOf(row.leader))
    else
      var r := replicas[|replicas| - 1];
      if IsLeaderReplica(row, r) then ReplicaID(hosts, r) else LeaderIDOf(hosts, row, replicas[..|replicas| - 1])
  }

  function TabletOfRow(hosts: HostMap, row: TabletRow): Tablet {
    Tablet(row.tabletID, LeaderIDOf(hosts, row, row.replicas), PeersOfRow(hosts, row, row.replicas), 0.0, 0.0)
  }

  /** The rows with replicas, as tablets. */
  function TabletsOfRows(hosts: HostMap, rows: seq<TabletRow>): seq<Tablet> {
    if rows == [] then []
    else
      var row := rows[|rows| - 1];
      TabletsOfRows(hosts, rows[..|rows| - 1]) + (if row.replicas == [] then [] else [TabletOfRow(hosts, row)])
  }

  /** The tablets an overlay leaves: the ones its rows describe, or the old ones if no row
      has replicas. */
  function TabletsAfter(tservers: seq<TServer>, tablets: seq<Tablet>, servers: seq<ServerRow>, rows: seq<TabletRow>)
    : seq<Tablet>
  {
    var out := TabletsOfRows(HostsAfter(InitialHosts(tservers), servers), rows);
    if out == [] then tablets else out
  }

  method HostOfAddr(addr: string) returns (host: string)
    ensures host == HostOf(addr)
  {
    var i := 0;
    while i < |addr| && addr[i] != ':'
      invariant 0 <= i <= |addr|
      invariant HostOf(addr) == addr[..i] + HostOf(addr[i..])
    {
      assert addr[i..][1..] == addr[i + 1..];
      assert addr[..i + 1] == addr[..i] + [addr[i]];
      i := i + 1;
    }
    host := addr[..i];
  }

  method BuildPeer(hosts: HostMap, row: TabletRow, leaderHost: string, r: string) returns (peer: TabletPeer)
    requires leaderHost == HostOf(row.leader)
    ensures peer == PeerOf(hosts, row, r)
  {
    var h := HostOfAddr(r);
    var id := if h in hosts then hosts[h] else "";
    if id == "" {
      id := h;
    }
    var role := Follower;
    if h == leaderHost || r == row.leader {
      role := Leader;
    }
    peer := TabletPeer(id, role, OtherState(""), 0);
  }

  lemma ReplicaStep(hosts: HostMap, row: TabletRow, i: nat)
    requires i < |row.replicas|
    ensures var r := row.replicas[i];
            && PeersOfRow(hosts, row, row.replicas[..i + 1]) ==
               PeersOfRow(hosts, row, row.replicas[..i]) + [PeerOf(hosts, row, r)]
            && LeaderIDOf(hosts, row, row.replicas[..i + 1]) ==
               if IsLeaderReplica(row, r) then ReplicaID(hosts, r) else LeaderIDOf(hosts, row, row.replicas[..i])
  {
    assert row.replicas[..i + 1][..i] == row.replicas[..i];
  }

  method BuildTablet(hosts: HostMap, row: TabletRow) returns (t: Tablet)
    ensures t == TabletOfRow(hosts, row)
  {
    var leaderHost := HostOfAddr(row.leader);
    var leaderID := if leaderHost in hosts then hosts[leaderHost] else "";
    var peers := [];
    for i := 0 to |row.replicas|
      invariant peers == PeersOfRow(hosts, row, row.replicas[..i])
      invariant leaderID == LeaderIDOf(hosts, row, row.replicas[..i])
    {
      ReplicaStep(hosts, row, i);
      var peer := BuildPeer(hosts, row, leaderHost, row.replicas[i]);
      if peer.role == Leader {
        leaderID := peer.tserverID;
      }
      peers := peers + [peer];
    }
    assert row.replicas[..|row.replicas|] == row.replicas;
    t := Tablet(row.tabletID, leaderID, peers, 0.0, 0.0);
  }

  /** The part of a snapshot an overlay rewrites. */
  class LiveSnapshot {
    var tservers: seq<TServer>
    var tablets: seq<Tablet>

    constructor (tservers: seq<TServer>, tablets: seq<Tablet>)
      ensures this.tservers == tservers && this.tablets == tablets
    {
      this.tservers := tservers;
      this.tablets := tablets;
    }

    method CollectHosts() returns (hosts: HostMap)
      ensures hosts == InitialHosts(tservers)
    {
      hosts := map[];
      for i := 0 to |tservers|
        invariant hosts == InitialHosts(tservers[..i])
      {
        assert tservers[..i + 1][..i] == tservers[..i];
        hosts := hosts[tservers[i].host := tservers[i].id];
        hosts := hosts[tservers[i].name := tservers[i].id];
      }
      assert tservers[..|tservers|] == tservers;
    }

    method OverlayServer(s: ServerRow)
      modifies this`tservers
      ensures tservers == UpdatedServers(s, old(tservers))
    {
      for i := 0 to |tservers|
        invariant |tservers| == |old(tservers)|
        invariant forall k :: 0 <= k < |tservers| ==>
                    tservers[k] == if k < i then UpdatedServer(s, old(tservers)[k]) else old(tservers)[k]
      {
        if tservers[i].host != s.host && tservers[i].name != s.host { continue; }
        if s.uuid != "" {
          tservers := tservers[i := tservers[i].(id := s.uuid)];
        }
        if tservers[i].placement.region == "" && s.region != "" {
          tservers := tservers[i := tservers[i].(placement := Placement(s.cloud, s.region, s.zone))];
        }
      }
    }

    method OverlayYSQL(servers: seq<ServerRow>, rows: seq<TabletRow>)
      modifies this
      ensures tservers == ServersAfter(old(tservers), servers)
      ensures tablets == TabletsAfter(old(tservers), old(tablets), servers, rows)
    {
      var hosts := CollectHosts();
      for i := 0 to |servers|
        invariant tablets == old(tablets)
        invariant hosts == HostsAfter(InitialHosts(old(tservers)), servers[..i])
        invariant tservers == ServersAfter(old(tservers), servers[..i])
      {
        assert servers[..i + 1][..i] == servers[..i];
        if servers[i].uuid != "" {
          hosts := hosts[servers[i].host := servers[i].uuid];
        }
        OverlayServer(servers[i]);
      }
      assert servers[..|servers|] == servers;
      if |rows| == 0 {
        return;
      }
      var out := [];
      for i := 0 to |rows|
        invariant tablets == old(tablets) && tservers == ServersAfter(old(tservers), servers)
        invariant out == TabletsOfRows(hosts, rows[..i])
      {
        assert rows[..i + 1][..i] == rows[..i];
        if |rows[i].replicas| == 0 { continue; }
        var t := BuildTablet(hosts, rows[i]);
        out := out + [t];
      }
      assert rows[..|rows|] == rows;
      if |out| > 0 {
        tablets := out;
      }
    }
  }
}
