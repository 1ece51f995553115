/** What a resilience report lists, entry by entry: which simulation stands where, what it is
    called and what it loses, and how the topology tree is labelled. */
module ResilienceMeaning {
  import opened Strings
  import opened Domain
  import opened Grouping
  import opened Resilience
  import opened ResilienceTheorems

  /** The first of a group is the first server with its key. */
  lemma {:induction false} FirstMember(nodes: seq<TServer>, key: TServer -> string, k: string, i: nat)
    requires FirstAt(nodes, key, k, i)
    ensures Members(nodes, key, k) != [] && Members(nodes, key, k)[0] == nodes[i]
  {
    var n := |nodes| - 1;
    assert Members(nodes, key, k) == Members(nodes[..n], key, k) + if key(nodes[n]) == k then [nodes[n]] else [];
    if i < n {
      assert FirstAt(nodes[..n], key, k, i);
      FirstMember(nodes[..n], key, k, i);
    } else {
      NoMembers(nodes[..n], key, k);
    }
  }

  lemma {:induction false} NoMembers(nodes: seq<TServer>, key: TServer -> string, k: string)
    requires forall i :: 0 <= i < |nodes| ==> key(nodes[i]) != k
    ensures Members(nodes, key, k) == []
  {
    if nodes != [] {
      NoMembers(nodes[..|nodes| - 1], key, k);
    }
  }

  /** The names are those of the servers with the key, sorted. */
  ghost predicate NamesOfGroup(names: seq<string>, nodes: seq<TServer>, key: TServer -> string, k: string) {
    && Sorted(names)
    && forall name :: name in names <==> exists ts :: ts in nodes && key(ts) == k && ts.DisplayName() == name
  }

  function IDsOfGroup(nodes: seq<TServer>, key: TServer -> string, k: string): set<NodeID> {
    set ts | ts in nodes && key(ts) == k :: ts.id
  }

  lemma GroupIDs(nodes: seq<TServer>, key: TServer -> string, k: string)
    ensures IDs(Members(nodes, key, k)) == IDsOfGroup(nodes, key, k)
  {
    forall ts ensures ts in Members(nodes, key, k) <==> ts in nodes && key(ts) == k {
      MemberHasKey(nodes, key, k, ts);
    }
  }

  // ----- what a simulation is called and loses

  function ZoneTitle(p: Placement): string {
    if p.zone != "" then p.zone else p.Key()
  }

  function RegionTitle(p: Placement): string {
    if p.region != "" then p.region else p.RegionKey()
  }

  ghost predicate Loses(snap: Snapshot, sim: FailureSim, key: TServer -> string, k: string) {
    && NamesOfGroup(sim.lost, snap.tservers, key, k)
    && sim.tabletsFailed == FailedTablets(snap, IDsOfGroup(snap.tservers, key, k))
  }

  lemma OutcomeIs(snap: Snapshot, name: string, kind: SimKind, names: seq<string>, lost: set<NodeID>)
    ensures var sim := Outcome(snap, name, kind, names, lost);
            sim.name == name && sim.kind == kind && sim.lost == names && sim.tabletsFailed == FailedTablets(snap, lost)
  {
  }

  lemma ZoneSimIs(snap: Snapshot, z: string, i: nat)
    requires FirstAt(snap.tservers, ZoneKey(), z, i)
    ensures InZone(snap, z) != []
    ensures var sim := ZoneSim(snap, z);
            sim.kind == AZLoss && sim.name == "Lose " + ZoneTitle(snap.tservers[i].placement)
            && Loses(snap, sim, ZoneKey(), z)
  {
    FirstMember(snap.tservers, ZoneKey(), z, i);
    LostNames(snap, ZoneKey(), z);
    GroupIDs(snap.tservers, ZoneKey(), z);
    var nodes := InZone(snap, z);
    OutcomeIs(snap, "Lose " + ZoneLabel(nodes[0].placement), AZLoss, SortStrings(Names(nodes)), IDs(nodes));
  }

  lemma PairSimIs(snap: Snapshot, z: string, w: string, i: nat, j: nat) returns (a: seq<string>, b: seq<string>)
    requires FirstAt(snap.tservers, ZoneKey(), z, i) && FirstAt(snap.tservers, ZoneKey(), w, j)
    ensures InZone(snap, z) != [] && InZone(snap, w) != []
    ensures var sim := PairSim(snap, z, w);
            var p, q := snap.tservers[i].placement, snap.tservers[j].placement;
            sim.kind == AZPairLoss && sim.name == "Lose " + (ZoneTitle(p) + " + " + ZoneTitle(q)) && sim.lost == a + b
    ensures NamesOfGroup(a, snap.tservers, ZoneKey(), z) && NamesOfGroup(b, snap.tservers, ZoneKey(), w)
  {
    a, b := SortStrings(Names(InZone(snap, z))), SortStrings(Names(InZone(snap, w)));
    LostNames(snap, ZoneKey(), z);
    LostNames(snap, ZoneKey(), w);
    FirstMember(snap.tservers, ZoneKey(), z, i);
    FirstMember(snap.tservers, ZoneKey(), w, j);
  }

  lemma RegionSimIs(snap: Snapshot, r: string, i: nat)
    requires FirstAt(snap.tservers, RegionKey(), r, i)
    ensures InRegion(snap, r) != []
    ensures var sim := RegionSim(snap, r);
            sim.kind == RegionLoss && sim.name == "Lose " + RegionTitle(snap.tservers[i].placement)
            && Loses(snap, sim, RegionKey(), r)
  {
    FirstMember(snap.tservers, RegionKey(), r, i);
    LostNames(snap, RegionKey(), r);
    GroupIDs(snap.tservers, RegionKey(), r);
    var nodes := InRegion(snap, r);
    OutcomeIs(snap, "Lose " + RegionLabel(nodes[0].placement, r), RegionLoss, SortStrings(Names(nodes)), IDs(nodes));
  }

  // ----- where each simulation stands

  lemma {:induction false} NodeSimAt(snap: Snapshot, nodes: seq<TServer>, i: nat)
    requires i < |nodes|
    ensures |NodeSims(snap, nodes)| == |nodes| && NodeSims(snap, nodes)[i] == NodeSim(snap, nodes[i])
  {
    NodeSimsCount(snap, nodes);
    var n := |nodes| - 1;
    NodeSimsCount(snap, nodes[..n]);
    if i < n {
      NodeSimAt(snap, nodes[..n], i);
    }
  }

  lemma {:induction false} NodeSimsCount(snap: Snapshot, nodes: seq<TServer>)
    ensures |NodeSims(snap, nodes)| == |nodes|
  {
    if nodes != [] {
      NodeSimsCount(snap, nodes[..|nodes| - 1]);
    }
  }

  lemma {:induction false} ZoneSimsCount(snap: Snapshot, zs: seq<string>)
    requires forall z :: z in zs ==> InZone(snap, z) != []
    ensures |ZoneSims(snap, zs)| == |zs|
  {
    if zs != [] {
      ZoneSimsCount(snap, zs[..|zs| - 1]);
    }
  }

  lemma {:induction false} ZoneSimAt(snap: Snapshot, zs: seq<string>, q: nat)
    requires q < |zs| && forall z :: z in zs ==> InZone(snap, z) != []
    ensures |ZoneSims(snap, zs)| == |zs|
    ensures zs[q] in zs && ZoneSims(snap, zs)[q] == ZoneSim(snap, zs[q])
  {
    ZoneSimsCount(snap, zs);
    var n := |zs| - 1;
    ZoneSimsCount(snap, zs[..n]);
    if q < n {
      ZoneSimAt(snap, zs[..n], q);
    }
  }

  lemma {:induction false} RegionSimAt(snap: Snapshot, rs: seq<string>, q: nat)
    requires q < |rs| && forall r :: r in rs ==> InRegion(snap, r) != []
    ensures |RegionSims(snap, rs)| == |rs|
    ensures rs[q] in rs && RegionSims(snap, rs)[q] == RegionSim(snap, rs[q])
  {
    var n := |rs| - 1;
    RegionSimsCount(snap, rs[..n]);
    RegionSimsStep(snap, rs);
    if q < n {
      RegionSimAt(snap, rs[..n], q);
    }
  }

  lemma RegionSimsStep(snap: Snapshot, rs: seq<string>)
    requires rs != [] && forall r :: r in rs ==> InRegion(snap, r) != []
    ensures rs[|rs| - 1] in rs && forall r :: r in rs[..|rs| - 1] ==> r in rs
    ensures RegionSims(snap, rs) == RegionSims(snap, rs[..|rs| - 1]) + [RegionSim(snap, rs[|rs| - 1])]
  {
  }

  lemma {:induction false} RegionSimsCount(snap: Snapshot, rs: seq<string>)
    requires forall r :: r in rs ==> InRegion(snap, r) != []
    ensures |RegionSims(snap, rs)| == |rs|
  {
    if rs != [] {
      RegionSimsCount(snap, rs[..|rs| - 1]);
    }
  }

  /** How many simulations of zone pairs there are. */
  ghost function Pairs(snap: Snapshot): nat {
    if |Zones(snap)| >= 2 then 1 else 0
  }

  lemma At<T>(a: seq<T>, b: seq<T>, c: seq<T>, d: seq<T>)
    ensures var s := a + (b + c) + d;
            && (forall i :: 0 <= i < |a| ==> s[i] == a[i])
            && (forall i :: 0 <= i < |b| ==> s[|a| + i] == b[i])
            && (forall i :: 0 <= i < |c| ==> s[|a| + |b| + i] == c[i])
            && (forall i :: 0 <= i < |d| ==> s[|a| + |b| + |c| + i] == d[i])
  {
  }

  /** First come the servers, each lost alone under its display name. */
  lemma NodeSimulation(snap: Snapshot, i: nat)
    requires i < |snap.tservers|
    ensures |Report(snap).simulations| > i
    ensures var sim, ts := Report(snap).simulations[i], snap.tservers[i];
            && sim.kind == NodeLoss && sim.name == "Lose " + ts.DisplayName() && sim.lost == [ts.DisplayName()]
            && sim.tabletsFailed == FailedTablets(snap, {ts.id})
  {
    GroupsNonempty(snap);
    NodeSimAt(snap, snap.tservers, i);
    At(NodeSims(snap, snap.tservers), ZoneSims(snap, Zones(snap)), PairSims(snap, Zones(snap)),
       RegionSims(snap, Regions(snap)));
    var name := snap.tservers[i].DisplayName();
    OutcomeIs(snap, "Lose " + name, NodeLoss, [name], {snap.tservers[i].id});
  }

  /** Then the zones by key, each called by the zone name of its first server, or by the key
      if that name is empty, and losing the servers with that key and no others. */
  lemma ZoneSimulation(snap: Snapshot, q: nat, i: nat)
    requires q < |Zones(snap)| && FirstAt(snap.tservers, ZoneKey(), Zones(snap)[q], i)
    ensures |Report(snap).simulations| > |snap.tservers| + q
    ensures var sim := Report(snap).simulations[|snap.tservers| + q];
            && sim.kind == AZLoss && sim.name == "Lose " + ZoneTitle(snap.tservers[i].placement)
            && Loses(snap, sim, ZoneKey(), Zones(snap)[q])
  {
    ZoneSimIs(snap, Zones(snap)[q], i);
    ZoneStands(snap, q);
  }

  lemma ZoneStands(snap: Snapshot, q: nat)
    requires q < |Zones(snap)|
    ensures |Simulations(snap)| > |snap.tservers| + q && InZone(snap, Zones(snap)[q]) != []
    ensures Simulations(snap)[|snap.tservers| + q] == ZoneSim(snap, Zones(snap)[q])
  {
    GroupsNonempty(snap);
    NodeSimsCount(snap, snap.tservers);
    ZoneSimAt(snap, Zones(snap), q);
    At(NodeSims(snap, snap.tservers), ZoneSims(snap, Zones(snap)), PairSims(snap, Zones(snap)),
       RegionSims(snap, Regions(snap)));
  }

  /** Then, if there are two, the first two zones together, one's servers after the other's. */
  lemma PairSimulation(snap: Snapshot, i: nat, j: nat) returns (a: seq<string>, b: seq<string>)
    requires |Zones(snap)| >= 2
    requires FirstAt(snap.tservers, ZoneKey(), Zones(snap)[0], i)
    requires FirstAt(snap.tservers, ZoneKey(), Zones(snap)[1], j)
    ensures |Report(snap).simulations| > |snap.tservers| + |Zones(snap)|
    ensures var sim := Report(snap).simulations[|snap.tservers| + |Zones(snap)|];
            && sim.kind == AZPairLoss
            && sim.name == "Lose " + (ZoneTitle(snap.tservers[i].placement) + " + "
                                      + ZoneTitle(snap.tservers[j].placement))
            && sim.lost == a + b
    ensures NamesOfGroup(a, snap.tservers, ZoneKey(), Zones(snap)[0])
    ensures NamesOfGroup(b, snap.tservers, ZoneKey(), Zones(snap)[1])
  {
    a, b := PairSimIs(snap, Zones(snap)[0], Zones(snap)[1], i, j);
    PairStands(snap);
  }

  lemma PairStands(snap: Snapshot)
    requires |Zones(snap)| >= 2
    ensures |Simulations(snap)| > |snap.tservers| + |Zones(snap)|
    ensures InZone(snap, Zones(snap)[0]) != [] && InZone(snap, Zones(snap)[1]) != []
    ensures Simulations(snap)[|snap.tservers| + |Zones(snap)|] == PairSim(snap, Zones(snap)[0], Zones(snap)[1])
  {
    GroupsNonempty(snap);
    var zs := Zones(snap);
    assert zs[0] in zs && zs[1] in zs;
    NodeSimsCount(snap, snap.tservers);
    ZoneSimsCount(snap, zs);
    At(NodeSims(snap, snap.tservers), ZoneSims(snap, zs), PairSims(snap, zs), RegionSims(snap, Regions(snap)));
    assert PairSims(snap, zs)[0] == PairSim(snap, zs[0], zs[1]);
  }

  /** Last the regions by key, called by the region name of the first server or by the key. */
  lemma RegionSimulation(snap: Snapshot, q: nat, i: nat)
    requires q < |Regions(snap)| && FirstAt(snap.tservers, RegionKey(), Regions(snap)[q], i)
    ensures |Report(snap).simulations| > |snap.tservers| + |Zones(snap)| + Pairs(snap) + q
    ensures var sim := Report(snap).simulations[|snap.tservers| + |Zones(snap)| + Pairs(snap) + q];
            && sim.kind == RegionLoss && sim.name == "Lose " + RegionTitle(snap.tservers[i].placement)
            && Loses(snap, sim, RegionKey(), Regions(snap)[q])
  {
    RegionSimIs(snap, Regions(snap)[q], i);
    RegionStands(snap, q);
  }

  lemma RegionStands(snap: Snapshot, q: nat)
    requires q < |Regions(snap)|
    ensures |Simulations(snap)| > |snap.tservers| + |Zones(snap)| + Pairs(snap) + q
    ensures InRegion(snap, Regions(snap)[q]) != []
    ensures Simulations(snap)[|snap.tservers| + |Zones(snap)| + Pairs(snap) + q] == RegionSim(snap, Regions(snap)[q])
  {
    GroupsNonempty(snap);
    RegionSimAt(snap, Regions(snap), q);
    EarlierSims(snap);
    var earlier := NodeSims(snap, snap.tservers) + (ZoneSims(snap, Zones(snap)) + PairSims(snap, Zones(snap)));
    assert Simulations(snap) == earlier + RegionSims(snap, Regions(snap));
  }

  lemma EarlierSims(snap: Snapshot)
    requires forall z :: z in Zones(snap) ==> InZone(snap, z) != []
    ensures |NodeSims(snap, snap.tservers) + (ZoneSims(snap, Zones(snap)) + PairSims(snap, Zones(snap)))| ==
            |snap.tservers| + |Zones(snap)| + Pairs(snap)
  {
    NodeSimsCount(snap, snap.tservers);
    ZoneSimsCount(snap, Zones(snap));
  }

  // ----- the tree

  lemma {:induction false} BranchesCount(snap: Snapshot, rs: seq<string>)
    requires forall r :: r in rs ==> InRegion(snap, r) != []
    ensures |Branches(snap, rs)| == |rs|
  {
    if rs != [] {
      BranchesCount(snap, rs[..|rs| - 1]);
    }
  }

  lemma {:induction false} BranchAt(snap: Snapshot, rs: seq<string>, q: nat)
    requires q < |rs| && forall r :: r in rs ==> InRegion(snap, r) != []
    ensures |Branches(snap, rs)| == |rs|
    ensures rs[q] in rs && Branches(snap, rs)[q] == Branch(snap, rs[q])
  {
    BranchesCount(snap, rs);
    var n := |rs| - 1;
    BranchesCount(snap, rs[..n]);
    if q < n {
      BranchAt(snap, rs[..n], q);
    }
  }

  lemma {:induction false} AZBranchesCount(nodes: seq<TServer>, zones: seq<string>)
    ensures |AZBranches(nodes, zones)| == |zones|
  {
    if zones != [] {
      AZBranchesCount(nodes, zones[..|zones| - 1]);
    }
  }

  lemma {:induction false} AZBranchAt(nodes: seq<TServer>, zones: seq<string>, q: nat)
    requires q < |zones|
    ensures |AZBranches(nodes, zones)| == |zones| && AZBranches(nodes, zones)[q] == AZBranchOf(nodes, zones[q])
  {
    AZBranchesCount(nodes, zones);
    var n := |zones| - 1;
    AZBranchesCount(nodes, zones[..n]);
    if q < n {
      AZBranchAt(nodes, zones[..n], q);
    }
  }

  /** The names are those of the servers with the region key and the zone name, sorted. */
  ghost predicate NamesOfZone(names: seq<string>, nodes: seq<TServer>, r: string, z: string) {
    && Sorted(names)
    && forall name :: name in names <==> exists ts :: ts in nodes && ts.placement.RegionKey() == r
                                                     && ts.placement.zone == z && ts.DisplayName() == name
  }

  /** A branch of the tree is called like the region's simulation, and has a twig per zone
      name, in order, the nameless zone being called unspecified, that lists its servers. */
  ghost predicate Branched(snap: Snapshot, branch: RegionBranch, r: string, zones: seq<string>) {
    && StrictlySorted(zones)
    && (forall z :: z in zones <==> exists ts :: ts in snap.tservers && ts.placement.RegionKey() == r
                                                && ts.placement.zone == z)
    && |branch.zones| == |zones|
    && forall q :: 0 <= q < |zones| ==> Twig(snap, branch.zones[q], r, zones[q])
  }

  ghost predicate Twig(snap: Snapshot, twig: AZBranch, r: string, z: string) {
    twig.name == (if z == "" then "unspecified" else z) && NamesOfZone(twig.nodes, snap.tservers, r, z)
  }

  lemma TwigNames(snap: Snapshot, r: string, z: string)
    ensures NamesOfZone(AZBranchOf(InRegion(snap, r), z).nodes, snap.tservers, r, z)
  {
    var nodes := InRegion(snap, r);
    LostNames(snap.(tservers := nodes), ZoneName(), z);
    forall ts ensures ts in nodes <==> ts in snap.tservers && ts.placement.RegionKey() == r {
      MemberHasKey(snap.tservers, RegionKey(), r, ts);
    }
  }

  lemma BranchMeans(snap: Snapshot, r: string, i: nat) returns (zones: seq<string>)
    requires FirstAt(snap.tservers, RegionKey(), r, i)
    ensures InRegion(snap, r) != [] && Branch(snap, r).name == RegionTitle(snap.tservers[i].placement)
    ensures Branched(snap, Branch(snap, r), r, zones)
  {
    FirstMember(snap.tservers, RegionKey(), r, i);
    var nodes := InRegion(snap, r);
    zones := SortedSet(KeySet(nodes, ZoneName()));
    SortedSetSorts(KeySet(nodes, ZoneName()));
    AZBranchesCount(nodes, zones);
    forall ts ensures ts in nodes <==> ts in snap.tservers && ts.placement.RegionKey() == r {
      MemberHasKey(snap.tservers, RegionKey(), r, ts);
    }
    forall q | 0 <= q < |zones| ensures Twig(snap, AZBranches(nodes, zones)[q], r, zones[q]) {
      AZBranchAt(nodes, zones, q);
      TwigNames(snap, r, zones[q]);
    }
  }

  /** The tree has a branch per region, by key. */
  lemma TreeSpelledOut(snap: Snapshot, q: nat, i: nat) returns (zones: seq<string>)
    requires q < |Regions(snap)| && FirstAt(snap.tservers, RegionKey(), Regions(snap)[q], i)
    ensures |Report(snap).topologyTree| == |Regions(snap)|
    ensures Report(snap).topologyTree[q].name == RegionTitle(snap.tservers[i].placement)
    ensures Branched(snap, Report(snap).topologyTree[q], Regions(snap)[q], zones)
  {
    zones := BranchMeans(snap, Regions(snap)[q], i);
    GroupsNonempty(snap);
    BranchAt(snap, Regions(snap), q);
  }
}
