/** Grouping TServers by a string key, and what the groups have to do with the whole. */
module Grouping {
  import opened Counting
  import opened Strings
  import opened Domain

  function ZoneKey(): TServer -> string {
    (ts: TServer) => ts.placement.Key()
  }

  function RegionKey(): TServer -> string {
    (ts: TServer) => ts.placement.RegionKey()
  }

  function ZoneName(): TServer -> string {
    (ts: TServer) => ts.placement.zone
  }

  function HasKey(key: TServer -> string, k: string): TServer -> bool {
    (ts: TServer) => key(ts) == k
  }

  function KeySet(nodes: seq<TServer>, key: TServer -> string): set<string> {
    set ts | ts in nodes :: key(ts)
  }

  /** The group of key k: its TServers, in the order of the input. */
  function Members(nodes: seq<TServer>, key: TServer -> string, k: string): seq<TServer> {
    Filter(nodes, HasKey(key, k))
  }

  function IDs(nodes: seq<TServer>): set<NodeID> {
    set ts | ts in nodes :: ts.id
  }

  function Names(nodes: seq<TServer>): seq<string> {
    seq(|nodes|, i requires 0 <= i < |nodes| => nodes[i].DisplayName())
  }

  method GroupList(nodes: seq<TServer>, key: TServer -> string) returns (out: map<string, seq<TServer>>)
    ensures out.Keys == KeySet(nodes, key)
    ensures forall k :: k in out ==> out[k] == Members(nodes, key, k)
    ensures forall k :: k in out ==> out[k] != []
  {
    out := map[];
    for i := 0 to |nodes|
      invariant out.Keys == KeySet(nodes[..i], key)
      invariant forall k :: k in out ==> out[k] == Members(nodes[..i], key, k)
      invariant forall k :: k !in out ==> Members(nodes[..i], key, k) == []
      invariant forall k :: k in out ==> out[k] != []
    {
      var ts := nodes[i];
      var k := key(ts);
      assert nodes[..i + 1] == nodes[..i] + [ts];
      forall k'
        ensures Members(nodes[..i + 1], key, k') == Members(nodes[..i], key, k') + (if k' == k then [ts] else [])
      {
        FilterStep(nodes, HasKey(key, k'), i);
      }
      out := out[k := (if k in out then out[k] else []) + [ts]];
    }
    assert nodes[..|nodes|] == nodes;
  }

  /** The groups, with their keys in the order the simulator visits them. */
  method SortedGroups(nodes: seq<TServer>, key: TServer -> string)
    returns (keys: seq<string>, groups: map<string, seq<TServer>>)
    ensures keys == SortedSet(KeySet(nodes, key))
    ensures forall k :: k in keys ==> k in groups && groups[k] == Members(nodes, key, k) && groups[k] != []
  {
    groups := GroupList(nodes, key);
    keys := CollectSorted(groups.Keys);
  }

  method IDsOf(nodes: seq<TServer>) returns (out: set<NodeID>)
    ensures out == IDs(nodes)
  {
    out := {};
    for i := 0 to |nodes|
      invariant out == IDs(nodes[..i])
    {
      assert nodes[..i + 1] == nodes[..i] + [nodes[i]];
      out := out + {nodes[i].id};
    }
    assert nodes[..|nodes|] == nodes;
  }

  method NamesOf(nodes: seq<TServer>) returns (out: seq<string>)
    ensures out == SortStrings(Names(nodes))
  {
    out := [];
    for i := 0 to |nodes|
      invariant out == Names(nodes)[..i]
    {
      out := out + [nodes[i].DisplayName()];
    }
    assert Names(nodes)[..|nodes|] == Names(nodes);
    out := SortStrings(out);
  }

  /** The keys of the nodes in order of first appearance, each once. */
  function FirstSeen(nodes: seq<TServer>, key: TServer -> string): (r: seq<string>)
    ensures Distinct(r)
    ensures forall k :: k in r <==> k in KeySet(nodes, key)
  {
    if nodes == [] then []
    else
      var n := |nodes| - 1;
      assert nodes == nodes[..n] + [nodes[n]];
      var r := FirstSeen(nodes[..n], key);
      if key(nodes[n]) in r then r else r + [key(nodes[n])]
  }

  method DistinctKeys(nodes: seq<TServer>, key: TServer -> string) returns (out: seq<string>)
    ensures out == FirstSeen(nodes, key)
  {
    out := [];
    var seen := {};
    for i := 0 to |nodes|
      invariant out == FirstSeen(nodes[..i], key)
      invariant forall k :: k in seen <==> k in out
    {
      assert nodes[..i + 1][..i] == nodes[..i];
      var k := key(nodes[i]);
      if k in seen { continue; }
      seen := seen + {k};
      out := out + [k];
    }
    assert nodes[..|nodes|] == nodes;
  }

  /** i is where key k first appears. */
  predicate FirstAt(nodes: seq<TServer>, key: TServer -> string, k: string, i: nat) {
    i < |nodes| && key(nodes[i]) == k && forall j :: 0 <= j < i ==> key(nodes[j]) != k
  }

  /** Keys that appear earlier come earlier. */
  lemma {:induction false} FirstSeenInOrder(nodes: seq<TServer>, key: TServer -> string, p: nat, q: nat, i: nat, j: nat)
    requires p < |FirstSeen(nodes, key)| && FirstAt(nodes, key, FirstSeen(nodes, key)[p], i)
    requires q < |FirstSeen(nodes, key)| && FirstAt(nodes, key, FirstSeen(nodes, key)[q], j)
    ensures p < q ==> i < j
  {
    if p < q {
      var n := |nodes| - 1;
      var before := FirstSeen(nodes[..n], key);
      assert nodes == nodes[..n] + [nodes[n]];
      assert before <= FirstSeen(nodes, key);
      SeenBefore(nodes, key, before[p], i);
      if q < |before| {
        SeenBefore(nodes, key, before[q], j);
        FirstSeenInOrder(nodes[..n], key, p, q, i, j);
      } else {
        assert FirstSeen(nodes, key)[q] == key(nodes[n]);
        assert i < n && n <= j;
      }
    }
  }

  lemma SeenBefore(nodes: seq<TServer>, key: TServer -> string, k: string, i: nat)
    requires nodes != [] && k in FirstSeen(nodes[..|nodes| - 1], key) && FirstAt(nodes, key, k, i)
    ensures i < |nodes| - 1 && FirstAt(nodes[..|nodes| - 1], key, k, i)
  {
    var n := |nodes| - 1;
    var ts :| ts in nodes[..n] && key(ts) == k;
    var m :| 0 <= m < n && nodes[..n][m] == ts;
  }

  lemma {:induction false} DistinctLength(s: seq<string>, keys: set<string>)
    requires Distinct(s)
    requires forall k :: k in s <==> k in keys
    ensures |s| == |keys|
  {
    if s == [] {
      assert keys == {};
    } else {
      var n := |s| - 1;
      assert s == s[..n] + [s[n]];
      DistinctLength(s[..n], keys - {s[n]});
    }
  }

  lemma FirstSeenLength(nodes: seq<TServer>, key: TServer -> string)
    ensures |FirstSeen(nodes, key)| == |KeySet(nodes, key)|
  {
    DistinctLength(FirstSeen(nodes, key), KeySet(nodes, key));
  }

  lemma MemberHasKey(nodes: seq<TServer>, key: TServer -> string, k: string, ts: TServer)
    ensures ts in Members(nodes, key, k) <==> ts in nodes && key(ts) == k
  {
    assert HasKey(key, k)(ts) == (key(ts) == k);
  }

  /** A key of the nodes has a non-empty group. */
  lemma MembersNonempty(nodes: seq<TServer>, key: TServer -> string, k: string)
    requires k in KeySet(nodes, key)
    ensures |Members(nodes, key, k)| > 0
  {
    var ts :| ts in nodes && key(ts) == k;
    MemberHasKey(nodes, key, k, ts);
  }

  // ----- the groups partition the nodes

  /** The groups of the given keys, one after the other. */
  function Flatten(nodes: seq<TServer>, key: TServer -> string, ks: seq<string>): seq<TServer> {
    if ks == [] then [] else Flatten(nodes, key, ks[..|ks| - 1]) + Members(nodes, key, ks[|ks| - 1])
  }

  function KeyAmong(key: TServer -> string, ks: seq<string>): TServer -> bool {
    (ts: TServer) => key(ts) in ks
  }

  lemma FilterBag(s: seq<TServer>, p: TServer -> bool)
    requires s != []
    ensures multiset(Filter(s, p)) ==
            multiset(Filter(s[..|s| - 1], p)) + (if p(s[|s| - 1]) then multiset{s[|s| - 1]} else multiset{})
  {
  }

  lemma {:induction false} FilterUnion(s: seq<TServer>, p: TServer -> bool, q: TServer -> bool, both: TServer -> bool)
    requires forall x :: x in s ==> both(x) == (p(x) || q(x)) && !(p(x) && q(x))
    ensures multiset(Filter(s, both)) == multiset(Filter(s, p)) + multiset(Filter(s, q))
  {
    if s != [] {
      var n := |s| - 1;
      assert s[n] in s;
      assert forall x :: x in s[..n] ==> x in s;
      FilterUnion(s[..n], p, q, both);
      FilterBag(s, p);
      FilterBag(s, q);
      FilterBag(s, both);
    }
  }

  lemma {:induction false} FlattenIsFilter(nodes: seq<TServer>, key: TServer -> string, ks: seq<string>)
    requires Distinct(ks)
    ensures multiset(Flatten(nodes, key, ks)) == multiset(Filter(nodes, KeyAmong(key, ks)))
  {
    if ks == [] {
      assert Filter(nodes, KeyAmong(key, ks)) == [] by {
        CountZero(nodes, KeyAmong(key, ks));
      }
    } else {
      var n := |ks| - 1;
      assert ks == ks[..n] + [ks[n]];
      FlattenIsFilter(nodes, key, ks[..n]);
      assert ks[n] !in ks[..n];
      FilterUnion(nodes, KeyAmong(key, ks[..n]), HasKey(key, ks[n]), KeyAmong(key, ks));
    }
  }

  /** Every TServer is in the groups exactly as often as in the input, and two
      groups share none: the groups of all keys, in any order of the keys, are a
      rearrangement of the nodes. */
  lemma GroupsPartition(nodes: seq<TServer>, key: TServer -> string, ks: seq<string>)
    requires Distinct(ks) && forall k :: k in ks <==> k in KeySet(nodes, key)
    ensures multiset(Flatten(nodes, key, ks)) == multiset(nodes)
    ensures forall k, k', ts ::
              ts in Members(nodes, key, k) && ts in Members(nodes, key, k') ==> k == k'
  {
    FlattenIsFilter(nodes, key, ks);
    FilterKeepsAll(nodes, KeyAmong(key, ks));
    forall k, k', ts | ts in Members(nodes, key, k) && ts in Members(nodes, key, k')
      ensures k == k'
    {
      MemberHasKey(nodes, key, k, ts);
      MemberHasKey(nodes, key, k', ts);
    }
  }

  function HasName(name: string): TServer -> bool {
    (ts: TServer) => ts.DisplayName() == name
  }

  lemma {:induction false} NameCount(nodes: seq<TServer>, name: string)
    ensures multiset(Names(nodes))[name] == CountIf(nodes, HasName(name))
  {
    if nodes == [] {
      assert Names(nodes) == [];
    } else {
      var n := |nodes| - 1;
      NameCount(nodes[..n], name);
      assert Names(nodes) == Names(nodes[..n]) + [nodes[n].DisplayName()];
    }
  }

  lemma NamesOfPermutation(a: seq<TServer>, b: seq<TServer>)
    requires multiset(a) == multiset(b)
    ensures multiset(Names(a)) == multiset(Names(b))
  {
    forall x: string
      ensures multiset(Names(a))[x] == multiset(Names(b))[x]
    {
      NameCount(a, x);
      NameCount(b, x);
      CountPermutation(a, b, HasName(x));
    }
  }

  lemma NamesConcat(a: seq<TServer>, b: seq<TServer>)
    ensures Names(a + b) == Names(a) + Names(b)
  {
  }

  // ----- zones counted two ways

  lemma {:induction false} InjectiveImage(a: set<string>, f: string -> string)
    requires forall x, y :: x in a && y in a && f(x) == f(y) ==> x == y
    ensures |set x | x in a :: f(x)| == |a|
    decreases |a|
  {
    if a == {} {
      assert (set x | x in a :: f(x)) == {};
    } else {
      var x :| x in a;
      InjectiveImage(a - {x}, f);
      assert (set y | y in a :: f(y)) == (set y | y in a - {x} :: f(y)) + {f(x)};
    }
  }

  predicate AllDotFree(nodes: seq<TServer>) {
    forall ts :: ts in nodes ==> ts.placement.DotFree()
  }

  /** On dot-free names two TServers of one zone are TServers of one region. */
  lemma ZoneRefinesRegion(a: TServer, b: TServer)
    requires a.placement.DotFree() && b.placement.DotFree()
    requires a.placement.Key() == b.placement.Key()
    ensures a.placement.RegionKey() == b.placement.RegionKey()
  {
    KeyIdentifiesPlacement(a.placement, b.placement);
  }

  /** Inside one region, zone names and zone keys are equally many. */
  lemma RegionZones(nodes: seq<TServer>, rk: string)
    requires AllDotFree(nodes)
    ensures |KeySet(Members(nodes, RegionKey(), rk), ZoneName())| ==
            |KeySet(Members(nodes, RegionKey(), rk), ZoneKey())|
  {
    var m := Members(nodes, RegionKey(), rk);
    forall ts | ts in m ensures ts.placement.DotFree() && ts.placement.RegionKey() == rk {
      MemberHasKey(nodes, RegionKey(), rk, ts);
    }
    var a := KeySet(m, ZoneName());
    if m == [] {
      assert a == KeySet(m, ZoneKey()) == {};
    } else {
      var p := m[0].placement;
      assert m[0] in m;
      var f := (z: string) => Placement(p.cloud, p.region, z).Key();
      forall x, y | x in a && y in a && f(x) == f(y) ensures x == y {
        KeyIdentifiesPlacement(Placement(p.cloud, p.region, x), Placement(p.cloud, p.region, y));
      }
      InjectiveImage(a, f);
      forall ts | ts in m ensures f(ts.placement.zone) == ts.placement.Key() {
        RegionKeyIdentifiesRegion(p, ts.placement);
        assert ts.placement == Placement(p.cloud, p.region, ts.placement.zone);
      }
      assert (set z | z in a :: f(z)) == KeySet(m, ZoneKey());
    }
  }

  /** The zones of the regions in rks, counted region by region. */
  function ZonesPerRegion(nodes: seq<TServer>, rks: seq<string>): nat {
    if rks == [] then 0
    else ZonesPerRegion(nodes, rks[..|rks| - 1]) + |KeySet(Members(nodes, RegionKey(), rks[|rks| - 1]), ZoneName())|
  }

  lemma {:induction false} ZonesOfRegions(nodes: seq<TServer>, rks: seq<string>)
    requires AllDotFree(nodes) && Distinct(rks)
    ensures ZonesPerRegion(nodes, rks) == |KeySet(Filter(nodes, KeyAmong(RegionKey(), rks)), ZoneKey())|
  {
    var covered := Filter(nodes, KeyAmong(RegionKey(), rks));
    if rks == [] {
      CountZero(nodes, KeyAmong(RegionKey(), rks));
      assert KeySet(covered, ZoneKey()) == {};
    } else {
      var n := |rks| - 1;
      assert rks == rks[..n] + [rks[n]];
      ZonesOfRegions(nodes, rks[..n]);
      RegionZones(nodes, rks[n]);
      ZonesOfAnotherRegion(nodes, rks[..n], rks[n]);
    }
  }

  lemma ZonesOfAnotherRegion(nodes: seq<TServer>, rks: seq<string>, rk: string)
    requires AllDotFree(nodes) && rk !in rks
    ensures |KeySet(Filter(nodes, KeyAmong(RegionKey(), rks + [rk])), ZoneKey())| ==
            |KeySet(Filter(nodes, KeyAmong(RegionKey(), rks)), ZoneKey())| +
            |KeySet(Members(nodes, RegionKey(), rk), ZoneKey())|
  {
    var covered := Filter(nodes, KeyAmong(RegionKey(), rks + [rk]));
    var before := Filter(nodes, KeyAmong(RegionKey(), rks));
    var group := Members(nodes, RegionKey(), rk);
    forall ts ensures ts in group <==> ts in nodes && ts.placement.RegionKey() == rk {
      MemberHasKey(nodes, RegionKey(), rk, ts);
    }
    forall ts ensures ts in covered <==> ts in before || ts in group {
      assert KeyAmong(RegionKey(), rks + [rk])(ts) == (ts.placement.RegionKey() in rks + [rk]);
      assert KeyAmong(RegionKey(), rks)(ts) == (ts.placement.RegionKey() in rks);
    }
    var zb, zg := KeySet(before, ZoneKey()), KeySet(group, ZoneKey());
    assert KeySet(covered, ZoneKey()) == zb + zg;
    assert zb !! zg by {
      forall k | k in zb ensures k !in zg {
        var a :| a in before && a.placement.Key() == k;
        forall b | b in group ensures b.placement.Key() != k {
          if b.placement.Key() == k { ZoneRefinesRegion(a, b); }
        }
      }
    }
  }

  /** Counting the zones region by region counts every zone of the snapshot once. */
  lemma ZonesCountedOnce(nodes: seq<TServer>, rks: seq<string>)
    requires AllDotFree(nodes) && Distinct(rks)
    requires forall k :: k in rks <==> k in KeySet(nodes, RegionKey())
    ensures ZonesPerRegion(nodes, rks) == |KeySet(nodes, ZoneKey())|
  {
    ZonesOfRegions(nodes, rks);
    FilterKeepsAll(nodes, KeyAmong(RegionKey(), rks));
  }
}
