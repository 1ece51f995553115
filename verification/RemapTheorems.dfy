/** When renaming the planned counts leaves Expand no choice. */
module RemapTheorems {
  import opened Domain
  import opened Fixture
  import opened Faults
  import opened FixtureTheorems
  import opened FixtureExact

  /** Keys that denote one node agree on its count. */
  ghost predicate Agreeing(counts: map<string, int>, byName: map<string, NodeID>) {
    forall a, b :: a in counts && b in counts && Resolve(byName, a) == Resolve(byName, b) ==> counts[a] == counts[b]
  }

  /** Whatever order the keys are visited in, the result is the same. */
  ghost predicate OneRemapping(counts: map<string, int>, byName: map<string, NodeID>) {
    forall a, b :: IsRemapped(counts, byName, a) && IsRemapped(counts, byName, b) ==> a == b
  }

  function Denoted(counts: map<string, int>, byName: map<string, NodeID>): set<NodeID> {
    set k | k in counts :: Resolve(byName, k)
  }

  ghost function KeyOf(counts: map<string, int>, byName: map<string, NodeID>, id: NodeID): (k: string)
    requires id in Denoted(counts, byName)
    ensures k in counts && Resolve(byName, k) == id
  {
    var k :| k in counts && Resolve(byName, k) == id;
    k
  }

  /** A visit that ends in a key leaves its count on the node it denotes. */
  lemma LastKeyWins(counts: map<string, int>, byName: map<string, NodeID>, k: string) returns (out: Counts)
    requires k in counts
    ensures IsRemapped(counts, byName, out) && out[Resolve(byName, k)] == counts[k]
  {
    out := map id | id in Denoted(counts, byName) :: counts[KeyOf(counts, byName, id)];
    out := out[Resolve(byName, k) := counts[k]];
    forall id | id in out ensures exists j :: j in counts && Resolve(byName, j) == id && counts[j] == out[id] {
      var j := if id == Resolve(byName, k) then k else KeyOf(counts, byName, id);
      assert j in counts && Resolve(byName, j) == id && counts[j] == out[id];
    }
  }

  /** Agreeing counts land on the nodes they are meant for. */
  lemma AgreeingCountsLand(counts: map<string, int>, byName: map<string, NodeID>, out: Counts)
    requires Agreeing(counts, byName) && IsRemapped(counts, byName, out)
    ensures out.Keys == Denoted(counts, byName)
    ensures forall k :: k in counts ==> out[Resolve(byName, k)] == counts[k]
  {
    forall k | k in counts ensures out[Resolve(byName, k)] == counts[k] {
      var j :| j in counts && Resolve(byName, j) == Resolve(byName, k) && counts[j] == out[Resolve(byName, k)];
    }
  }

  /** The planned counts have one remapping exactly if keys that denote one node agree on
      its count; colliding keys with equal counts do no harm. */
  lemma OneRemappingIff(counts: map<string, int>, byName: map<string, NodeID>)
    ensures OneRemapping(counts, byName) <==> Agreeing(counts, byName)
  {
    if Agreeing(counts, byName) {
      forall a, b | IsRemapped(counts, byName, a) && IsRemapped(counts, byName, b) ensures a == b {
        AgreeingCountsLand(counts, byName, a);
        AgreeingCountsLand(counts, byName, b);
        assert forall id :: id in a ==> a[id] == counts[KeyOf(counts, byName, id)];
      }
    } else {
      var j, k :| j in counts && k in counts && Resolve(byName, j) == Resolve(byName, k) && counts[j] != counts[k];
      var a := LastKeyWins(counts, byName, j);
      var b := LastKeyWins(counts, byName, k);
      assert a[Resolve(byName, j)] != b[Resolve(byName, j)];
    }
  }

  lemma SameFaults(tablets: seq<Tablet>, plan: Plan, a: seq<Tablet>, b: seq<Tablet>)
    requires FaultedTablets(tablets, plan, a) && FaultedTablets(tablets, plan, b)
    ensures a == b
  {
  }

  /** A plan expands to the same tablets every time if its planned counts agree, or if it
      plans no leaders and the default counts are used. */
  lemma ExpansionDetermined(plan: Plan, a: seq<Tablet>, b: seq<Tablet>)
    requires plan.tservers != [] && IsExpansion(plan, a) && IsExpansion(plan, b)
    requires var byName := NamesToIDs(plan.tservers);
             |plan.leaders| == 0 || (Agreeing(plan.leaders, byName) && Agreeing(plan.followers, byName))
    ensures a == b
  {
    var byName := NamesToIDs(plan.tservers);
    OneRemappingIff(plan.leaders, byName);
    OneRemappingIff(plan.followers, byName);
    var leaders, followers :|
      PlanCounts(plan, leaders, followers) && FaultedTablets(Expanded(leaders, followers, PlanRF(plan)), plan, a);
    var leaders', followers' :|
      PlanCounts(plan, leaders', followers') && FaultedTablets(Expanded(leaders', followers', PlanRF(plan)), plan, b);
    assert leaders == leaders' && followers == followers';
    SameFaults(Expanded(leaders, followers, PlanRF(plan)), plan, a, b);
  }

  // ----- a plan that expands in two ways

  /** One server, wanted to lead one tablet by its id and two by its name. */
  function AmbiguousPlan(ts: TServer): Plan {
    Plan(1, [], [ts], map[ts.id := 1, ts.name := 2], map[], 0, 0, 0, 0, Performance(0.0, map[]))
  }

  lemma NamesOfOne(ts: TServer)
    requires ts.name != ""
    ensures NamesToIDs([ts]) == map[ts.name := ts.id]
  {
    var none: seq<TServer> := [];
    assert [ts][..0] == none && NamesToIDs(none) == map[];
    assert NamesToIDs([ts]) == NamesToIDs(none)[ts.name := ts.id];
  }

  lemma AmbiguousCounts(ts: TServer, n: int)
    requires ts.name != "" && ts.name != ts.id && 1 <= n <= 2
    ensures PlanCounts(AmbiguousPlan(ts), map[ts.id := n], map[])
  {
    var plan := AmbiguousPlan(ts);
    var byName := NamesToIDs(plan.tservers);
    NamesOfOne(ts);
    assert ts.id in plan.leaders && ts.name in plan.leaders;
    var key := if n == 1 then ts.id else ts.name;
    assert Resolve(byName, key) == ts.id && plan.leaders[key] == n;
  }

  lemma AmbiguousExpansion(ts: TServer, n: nat) returns (tablets: seq<Tablet>)
    requires ts.name != "" && ts.name != ts.id && 1 <= n <= 2
    ensures IsExpansion(AmbiguousPlan(ts), tablets) && |tablets| == n
  {
    var plan, leaders := AmbiguousPlan(ts), (map[])[ts.id := n];
    AmbiguousCounts(ts, n);
    TotalUpdate(map[], ts.id, n);
    QueueLength(leaders);
    ExpandedAt(leaders, map[], 1);
    var out := Expanded(leaders, map[], 1);
    tablets := seq(|out|, i requires 0 <= i < |out| => FaultedAt(out, plan, i));
    assert FaultedTablets(out, plan, tablets);
  }

  /** Any server whose name is not its id admits a plan with expansions of different size. */
  lemma ExpansionCanDiffer(ts: TServer) returns (a: seq<Tablet>, b: seq<Tablet>)
    requires ts.name != "" && ts.name != ts.id
    ensures IsExpansion(AmbiguousPlan(ts), a) && |a| == 1
    ensures IsExpansion(AmbiguousPlan(ts), b) && |b| == 2
  {
    a := AmbiguousExpansion(ts, 1);
    b := AmbiguousExpansion(ts, 2);
  }
}
