/** Comparing a health report to an earlier one. */
module Diff {
  import opened Strings
  import opened Domain
  import opened Tablets
  import opened Findings

  datatype NodeCountDelta = NodeCountDelta(name: string, before: int, after: int)

  /** Healthy members out of all. */
  datatype Headcount = Headcount(healthy: nat, total: nat)

  datatype HealthDiff = HealthDiff(
    baseline: string,
    scoreFrom: int, scoreTo: int,
    mastersFrom: Headcount, mastersTo: Headcount,
    tserversFrom: Headcount, tserversTo: Headcount,
    underReplicatedFrom: nat, underReplicatedTo: nat,
    leaderlessFrom: nat, leaderlessTo: nat,
    p99From: real, p99To: real,
    findingsAdded: seq<FindingCode>,
    findingsRemoved: seq<FindingCode>,
    leaders: seq<NodeCountDelta>)

  // ----- findings

  function Codes(findings: seq<Finding>): set<FindingCode> {
    set f | f in findings :: f.code
  }

  method CollectCodes(findings: seq<Finding>) returns (codes: set<FindingCode>)
    ensures codes == Codes(findings)
  {
    codes := {};
    for i := 0 to |findings|
      invariant codes == Codes(findings[..i])
    {
      assert findings[..i + 1] == findings[..i] + [findings[i]];
      codes := codes + {findings[i].code};
    }
    assert findings[..|findings|] == findings;
  }

  /** The codes of one set that the other lacks, gathered in any order, then sorted. */
  method Missing(codes: set<FindingCode>, from: set<FindingCode>) returns (out: seq<FindingCode>)
    ensures out == SortedSet(codes - from)
  {
    out := [];
    var left := codes;
    while left != {}
      invariant left <= codes
      invariant Distinct(out)
      invariant forall c :: c in out <==> c in codes - from && c !in left
      decreases |left|
    {
      var code :| code in left;
      left := left - {code};
      if code !in from {
        out := out + [code];
      }
    }
    SortedDistinctIsStrict(out);
    SortedSetUnique(SortStrings(out), codes - from);
    out := SortStrings(out);
  }

  method FindingDelta(prev: seq<Finding>, curr: seq<Finding>)
    returns (added: seq<FindingCode>, removed: seq<FindingCode>)
    ensures added == SortedSet(Codes(curr) - Codes(prev))
    ensures removed == SortedSet(Codes(prev) - Codes(curr))
  {
    var p := CollectCodes(prev);
    var c := CollectCodes(curr);
    added := Missing(c, p);
    removed := Missing(p, c);
  }

  // ----- leaders

  /** The leader count the rows give a name: the last row wins, an absent name has 0. */
  function LeadersNamed(rows: seq<NodeTabletStats>, name: string): int {
    if rows == [] then 0
    else if rows[|rows| - 1].name == name then rows[|rows| - 1].leaders
    else LeadersNamed(rows[..|rows| - 1], name)
  }

  function RowNames(rows: seq<NodeTabletStats>): set<string> {
    set r | r in rows :: r.name
  }

  /** The changed names among the given ones, in order. */
  function DeltasOver(names: seq<string>, prev: seq<NodeTabletStats>, curr: seq<NodeTabletStats>): seq<NodeCountDelta> {
    if names == [] then []
    else
      var name := names[|names| - 1];
      var a, b := LeadersNamed(prev, name), LeadersNamed(curr, name);
      DeltasOver(names[..|names| - 1], prev, curr) + (if a == b then [] else [NodeCountDelta(name, a, b)])
  }

  ghost function DeltasOf(prev: seq<NodeTabletStats>, curr: seq<NodeTabletStats>): seq<NodeCountDelta> {
    DeltasOver(SortedSet(RowNames(prev) + RowNames(curr)), prev, curr)
  }

  method LeaderTable(rows: seq<NodeTabletStats>) returns (table: map<string, int>)
    ensures table.Keys == RowNames(rows)
    ensures forall name :: (if name in table then table[name] else 0) == LeadersNamed(rows, name)
  {
    table := map[];
    for i := 0 to |rows|
      invariant table.Keys == RowNames(rows[..i])
      invariant forall name :: (if name in table then table[name] else 0) == LeadersNamed(rows[..i], name)
    {
      assert rows[..i + 1][..i] == rows[..i];
      assert rows[..i + 1] == rows[..i] + [rows[i]];
      table := table[rows[i].name := rows[i].leaders];
    }
    assert rows[..|rows|] == rows;
  }

  /** The names of the rows that are not among names yet, each once. */
  method AppendNames(names: seq<string>, seen: set<string>, rows: seq<NodeTabletStats>)
    returns (names': seq<string>, seen': set<string>)
    requires Distinct(names) && forall x :: x in names <==> x in seen
    ensures Distinct(names') && forall x :: x in names' <==> x in seen'
    ensures seen' == seen + RowNames(rows)
  {
    names', seen' := names, seen;
    for i := 0 to |rows|
      invariant Distinct(names') && forall x :: x in names' <==> x in seen'
      invariant seen' == seen + RowNames(rows[..i])
    {
      assert rows[..i + 1] == rows[..i] + [rows[i]];
      if rows[i].name in seen' { continue; }
      seen' := seen' + {rows[i].name};
      names' := names' + [rows[i].name];
    }
    assert rows[..|rows|] == rows;
  }

  method SortedNames(prev: seq<NodeTabletStats>, curr: seq<NodeTabletStats>) returns (names: seq<string>)
    ensures names == SortedSet(RowNames(prev) + RowNames(curr))
  {
    var seen;
    names, seen := AppendNames([], {}, curr);
    names, seen := AppendNames(names, seen, prev);
    SortedDistinctIsStrict(names);
    SortedSetUnique(SortStrings(names), RowNames(prev) + RowNames(curr));
    names := SortStrings(names);
  }

  lemma DeltasStep(names: seq<string>, prev: seq<NodeTabletStats>, curr: seq<NodeTabletStats>, i: nat)
    requires i < |names|
    ensures var a, b := LeadersNamed(prev, names[i]), LeadersNamed(curr, names[i]);
            DeltasOver(names[..i + 1], prev, curr) ==
            DeltasOver(names[..i], prev, curr) + (if a == b then [] else [NodeCountDelta(names[i], a, b)])
  {
    assert names[..i + 1][..i] == names[..i];
  }

  method LeaderDeltas(prev: seq<NodeTabletStats>, curr: seq<NodeTabletStats>) returns (out: seq<NodeCountDelta>)
    ensures out == DeltasOf(prev, curr)
  {
    var from := LeaderTable(prev);
    var names := SortedNames(prev, curr);
    var currMap := LeaderTable(curr);
    out := [];
    for i := 0 to |names|
      invariant out == DeltasOver(names[..i], prev, curr)
    {
      DeltasStep(names, prev, curr, i);
      var name := names[i];
      var a := if name in from then from[name] else 0;
      var b := if name in currMap then currMap[name] else 0;
      if a == b { continue; }
      out := out + [NodeCountDelta(name, a, b)];
    }
    assert names[..|names|] == names;
  }

  // ----- the whole diff

  ghost function DiffOf(baseline: string, prev: HealthReport, curr: HealthReport): HealthDiff {
    HealthDiff(
      baseline,
      prev.score, curr.score,
      Headcount(prev.topology.mastersHealthy, prev.topology.mastersTotal),
      Headcount(curr.topology.mastersHealthy, curr.topology.mastersTotal),
      Headcount(prev.topology.tserversHealthy, prev.topology.tserversTotal),
      Headcount(curr.topology.tserversHealthy, curr.topology.tserversTotal),
      prev.raft.underReplicated, curr.raft.underReplicated,
      prev.raft.leaderless, curr.raft.leaderless,
      prev.performance.p99YSQLMS, curr.performance.p99YSQLMS,
      SortedSet(Codes(curr.findings) - Codes(prev.findings)),
      SortedSet(Codes(prev.findings) - Codes(curr.findings)),
      DeltasOf(prev.tablets.perNode, curr.tablets.perNode))
  }

  method DiffReports(baseline: string, prev: Option<HealthReport>, curr: Option<HealthReport>)
    returns (diff: Option<HealthDiff>)
    ensures diff == if prev.Some? && curr.Some? then Some(DiffOf(baseline, prev.value, curr.value)) else None
  {
    if prev.None? || curr.None? {
      return None;
    }
    var p, c := prev.value, curr.value;
    var added, removed := FindingDelta(p.findings, c.findings);
    var leaders := LeaderDeltas(p.tablets.perNode, c.tablets.perNode);
    diff := Some(HealthDiff(
                   baseline,
                   p.score, c.score,
                   Headcount(p.topology.mastersHealthy, p.topology.mastersTotal),
                   Headcount(c.topology.mastersHealthy, c.topology.mastersTotal),
                   Headcount(p.topology.tserversHealthy, p.topology.tserversTotal),
                   Headcount(c.topology.tserversHealthy, c.topology.tserversTotal),
                   p.raft.underReplicated, c.raft.underReplicated,
                   p.raft.leaderless, c.raft.leaderless,
                   p.performance.p99YSQLMS, c.performance.p99YSQLMS,
                   added, removed, leaders));
  }

  // ----- a diff is a patch

  /** Overwrites a leader table with the deltas, first to last. */
  function Patched(table: map<string, int>, deltas: seq<NodeCountDelta>): map<string, int> {
    if deltas == [] then table
    else
      var d := deltas[|deltas| - 1];
      Patched(table, deltas[..|deltas| - 1])[d.name := d.after]
  }

  function Lookup(table: map<string, int>, name: string): int {
    if name in table then table[name] else 0
  }

  /** table is the leader table of the rows, an absent name counting 0. */
  ghost predicate Tabulates(table: map<string, int>, rows: seq<NodeTabletStats>) {
    forall name :: Lookup(table, name) == LeadersNamed(rows, name)
  }

  lemma {:induction false} DeltasPatch(table: map<string, int>, names: seq<string>, prev: seq<NodeTabletStats>,
                                       curr: seq<NodeTabletStats>, name: string)
    requires Tabulates(table, prev)
    ensures Lookup(Patched(table, DeltasOver(names, prev, curr)), name)
            == if name in names then LeadersNamed(curr, name) else LeadersNamed(prev, name)
  {
    if names != [] {
      var n := |names| - 1;
      assert names == names[..n] + [names[n]];
      var before := DeltasOver(names[..n], prev, curr);
      DeltasPatch(table, names[..n], prev, curr, name);
      var a, b := LeadersNamed(prev, names[n]), LeadersNamed(curr, names[n]);
      if a == b {
        assert DeltasOver(names, prev, curr) == before;
      } else {
        assert DeltasOver(names, prev, curr)[..|before|] == before;
      }
    }
  }

  /** The last row of a name gives its leader count. */
  lemma {:induction false} LastRowLeads(rows: seq<NodeTabletStats>, i: nat)
    requires i < |rows| && forall j :: i < j < |rows| ==> rows[j].name != rows[i].name
    ensures LeadersNamed(rows, rows[i].name) == rows[i].leaders
  {
    if i < |rows| - 1 {
      LastRowLeads(rows[..|rows| - 1], i);
    }
  }

  lemma {:induction false} UnnamedLeadsNothing(rows: seq<NodeTabletStats>, name: string)
    requires name !in RowNames(rows)
    ensures LeadersNamed(rows, name) == 0
  {
    if rows != [] {
      var n := |rows| - 1;
      assert rows[n] in rows;
      assert forall r :: r in rows[..n] ==> r in rows;
      UnnamedLeadsNothing(rows[..n], name);
    }
  }

  lemma {:induction false} DeltasAreChanges(names: seq<string>, prev: seq<NodeTabletStats>, curr: seq<NodeTabletStats>)
    requires StrictlySorted(names)
    ensures var ds := DeltasOver(names, prev, curr);
            && (forall i, j :: 0 <= i < j < |ds| ==> Less(ds[i].name, ds[j].name))
            && (forall d :: d in ds ==> d.name in names && d.before != d.after
                                        && d.before == LeadersNamed(prev, d.name)
                                        && d.after == LeadersNamed(curr, d.name))
  {
    if names != [] {
      var n := |names| - 1;
      assert names == names[..n] + [names[n]];
      DeltasAreChanges(names[..n], prev, curr);
      LastNameIsGreatest(names, DeltasOver(names[..n], prev, curr));
    }
  }

  lemma LastNameIsGreatest(names: seq<string>, ds: seq<NodeCountDelta>)
    requires names != [] && StrictlySorted(names)
    requires forall d :: d in ds ==> d.name in names[..|names| - 1]
    ensures forall i :: 0 <= i < |ds| ==> Less(ds[i].name, names[|names| - 1])
  {
    var n := |names| - 1;
    forall i | 0 <= i < |ds| ensures Less(ds[i].name, names[n]) {
      assert ds[i] in ds;
      var k :| 0 <= k < n && names[..n][k] == ds[i].name;
    }
  }

  predicate Reports(report: HealthReport, code: FindingCode) {
    exists f :: f in report.findings && f.code == code
  }

  /** Applied to one report's codes and leader table, the diff yields another's; and its
      other entries are read off the two reports. */
  ghost predicate Carries(d: HealthDiff, prev: HealthReport, table: map<string, int>, curr: HealthReport) {
    && (forall code :: Reports(curr, code) <==>
          code in d.findingsAdded || (Reports(prev, code) && code !in d.findingsRemoved))
    && Tabulates(Patched(table, d.leaders), curr.tablets.perNode)
    && ReadsOff(d, prev, curr)
  }

  ghost predicate ReadsOff(d: HealthDiff, prev: HealthReport, curr: HealthReport) {
    && d.scoreFrom == prev.score && d.scoreTo == curr.score
    && d.mastersFrom == Headcount(prev.topology.mastersHealthy, prev.topology.mastersTotal)
    && d.mastersTo == Headcount(curr.topology.mastersHealthy, curr.topology.mastersTotal)
    && d.tserversFrom == Headcount(prev.topology.tserversHealthy, prev.topology.tserversTotal)
    && d.tserversTo == Headcount(curr.topology.tserversHealthy, curr.topology.tserversTotal)
    && d.underReplicatedFrom == prev.raft.underReplicated && d.underReplicatedTo == curr.raft.underReplicated
    && d.leaderlessFrom == prev.raft.leaderless && d.leaderlessTo == curr.raft.leaderless
    && d.p99From == prev.performance.p99YSQLMS && d.p99To == curr.performance.p99YSQLMS
  }

  /** A diff is a patch: it carries the earlier report to the later one, the findings by
      code and the leader table by name. */
  lemma DiffIsPatch(baseline: string, prev: HealthReport, curr: HealthReport, table: map<string, int>)
    requires Tabulates(table, prev.tablets.perNode)
    ensures Carries(DiffOf(baseline, prev, curr), prev, table, curr)
  {
    var p, c := prev.tablets.perNode, curr.tablets.perNode;
    var names := SortedSet(RowNames(p) + RowNames(c));
    assert forall code :: Reports(prev, code) <==> code in Codes(prev.findings);
    assert forall code :: Reports(curr, code) <==> code in Codes(curr.findings);
    forall name ensures Lookup(Patched(table, DeltasOf(p, c)), name) == LeadersNamed(c, name) {
      DeltasPatch(table, names, p, c, name);
      if name !in names {
        UnnamedLeadsNothing(p, name);
        UnnamedLeadsNothing(c, name);
      }
    }
  }

  /** A diff mentions only what changed, each name or code once and in order. */
  lemma DiffIsMinimal(baseline: string, prev: HealthReport, curr: HealthReport)
    ensures var d := DiffOf(baseline, prev, curr);
            && StrictlySorted(d.findingsAdded) && StrictlySorted(d.findingsRemoved)
            && (forall code :: code in d.findingsAdded ==> !Reports(prev, code))
            && (forall code :: code in d.findingsRemoved ==> !Reports(curr, code))
            && (forall i, j :: 0 <= i < j < |d.leaders| ==> Less(d.leaders[i].name, d.leaders[j].name))
            && (forall delta :: delta in d.leaders ==>
                  && delta.before != delta.after
                  && delta.before == LeadersNamed(prev.tablets.perNode, delta.name)
                  && delta.after == LeadersNamed(curr.tablets.perNode, delta.name))
  {
    SortedSetSorts(Codes(curr.findings) - Codes(prev.findings));
    SortedSetSorts(Codes(prev.findings) - Codes(curr.findings));
    var names := SortedSet(RowNames(prev.tablets.perNode) + RowNames(curr.tablets.perNode));
    SortedSetSorts(RowNames(prev.tablets.perNode) + RowNames(curr.tablets.perNode));
    DeltasAreChanges(names, prev.tablets.perNode, curr.tablets.perNode);
  }

  function Reversed(deltas: seq<NodeCountDelta>): seq<NodeCountDelta> {
    if deltas == [] then []
    else
      var d := deltas[|deltas| - 1];
      Reversed(deltas[..|deltas| - 1]) + [NodeCountDelta(d.name, d.after, d.before)]
  }

  lemma {:induction false} DeltasSwap(names: seq<string>, prev: seq<NodeTabletStats>, curr: seq<NodeTabletStats>)
    ensures DeltasOver(names, curr, prev) == Reversed(DeltasOver(names, prev, curr))
  {
    if names != [] {
      var n := |names| - 1;
      DeltasSwap(names[..n], prev, curr);
      var ds, before := DeltasOver(names, prev, curr), DeltasOver(names[..n], prev, curr);
      if ds != before {
        assert ds[..|before|] == before;
      }
    }
  }

  /** Diffing the other way round swaps what was added with what was removed, and the two
      ends of every change. */
  lemma DiffSwaps(baseline: string, prev: HealthReport, curr: HealthReport)
    ensures var d, e := DiffOf(baseline, prev, curr), DiffOf(baseline, curr, prev);
            && e.findingsAdded == d.findingsRemoved && e.findingsRemoved == d.findingsAdded
            && e.leaders == Reversed(d.leaders)
            && e.scoreFrom == d.scoreTo && e.scoreTo == d.scoreFrom
  {
    var p, c := prev.tablets.perNode, curr.tablets.perNode;
    assert RowNames(p) + RowNames(c) == RowNames(c) + RowNames(p);
    DeltasSwap(SortedSet(RowNames(p) + RowNames(c)), p, c);
  }

  ghost predicate SameLeaders(prev: seq<NodeTabletStats>, curr: seq<NodeTabletStats>) {
    forall name :: LeadersNamed(prev, name) == LeadersNamed(curr, name)
  }

  lemma NoDeltasIff(prev: seq<NodeTabletStats>, curr: seq<NodeTabletStats>)
    ensures DeltasOf(prev, curr) == [] <==> SameLeaders(prev, curr)
  {
    var names := SortedSet(RowNames(prev) + RowNames(curr));
    if DeltasOf(prev, curr) == [] {
      var table := TableOf(prev);
      assert Patched(table, []) == table;
      forall name ensures LeadersNamed(prev, name) == LeadersNamed(curr, name) {
        assert Lookup(table, name) == LeadersNamed(prev, name);
        DeltasPatch(table, names, prev, curr, name);
        if name !in names {
          UnnamedLeadsNothing(prev, name);
          UnnamedLeadsNothing(curr, name);
        }
      }
    }
    if SameLeaders(prev, curr) {
      NoChanges(names, prev, curr);
    }
  }

  /** A diff lists nothing exactly when the two reports have the same codes and the same
      leader table; in particular a report diffed with itself lists nothing. */
  lemma DiffEmptyIff(baseline: string, prev: HealthReport, curr: HealthReport)
    ensures var d := DiffOf(baseline, prev, curr);
            (d.findingsAdded == [] && d.findingsRemoved == [] && d.leaders == [])
            <==> (Codes(prev.findings) == Codes(curr.findings)
                && SameLeaders(prev.tablets.perNode, curr.tablets.perNode))
  {
    EmptyDifferences(Codes(prev.findings), Codes(curr.findings));
    NoDeltasIff(prev.tablets.perNode, curr.tablets.perNode);
  }

  lemma EmptyDifferences(a: set<string>, b: set<string>)
    ensures SortedSet(b - a) == SortedSet(a - b) == [] <==> a == b
  {
    assert |SortedSet(a - b)| == |a - b| && |SortedSet(b - a)| == |b - a|;
    if a - b == {} && b - a == {} {
      assert a <= b && b <= a;
    }
  }

  lemma {:induction false} NoChanges(names: seq<string>, prev: seq<NodeTabletStats>, curr: seq<NodeTabletStats>)
    requires forall name :: LeadersNamed(prev, name) == LeadersNamed(curr, name)
    ensures DeltasOver(names, prev, curr) == []
  {
    if names != [] {
      NoChanges(names[..|names| - 1], prev, curr);
    }
  }

  lemma {:induction false} TableOf(rows: seq<NodeTabletStats>) returns (table: map<string, int>)
    ensures Tabulates(table, rows)
  {
    if rows == [] {
      table := map[];
    } else {
      var n := |rows| - 1;
      var before := TableOf(rows[..n]);
      table := before[rows[n].name := rows[n].leaders];
    }
  }
}
