/** Exactly when the order in which Go ranges over the nodes shows in the findings. */
module FindingsOrder {
  import opened Counting
  import opened StableSort
  import opened Domain
  import opened Config
  import opened Raft
  import opened Tablets
  import opened Score
  import opened Findings
  import opened FindingsTheorems

  // ----- nodes with findings of one kind

  /** The nodes with a disk finding. */
  function FullDisks(snap: Snapshot, th: Thresholds): set<string> {
    var nodes := snap.performance.nodes;
    set name | name in nodes && !CompactionBacklog(nodes[name], th) && nodes[name].diskPercent >= th.diskHighPercent
  }

  /** The two nodes have a finding each, with the same code. */
  predicate Alike(nodes: map<string, NodeRuntime>, th: Thresholds, x: string, y: string)
    requires x in nodes && y in nodes
  {
    var f, g := NodeFindings(x, nodes[x], th), NodeFindings(y, nodes[y], th);
    f != [] && g != [] && f[0].code == g[0].code
  }

  ghost predicate NoTwoAlike(nodes: map<string, NodeRuntime>, th: Thresholds) {
    forall x, y :: x in nodes && y in nodes && Alike(nodes, th, x, y) ==> x == y
  }

  lemma AtMostOne(s: set<string>)
    ensures |s| <= 1 <==> forall x, y :: x in s && y in s ==> x == y
  {
    if x, y :| x in s && y in s && x != y {
      assert {x, y} <= s;
      SubsetSize({x, y}, s);
    } else if s != {} {
      var x :| x in s;
      assert s == {x};
    }
  }

  lemma NoTwoAlikeIff(snap: Snapshot, th: Thresholds)
    ensures NoTwoAlike(snap.performance.nodes, th) <==> |BackloggedNodes(snap, th)| <= 1 && |FullDisks(snap, th)| <= 1
  {
    CodesDiffer();
    AtMostOne(BackloggedNodes(snap, th));
    AtMostOne(FullDisks(snap, th));
    var nodes, low, full := snap.performance.nodes, BackloggedNodes(snap, th), FullDisks(snap, th);
    forall x, y | x in nodes && y in nodes
      ensures Alike(nodes, th, x, y) <==> (x in low && y in low) || (x in full && y in full)
    {
    }
  }

  // ----- one list of findings

  lemma {:induction false} FromSomeNode(order: seq<string>, nodes: map<string, NodeRuntime>, th: Thresholds, f: Finding)
    returns (name: string)
    requires (forall k :: k in order ==> k in nodes) && f in NodeFindingsIn(order, nodes, th)
    ensures name in order && NodeFindings(name, nodes[name], th) == [f] && f.node == name && f.severity == High
  {
    var n := |order| - 1;
    assert order == order[..n] + [order[n]];
    if f in NodeFindings(order[n], nodes[order[n]], th) {
      name := order[n];
    } else {
      name := FromSomeNode(order[..n], nodes, th, f);
    }
  }

  lemma FindingsOfCodeAgree(order: seq<string>, nodes: map<string, NodeRuntime>, th: Thresholds, f: Finding, g: Finding)
    requires NoTwoAlike(nodes, th) && forall k :: k in order ==> k in nodes
    requires f in NodeFindingsIn(order, nodes, th) && g in NodeFindingsIn(order, nodes, th) && f.code == g.code
    ensures f == g
  {
    var x := FromSomeNode(order, nodes, th, f);
    var y := FromSomeNode(order, nodes, th, g);
    assert Alike(nodes, th, x, y);
  }

  /** Two arrangements of one bag agree on the elements that satisfy p if these are all
      the same. */
  lemma OneElementFilters(a: seq<Finding>, b: seq<Finding>, p: Finding -> bool)
    requires multiset(a) == multiset(b)
    requires forall f, g :: f in a && g in a && p(f) && p(g) ==> f == g
    ensures Filter(a, p) == Filter(b, p)
  {
    CountPermutation(a, b, p);
    forall i | 0 <= i < |Filter(a, p)| ensures Filter(a, p)[i] == Filter(b, p)[i] {
      var f, g := Filter(a, p)[i], Filter(b, p)[i];
      assert f in Filter(a, p) && g in Filter(b, p);
      assert g in multiset(b) && g in multiset(a);
    }
  }

  /** Lists that agree on ranks, and on the findings of every rank, are equal. */
  lemma {:induction false} FixedByFilters(a: seq<Finding>, b: seq<Finding>)
    requires SameRanks(a, b)
    requires forall severity, code :: Filter(a, SameRank(severity, code)) == Filter(b, SameRank(severity, code))
    ensures a == b
  {
    if a != [] {
      var n := |a| - 1;
      LastAgrees(a, b);
      forall severity, code
        ensures Filter(a[..n], SameRank(severity, code)) == Filter(b[..n], SameRank(severity, code))
      {
        PrefixFilters(a, b, SameRank(severity, code));
      }
      FixedByFilters(a[..n], b[..n]);
      assert a == a[..n] + [a[n]] && b == b[..n] + [b[n]];
    }
  }

  lemma LastAgrees(a: seq<Finding>, b: seq<Finding>)
    requires SameRanks(a, b) && a != []
    requires forall severity, code :: Filter(a, SameRank(severity, code)) == Filter(b, SameRank(severity, code))
    ensures a[|a| - 1] == b[|b| - 1]
  {
    var f := a[|a| - 1];
    LastOfFilter(a, SameRank(f.severity, f.code));
    LastOfFilter(b, SameRank(f.severity, f.code));
  }

  lemma PrefixFilters(a: seq<Finding>, b: seq<Finding>, p: Finding -> bool)
    requires a != [] && b != [] && Filter(a, p) == Filter(b, p) && p(a[|a| - 1]) == p(b[|b| - 1])
    ensures Filter(a[..|a| - 1], p) == Filter(b[..|b| - 1], p)
  {
    if p(a[|a| - 1]) {
      var c, d := Filter(a[..|a| - 1], p), Filter(b[..|b| - 1], p);
      assert c == Filter(a, p)[..|Filter(a, p)| - 1] && d == Filter(b, p)[..|Filter(b, p)| - 1];
    }
  }

  lemma LastOfFilter(a: seq<Finding>, p: Finding -> bool)
    requires a != [] && p(a[|a| - 1])
    ensures Filter(a, p) != [] && Filter(a, p)[|Filter(a, p)| - 1] == a[|a| - 1]
  {
  }

  lemma SameFilters(a: seq<Finding>, m: seq<Finding>, n: seq<Finding>, c: seq<Finding>, p: Finding -> bool)
    requires Filter(m, p) == Filter(n, p)
    ensures Filter(a + m + c, p) == Filter(a + n + c, p)
  {
    FilterConcat(a + m, c, p);
    FilterConcat(a, m, p);
    FilterConcat(a + n, c, p);
    FilterConcat(a, n, p);
  }

  lemma NodeFiltersAgree(a: seq<string>, b: seq<string>, nodes: map<string, NodeRuntime>, th: Thresholds,
                         severity: Severity, code: FindingCode)
    requires NoTwoAlike(nodes, th) && Enumerates(a, nodes.Keys) && Enumerates(b, nodes.Keys)
    ensures Filter(NodeFindingsIn(a, nodes, th), SameRank(severity, code)) ==
            Filter(NodeFindingsIn(b, nodes, th), SameRank(severity, code))
  {
    DistinctSameBag(a, b);
    NodeFindingsBag(a, b, nodes, th);
    var fs, p := NodeFindingsIn(a, nodes, th), SameRank(severity, code);
    forall f, g | f in fs && g in fs && p(f) && p(g) ensures f == g {
      FindingsOfCodeAgree(a, nodes, th, f, g);
    }
    OneElementFilters(fs, NodeFindingsIn(b, nodes, th), p);
  }

  lemma FoundFiltersAgree(snap: Snapshot, th: Thresholds, a: HealthReport, b: HealthReport, sc: Scoring,
                          found: seq<Finding>, found': seq<Finding>, severity: Severity, code: FindingCode)
    requires IsReport(snap, th, sc, a) && IsReport(snap, th, sc, b) && NoTwoAlike(snap.performance.nodes, th)
    requires IsFindings(snap, a.tablets, a.raft, th, found) && IsFindings(snap, b.tablets, b.raft, th, found')
    ensures Filter(found, SameRank(severity, code)) == Filter(found', SameRank(severity, code))
  {
    var order, hot :| FindingsInOrder(snap, a.tablets, a.raft, th, found, order, hot);
    var order', hot' :| FindingsInOrder(snap, b.tablets, b.raft, th, found', order', hot');
    SummaryDetermined(snap, th, a.tablets, b.tablets);
    BlameUnique(snap, a.tablets, b.tablets, hot, hot');
    FirstFindingsAgree(snap, a.tablets, b.tablets, a.raft, hot);
    NodeFiltersAgree(order, order', snap.performance.nodes, th, severity, code);
    SameFilters(FirstFindings(snap, a.tablets, a.raft, hot), NodeFindingsIn(order, snap.performance.nodes, th),
                NodeFindingsIn(order', snap.performance.nodes, th), LastFindings(snap, th), SameRank(severity, code));
  }

  lemma SameFindings(snap: Snapshot, th: Thresholds, sc: Scoring, a: HealthReport, b: HealthReport)
    requires IsReport(snap, th, sc, a) && IsReport(snap, th, sc, b) && NoTwoAlike(snap.performance.nodes, th)
    ensures a.findings == b.findings
  {
    ReportDetermined(snap, th, sc, a, b);
    var found :| IsFindings(snap, a.tablets, a.raft, th, found) && IsSortOf(a.findings, found);
    var found' :| IsFindings(snap, b.tablets, b.raft, th, found') && IsSortOf(b.findings, found');
    forall severity, code
      ensures Filter(a.findings, SameRank(severity, code)) == Filter(b.findings, SameRank(severity, code))
    {
      FoundFiltersAgree(snap, th, a, b, sc, found, found', severity, code);
    }
    FixedByFilters(a.findings, b.findings);
  }

  // ----- two lists of findings

  lemma {:induction false} NodeFindingsConcat(a: seq<string>, b: seq<string>, nodes: map<string, NodeRuntime>,
                                              th: Thresholds)
    requires (forall k :: k in a ==> k in nodes) && forall k :: k in b ==> k in nodes
    ensures forall k :: k in a + b ==> k in nodes
    ensures NodeFindingsIn(a + b, nodes, th) == NodeFindingsIn(a, nodes, th) + NodeFindingsIn(b, nodes, th)
  {
    if b == [] {
      assert a + b == a;
    } else {
      var n := |b| - 1;
      NodeFindingsConcat(a, b[..n], nodes, th);
      assert (a + b)[..|a + b| - 1] == a + b[..n] && (a + b)[|a + b| - 1] == b[n];
      ConcatAssociates(NodeFindingsIn(a, nodes, th), NodeFindingsIn(b[..n], nodes, th),
                       NodeFindings(b[n], nodes[b[n]], th));
    }
  }

  function ToFront(order: seq<string>, j: nat): seq<string>
    requires j < |order|
  {
    [order[j]] + (order[..j] + order[j + 1..])
  }

  lemma ToFrontEnumerates(order: seq<string>, j: nat, keys: set<string>)
    requires j < |order| && Enumerates(order, keys)
    ensures Enumerates(ToFront(order, j), keys)
  {
    var front := ToFront(order, j);
    assert order == order[..j] + [order[j]] + order[j + 1..];
    assert forall i :: 0 <= i < j ==> front[i + 1] == order[i];
    assert forall i :: j < i < |order| ==> front[i] == order[i];
    forall k ensures k in front <==> k in order {
    }
  }

  /** The first finding of a kind is that of the first node that has one. */
  lemma FirstOfKind(order: seq<string>, rest: seq<string>, nodes: map<string, NodeRuntime>, th: Thresholds,
                    x: string, code: FindingCode)
    requires (forall k :: k in order ==> k in nodes) && forall k :: k in rest ==> k in nodes
    requires x in order && NodeFindings(x, nodes[x], th) != [] && NodeFindings(x, nodes[x], th)[0].code == code
    ensures forall k :: k in order + rest ==> k in nodes
    ensures var fs := Filter(NodeFindingsIn(order + rest, nodes, th), SameRank(High, code));
            fs != [] && fs[0].node in order
  {
    NodeFindingsConcat(order, rest, nodes, th);
    var fs, p := NodeFindingsIn(order, nodes, th), SameRank(High, code);
    FilterConcat(fs, NodeFindingsIn(rest, nodes, th), p);
    NodeFindingIsIn(order, nodes, th, x);
    assert NodeFindings(x, nodes[x], th)[0] in Filter(fs, p);
    var first := Filter(fs, p)[0];
    assert first in Filter(fs, p);
    var name := FromSomeNode(order, nodes, th, first);
  }

  lemma {:induction false} NodeFindingIsIn(order: seq<string>, nodes: map<string, NodeRuntime>, th: Thresholds,
                                           x: string)
    requires (forall k :: k in order ==> k in nodes) && x in order && NodeFindings(x, nodes[x], th) != []
    ensures NodeFindings(x, nodes[x], th)[0] in NodeFindingsIn(order, nodes, th)
  {
    var n := |order| - 1;
    if x != order[n] {
      assert order == order[..n] + [order[n]];
      NodeFindingIsIn(order[..n], nodes, th, x);
    }
  }

  /** Of two nodes with findings of one kind, moving the later one to the front changes
      which finding of the kind comes first. */
  lemma OrderShows(order: seq<string>, j: nat, nodes: map<string, NodeRuntime>, th: Thresholds, x: string)
    requires j < |order| && Enumerates(order, nodes.Keys) && x in order[..j] && Alike(nodes, th, x, order[j])
    ensures Enumerates(ToFront(order, j), nodes.Keys)
    ensures var p := SameRank(High, NodeFindings(x, nodes[x], th)[0].code);
            var a := Filter(NodeFindingsIn(order, nodes, th), p);
            var b := Filter(NodeFindingsIn(ToFront(order, j), nodes, th), p);
            a != [] && b != [] && a[0] != b[0]
  {
    var code := NodeFindings(x, nodes[x], th)[0].code;
    ToFrontEnumerates(order, j, nodes.Keys);
    assert order == order[..j] + order[j..];
    FirstOfKind(order[..j], order[j..], nodes, th, x, code);
    FirstOfKind([order[j]], order[..j] + order[j + 1..], nodes, th, order[j], code);
    assert order[j] !in order[..j];
  }

  lemma FiltersDiffer(a: seq<Finding>, m: seq<Finding>, n: seq<Finding>, c: seq<Finding>, p: Finding -> bool)
    requires Filter(m, p) != [] && Filter(n, p) != [] && Filter(m, p)[0] != Filter(n, p)[0]
    ensures Filter(a + m + c, p) != Filter(a + n + c, p)
  {
    FilterConcat(a + m, c, p);
    FilterConcat(a, m, p);
    FilterConcat(a + n, c, p);
    FilterConcat(a, n, p);
    assert Filter(a + m + c, p)[|Filter(a, p)|] == Filter(m, p)[0];
    assert Filter(a + n + c, p)[|Filter(a, p)|] == Filter(n, p)[0];
  }

  lemma AlikePair(order: seq<string>, nodes: map<string, NodeRuntime>, th: Thresholds) returns (j: nat, x: string)
    requires Enumerates(order, nodes.Keys) && !NoTwoAlike(nodes, th)
    ensures j < |order| && x in order[..j] && Alike(nodes, th, x, order[j])
  {
    var y, z :| y in nodes && z in nodes && Alike(nodes, th, y, z) && y != z;
    var i :| 0 <= i < |order| && order[i] == y;
    var k :| 0 <= k < |order| && order[k] == z;
    if i < k {
      j, x := k, y;
    } else {
      j, x := i, z;
    }
  }

  /** What another order of the nodes makes of the findings, before they are sorted. */
  lemma Reordered(snap: Snapshot, sum: TabletSummary, raft: RaftSummary, th: Thresholds, found: seq<Finding>)
    returns (found': seq<Finding>, severity: Severity, code: FindingCode)
    requires IsFindings(snap, sum, raft, th, found) && !NoTwoAlike(snap.performance.nodes, th)
    ensures IsFindings(snap, sum, raft, th, found')
    ensures Filter(found, SameRank(severity, code)) != Filter(found', SameRank(severity, code))
  {
    var nodes := snap.performance.nodes;
    var order, hot :| FindingsInOrder(snap, sum, raft, th, found, order, hot);
    var j, x := AlikePair(order, nodes, th);
    OrderShows(order, j, nodes, th, x);
    severity, code := High, NodeFindings(x, nodes[x], th)[0].code;
    var first, last := FirstFindings(snap, sum, raft, hot), LastFindings(snap, th);
    found' := first + NodeFindingsIn(ToFront(order, j), nodes, th) + last;
    assert FindingsInOrder(snap, sum, raft, th, found', ToFront(order, j), hot);
    FiltersDiffer(first, NodeFindingsIn(order, nodes, th), NodeFindingsIn(ToFront(order, j), nodes, th), last,
                  SameRank(severity, code));
  }

  /** With two such nodes, every report has another one of the same snapshot beside it. */
  lemma AnotherReport(snap: Snapshot, th: Thresholds, sc: Scoring, rep: HealthReport) returns (other: HealthReport)
    requires IsReport(snap, th, sc, rep) && !NoTwoAlike(snap.performance.nodes, th)
    ensures IsReport(snap, th, sc, other) && other.findings != rep.findings
  {
    var found :| IsFindings(snap, rep.tablets, rep.raft, th, found) && IsSortOf(rep.findings, found);
    var found', severity, code := Reordered(snap, rep.tablets, rep.raft, th, found);
    SortByRank(found');
    var findings := SortBy(found', NotAfter());
    other := rep.(findings := findings, score := Stepwise(findings, rep.raft, sc));
    assert IsSortOf(other.findings, found');
    assert Filter(other.findings, SameRank(severity, code)) != Filter(rep.findings, SameRank(severity, code));
  }

  /** All reports of a snapshot list the same findings in the same order exactly if at most
      one node is backlogged and at most one other has a full disk. */
  lemma FindingsDeterminedIff(snap: Snapshot, th: Thresholds, sc: Scoring, rep: HealthReport)
    requires IsReport(snap, th, sc, rep)
    ensures (forall other :: IsReport(snap, th, sc, other) ==> other.findings == rep.findings)
            <==> |BackloggedNodes(snap, th)| <= 1 && |FullDisks(snap, th)| <= 1
  {
    NoTwoAlikeIff(snap, th);
    if NoTwoAlike(snap.performance.nodes, th) {
      forall other | IsReport(snap, th, sc, other) ensures other.findings == rep.findings {
        SameFindings(snap, th, sc, other, rep);
      }
    } else {
      var other := AnotherReport(snap, th, sc, rep);
    }
  }
}
