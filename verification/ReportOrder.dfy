/** Exactly when a report leaves nothing open: neither the order in which Go ranges over
    the nodes nor the ties of the unstable row sort can be seen in it. */
module ReportOrder {
  import opened Strings
  import opened StableSort
  import opened Domain
  import opened Config
  import opened Raft
  import opened Tablets
  import opened Findings
  import opened FindingsTheorems
  import opened FindingsOrder

  /** No two nodes of the summary share a name. */
  ghost predicate NamesTellApart(snap: Snapshot) {
    var order, ts := RowOrder(snap), snap.tservers;
    forall x, y :: x in order && y in order && NodeName(ts, x) == NodeName(ts, y) ==> x == y
  }

  ghost predicate NamesDiffer(rows: seq<NodeTabletStats>) {
    forall r, s :: r in rows && s in rows && r.name == s.name ==> r == s
  }

  /** A bag of rows with different names has one sorted arrangement. */
  lemma {:induction false} OneArrangement(a: seq<NodeTabletStats>, b: seq<NodeTabletStats>)
    requires multiset(a) == multiset(b) && SortedBy(a, ByName()) && SortedBy(b, ByName()) && NamesDiffer(a)
    ensures a == b
  {
    SameBagSameLength(a, b);
    if a != [] {
      LastRowAgrees(a, b);
      WithoutLast(a);
      WithoutLast(b);
      OneArrangement(a[..|a| - 1], b[..|b| - 1]);
      SameEnds(a, b);
    }
  }

  lemma SameBagSameLength(a: seq<NodeTabletStats>, b: seq<NodeTabletStats>)
    requires multiset(a) == multiset(b)
    ensures |a| == |b|
  {
    assert |multiset(a)| == |a| && |multiset(b)| == |b|;
  }

  lemma SameEnds(a: seq<NodeTabletStats>, b: seq<NodeTabletStats>)
    requires a != [] && b != [] && a[..|a| - 1] == b[..|b| - 1] && a[|a| - 1] == b[|b| - 1]
    ensures a == b
  {
    assert a == a[..|a| - 1] + [a[|a| - 1]] && b == b[..|b| - 1] + [b[|b| - 1]];
  }

  lemma WithoutLast(a: seq<NodeTabletStats>)
    requires a != []
    ensures multiset(a[..|a| - 1]) == multiset(a) - multiset{a[|a| - 1]}
    ensures SortedBy(a, ByName()) ==> SortedBy(a[..|a| - 1], ByName())
    ensures NamesDiffer(a) ==> NamesDiffer(a[..|a| - 1])
  {
    var n := |a| - 1;
    assert a == a[..n] + [a[n]];
    assert forall r :: r in a[..n] ==> r in a;
  }

  lemma LastRowAgrees(a: seq<NodeTabletStats>, b: seq<NodeTabletStats>)
    requires a != [] && b != [] && multiset(a) == multiset(b)
    requires SortedBy(a, ByName()) && SortedBy(b, ByName()) && NamesDiffer(a)
    ensures a[|a| - 1] == b[|b| - 1]
  {
    var r, s := a[|a| - 1], b[|b| - 1];
    LastNameNotAfter(a, b);
    LastNameNotAfter(b, a);
    AtMostAntisymmetric(r.name, s.name);
    assert s in multiset(b);
    assert s in multiset(a);
    assert r in a && s in a;
  }

  lemma LastNameNotAfter(a: seq<NodeTabletStats>, b: seq<NodeTabletStats>)
    requires a != [] && b != [] && multiset(a) == multiset(b) && SortedBy(b, ByName())
    ensures AtMost(a[|a| - 1].name, b[|b| - 1].name)
  {
    assert a[|a| - 1] in multiset(b);
    var i :| 0 <= i < |b| && b[i] == a[|a| - 1];
    if i < |b| - 1 {
      assert ByName()(b[i], b[|b| - 1]);
    }
  }

  lemma SameRows(snap: Snapshot, a: seq<NodeTabletStats>, b: seq<NodeTabletStats>)
    requires IsRows(snap, a) && IsRows(snap, b) && NamesTellApart(snap)
    ensures a == b
  {
    var plain :| IsPlainRows(snap, plain, a);
    var plain' :| IsPlainRows(snap, plain', b);
    PlainNamesDiffer(snap, plain);
    OneArrangement(plain, plain');
  }

  lemma PlainNamesDiffer(snap: Snapshot, plain: seq<NodeTabletStats>)
    requires multiset(plain) == multiset(RowsOf(snap, RowOrder(snap))) && NamesTellApart(snap)
    ensures NamesDiffer(plain)
  {
    TT.RowsMembers(snap, RowOrder(snap));
    forall r | r in plain ensures r in RowsOf(snap, RowOrder(snap)) {
      assert r in multiset(plain);
    }
  }

  function Swapped(rows: seq<NodeTabletStats>, i: nat, j: nat): seq<NodeTabletStats>
    requires i < |rows| && j < |rows|
  {
    rows[i := rows[j]][j := rows[i]]
  }

  lemma SwapKeepsBag(rows: seq<NodeTabletStats>, i: nat, j: nat)
    requires i < |rows| && j < |rows|
    ensures multiset(Swapped(rows, i, j)) == multiset(rows)
  {
  }

  /** Rows with one name may change places. */
  lemma SwapKeepsRows(snap: Snapshot, rows: seq<NodeTabletStats>, i: nat, j: nat)
    requires IsRows(snap, rows) && i < |rows| && j < |rows| && rows[i].name == rows[j].name
    ensures IsRows(snap, Swapped(rows, i, j))
  {
    var plain: seq<NodeTabletStats> :| IsPlainRows(snap, plain, rows);
    SwapKeepsPlain(snap, plain, rows, i, j);
  }

  lemma SwapKeepsPlain(snap: Snapshot, plain: seq<NodeTabletStats>, rows: seq<NodeTabletStats>, i: nat, j: nat)
    requires IsPlainRows(snap, plain, rows) && i < |rows| && j < |rows| && rows[i].name == rows[j].name
    ensures IsPlainRows(snap, Swapped(plain, i, j), Swapped(rows, i, j))
  {
    SwapKeepsBag(plain, i, j);
    StorageKeepsName(snap, plain[i]);
    StorageKeepsName(snap, plain[j]);
    SwapKeepsOrder(plain, i, j);
  }

  lemma StorageKeepsName(snap: Snapshot, row: NodeTabletStats)
    ensures WithStorage(snap, row).name == row.name
  {
  }

  lemma SwapKeepsOrder(rows: seq<NodeTabletStats>, i: nat, j: nat)
    requires SortedBy(rows, ByName()) && i < |rows| && j < |rows| && rows[i].name == rows[j].name
    ensures SortedBy(Swapped(rows, i, j), ByName())
  {
    var out := Swapped(rows, i, j);
    assert forall k :: 0 <= k < |rows| ==> out[k].name == rows[k].name;
    forall p, q | 0 <= p < q < |out| ensures ByName()(out[p], out[q]) {
      assert ByName()(rows[p], rows[q]);
    }
  }

  lemma NamesakeRows(snap: Snapshot, rows: seq<NodeTabletStats>) returns (i: nat, j: nat)
    requires IsRows(snap, rows) && !NamesTellApart(snap)
    ensures i < |rows| && j < |rows| && rows[i].name == rows[j].name && rows[i] != rows[j]
  {
    var x, y :| x in RowOrder(snap) && y in RowOrder(snap)
                && NodeName(snap.tservers, x) == NodeName(snap.tservers, y) && x != y;
    TT.SummaryHasRow(snap, rows, x);
    TT.SummaryHasRow(snap, rows, y);
    i :| 0 <= i < |rows| && rows[i] == WithStorage(snap, StatsOf(snap, x));
    j :| 0 <= j < |rows| && rows[j] == WithStorage(snap, StatsOf(snap, y));
  }

  lemma AnotherArrangement(snap: Snapshot, rows: seq<NodeTabletStats>) returns (out: seq<NodeTabletStats>)
    requires IsRows(snap, rows) && !NamesTellApart(snap)
    ensures IsRows(snap, out) && out != rows
  {
    var i, j := NamesakeRows(snap, rows);
    SwapKeepsRows(snap, rows, i, j);
    out := Swapped(rows, i, j);
    assert out[i] != rows[i];
  }

  lemma BlameOfRows(snap: Snapshot, a: TabletSummary, b: TabletSummary, hot: string)
    requires IsRows(snap, a.perNode) && IsRows(snap, b.perNode) && a.hottestNode == b.hottestNode
    requires BlamesFor(snap, a, hot)
    ensures BlamesFor(snap, b, hot)
  {
    var h, c :| IsExtremes(snap.tservers, StatsFromRows(a.perNode), false, h, c)
                && hot == (if h == "" then a.hottestNode else h);
    RebuiltExtremes(snap, a.perNode, false, h, c);
    RebuiltExtremes(snap, b.perNode, false, h, c);
  }

  /** Findings do not show in which order namesakes are listed. */
  lemma FindingsOfRows(snap: Snapshot, th: Thresholds, raft: RaftSummary, a: TabletSummary, b: TabletSummary,
                       found: seq<Finding>)
    requires IsRows(snap, a.perNode) && IsRows(snap, b.perNode) && a.(perNode := b.perNode) == b
    requires IsFindings(snap, a, raft, th, found)
    ensures IsFindings(snap, b, raft, th, found)
  {
    var order, hot :| FindingsInOrder(snap, a, raft, th, found, order, hot);
    BlameOfRows(snap, a, b, hot);
    FirstFindingsAgree(snap, a, b, raft, hot);
    assert FindingsInOrder(snap, b, raft, th, found, order, hot);
  }

  lemma SummaryWithRows(snap: Snapshot, th: Thresholds, sum: TabletSummary, rows: seq<NodeTabletStats>)
    requires IsSummary(snap, th, sum) && IsRows(snap, rows)
    ensures IsSummary(snap, th, sum.(perNode := rows))
  {
  }

  lemma ReportWithRows(snap: Snapshot, th: Thresholds, sc: Scoring, rep: HealthReport, rows: seq<NodeTabletStats>)
    returns (other: HealthReport)
    requires IsReport(snap, th, sc, rep) && IsRows(snap, rows)
    ensures IsReport(snap, th, sc, other) && other.tablets.perNode == rows
  {
    other := rep.(tablets := rep.tablets.(perNode := rows));
    SummaryWithRows(snap, th, rep.tablets, rows);
    var found :| IsFindings(snap, rep.tablets, rep.raft, th, found) && IsSortOf(rep.findings, found);
    FindingsOfRows(snap, th, rep.raft, rep.tablets, other.tablets, found);
  }

  lemma SwappedReport(snap: Snapshot, th: Thresholds, sc: Scoring, rep: HealthReport) returns (other: HealthReport)
    requires IsReport(snap, th, sc, rep) && !NamesTellApart(snap)
    ensures IsReport(snap, th, sc, other) && other.tablets.perNode != rep.tablets.perNode
  {
    var rows := AnotherArrangement(snap, rep.tablets.perNode);
    other := ReportWithRows(snap, th, sc, rep, rows);
  }

  /** A snapshot has one report exactly if no two of its nodes share a name, at most one is
      backlogged and at most one other has a full disk. */
  lemma ReportDeterminedIff(snap: Snapshot, th: Thresholds, sc: Scoring, rep: HealthReport)
    requires IsReport(snap, th, sc, rep)
    ensures (forall other :: IsReport(snap, th, sc, other) ==> other == rep)
            <==> NamesTellApart(snap) && |BackloggedNodes(snap, th)| <= 1 && |FullDisks(snap, th)| <= 1
  {
    NoTwoAlikeIff(snap, th);
    if !NamesTellApart(snap) {
      var other := SwappedReport(snap, th, sc, rep);
    } else if !NoTwoAlike(snap.performance.nodes, th) {
      var other := AnotherReport(snap, th, sc, rep);
    } else {
      forall other | IsReport(snap, th, sc, other) ensures other == rep {
        SameFindings(snap, th, sc, other, rep);
        SameRows(snap, other.tablets.perNode, rep.tablets.perNode);
        ReportDetermined(snap, th, sc, other, rep);
      }
    }
  }
}
