/** Exactly when the scoring function on its own ignores the order of the findings it is
    given, for arbitrary weights. A report sorts its findings before it scores them. */
module ScoreOrder {
  import opened Counting
  import opened Domain
  import opened Config
  import opened Raft
  import opened Score

  /** No finding adds points. */
  predicate NoFindingWeightNegative(sc: Scoring) {
    && sc.deadTServer >= 0 && sc.deadMaster >= 0
    && sc.leaderImbalance >= 0 && sc.tabletImbalance >= 0 && sc.sstImbalance >= 0
    && sc.compactionHigh >= 0 && sc.diskHigh >= 0 && sc.p99Warn >= 0
  }

  /** The most the codes that count once can cost together. */
  function OnceTotal(sc: Scoring): nat {
    Clamp(sc.deadTServer) + Clamp(sc.deadMaster) + Clamp(sc.leaderImbalance) +
    Clamp(sc.tabletImbalance) + Clamp(sc.sstImbalance) + Clamp(sc.p99Warn)
  }

  /** What is left after the raft deductions covers anything findings can cost. */
  predicate NeverClamps(raft: RaftSummary, sc: Scoring) {
    sc.compactionHigh <= 0 && sc.diskHigh <= 0 && OnceTotal(sc) <= AfterRaft(raft, sc)
  }

  lemma AfterRaftNonNegative(raft: RaftSummary, sc: Scoring)
    ensures AfterRaft(raft, sc) >= 0
  {
  }

  lemma StepwiseNonNegative(fs: seq<Finding>, raft: RaftSummary, sc: Scoring)
    ensures Stepwise(fs, raft, sc) >= 0
  {
    AfterRaftNonNegative(raft, sc);
  }

  lemma StepwiseSnoc(fs: seq<Finding>, f: Finding, raft: RaftSummary, sc: Scoring)
    ensures Stepwise(fs + [f], raft, sc) == Deduct(Stepwise(fs, raft, sc), Cost(fs + [f], sc))
  {
    assert (fs + [f])[..|fs|] == fs;
  }

  // ----- two ways the order does not matter

  /** Findings that add no points after some others cost their points, clamped once. */
  lemma {:induction false} DeductTogether(a: seq<Finding>, p: seq<Finding>, raft: RaftSummary, sc: Scoring)
    requires forall f :: f in p ==> Points(f.code, sc) >= 0
    ensures Stepwise(a + p, raft, sc) == Deduct(Stepwise(a, raft, sc), FindingPoints(a + p, sc) - FindingPoints(a, sc))
    ensures FindingPoints(a + p, sc) >= FindingPoints(a, sc)
  {
    StepwiseNonNegative(a, raft, sc);
    if p == [] {
      assert a + p == a;
    } else {
      var n := |p| - 1;
      var f := p[n];
      assert f in p && forall g :: g in p[..n] ==> g in p;
      assert a + p == (a + p[..n]) + [f];
      DeductTogether(a, p[..n], raft, sc);
      StepwiseSnoc(a + p[..n], f, raft, sc);
      FindingPointsStep(a + p[..n], f, sc);
      DeductTwice(Stepwise(a, raft, sc), FindingPoints(a + p[..n], sc) - FindingPoints(a, sc),
          Cost((a + p[..n]) + [f], sc));
    }
  }

  lemma NonNegativeCount(n: nat, w: int)
    requires w <= 0
    ensures n * w <= 0
  {
  }

  lemma PointsBound(fs: seq<Finding>, sc: Scoring)
    requires sc.compactionHigh <= 0 && sc.diskHigh <= 0
    ensures FindingPoints(fs, sc) <= OnceTotal(sc)
  {
    NonNegativeCount(CountIf(fs, HasCode(COMPACTION_PRESSURE)), sc.compactionHigh);
    NonNegativeCount(CountIf(fs, HasCode(DISK_PRESSURE)), sc.diskHigh);
  }

  lemma NoPoints(sc: Scoring)
    ensures FindingPoints([], sc) == 0
  {
  }

  lemma {:induction false} SubtractAll(fs: seq<Finding>, raft: RaftSummary, sc: Scoring)
    requires NeverClamps(raft, sc)
    ensures Stepwise(fs, raft, sc) == AfterRaft(raft, sc) - FindingPoints(fs, sc)
  {
    if fs == [] {
      NoPoints(sc);
    } else {
      var n := |fs| - 1;
      assert fs == fs[..n] + [fs[n]];
      SubtractAll(fs[..n], raft, sc);
      StepwiseSnoc(fs[..n], fs[n], raft, sc);
      FindingPointsStep(fs[..n], fs[n], sc);
      PointsBound(fs, sc);
    }
  }

  lemma OrderFreeIf(a: seq<Finding>, b: seq<Finding>, raft: RaftSummary, sc: Scoring)
    requires NoFindingWeightNegative(sc) || NeverClamps(raft, sc)
    requires multiset(a) == multiset(b)
    ensures Stepwise(a, raft, sc) == Stepwise(b, raft, sc)
  {
    PointsIgnoreOrder(a, b, sc);
    if NoFindingWeightNegative(sc) {
      DeductTogether([], a, raft, sc);
      DeductTogether([], b, raft, sc);
      assert [] + a == a && [] + b == b;
    } else {
      SubtractAll(a, raft, sc);
      SubtractAll(b, raft, sc);
    }
  }

  // ----- otherwise it does

  /** After findings that exhaust the score, one that adds points is all that is left. */
  lemma PointsAddedLast(p: seq<Finding>, f: Finding, raft: RaftSummary, sc: Scoring)
    requires forall g :: g in p ==> Points(g.code, sc) >= 0
    requires Points(f.code, sc) < 0 && FindingPoints(p, sc) >= AfterRaft(raft, sc)
    ensures Stepwise(p + [f], raft, sc) == -Points(f.code, sc)
    ensures FindingPoints(p + [f], sc) == FindingPoints(p, sc) + Points(f.code, sc)
  {
    NoPoints(sc);
    DeductTogether([], p, raft, sc);
    assert [] + p == p;
    StepwiseSnoc(p, f, raft, sc);
    FindingPointsStep(p, f, sc);
    assert (p + [f])[..|p|] == p;
    assert !Present(p, f.code);
  }

  lemma PointsAddedAlone(f: Finding, raft: RaftSummary, sc: Scoring)
    requires Points(f.code, sc) < 0
    ensures Stepwise([f], raft, sc) == AfterRaft(raft, sc) - Points(f.code, sc)
    ensures FindingPoints([f], sc) == Points(f.code, sc)
  {
    NoPoints(sc);
    AfterRaftNonNegative(raft, sc);
    StepwiseSnoc([], f, raft, sc);
    FindingPointsStep([], f, sc);
    assert [] + [f] == [f] && [f][..0] == [];
  }

  /** So it matters whether a finding that adds points comes before or after findings
      that cost more than is left. */
  lemma OrderMatters(p: seq<Finding>, f: Finding, raft: RaftSummary, sc: Scoring)
    requires forall g :: g in p ==> Points(g.code, sc) >= 0
    requires Points(f.code, sc) < 0 && FindingPoints(p, sc) > AfterRaft(raft, sc)
    ensures multiset(p + [f]) == multiset([f] + p)
    ensures Stepwise([f] + p, raft, sc) < Stepwise(p + [f], raft, sc)
  {
    PointsAddedLast(p, f, raft, sc);
    PointsAddedAlone(f, raft, sc);
    DeductTogether([f], p, raft, sc);
    PointsIgnoreOrder([f] + p, p + [f], sc);
  }

  lemma NegativeCode(sc: Scoring) returns (code: FindingCode)
    requires !NoFindingWeightNegative(sc)
    ensures Points(code, sc) < 0
  {
    CodesDiffer();
    code := if sc.deadTServer < 0 then DEAD_TSERVER
    else if sc.deadMaster < 0 then MASTER_QUORUM
    else if sc.leaderImbalance < 0 then LEADER_IMBALANCE
    else if sc.tabletImbalance < 0 then TABLET_IMBALANCE
    else if sc.sstImbalance < 0 then SST_IMBALANCE
    else if sc.compactionHigh < 0 then COMPACTION_PRESSURE
    else if sc.diskHigh < 0 then DISK_PRESSURE
    else P99_LATENCY;
  }

  /** Enough findings of a repeating code cost more than any given amount. */
  lemma {:induction false} Repeated(code: FindingCode, n: nat, sc: Scoring) returns (p: seq<Finding>)
    requires Repeats(code) && Points(code, sc) > 0
    ensures (forall g :: g in p ==> g.code == code) && FindingPoints(p, sc) >= n
  {
    if n == 0 {
      p := [];
      NoPoints(sc);
    } else {
      var before := Repeated(code, n - 1, sc);
      var f := Finding(High, code, "");
      p := before + [f];
      FindingPointsStep(before, f, sc);
    }
  }

  function IfPositive(w: int, code: FindingCode): seq<Finding> {
    When(w > 0, Finding(High, code, ""))
  }

  /** One finding of every code that counts once and costs points. */
  function AllOnce(sc: Scoring): seq<Finding> {
    IfPositive(sc.deadTServer, DEAD_TSERVER) + IfPositive(sc.deadMaster, MASTER_QUORUM) +
    IfPositive(sc.leaderImbalance, LEADER_IMBALANCE) + IfPositive(sc.tabletImbalance, TABLET_IMBALANCE) +
    IfPositive(sc.sstImbalance, SST_IMBALANCE) + IfPositive(sc.p99Warn, P99_LATENCY)
  }

  lemma AddOnce(fs: seq<Finding>, w: int, code: FindingCode, sc: Scoring)
    requires Points(code, sc) == w && !Present(fs, code)
    ensures var r := fs + IfPositive(w, code);
            && FindingPoints(r, sc) == FindingPoints(fs, sc) + Clamp(w)
            && (forall other :: Present(r, other) ==> Present(fs, other) || other == code)
            && ((forall g :: g in fs ==> Points(g.code, sc) >= 0) ==> forall g :: g in r ==> Points(g.code, sc) >= 0)
  {
    if w > 0 {
      var f := Finding(High, code, "");
      FindingPointsStep(fs, f, sc);
      assert (fs + [f])[..|fs|] == fs;
    } else {
      assert fs + IfPositive(w, code) == fs;
    }
  }

  lemma AllOncePoints(sc: Scoring)
    ensures FindingPoints(AllOnce(sc), sc) == OnceTotal(sc)
    ensures forall g :: g in AllOnce(sc) ==> Points(g.code, sc) >= 0
  {
    CodesDiffer();
    NoPoints(sc);
    var p0: seq<Finding> := [];
    AddOnce(p0, sc.deadTServer, DEAD_TSERVER, sc);
    var p1 := p0 + IfPositive(sc.deadTServer, DEAD_TSERVER);
    AddOnce(p1, sc.deadMaster, MASTER_QUORUM, sc);
    var p2 := p1 + IfPositive(sc.deadMaster, MASTER_QUORUM);
    AddOnce(p2, sc.leaderImbalance, LEADER_IMBALANCE, sc);
    var p3 := p2 + IfPositive(sc.leaderImbalance, LEADER_IMBALANCE);
    AddOnce(p3, sc.tabletImbalance, TABLET_IMBALANCE, sc);
    var p4 := p3 + IfPositive(sc.tabletImbalance, TABLET_IMBALANCE);
    AddOnce(p4, sc.sstImbalance, SST_IMBALANCE, sc);
    var p5 := p4 + IfPositive(sc.sstImbalance, SST_IMBALANCE);
    AddOnce(p5, sc.p99Warn, P99_LATENCY, sc);
    assert p1 == IfPositive(sc.deadTServer, DEAD_TSERVER);
  }

  /** Findings that cost more than the raft deductions left. */
  lemma CostlyFindings(raft: RaftSummary, sc: Scoring) returns (p: seq<Finding>)
    requires !NeverClamps(raft, sc)
    ensures (forall g :: g in p ==> Points(g.code, sc) >= 0) && FindingPoints(p, sc) > AfterRaft(raft, sc)
  {
    AfterRaftNonNegative(raft, sc);
    CodesDiffer();
    if sc.compactionHigh > 0 {
      p := Repeated(COMPACTION_PRESSURE, AfterRaft(raft, sc) + 1, sc);
    } else if sc.diskHigh > 0 {
      p := Repeated(DISK_PRESSURE, AfterRaft(raft, sc) + 1, sc);
    } else {
      AllOncePoints(sc);
      p := AllOnce(sc);
    }
  }

  ghost predicate OrderFree(raft: RaftSummary, sc: Scoring) {
    forall a: seq<Finding>, b: seq<Finding> :: multiset(a) == multiset(b) ==>
      Stepwise(a, raft, sc) == Stepwise(b, raft, sc)
  }

  /** For any weights and caps, the score of a report ignores the order of its findings
      exactly if no finding can add points, or no findings can exhaust what the raft
      deductions left. */
  lemma OrderFreeIff(raft: RaftSummary, sc: Scoring)
    ensures OrderFree(raft, sc) <==> NoFindingWeightNegative(sc) || NeverClamps(raft, sc)
  {
    if NoFindingWeightNegative(sc) || NeverClamps(raft, sc) {
      forall a: seq<Finding>, b: seq<Finding> | multiset(a) == multiset(b)
        ensures Stepwise(a, raft, sc) == Stepwise(b, raft, sc)
      {
        OrderFreeIf(a, b, raft, sc);
      }
    } else {
      var code := NegativeCode(sc);
      var p := CostlyFindings(raft, sc);
      OrderMatters(p, Finding(High, code, ""), raft, sc);
    }
  }
}
