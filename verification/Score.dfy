/** The health score: saturating deductions, one per distinct code, except that
    compaction and disk pressure count once per finding. */
module Score {
  import opened Counting
  import opened Domain
  import opened Config
  import opened Raft

  /** One deduction; the running score never drops below zero. */
  function Deduct(score: int, n: int): int {
    if score - n < 0 then 0 else score - n
  }

  function AtMostCap(points: int, cap: int): int {
    if points > cap then cap else points
  }

  function LeaderlessPoints(raft: RaftSummary, sc: Scoring): int {
    AtMostCap(raft.leaderless * sc.leaderlessTablet, sc.leaderlessCap)
  }

  function UnderReplicatedPoints(raft: RaftSummary, sc: Scoring): int {
    AtMostCap(raft.underReplicated * sc.underReplicatedTablet, sc.underReplicatedCap)
  }

  /** The slow-follower cap applies only if it is positive. */
  function SlowPoints(raft: RaftSummary, sc: Scoring): int {
    var points := raft.slowFollowers * sc.slowFollower;
    if sc.slowFollowerCap > 0 then AtMostCap(points, sc.slowFollowerCap) else points
  }

  function Points(code: FindingCode, sc: Scoring): int {
    if code == DEAD_TSERVER then sc.deadTServer
    else if code == MASTER_QUORUM then sc.deadMaster
    else if code == LEADER_IMBALANCE then sc.leaderImbalance
    else if code == TABLET_IMBALANCE then sc.tabletImbalance
    else if code == SST_IMBALANCE then sc.sstImbalance
    else if code == COMPACTION_PRESSURE then sc.compactionHigh
    else if code == DISK_PRESSURE then sc.diskHigh
    else if code == P99_LATENCY then sc.p99Warn
    else 0
  }

  predicate Repeats(code: FindingCode) {
    code == COMPACTION_PRESSURE || code == DISK_PRESSURE
  }

  function HasCode(code: FindingCode): Finding -> bool {
    (f: Finding) => f.code == code
  }

  predicate Present(findings: seq<Finding>, code: FindingCode) {
    exists f :: f in findings && f.code == code
  }

  // ----- the deductions in the order the report makes them

  function AfterRaft(raft: RaftSummary, sc: Scoring): int {
    Deduct(Deduct(Deduct(sc.start, LeaderlessPoints(raft, sc)), UnderReplicatedPoints(raft, sc)), SlowPoints(raft, sc))
  }

  /** What the last finding of the list costs, the earlier ones being scored already. */
  function Cost(findings: seq<Finding>, sc: Scoring): int
    requires findings != []
  {
    var n := |findings| - 1;
    var code := findings[n].code;
    if Present(findings[..n], code) && !Repeats(code) then 0 else Points(code, sc)
  }

  function Stepwise(findings: seq<Finding>, raft: RaftSummary, sc: Scoring): int {
    if findings == [] then AfterRaft(raft, sc)
    else Deduct(Stepwise(findings[..|findings| - 1], raft, sc), Cost(findings, sc))
  }

  method ScoreReport(findings: seq<Finding>, raft: RaftSummary, sc: Scoring) returns (score: int)
    ensures score == Stepwise(findings, raft, sc)
    ensures score >= 0
  {
    score := sc.start;

    var leaderlessPts := raft.leaderless * sc.leaderlessTablet;
    if leaderlessPts > sc.leaderlessCap {
      leaderlessPts := sc.leaderlessCap;
    }
    score := Deduct(score, leaderlessPts);

    var underPts := raft.underReplicated * sc.underReplicatedTablet;
    if underPts > sc.underReplicatedCap {
      underPts := sc.underReplicatedCap;
    }
    score := Deduct(score, underPts);

    var slowPts := raft.slowFollowers * sc.slowFollower;
    if sc.slowFollowerCap > 0 && slowPts > sc.slowFollowerCap {
      slowPts := sc.slowFollowerCap;
    }
    score := Deduct(score, slowPts);

    var seen := {};
    for i := 0 to |findings|
      invariant score == Stepwise(findings[..i], raft, sc)
      invariant score >= 0
      invariant forall code :: code in seen <==> Present(findings[..i], code)
    {
      var code := findings[i].code;
      assert findings[..i + 1][..i] == findings[..i];
      assert findings[..i + 1] == findings[..i] + [findings[i]];
      forall c ensures Present(findings[..i + 1], c) <==> Present(findings[..i], c) || c == code {
        assert findings[i] in findings[..i + 1];
        assert forall f :: f in findings[..i + 1] <==> f in findings[..i] || f == findings[i];
      }
      if code in seen && code != COMPACTION_PRESSURE && code != DISK_PRESSURE { continue; }
      seen := seen + {code};
      score := Deduct(score, Points(code, sc));
    }
    assert findings[..|findings|] == findings;
  }

  // ----- the closed form

  /** Weights and caps are not negative. The configuration does not check this. */
  predicate NonNegative(sc: Scoring) {
    && sc.leaderlessTablet >= 0 && sc.leaderlessCap >= 0
    && sc.underReplicatedTablet >= 0 && sc.underReplicatedCap >= 0
    && sc.slowFollower >= 0
    && sc.deadTServer >= 0 && sc.deadMaster >= 0
    && sc.leaderImbalance >= 0 && sc.tabletImbalance >= 0 && sc.sstImbalance >= 0
    && sc.compactionHigh >= 0 && sc.diskHigh >= 0 && sc.p99Warn >= 0
  }

  function Once(findings: seq<Finding>, code: FindingCode, points: int): int {
    if Present(findings, code) then points else 0
  }

  /** Each scored code once, compaction and disk pressure once per finding. */
  function FindingPoints(findings: seq<Finding>, sc: Scoring): int {
    Once(findings, DEAD_TSERVER, sc.deadTServer) +
    Once(findings, MASTER_QUORUM, sc.deadMaster) +
    Once(findings, LEADER_IMBALANCE, sc.leaderImbalance) +
    Once(findings, TABLET_IMBALANCE, sc.tabletImbalance) +
    Once(findings, SST_IMBALANCE, sc.sstImbalance) +
    Once(findings, P99_LATENCY, sc.p99Warn) +
    CountIf(findings, HasCode(COMPACTION_PRESSURE)) * sc.compactionHigh +
    CountIf(findings, HasCode(DISK_PRESSURE)) * sc.diskHigh
  }

  function RaftPoints(raft: RaftSummary, sc: Scoring): int {
    LeaderlessPoints(raft, sc) + UnderReplicatedPoints(raft, sc) + SlowPoints(raft, sc)
  }

  function ClosedForm(findings: seq<Finding>, raft: RaftSummary, sc: Scoring): int {
    Deduct(sc.start, RaftPoints(raft, sc) + FindingPoints(findings, sc))
  }

  /** The scored codes are different strings. */
  lemma CodesDiffer()
    ensures DEAD_TSERVER != MASTER_QUORUM && DEAD_TSERVER != LEADER_IMBALANCE && DEAD_TSERVER != TABLET_IMBALANCE
    ensures DEAD_TSERVER != SST_IMBALANCE && DEAD_TSERVER != P99_LATENCY
    ensures DEAD_TSERVER != COMPACTION_PRESSURE && DEAD_TSERVER != DISK_PRESSURE
    ensures MASTER_QUORUM != LEADER_IMBALANCE && MASTER_QUORUM != TABLET_IMBALANCE && MASTER_QUORUM != SST_IMBALANCE
    ensures MASTER_QUORUM != P99_LATENCY && MASTER_QUORUM != COMPACTION_PRESSURE && MASTER_QUORUM != DISK_PRESSURE
    ensures LEADER_IMBALANCE != TABLET_IMBALANCE && LEADER_IMBALANCE != SST_IMBALANCE && LEADER_IMBALANCE != P99_LATENCY
    ensures LEADER_IMBALANCE != COMPACTION_PRESSURE && LEADER_IMBALANCE != DISK_PRESSURE
    ensures TABLET_IMBALANCE != SST_IMBALANCE && TABLET_IMBALANCE != P99_LATENCY
    ensures TABLET_IMBALANCE != COMPACTION_PRESSURE && TABLET_IMBALANCE != DISK_PRESSURE
    ensures SST_IMBALANCE != P99_LATENCY && SST_IMBALANCE != COMPACTION_PRESSURE && SST_IMBALANCE != DISK_PRESSURE
    ensures P99_LATENCY != COMPACTION_PRESSURE && P99_LATENCY != DISK_PRESSURE
    ensures COMPACTION_PRESSURE != DISK_PRESSURE
  {
    assert DEAD_TSERVER[0] == 'd' && DEAD_TSERVER[1] == 'e';
    assert MASTER_QUORUM[0] == 'm';
    assert LEADER_IMBALANCE[0] == 'l';
    assert TABLET_IMBALANCE[0] == 't';
    assert SST_IMBALANCE[0] == 's';
    assert P99_LATENCY[0] == 'p';
    assert COMPACTION_PRESSURE[0] == 'c';
    assert DISK_PRESSURE[0] == 'd' && DISK_PRESSURE[1] == 'i';
  }

  lemma PresentStep(findings: seq<Finding>, f: Finding, code: FindingCode)
    ensures Present(findings + [f], code) <==> Present(findings, code) || f.code == code
    ensures CountIf(findings + [f], HasCode(code)) ==
            CountIf(findings, HasCode(code)) + (if f.code == code then 1 else 0)
  {
    assert f in findings + [f];
    assert forall g :: g in findings ==> g in findings + [f];
    assert (findings + [f])[..|findings|] == findings;
  }

  lemma OnceStep(findings: seq<Finding>, f: Finding, code: FindingCode, points: int)
    ensures Once(findings + [f], code, points) == Once(findings, code, points) +
            (if f.code == code && !Present(findings, code) then points else 0)
  {
    PresentStep(findings, f, code);
  }

  lemma CountStepPoints(findings: seq<Finding>, f: Finding, code: FindingCode, points: int)
    ensures CountIf(findings + [f], HasCode(code)) * points ==
            CountIf(findings, HasCode(code)) * points + (if f.code == code then points else 0)
  {
    PresentStep(findings, f, code);
    OneMore(CountIf(findings, HasCode(code)), points);
  }

  lemma OneMore(n: int, w: int)
    ensures (n + 1) * w == n * w + w
  {
  }

  lemma FindingPointsStep(findings: seq<Finding>, f: Finding, sc: Scoring)
    ensures FindingPoints(findings + [f], sc) == FindingPoints(findings, sc) + Cost(findings + [f], sc)
  {
    assert (findings + [f])[..|findings|] == findings;
    CodesDiffer();
    OnceStep(findings, f, DEAD_TSERVER, sc.deadTServer);
    OnceStep(findings, f, MASTER_QUORUM, sc.deadMaster);
    OnceStep(findings, f, LEADER_IMBALANCE, sc.leaderImbalance);
    OnceStep(findings, f, TABLET_IMBALANCE, sc.tabletImbalance);
    OnceStep(findings, f, SST_IMBALANCE, sc.sstImbalance);
    OnceStep(findings, f, P99_LATENCY, sc.p99Warn);
    CountStepPoints(findings, f, COMPACTION_PRESSURE, sc.compactionHigh);
    CountStepPoints(findings, f, DISK_PRESSURE, sc.diskHigh);
  }

  lemma ProductNonNegative(n: int, w: int)
    requires n >= 0 && w >= 0
    ensures n * w >= 0
  {
  }

  lemma RaftPointsNonNegative(raft: RaftSummary, sc: Scoring)
    requires NonNegative(sc)
    ensures LeaderlessPoints(raft, sc) >= 0 && UnderReplicatedPoints(raft, sc) >= 0 && SlowPoints(raft, sc) >= 0
  {
    ProductNonNegative(raft.leaderless, sc.leaderlessTablet);
    ProductNonNegative(raft.underReplicated, sc.underReplicatedTablet);
    ProductNonNegative(raft.slowFollowers, sc.slowFollower);
  }

  lemma FindingPointsNonNegative(findings: seq<Finding>, sc: Scoring)
    requires NonNegative(sc)
    ensures FindingPoints(findings, sc) >= 0
  {
    ProductNonNegative(CountIf(findings, HasCode(COMPACTION_PRESSURE)), sc.compactionHigh);
    ProductNonNegative(CountIf(findings, HasCode(DISK_PRESSURE)), sc.diskHigh);
  }

  /** Clamping after every deduction and clamping once at the end agree. */
  lemma {:induction false} ScoreClosedForm(findings: seq<Finding>, raft: RaftSummary, sc: Scoring)
    requires NonNegative(sc)
    ensures Stepwise(findings, raft, sc) == ClosedForm(findings, raft, sc)
  {
    if findings == [] {
      NoFindingPoints(raft, sc);
    } else {
      var n := |findings| - 1;
      assert findings == findings[..n] + [findings[n]];
      ScoreClosedForm(findings[..n], raft, sc);
      FindingPointsStep(findings[..n], findings[n], sc);
      CostNonNegative(findings, sc);
      DeductTwice(sc.start, RaftPoints(raft, sc) + FindingPoints(findings[..n], sc), Cost(findings, sc));
    }
  }

  lemma DeductTwice(score: int, m: int, n: int)
    requires n >= 0
    ensures Deduct(Deduct(score, m), n) == Deduct(score, m + n)
  {
  }

  lemma CostNonNegative(findings: seq<Finding>, sc: Scoring)
    requires NonNegative(sc) && findings != []
    ensures Cost(findings, sc) >= 0
  {
  }

  lemma NoFindingPoints(raft: RaftSummary, sc: Scoring)
    requires NonNegative(sc)
    ensures AfterRaft(raft, sc) == ClosedForm([], raft, sc)
  {
    RaftPointsNonNegative(raft, sc);
    assert FindingPoints([], sc) == 0;
    DeductTwice(sc.start, LeaderlessPoints(raft, sc), UnderReplicatedPoints(raft, sc));
    DeductTwice(sc.start, LeaderlessPoints(raft, sc) + UnderReplicatedPoints(raft, sc), SlowPoints(raft, sc));
  }

  function Least(m: int, n: int): int {
    if m <= n then m else n
  }

  /** The score spelled out: the start, less the capped points for leaderless and
      under-replicated tablets and for slow followers (capped only under a positive cap),
      less each scored code's points, once, or per finding for compaction and disk pressure;
      and never below zero. */
  lemma ScoreSpelledOut(findings: seq<Finding>, raft: RaftSummary, sc: Scoring)
    requires NonNegative(sc)
    ensures var rest := sc.start
                        - Least(raft.leaderless * sc.leaderlessTablet, sc.leaderlessCap)
                        - Least(raft.underReplicated * sc.underReplicatedTablet, sc.underReplicatedCap)
                        - (if sc.slowFollowerCap > 0
                           then Least(raft.slowFollowers * sc.slowFollower, sc.slowFollowerCap)
                           else raft.slowFollowers * sc.slowFollower)
                        - (if exists f :: f in findings && f.code == DEAD_TSERVER then sc.deadTServer else 0)
                        - (if exists f :: f in findings && f.code == MASTER_QUORUM then sc.deadMaster else 0)
                        - (if exists f :: f in findings && f.code == LEADER_IMBALANCE then sc.leaderImbalance else 0)
                        - (if exists f :: f in findings && f.code == TABLET_IMBALANCE then sc.tabletImbalance else 0)
                        - (if exists f :: f in findings && f.code == SST_IMBALANCE then sc.sstImbalance else 0)
                        - (if exists f :: f in findings && f.code == P99_LATENCY then sc.p99Warn else 0)
                        - |Bearing(findings, COMPACTION_PRESSURE)| * sc.compactionHigh
                        - |Bearing(findings, DISK_PRESSURE)| * sc.diskHigh;
            Stepwise(findings, raft, sc) == if rest < 0 then 0 else rest
  {
    ScoreClosedForm(findings, raft, sc);
    CountIsSize(findings, HasCode(COMPACTION_PRESSURE), Bearing(findings, COMPACTION_PRESSURE));
    CountIsSize(findings, HasCode(DISK_PRESSURE), Bearing(findings, DISK_PRESSURE));
  }

  /** Where the findings with the code stand in the list. */
  function Bearing(findings: seq<Finding>, code: FindingCode): set<int> {
    set i | 0 <= i < |findings| && findings[i].code == code
  }

  /** The score is never negative, and never above the start. */
  lemma ScoreInRange(findings: seq<Finding>, raft: RaftSummary, sc: Scoring)
    requires NonNegative(sc) && sc.start >= 0
    ensures 0 <= Stepwise(findings, raft, sc) <= sc.start
  {
    ScoreClosedForm(findings, raft, sc);
    RaftPointsNonNegative(raft, sc);
    FindingPointsNonNegative(findings, sc);
  }

  lemma SamePresence(a: seq<Finding>, b: seq<Finding>)
    requires multiset(a) <= multiset(b)
    ensures forall code :: Present(a, code) ==> Present(b, code)
  {
    forall f | f in a ensures f in b {
      assert f in multiset(a);
      assert f in multiset(b);
    }
  }

  /** The score does not depend on the order of the findings it is given. */
  lemma ScoreIgnoresOrder(a: seq<Finding>, b: seq<Finding>, raft: RaftSummary, sc: Scoring)
    requires NonNegative(sc) && multiset(a) == multiset(b)
    ensures Stepwise(a, raft, sc) == Stepwise(b, raft, sc)
  {
    PointsIgnoreOrder(a, b, sc);
    ScoreClosedForm(a, raft, sc);
    ScoreClosedForm(b, raft, sc);
  }

  lemma PointsIgnoreOrder(a: seq<Finding>, b: seq<Finding>, sc: Scoring)
    requires multiset(a) == multiset(b)
    ensures FindingPoints(a, sc) == FindingPoints(b, sc)
  {
    SamePresence(a, b);
    SamePresence(b, a);
    CountPermutation(a, b, HasCode(COMPACTION_PRESSURE));
    CountPermutation(a, b, HasCode(DISK_PRESSURE));
  }

  /** On lists nobody sorted first, a negative weight, which the configuration admits,
      makes the order matter. No report is affected: its findings are sorted by severity
      and code before they are scored. */
  lemma NegativeWeightBreaksOrder()
    ensures exists a: seq<Finding>, b: seq<Finding>, raft: RaftSummary, sc: Scoring ::
              sc.start > 0 && multiset(a) == multiset(b) && Stepwise(a, raft, sc) != Stepwise(b, raft, sc)
  {
    var sc := Scoring(10, 0, 0, 0, 0, 20, -5, 0, 0, 0, 0, 0, 0, 0, 0);
    var raft := RaftSummary(0, 0, 0, 0);
    var dead, master := Finding(High, DEAD_TSERVER, ""), Finding(High, MASTER_QUORUM, "");
    CodesDiffer();
    TwoFindings(dead, master, raft, sc);
    TwoFindings(master, dead, raft, sc);
    assert Stepwise([dead, master], raft, sc) == 5;
    assert Stepwise([master, dead], raft, sc) == 0;
    assert multiset([dead, master]) == multiset([master, dead]);
  }

  lemma TwoFindings(f: Finding, g: Finding, raft: RaftSummary, sc: Scoring)
    requires f.code != g.code
    ensures Stepwise([f, g], raft, sc) == Deduct(Deduct(AfterRaft(raft, sc), Points(f.code, sc)), Points(g.code, sc))
  {
    assert [f, g][..1] == [f] && [f][..0] == [];
    assert !Present([f], g.code) && !Present([], f.code);
    assert Stepwise([f], raft, sc) == Deduct(AfterRaft(raft, sc), Cost([f], sc));
    assert Stepwise([f, g], raft, sc) == Deduct(Stepwise([f], raft, sc), Cost([f, g], sc));
  }

  /** More findings never raise the score. */
  lemma MoreFindingsScoreLess(a: seq<Finding>, b: seq<Finding>, raft: RaftSummary, sc: Scoring)
    requires NonNegative(sc) && multiset(a) <= multiset(b)
    ensures Stepwise(b, raft, sc) <= Stepwise(a, raft, sc)
  {
    SamePresence(a, b);
    CountSubmultiset(a, b, HasCode(COMPACTION_PRESSURE));
    CountSubmultiset(a, b, HasCode(DISK_PRESSURE));
    ProductMonotone(CountIf(a, HasCode(COMPACTION_PRESSURE)), CountIf(b, HasCode(COMPACTION_PRESSURE)),
        sc.compactionHigh);
    ProductMonotone(CountIf(a, HasCode(DISK_PRESSURE)), CountIf(b, HasCode(DISK_PRESSURE)), sc.diskHigh);
    ScoreClosedForm(a, raft, sc);
    ScoreClosedForm(b, raft, sc);
  }

  lemma ProductMonotone(m: int, n: int, w: int)
    requires m <= n && w >= 0
    ensures m * w <= n * w
  {
    ProductNonNegative(n - m, w);
    assert n * w == m * w + (n - m) * w;
  }

  /** Worse replication never raises the score. */
  lemma WorseRaftScoresLess(findings: seq<Finding>, r: RaftSummary, s: RaftSummary, sc: Scoring)
    requires NonNegative(sc)
    requires r.leaderless <= s.leaderless && r.underReplicated <= s.underReplicated
             && r.slowFollowers <= s.slowFollowers
    ensures Stepwise(findings, s, sc) <= Stepwise(findings, r, sc)
  {
    ProductMonotone(r.leaderless, s.leaderless, sc.leaderlessTablet);
    ProductMonotone(r.underReplicated, s.underReplicated, sc.underReplicatedTablet);
    ProductMonotone(r.slowFollowers, s.slowFollowers, sc.slowFollower);
    ScoreClosedForm(findings, r, sc);
    ScoreClosedForm(findings, s, sc);
  }
}
