/** Replication health: leaderless, under-replicated, lagging and failed peers. */
module Raft {
  import opened Counting
  import opened Domain
  import opened Config

  datatype RaftSummary = RaftSummary(leaderless: nat, underReplicated: nat, slowFollowers: nat, failedPeers: nat)

  function IsUnderReplicated(rf: int): Tablet -> bool {
    (t: Tablet) => 0 < ReplicaCount(t) < rf && rf > 0
  }

  function IsLeaderless(): Tablet -> bool {
    (t: Tablet) => ReplicaCount(t) > 0 && !HasLeader(t)
  }

  function IsSlow(lag: int): TabletPeer -> bool {
    (p: TabletPeer) => p.role == Follower && lag > 0 && p.lag >= lag
  }

  function IsFailed(): TabletPeer -> bool {
    (p: TabletPeer) => p.state == Failed || p.state == Tombstoned
  }

  /** A list of ids the collector already has wins over counting the tablets. */
  function CountedOr(ids: seq<TabletID>, tablets: seq<Tablet>, pred: Tablet -> bool): nat {
    if |ids| > 0 then |ids| else CountIf(tablets, pred)
  }

  method CountIDsOr(ids: seq<TabletID>, tablets: seq<Tablet>, pred: Tablet -> bool) returns (n: nat)
    ensures n == CountedOr(ids, tablets, pred)
  {
    if |ids| > 0 {
      return |ids|;
    }
    n := 0;
    for i := 0 to |tablets|
      invariant n == CountIf(tablets[..i], pred)
    {
      CountStep(tablets, pred, i);
      if pred(tablets[i]) {
        n := n + 1;
      }
    }
    assert tablets[..|tablets|] == tablets;
  }

  function RaftOf(snap: Snapshot, th: Thresholds): RaftSummary {
    RaftSummary(
      CountedOr(snap.leaderlessIDs, snap.tablets, IsLeaderless()),
      CountedOr(snap.underReplicatedIDs, snap.tablets, IsUnderReplicated(snap.replicationFactor)),
      PeerCount(snap.tablets, IsSlow(th.slowFollowerLag)),
      PeerCount(snap.tablets, IsFailed()))
  }

  method AnalyzeRaft(snap: Snapshot, th: Thresholds) returns (summary: RaftSummary)
    ensures summary == RaftOf(snap, th)
  {
    var under := CountIDsOr(snap.underReplicatedIDs, snap.tablets, IsUnderReplicated(snap.replicationFactor));
    var leaderless := CountIDsOr(snap.leaderlessIDs, snap.tablets, IsLeaderless());
    var slow, failed := 0, 0;
    var lag := th.slowFollowerLag;
    for i := 0 to |snap.tablets|
      invariant slow == PeerCount(snap.tablets[..i], IsSlow(lag))
      invariant failed == PeerCount(snap.tablets[..i], IsFailed())
    {
      assert snap.tablets[..i + 1][..i] == snap.tablets[..i];
      var peers := snap.tablets[i].peers;
      for j := 0 to |peers|
        invariant slow == PeerCount(snap.tablets[..i], IsSlow(lag)) + CountIf(peers[..j], IsSlow(lag))
        invariant failed == PeerCount(snap.tablets[..i], IsFailed()) + CountIf(peers[..j], IsFailed())
      {
        CountStep(peers, IsSlow(lag), j);
        CountStep(peers, IsFailed(), j);
        var p := peers[j];
        if p.state == Failed || p.state == Tombstoned {
          failed := failed + 1;
        }
        if p.role == Follower && lag > 0 && p.lag >= lag {
          slow := slow + 1;
        }
      }
      assert peers[..|peers|] == peers;
    }
    assert snap.tablets[..|snap.tablets|] == snap.tablets;
    summary := RaftSummary(leaderless, under, slow, failed);
  }
}
