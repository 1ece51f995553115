/** The allocator's choices, replica by replica, read off the tablets it returns. */
module FixtureGreedy {
  import opened Counting
  import opened Strings
  import opened Domain
  import opened Fixture
  import opened FixtureTheorems

  /** What is left of a server's planned followers when replica j of tablet i is chosen: the
      plan less its follower peers in earlier tablets and in earlier places of this one. */
  function DemandLeft(ts: seq<Tablet>, followers: Counts, i: nat, j: nat, id: NodeID): int
    requires i < |ts| && j <= |ts[i].peers|
  {
    Get(followers, id) - PeerCount(ts[..i], OnAsFollower(id)) - CountIf(ts[i].peers[..j], OnAsFollower(id))
  }

  /** The server holds none of the tablet's first j replicas. */
  predicate Free(t: Tablet, j: nat, id: NodeID)
    requires j <= |t.peers|
  {
    forall k :: 0 <= k < j ==> t.peers[k].tserverID != id
  }

  /** A free server with demand left. */
  predicate Wanted(ts: seq<Tablet>, followers: Counts, i: nat, j: nat, id: NodeID)
    requires i < |ts| && j <= |ts[i].peers|
  {
    Free(ts[i], j, id) && DemandLeft(ts, followers, i, j, id) > 0
  }

  /** No free server has more demand left, and none with as much a smaller id. */
  ghost predicate MostWanted(ts: seq<Tablet>, followers: Counts, i: nat, j: nat, id: NodeID)
    requires i < |ts| && j <= |ts[i].peers|
  {
    && Wanted(ts, followers, i, j, id)
    && forall other :: Wanted(ts, followers, i, j, other) ==>
         var mine, theirs := DemandLeft(ts, followers, i, j, id), DemandLeft(ts, followers, i, j, other);
         theirs < mine || (theirs == mine && AtMost(id, other))
  }

  /** The greedy choice has nothing to offer: nobody free is wanted, or the empty id is
      wanted most. */
  ghost predicate GreedyGivesUp(ts: seq<Tablet>, followers: Counts, i: nat, j: nat)
    requires i < |ts| && j <= |ts[i].peers|
  {
    MostWanted(ts, followers, i, j, "") || forall id :: !Wanted(ts, followers, i, j, id)
  }

  /** The least leader key that is free. */
  ghost predicate FirstFree(leaders: Counts, t: Tablet, j: nat, id: NodeID)
    requires j <= |t.peers|
  {
    && id in leaders && Free(t, j, id)
    && forall other :: other in leaders && Free(t, j, other) ==> AtMost(id, other)
  }

  // ----- one tablet, in terms of the picks

  lemma {:induction false} PickTrace(remain: Counts, picked: seq<NodeID>, ids: seq<NodeID>, rf: int, j: nat)
    returns (left: Counts)
    requires |picked| <= j <= |Pick(remain, picked, ids, rf).picked|
    ensures var all := Pick(remain, picked, ids, rf).picked;
            && (forall id :: Get(left, id) == Get(remain, id) + multiset(picked)[id] - multiset(all[..j])[id])
            && picked <= all
            && (j < |all| ==> all[j] == Next(left, all[..j], ids) != "")
            && (j == |all| && j < rf ==> Next(left, all, ids) == "")
    decreases Clamp(rf - |picked|)
  {
    var id := Next(remain, picked, ids);
    if |picked| >= rf || id == "" {
      left := remain;
      assert picked[..j] == picked;
    } else {
      var remain', picked' := remain[id := Get(remain, id) - 1], picked + [id];
      PickGrows(remain', picked', ids, rf);
      if j == |picked| {
        left := remain;
        assert Pick(remain, picked, ids, rf).picked[..j] == picked;
      } else {
        left := PickTrace(remain', picked', ids, rf, j);
      }
    }
  }

  lemma {:induction false} PickGrows(remain: Counts, picked: seq<NodeID>, ids: seq<NodeID>, rf: int)
    ensures picked <= Pick(remain, picked, ids, rf).picked
    decreases Clamp(rf - |picked|)
  {
    var id := Next(remain, picked, ids);
    if |picked| < rf && id != "" {
      PickGrows(remain[id := Get(remain, id) - 1], picked + [id], ids, rf);
    }
  }

  lemma {:induction false} AllocateAt(queue: seq<NodeID>, ids: seq<NodeID>, followers: Counts, rf: int, i: nat)
    requires i < |queue|
    ensures |Allocate(queue, ids, followers, rf).placements| == |queue|
    ensures Allocate(queue, ids, followers, rf).placements[..i] == Allocate(queue[..i], ids, followers, rf).placements
    ensures Allocate(queue, ids, followers, rf).placements[i] ==
            Pick(Allocate(queue[..i], ids, followers, rf).remain, [queue[i]], ids, rf).picked
  {
    var n := |queue| - 1;
    AllocateLength(queue, ids, followers, rf);
    AllocateLength(queue[..n], ids, followers, rf);
    if i < n {
      AllocateAt(queue[..n], ids, followers, rf, i);
      assert queue[..n][..i] == queue[..i];
    }
  }

  /** The demand of the allocator's state is the demand that can be read off the tablets. */
  lemma StateIsDemand(leaders: Counts, followers: Counts, rf: int, i: nat, j: nat) returns (left: Counts)
    requires i < |Expanded(leaders, followers, rf)| && 1 <= j <= |Expanded(leaders, followers, rf)[i].peers|
    ensures |AllocationOf(leaders, followers, rf).placements| == |Expanded(leaders, followers, rf)|
    ensures var ts := Expanded(leaders, followers, rf);
            var picked := AllocationOf(leaders, followers, rf).placements[i];
            && |picked| == |ts[i].peers|
            && (forall id :: Get(left, id) == DemandLeft(ts, followers, i, j, id))
            && (j < |picked| ==> picked[j] == Next(left, picked[..j], IDOrder(leaders)) != "")
            && (j == |picked| && j < rf ==> Next(left, picked, IDOrder(leaders)) == "")
  {
    var q, ids, ts := Queue(leaders), IDOrder(leaders), Expanded(leaders, followers, rf);
    var ps := AllocationOf(leaders, followers, rf).placements;
    ExpandedAt(leaders, followers, rf);
    AllocateAt(q, ids, followers, rf, i);
    var before := Allocate(q[..i], ids, followers, rf);
    left := PickTrace(before.remain, [q[i]], ids, rf, j);
    forall id ensures Get(left, id) == DemandLeft(ts, followers, i, j, id) {
      AllocateConserves(q[..i], ids, followers, rf, id);
      EarlierTablets(leaders, followers, rf, i, id);
      EarlierPlaces(ps[i], j, id);
    }
  }

  lemma EarlierTablets(leaders: Counts, followers: Counts, rf: int, i: nat, id: NodeID)
    requires i < |Expanded(leaders, followers, rf)|
    ensures |AllocationOf(leaders, followers, rf).placements| == |Expanded(leaders, followers, rf)|
    ensures PeerCount(Expanded(leaders, followers, rf)[..i], OnAsFollower(id)) ==
            PickedAsFollower(AllocationOf(leaders, followers, rf).placements[..i], id)
  {
    var q, ps := Queue(leaders), AllocationOf(leaders, followers, rf).placements;
    ExpandedAt(leaders, followers, rf);
    TabletsOfAt(q[..i], ps[..i]);
    assert Expanded(leaders, followers, rf)[..i] == TabletsOf(q[..i], ps[..i]);
    FollowerPeersCount(q[..i], ps[..i], id);
  }

  lemma EarlierPlaces(placement: seq<NodeID>, j: nat, id: NodeID)
    requires 1 <= j <= |placement|
    ensures CountIf(PeersOf(placement)[..j], OnAsFollower(id)) + multiset([placement[0]])[id] ==
            multiset(placement[..j])[id]
  {
    assert PeersOf(placement)[..j] == PeersOf(placement[..j]);
    FollowerPeersOfPlacement(placement[..j], id);
    assert placement[..j] == [placement[0]] + placement[..j][1..];
  }

  // ----- the choice

  lemma FreeIsUnpicked(placement: seq<NodeID>, t: Tablet, j: nat, id: NodeID)
    requires t.peers == PeersOf(placement) && j <= |placement|
    ensures Free(t, j, id) <==> id !in placement[..j]
  {
    if id in placement[..j] {
      var k :| 0 <= k < j && placement[..j][k] == id;
      assert t.peers[k].tserverID == id;
    }
  }

  lemma CandidateIsWanted(left: Counts, placement: seq<NodeID>, ts: seq<Tablet>, followers: Counts, i: nat, j: nat)
    requires i < |ts| && ts[i].peers == PeersOf(placement) && j <= |placement|
    requires forall id :: Get(left, id) == DemandLeft(ts, followers, i, j, id)
    ensures forall id :: Candidate(left, placement[..j], id) <==> Wanted(ts, followers, i, j, id)
    ensures forall id :: IsBest(left, placement[..j], id) <==> MostWanted(ts, followers, i, j, id)
  {
    forall id ensures Candidate(left, placement[..j], id) <==> Wanted(ts, followers, i, j, id) {
      FreeIsUnpicked(placement, ts[i], j, id);
    }
  }

  lemma NextIs(left: Counts, picked: seq<NodeID>, ids: seq<NodeID>)
    ensures var best := Best(left, picked);
            if best != "" then IsBest(left, picked, best) && Next(left, picked, ids) == best
            else && Next(left, picked, ids) == Fallback(ids, picked)
                 && (IsBest(left, picked, "") || forall id :: !Candidate(left, picked, id))
  {
    BestIsCandidate(left, picked);
  }

  lemma {:induction false} FallbackIsLeast(ids: seq<NodeID>, picked: seq<NodeID>)
    requires StrictlySorted(ids) && exists id :: id in ids && id !in picked
    ensures Fallback(ids, picked) in ids && Fallback(ids, picked) !in picked
    ensures forall id :: id in ids && id !in picked ==> AtMost(Fallback(ids, picked), id)
  {
    if ids[0] in picked {
      var id :| id in ids && id !in picked;
      assert ids == [ids[0]] + ids[1..];
      FallbackIsLeast(ids[1..], picked);
    }
  }

  /** Every replica after the leader is on the server that is wanted most; only if the greedy
      choice gives up is it on the least leader key that is free. */
  lemma GreedyChoice(leaders: Counts, followers: Counts, rf: int, i: nat, j: nat)
    requires i < |Expanded(leaders, followers, rf)| && 1 <= j < |Expanded(leaders, followers, rf)[i].peers|
    ensures var ts := Expanded(leaders, followers, rf);
            var chosen := ts[i].peers[j].tserverID;
            || MostWanted(ts, followers, i, j, chosen)
            || (GreedyGivesUp(ts, followers, i, j) && FirstFree(leaders, ts[i], j, chosen))
  {
    var ts, ids := Expanded(leaders, followers, rf), IDOrder(leaders);
    ExpandedAt(leaders, followers, rf);
    var picked := AllocationOf(leaders, followers, rf).placements[i];
    var left := StateIsDemand(leaders, followers, rf, i, j);
    CandidateIsWanted(left, picked, ts, followers, i, j);
    NextIs(left, picked[..j], ids);
    if Best(left, picked[..j]) == "" {
      FallbackChoice(leaders, ts[i], picked, j);
    }
  }

  lemma FallbackChoice(leaders: Counts, t: Tablet, picked: seq<NodeID>, j: nat)
    requires t.peers == PeersOf(picked) && j <= |picked|
    ensures Fallback(IDOrder(leaders), picked[..j]) != "" ==>
              FirstFree(leaders, t, j, Fallback(IDOrder(leaders), picked[..j]))
    ensures Fallback(IDOrder(leaders), picked[..j]) == "" ==>
              FirstFree(leaders, t, j, "") || forall id :: id in leaders ==> !Free(t, j, id)
  {
    IDOrderDistinct(leaders);
    forall id ensures Free(t, j, id) <==> id !in picked[..j] {
      FreeIsUnpicked(picked, t, j, id);
    }
    FallbackIs(IDOrder(leaders), picked[..j]);
    if exists id :: id in IDOrder(leaders) && id !in picked[..j] {
      FallbackIsLeast(IDOrder(leaders), picked[..j]);
    }
  }

  /** A tablet stops short of rf only if the greedy choice gives up and the least free leader
      key is the empty id, or none is free. */
  lemma StopsShort(leaders: Counts, followers: Counts, rf: int, i: nat)
    requires i < |Expanded(leaders, followers, rf)| && |Expanded(leaders, followers, rf)[i].peers| < rf
    ensures var ts := Expanded(leaders, followers, rf);
            var j := |ts[i].peers|;
            && GreedyGivesUp(ts, followers, i, j)
            && (FirstFree(leaders, ts[i], j, "") || forall id :: id in leaders ==> !Free(ts[i], j, id))
  {
    var ts, ids := Expanded(leaders, followers, rf), IDOrder(leaders);
    ExpandedAt(leaders, followers, rf);
    var picked, j := AllocationOf(leaders, followers, rf).placements[i], |ts[i].peers|;
    var left := StateIsDemand(leaders, followers, rf, i, j);
    assert picked[..j] == picked;
    CandidateIsWanted(left, picked, ts, followers, i, j);
    NextIs(left, picked, ids);
    FallbackChoice(leaders, ts[i], picked, j);
  }
}
