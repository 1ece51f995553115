/** Below full node count the greedy allocator need not meet a demand that can be met. */
module FixtureGap {
  import opened Strings
  import opened Domain
  import opened Fixture
  import opened FixtureTheorems

  /** The placements give every queued leader rf replicas and every node exactly the
      followers planned for it. */
  ghost predicate Meets(placements: seq<seq<NodeID>>, leaders: Counts, followers: Counts, rf: int) {
    var q := Queue(leaders);
    && |placements| == |q|
    && (forall i :: 0 <= i < |q| ==> SafePlacement(q[i], placements[i], rf) && |placements[i]| == rf)
    && forall id :: PickedAsFollower(placements, id) == Get(followers, id)
  }

  function OneEach(a: NodeID, b: NodeID, c: NodeID): Counts {
    map[a := 1, b := 1, c := 1]
  }

  /** Three proper ids, in order. */
  predicate Three(a: NodeID, b: NodeID, c: NodeID) {
    "" != a && Less(a, b) && Less(b, c)
  }

  lemma ThreeDiffer(a: NodeID, b: NodeID, c: NodeID)
    requires Three(a, b, c)
    ensures Less(a, c) && a != b && b != c && a != c && b != "" && c != ""
  {
    LessTransitive(a, b, c);
    LessIrreflexive(a);
    LessIrreflexive(b);
    LessIrreflexive(c);
  }

  lemma QueueOfThree(a: NodeID, b: NodeID, c: NodeID)
    requires Three(a, b, c)
    ensures IDOrder(OneEach(a, b, c)) == [a, b, c] && Queue(OneEach(a, b, c)) == [a, b, c]
  {
    ThreeDiffer(a, b, c);
    var m := OneEach(a, b, c);
    SortedSetUnique([a, b, c], m.Keys);
    LeadersOnce([], m);
    LeadersOnce([a], m);
    LeadersOnce([a, b], m);
    LeadersOnce([a, b, c], m);
  }

  lemma {:induction false} LeadersOnce(ids: seq<NodeID>, leaders: Counts)
    requires forall id :: id in ids ==> Get(leaders, id) == 1
    ensures LeaderQueue(ids, leaders) == ids
  {
    if ids != [] {
      var n := |ids| - 1;
      assert ids == ids[..n] + [ids[n]];
      LeadersOnce(ids[..n], leaders);
      RepeatOnce(ids[n]);
    }
  }

  lemma RepeatOnce(id: NodeID)
    ensures Repeat(id, 1) == [id]
  {
    assert Repeat(id, 0) == [];
  }

  lemma PickSecond(remain: Counts, leader: NodeID, ids: seq<NodeID>, id: NodeID)
    requires id != "" && Next(remain, [leader], ids) == id
    ensures Pick(remain, [leader], ids, 2) == Choice([leader, id], remain[id := Get(remain, id) - 1])
  {
    assert [leader] + [id] == [leader, id];
    assert Pick(remain[id := Get(remain, id) - 1], [leader, id], ids, 2).picked == [leader, id];
  }

  lemma GreedyTakes(remain: Counts, leader: NodeID, ids: seq<NodeID>, id: NodeID)
    requires id != "" && IsBest(remain, [leader], id)
    ensures Next(remain, [leader], ids) == id
  {
    BestIsCandidate(remain, [leader]);
    BestUnique(remain, [leader], id, Best(remain, [leader]));
  }

  /** The three tablets in turn: the tie between b and c goes to b, the one between a and c
      to a, and then only c has demand left, whose own tablet it is. */
  lemma GreedyOnThree(a: NodeID, b: NodeID, c: NodeID)
    requires Three(a, b, c)
    ensures var m, ids := OneEach(a, b, c), [a, b, c];
            && Pick(m, [a], ids, 2) == Choice([a, b], m[b := 0])
            && Pick(m[b := 0], [b], ids, 2) == Choice([b, a], m[b := 0][a := 0])
            && Pick(m[b := 0][a := 0], [c], ids, 2) == Choice([c, a], m[b := 0][a := -1])
  {
    ThreeDiffer(a, b, c);
    var m, ids := OneEach(a, b, c), [a, b, c];
    assert IsBest(m, [a], b);
    GreedyTakes(m, a, ids, b);
    PickSecond(m, a, ids, b);
    assert IsBest(m[b := 0], [b], a);
    GreedyTakes(m[b := 0], b, ids, a);
    PickSecond(m[b := 0], b, ids, a);
    var left := m[b := 0][a := 0];
    BestIsCandidate(left, [c]);
    assert Next(left, [c], ids) == a;
    PickSecond(left, c, ids, a);
    assert left[a := -1] == m[b := 0][a := -1];
  }

  lemma AllocateThree(a: NodeID, b: NodeID, c: NodeID)
    requires Three(a, b, c)
    ensures var remain := Allocate([a, b, c], [a, b, c], OneEach(a, b, c), 2).remain;
            Get(remain, a) == -1 && Get(remain, b) == 0 && Get(remain, c) == 1
  {
    ThreeDiffer(a, b, c);
    var m, ids := OneEach(a, b, c), [a, b, c];
    GreedyOnThree(a, b, c);
    assert [a][..0] == [] && [a, b][..1] == [a] && [a, b, c][..2] == [a, b];
    assert Allocate([], ids, m, 2).remain == m;
    assert Allocate([a], ids, m, 2).remain == m[b := 0];
    assert Allocate([a, b], ids, m, 2).remain == m[b := 0][a := 0];
  }

  lemma RingFollowers(a: NodeID, b: NodeID, c: NodeID, id: NodeID)
    ensures PickedAsFollower([[a, b], [b, c], [c, a]], id) ==
            (if id == b then 1 else 0) + (if id == c then 1 else 0) + (if id == a then 1 else 0)
  {
    FollowerNext([], a, b, id);
    FollowerNext([[a, b]], b, c, id);
    FollowerNext([[a, b], [b, c]], c, a, id);
    assert [[a, b]] + [[b, c]] == [[a, b], [b, c]];
    assert [[a, b], [b, c]] + [[c, a]] == [[a, b], [b, c], [c, a]];
  }

  lemma FollowerNext(placements: seq<seq<NodeID>>, leader: NodeID, follower: NodeID, id: NodeID)
    ensures PickedAsFollower(placements + [[leader, follower]], id) ==
            PickedAsFollower(placements, id) + (if id == follower then 1 else 0)
  {
    assert (placements + [[leader, follower]])[..|placements|] == placements;
    assert [leader, follower][1..] == [follower];
  }

  lemma RingMeets(a: NodeID, b: NodeID, c: NodeID)
    requires Three(a, b, c)
    ensures Meets([[a, b], [b, c], [c, a]], OneEach(a, b, c), OneEach(a, b, c), 2)
  {
    QueueOfThree(a, b, c);
    RingIsSafe(a, b, c);
    forall id ensures PickedAsFollower([[a, b], [b, c], [c, a]], id) == Get(OneEach(a, b, c), id) {
      RingDemand(a, b, c, id);
    }
  }

  lemma RingIsSafe(a: NodeID, b: NodeID, c: NodeID)
    requires Three(a, b, c)
    ensures SafePlacement(a, [a, b], 2) && SafePlacement(b, [b, c], 2) && SafePlacement(c, [c, a], 2)
  {
    ThreeDiffer(a, b, c);
  }

  lemma RingDemand(a: NodeID, b: NodeID, c: NodeID, id: NodeID)
    requires Three(a, b, c)
    ensures PickedAsFollower([[a, b], [b, c], [c, a]], id) == Get(OneEach(a, b, c), id)
  {
    ThreeDiffer(a, b, c);
    RingFollowers(a, b, c, id);
  }

  /** Three nodes that lead one tablet each and want one follower each, at RF 2: each could
      follow its neighbour, but the allocator overdraws the first and leaves the last one's
      demand over. */
  lemma GreedyMissesFeasible(a: NodeID, b: NodeID, c: NodeID)
    requires Three(a, b, c)
    ensures exists placements :: Meets(placements, OneEach(a, b, c), OneEach(a, b, c), 2)
    ensures var remain := AllocationOf(OneEach(a, b, c), OneEach(a, b, c), 2).remain;
            Get(remain, a) == -1 && Get(remain, b) == 0 && Get(remain, c) == 1
  {
    GreedyRemainder(a, b, c);
    RingMeets(a, b, c);
  }

  lemma GreedyRemainder(a: NodeID, b: NodeID, c: NodeID)
    requires Three(a, b, c)
    ensures var remain := AllocationOf(OneEach(a, b, c), OneEach(a, b, c), 2).remain;
            Get(remain, a) == -1 && Get(remain, b) == 0 && Get(remain, c) == 1
  {
    QueueOfThree(a, b, c);
    AllocateThree(a, b, c);
  }
}
