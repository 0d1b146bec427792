/**
 Keeping the applied entries in place is not enough for exact application: the commit index of the code can be left past
 the end of the log, and the next batch is then clipped (src/raft/raft.cpp:286-312, 593-603).
 */
module Clipping {
  import opened Types
  import opened RaftLogs
  import opened NodeSpec
  import opened Clusters
  import opened Necessity

  /** No step of the run takes away an entry that the node has applied. */
  ghost predicate NeverCutBelowApplied(rules: Rules, ids: set<NodeId>, actions: seq<Action>, id: NodeId)
    requires id in ids
  {
    forall i {:trigger At(rules, ids, actions, i, id)} :: 0 <= i < |actions| ==>
      var n, m := At(rules, ids, actions, i, id), At(rules, ids, actions, i + 1, id);
      n.lastApplied <= |n.log| && n.log[..n.lastApplied] <= m.log
  }

  lemma AppliedGrows(rules: Rules, network: set<Message>, n: Node, a: Action)
    requires Enabled(rules, network, n, a)
    ensures n.lastApplied <= NodeStep(rules, network, n, a).0.lastApplied
  {
    hide Store, FollowerCommit, BuildAppend;
  }

  lemma {:induction false} AppliedSince(rules: Rules, ids: set<NodeId>, actions: seq<Action>, i: nat, id: NodeId)
    requires id in ids && i <= |actions|
    ensures At(rules, ids, actions, i, id).lastApplied <= Run(rules, ids, actions).nodes[id].lastApplied
    decreases |actions|
  {
    hide NodeStep, Enabled;
    if i == |actions| {
      assert actions[..i] == actions;
    } else {
      var before, a := actions[..|actions| - 1], actions[|actions| - 1];
      assert before[..i] == actions[..i];
      AppliedSince(rules, ids, before, i, id);
      var c := Run(rules, ids, before);
      if a.id == id && Enabled(rules, c.network, c.nodes[id], a) {
        AppliedGrows(rules, c.network, c.nodes[id], a);
      }
    }
  }

  /** Node 1 leads term 1 with two entries. */
  lemma TwoProposed(z: iset<Cluster>, two: seq<RaftEntry>) returns (c: Cluster)
    requires Closed(AS_WRITTEN, z) && InitialCluster(THREE) in z
    requires two == [] + [Entry(1, 1, 1)] + [Entry(2, 1, 2)]
    ensures c in z && HasNodes(c) && Fresh(c.nodes[1], 1, 1, Leader, two)
    ensures Fresh(c.nodes[2], 2, 1, Follower, []) && Fresh(c.nodes[3], 3, 0, Follower, [])
    ensures 1 in c.nodes[1].matchIndex && c.nodes[1].matchIndex[1] == 2
  {
    hide Fresh, Closed, LastTerm;
    var one := [] + [Entry(1, 1, 1)];
    OneEntry(one, 1, 1);
    c := Start(z);
    c := TakeOver(AS_WRITTEN, z, c, 1, 2, 0, [], 0, Follower, [], 1);
    c := FreshPropose(AS_WRITTEN, z, c, 1, 1, one, 2);
  }

  /** And node 2 leads term 2 with one. */
  lemma TwoTerms(z: iset<Cluster>, two: seq<RaftEntry>, other: seq<RaftEntry>) returns (c: Cluster)
    requires Closed(AS_WRITTEN, z) && InitialCluster(THREE) in z
    requires two == [] + [Entry(1, 1, 1)] + [Entry(2, 1, 2)] && other == [] + [Entry(3, 2, 1)]
    ensures c in z && HasNodes(c) && Fresh(c.nodes[1], 1, 1, Leader, two) && Fresh(c.nodes[2], 2, 2, Leader, other)
    ensures 1 in c.nodes[1].matchIndex && c.nodes[1].matchIndex[1] == 2 && 1 in c.nodes[2].nextIndex && c.nodes[2].nextIndex[1] == 1
  {
    hide Closed, LastTerm;
    c := TwoProposed(z, two);
    c := TakeOver(AS_WRITTEN, z, c, 2, 3, 1, [], 0, Follower, [], 3);
  }

  /** Node 1 counts itself twice and commits both entries, but does not apply them yet. */
  lemma CommittedNotApplied(z: iset<Cluster>, two: seq<RaftEntry>, other: seq<RaftEntry>) returns (c: Cluster)
    requires Closed(AS_WRITTEN, z) && InitialCluster(THREE) in z
    requires two == [] + [Entry(1, 1, 1)] + [Entry(2, 1, 2)] && other == [] + [Entry(3, 2, 1)]
    ensures c in z && HasNodes(c) && Fresh(c.nodes[1].(commit := 0), 1, 1, Leader, two) && c.nodes[1].commit == 2
    ensures Fresh(c.nodes[2], 2, 2, Leader, other) && 1 in c.nodes[2].nextIndex && c.nodes[2].nextIndex[1] == 1
  {
    c := TwoTerms(z, two, other);
    var n := c.nodes[1];
    PicksLast(AS_WRITTEN, n, 1);
    forall k: Index | Picks(AS_WRITTEN, n, k)
      ensures k == 2
    {
      Quorum.QuorumIndexUnique(|n.log|, n.matchIndex, Counted(AS_WRITTEN, n), Quorum.Majority(|n.peers| + 1), k, 2);
    }
    c := ReachNext(AS_WRITTEN, z, c, LeaderCommits(1));
    assert c.nodes[1] == n.(commit := 2);
  }

  /** The other leader's entry replaces both, and the commit index stays at 2. */
  lemma CommitPastEnd(z: iset<Cluster>) returns (c: Cluster)
    requires Closed(AS_WRITTEN, z) && InitialCluster(THREE) in z
    ensures c in z && 1 in c.nodes
    ensures var n := c.nodes[1]; n.lastApplied == 0 && n.commit == 2 && |n.log| == 1 && n.delivered == []
  {
    var two, other := [] + [Entry(1, 1, 1)] + [Entry(2, 1, 2)], [] + [Entry(3, 2, 1)];
    c := CommittedNotApplied(z, two, other);
    c := Open(AS_WRITTEN, z, c, 2);
    var req := BuildAppend(c.nodes[2], 1);
    assert req == AppendEntriesRequest(2, 2, 0, 0, other, 0);
    assert Store(AS_WRITTEN, two, other) == other by { assert Truncated(two, 0) == []; }
    c := SendLost(AS_WRITTEN, z, c, 2, 1);
    c := Deliver(AS_WRITTEN, z, c, 1, req);
  }

  /**
   A run of the code in which no applied entry is ever taken away, and yet what node 1 delivers ends up different from
   log[1..last_applied]: `last_applied_` is 2 where a single entry has been delivered and the log holds one.
   */
  lemma ClippedBatch() returns (actions: seq<Action>)
    ensures NeverCutBelowApplied(AS_WRITTEN, THREE, actions, 1)
    ensures var n := Run(AS_WRITTEN, THREE, actions).nodes[1]; n.lastApplied == 2 && |n.delivered| == 1 && |n.log| == 1
  {
    ReachableIsClosed(AS_WRITTEN, THREE);
    var c := CommitPastEnd(ReachableClusters(AS_WRITTEN, THREE));
    var before: seq<Action> :| Run(AS_WRITTEN, THREE, before) == c;
    actions := before + [Apply(1)];
    assert actions[..|before|] == before && actions[..|actions|] == actions;
    forall i {:trigger At(AS_WRITTEN, THREE, actions, i, 1)} | 0 <= i < |actions|
      ensures At(AS_WRITTEN, THREE, actions, i, 1).lastApplied == 0
    {
      assert before[..i] == actions[..i];
      AppliedSince(AS_WRITTEN, THREE, before, i, 1);
    }
    assert Next(AS_WRITTEN, c, Apply(1)).nodes[1] == ApplyCommitted(c.nodes[1]);
  }
}
