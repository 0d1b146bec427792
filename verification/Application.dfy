/**
 What a request can do to a follower's commit index, and when application is exact: for the code's own truncation as
 well as the repaired one, in every run under any of the rules (src/raft/raft.cpp:182-206, 286-312, 592-606).
 */
module Application {
  import opened Types
  import opened RaftLogs
  import opened NodeSpec
  import opened Clusters
  import opened AllRules

  /** The entries follow `prev`, which has a term; so it is with every request of a run. */
  predicate Follows(req: AppendEntriesRequest)
  {
    req.entries != [] ==> req.entries[0].index == req.prevLogIndex + 1 && (req.prevLogIndex > 0 ==> req.prevLogTerm != NO_TERM)
  }

  /** A stale request, or one whose `prev` the follower does not hold. */
  predicate Refused(n: Node, req: AppendEntriesRequest)
  {
    req.term < n.term || !PrevMatches(n.log, req)
  }

  /** How long the log of the follower is after it has stored a request that it does not refuse. */
  function StoredLength(rules: Rules, log: seq<RaftEntry>, req: AppendEntriesRequest): nat
  {
    var prev, es := req.prevLogIndex, req.entries;
    if es == [] || (rules.keepSuffix && prev <= |log| && Agreeing(log, prev, es) == |es|) then |log| else prev + |es|
  }

  lemma StoredHas(rules: Rules, log: seq<RaftEntry>, req: AppendEntriesRequest)
    requires Follows(req) && PrevMatches(log, req)
    ensures |Store(rules, log, req.entries)| == StoredLength(rules, log, req)
    ensures req.entries != [] ==> req.prevLogIndex <= |log| && req.prevLogIndex + |req.entries| <= StoredLength(rules, log, req)
  {
    if req.entries != [] && rules.keepSuffix {
      var k := Agreeing(log, req.prevLogIndex, req.entries);
    }
  }

  // ---- The follower's commit index ----

  /** When exactly a request moves the commit index no further than its last entry. */
  lemma CommitBoundExactly(rules: Rules, n: Node, req: AppendEntriesRequest)
    requires Follows(req)
    ensures var bound := Max(n.commit, req.prevLogIndex + |req.entries|);
            HandleAppendEntries(rules, n, req).0.commit <= bound <==>
              || rules.keepSuffix || req.entries != [] || Refused(n, req)
              || req.leaderCommit <= bound || |n.log| <= bound
  {
    hide Store;
    if !Refused(n, req) {
      StoredHas(rules, n.log, req);
    }
  }

  /** Requests are empty only when `prev` is at or past the sender's last entry. */
  lemma BuiltBounded(n: Node, peer: NodeId)
    requires n.broadcast.Some? && peer in n.nextIndex && n.broadcast.value.commit <= |n.log|
    ensures var req := BuildAppend(n, peer); req.entries == [] ==> req.leaderCommit <= |n.log| <= req.prevLogIndex
  {
  }

  lemma BuiltFollows(rules: Rules, ids: set<NodeId>, actions: seq<Action>, i: nat, a: NodeId, peer: NodeId)
    requires i <= |actions| && a in ids
    requires var n := At(rules, ids, actions, i, a); n.broadcast.Some? && peer in n.nextIndex
    ensures Follows(BuildAppend(At(rules, ids, actions, i, a), peer))
  {
    RunSound(rules, ids, actions[..i]);
    BuiltOrdered(At(rules, ids, actions, i, a), peer);
  }

  /**
   Follower commit bound: in every run, under any rules, a request sent while the sender's commit index was within its
   log never moves the commit index of whoever receives it past `prev_log_index + |entries|`, at whatever moment it
   arrives, although the code takes the minimum with the whole log's last index.
   */
  lemma FollowerCommitBound(rules: Rules, ids: set<NodeId>, actions: seq<Action>, i: nat, a: NodeId, peer: NodeId, j: nat, b: NodeId)
    requires i < |actions| && j < |actions| && a in ids && b in ids
    requires actions[i] == SendAppend(a, peer)
    requires Enabled(rules, Run(rules, ids, actions[..i]).network, At(rules, ids, actions, i, a), actions[i])
    requires At(rules, ids, actions, i, a).broadcast.value.commit <= |At(rules, ids, actions, i, a).log|
    requires actions[j] == ReceiveAppendRequest(b, BuildAppend(At(rules, ids, actions, i, a), peer))
    ensures var req := actions[j].appendRequest;
            At(rules, ids, actions, j + 1, b).commit <= Max(At(rules, ids, actions, j, b).commit, req.prevLogIndex + |req.entries|)
  {
    hide HandleAppendEntries, BuildAppend, NodeSpec.OnAppendResponse, Refused, Follows, Run;
    var req, c := actions[j].appendRequest, Run(rules, ids, actions[..j]);
    BuiltFollows(rules, ids, actions, i, a, peer);
    BuiltBounded(At(rules, ids, actions, i, a), peer);
    RunSound(rules, ids, actions[..j]);
    CommitBoundExactly(rules, c.nodes[b], req);
    MomentNext(rules, ids, actions, j, b);
  }

  /** The node after the next action of the run. */
  lemma MomentNext(rules: Rules, ids: set<NodeId>, actions: seq<Action>, i: nat, id: NodeId)
    requires i < |actions| && id in ids
    ensures var c := Run(rules, ids, actions[..i]);
            At(rules, ids, actions, i + 1, id)
            == if actions[i].id == id && Enabled(rules, c.network, c.nodes[id], actions[i])
               then NodeStep(rules, c.network, c.nodes[id], actions[i]).0 else c.nodes[id]
  {
    hide NodeStep, Enabled;
    assert actions[..i + 1][..i] == actions[..i];
    NextNode(rules, Run(rules, ids, actions[..i]), actions[i], id);
  }

  /** In every run the batch of an accepted request continues the truncated log, so `Append` never drops it. */
  lemma AppendNeverDropped(rules: Rules, ids: set<NodeId>, actions: seq<Action>, b: NodeId, req: AppendEntriesRequest)
    requires b in ids && AppendRequestMsg(b, req) in Run(rules, ids, actions).network
    requires PrevMatches(Run(rules, ids, actions).nodes[b].log, req) && req.entries != []
    ensures var log := Run(rules, ids, actions).nodes[b].log;
            var first := req.entries[0].index;
            first >= 1 && Appended(Truncated(log, first - 1), req.entries) == log[..Min(first - 1, |log|)] + req.entries
            && |Truncated(log, first - 1)| == first - 1
  {
    RunSound(rules, ids, actions);
    assert MessageSound(AppendRequestMsg(b, req));
    PrevWithin(Run(rules, ids, actions).nodes[b].log, req);
  }

  // ---- In-order, exactly-once application ----

  /** The batches delivered so far are log[1..last_applied]. */
  predicate InOrder(n: Node)
  {
    n.lastApplied <= |n.log| && n.delivered == n.log[..n.lastApplied]
  }

  /** And the commit index is within the log and not behind. */
  predicate Exact(n: Node)
  {
    InOrder(n) && n.lastApplied <= n.commit <= |n.log|
  }

  /** Before the request is handled: it takes away or changes no applied entry. */
  predicate Spares(rules: Rules, n: Node, req: AppendEntriesRequest)
  {
    var prev, es := req.prevLogIndex, req.entries;
    || es == []
    || if rules.keepSuffix then prev <= |n.log| && (var k := Agreeing(n.log, prev, es); k == |es| || n.lastApplied <= prev + k)
       else n.lastApplied <= prev || (n.lastApplied <= |n.log| && n.log[prev..n.lastApplied] <= es)
  }

  lemma SparesExactly(rules: Rules, n: Node, req: AppendEntriesRequest)
    requires Follows(req) && PrevMatches(n.log, req) && n.lastApplied <= |n.log|
    ensures var log := Store(rules, n.log, req.entries);
            Spares(rules, n, req) <==> n.lastApplied <= |log| && log[..n.lastApplied] == n.log[..n.lastApplied]
  {
    var prev, es, applied := req.prevLogIndex, req.entries, n.lastApplied;
    if es != [] {
      StoredHas(rules, n.log, req);
      if rules.keepSuffix {
        SparesKept(rules, n.log, prev, es, applied);
      } else {
        SparesCut(rules, n.log, prev, es, applied);
      }
    }
  }

  lemma SparesKept(rules: Rules, log: seq<RaftEntry>, prev: Index, es: seq<RaftEntry>, applied: nat)
    requires rules.keepSuffix && es != [] && es[0].index == prev + 1 && prev <= |log| && applied <= |log|
    ensures var stored, k := Store(rules, log, es), Agreeing(log, prev, es);
            k == |es| || applied <= prev + k <==> applied <= |stored| && stored[..applied] == log[..applied]
  {
    var stored, k := Store(rules, log, es), Agreeing(log, prev, es);
    if k < |es| {
      assert stored == log[..prev + k] + es[k..];
      if applied <= prev + k {
        assert stored[..applied] == log[..applied];
      } else if applied <= |stored| {
        assert stored[..applied][prev + k].term == es[k].term != log[..applied][prev + k].term;
      }
    }
  }

  lemma SparesCut(rules: Rules, log: seq<RaftEntry>, prev: Index, es: seq<RaftEntry>, applied: nat)
    requires !rules.keepSuffix && es != [] && es[0].index == prev + 1 && prev <= |log| && applied <= |log|
    ensures var stored := Store(rules, log, es);
            applied <= prev || log[prev..applied] <= es <==> applied <= |stored| && stored[..applied] == log[..applied]
  {
    var stored := Store(rules, log, es);
    assert stored == log[..prev] + es;
    if applied <= prev {
      assert stored[..applied] == log[..applied];
    } else {
      assert log[..applied] == log[..prev] + log[prev..applied];
      if applied <= |stored| {
        assert stored[..applied] == log[..prev] + es[..applied - prev];
        assert stored[..applied] == log[..applied] ==> stored[..applied][prev..] == log[..applied][prev..];
      }
    }
  }

  /** Where the commit index moves, it stays within what is stored; the code's own bound sees to that by itself. */
  predicate MovesWithin(rules: Rules, n: Node, req: AppendEntriesRequest)
  {
    var length := StoredLength(rules, n.log, req);
    !rules.keepSuffix || (n.commit <= length && Min(req.leaderCommit, req.prevLogIndex + |req.entries|) <= length)
  }

  /** What can be checked before a request is handled, for in-order application. */
  predicate KeepsOrder(rules: Rules, n: Node, req: AppendEntriesRequest)
  {
    || Refused(n, req)
    || (Spares(rules, n, req) && (req.leaderCommit > n.commit ==> MovesWithin(rules, n, req)))
  }

  /** What can be checked before a request is handled, for exact application. */
  predicate KeepsExact(rules: Rules, n: Node, req: AppendEntriesRequest)
  {
    || Refused(n, req)
    || (Spares(rules, n, req)
        && if req.leaderCommit > n.commit then MovesWithin(rules, n, req) else n.commit <= StoredLength(rules, n.log, req))
  }

  /** A request that is not refused: what is stored, then the commit index, then what is applied. */
  lemma AcceptedShape(rules: Rules, n: Node, req: AppendEntriesRequest)
    requires !Refused(n, req)
    ensures var log := Store(rules, n.log, req.entries);
            var commit := FollowerCommit(rules, n.commit, req, log);
            var stored := n.(log := log, commit := commit);
            var done := if req.leaderCommit > n.commit then ApplyCommitted(stored) else stored;
            var m := HandleAppendEntries(rules, n, req).0;
            m.log == log && m.commit == commit && m.lastApplied == done.lastApplied && m.delivered == done.delivered
  {
    hide Store, FollowerCommit, PrevMatches;
  }

  lemma RefusedShape(rules: Rules, n: Node, req: AppendEntriesRequest)
    requires Refused(n, req)
    ensures var m := HandleAppendEntries(rules, n, req).0;
            m.log == n.log && m.commit == n.commit && m.lastApplied == n.lastApplied && m.delivered == n.delivered
  {
  }

  /** Application over a log that holds the applied entries. */
  lemma ApplyInOrder(n: Node)
    requires InOrder(n)
    ensures InOrder(ApplyCommitted(n)) <==> n.commit <= n.lastApplied || n.commit <= |n.log|
  {
  }

  /** Application never makes up for an applied entry that the log has lost or changed. */
  lemma ApplyOutOfOrder(n: Node, before: seq<RaftEntry>)
    requires n.delivered == before && n.lastApplied == |before| && InOrder(ApplyCommitted(n))
    ensures |before| <= |n.log| && n.log[..|before|] == before
  {
    var m := ApplyCommitted(n);
    assert before == m.delivered[..|before|] == m.log[..m.lastApplied][..|before|] == n.log[..|before|];
  }

  /** A follower handles a request in order exactly when the request meets the guard. */
  lemma AppendInOrder(rules: Rules, n: Node, req: AppendEntriesRequest)
    requires InOrder(n) && Follows(req)
    ensures InOrder(HandleAppendEntries(rules, n, req).0) <==> KeepsOrder(rules, n, req)
  {
    hide Store, Spares, StoredLength, PrevMatches, ApplyCommitted, HandleAppendEntries, Follows;
    if Refused(n, req) {
      RefusedShape(rules, n, req);
    } else {
      AcceptedShape(rules, n, req);
      StoredHas(rules, n.log, req);
      SparesExactly(rules, n, req);
      var log := Store(rules, n.log, req.entries);
      var stored := n.(log := log, commit := FollowerCommit(rules, n.commit, req, log));
      ApplyCommittedShape(stored);
      if Spares(rules, n, req) {
        ApplyInOrder(stored);
        CommitStored(rules, n, req);
      } else if InOrder(ApplyCommitted(stored)) {
        ApplyOutOfOrder(stored, n.delivered);
      }
    }
  }

  lemma CommitStored(rules: Rules, n: Node, req: AppendEntriesRequest)
    requires Follows(req) && PrevMatches(n.log, req)
    ensures var length := StoredLength(rules, n.log, req);
            var commit := FollowerCommit(rules, n.commit, req, Store(rules, n.log, req.entries));
            && (req.leaderCommit <= n.commit ==> commit == n.commit)
            && (req.leaderCommit > n.commit ==> (commit <= length <==> MovesWithin(rules, n, req)))
  {
    hide Store, StoredLength;
    StoredHas(rules, n.log, req);
  }

  /** The same with the commit index: it stays between what is applied and the end of the log exactly under the stronger guard. */
  lemma AppendExact(rules: Rules, n: Node, req: AppendEntriesRequest)
    requires Exact(n) && Follows(req)
    ensures Exact(HandleAppendEntries(rules, n, req).0) <==> KeepsExact(rules, n, req)
  {
    AppendInOrder(rules, n, req);
    hide Store, Spares, StoredLength, PrevMatches, HandleAppendEntries, Follows, InOrder, FollowerCommit, MovesWithin;
    if Refused(n, req) {
      RefusedShape(rules, n, req);
    } else {
      AcceptedShape(rules, n, req);
      StoredHas(rules, n.log, req);
      CommitStored(rules, n, req);
      if Spares(rules, n, req) {
        CommitAhead(rules, n, req);
      }
    }
  }

  /** Where no applied entry is taken away, the commit index does not fall behind what is applied. */
  lemma CommitAhead(rules: Rules, n: Node, req: AppendEntriesRequest)
    requires Exact(n) && Follows(req) && PrevMatches(n.log, req) && Spares(rules, n, req)
    ensures n.lastApplied <= FollowerCommit(rules, n.commit, req, Store(rules, n.log, req.entries))
  {
    SparesExactly(rules, n, req);
  }

  // ---- Over runs ----

  /** The step that node `id` takes next in the run, if it takes one. */
  ghost predicate Takes(rules: Rules, ids: set<NodeId>, actions: seq<Action>, i: nat, id: NodeId)
    requires i < |actions| && id in ids
  {
    var c := Run(rules, ids, actions[..i]);
    actions[i].id == id && Enabled(rules, c.network, c.nodes[id], actions[i])
  }

  /** What a step has to meet for in-order application: requests the guard above, `Apply` a commit index within the log. */
  predicate OrderGuard(rules: Rules, n: Node, a: Action)
  {
    match a
    case ReceiveAppendRequest(_, req) => KeepsOrder(rules, n, req)
    case Apply(_) => n.commit <= n.lastApplied || n.commit <= |n.log|
    case _ => true
  }

  /** For exact application it is the requests alone. */
  predicate ExactGuard(rules: Rules, n: Node, a: Action)
  {
    a.ReceiveAppendRequest? ==> KeepsExact(rules, n, a.appendRequest)
  }

  lemma LogUntouched(rules: Rules, network: set<Message>, n: Node, a: Action)
    requires Enabled(rules, network, n, a)
    requires !(a.ReceiveAppendRequest? || a.ClientPropose? || a.LeaderCommits? || a.Apply?)
    ensures var m := NodeStep(rules, network, n, a).0;
            m.log == n.log && m.commit == n.commit && m.lastApplied == n.lastApplied && m.delivered == n.delivered
  {
    hide BuildAppend, LogUpToDate, FindConflictTermIndex, TermAt;
  }

  /** No other action touches what `Exact` speaks of, except to commit an entry of the log, to apply or to extend the log. */
  lemma OtherExact(rules: Rules, network: set<Message>, n: Node, a: Action)
    requires Enabled(rules, network, n, a) && !a.ReceiveAppendRequest?
    requires n.role == Leader ==> n.term != NO_TERM
    ensures var m := NodeStep(rules, network, n, a).0;
            && (Exact(n) ==> Exact(m))
            && (InOrder(n) && !a.Apply? ==> InOrder(m))
  {
    if a.LeaderCommits? {
      hide AdvanceCommit;
      AdvanceCommitShape(rules, n);
      if n.role == Leader {
        AdvanceCommitMonotone(rules, n);
      } else {
        CommitNotLeader(rules, n);
      }
    } else if !a.Apply? && !a.ClientPropose? {
      hide NodeStep;
      LogUntouched(rules, network, n, a);
    }
  }

  lemma CommitNotLeader(rules: Rules, n: Node)
    requires n.role != Leader
    ensures AdvanceCommit(rules, n) == n
  {
  }

  lemma StepGuarded(rules: Rules, network: set<Message>, n: Node, a: Action)
    requires Enabled(rules, network, n, a) && (n.role == Leader ==> n.term != NO_TERM)
    requires forall msg {:trigger MessageSound(msg)} :: msg in network ==> MessageSound(msg)
    ensures var m := NodeStep(rules, network, n, a).0;
            && (InOrder(n) ==> (InOrder(m) <==> OrderGuard(rules, n, a)))
            && (Exact(n) ==> (Exact(m) <==> ExactGuard(rules, n, a)))
  {
    hide HandleAppendEntries, KeepsOrder, KeepsExact, ApplyCommitted;
    if a.ReceiveAppendRequest? {
      assert MessageSound(AppendRequestMsg(n.id, a.appendRequest));
      if InOrder(n) {
        AppendInOrder(rules, n, a.appendRequest);
      }
      if Exact(n) {
        AppendExact(rules, n, a.appendRequest);
      }
    } else {
      OtherExact(rules, network, n, a);
      if a.Apply? && InOrder(n) {
        ApplyInOrder(n);
      }
    }
  }

  lemma MomentGuarded(rules: Rules, ids: set<NodeId>, actions: seq<Action>, i: nat, id: NodeId)
    requires i < |actions| && id in ids
    ensures var n, m := At(rules, ids, actions, i, id), At(rules, ids, actions, i + 1, id);
            var met := Takes(rules, ids, actions, i, id);
            && (InOrder(n) ==> (InOrder(m) <==> (met ==> OrderGuard(rules, n, actions[i]))))
            && (Exact(n) ==> (Exact(m) <==> (met ==> ExactGuard(rules, n, actions[i]))))
  {
    hide NodeStep, Enabled, OrderGuard, ExactGuard, InOrder, Exact, MessageSound, Ordered, WorkerSound, Run;
    var c := Run(rules, ids, actions[..i]);
    RunSound(rules, ids, actions[..i]);
    MomentNext(rules, ids, actions, i, id);
    if Takes(rules, ids, actions, i, id) {
      StepGuarded(rules, c.network, c.nodes[id], actions[i]);
    }
  }

  ghost predicate OrderGuardAt(rules: Rules, ids: set<NodeId>, actions: seq<Action>, i: nat, id: NodeId)
    requires i < |actions| && id in ids
  {
    Takes(rules, ids, actions, i, id) ==> OrderGuard(rules, At(rules, ids, actions, i, id), actions[i])
  }

  ghost predicate ExactGuardAt(rules: Rules, ids: set<NodeId>, actions: seq<Action>, i: nat, id: NodeId)
    requires i < |actions| && id in ids
  {
    Takes(rules, ids, actions, i, id) ==> ExactGuard(rules, At(rules, ids, actions, i, id), actions[i])
  }

  lemma {:induction false} InOrderUpTo(rules: Rules, ids: set<NodeId>, actions: seq<Action>, i: nat, id: NodeId)
    requires id in ids && i <= |actions|
    requires forall j: nat {:trigger OrderGuardAt(rules, ids, actions, j, id)} :: j < i ==> OrderGuardAt(rules, ids, actions, j, id)
    ensures InOrder(At(rules, ids, actions, i, id))
  {
    if i > 0 {
      InOrderUpTo(rules, ids, actions, i - 1, id);
      MomentGuarded(rules, ids, actions, i - 1, id);
      assert OrderGuardAt(rules, ids, actions, i - 1, id);
    }
  }

  lemma {:induction false} ExactUpTo(rules: Rules, ids: set<NodeId>, actions: seq<Action>, i: nat, id: NodeId)
    requires id in ids && i <= |actions|
    requires forall j: nat {:trigger ExactGuardAt(rules, ids, actions, j, id)} :: j < i ==> ExactGuardAt(rules, ids, actions, j, id)
    ensures Exact(At(rules, ids, actions, i, id))
  {
    if i > 0 {
      ExactUpTo(rules, ids, actions, i - 1, id);
      MomentGuarded(rules, ids, actions, i - 1, id);
      assert ExactGuardAt(rules, ids, actions, i - 1, id);
    }
  }

  /**
   Exactly-once, in-order application: in any run, under any of the rules, what a node has delivered is at all moments
   log[1..last_applied] if and only if every request it handles meets the guard `KeepsOrder` (refused, or empty, or its
   entries repeat the applied ones they overlap), and it never applies with the commit index past the end of the log.
   */
  lemma DeliveredInOrder(rules: Rules, ids: set<NodeId>, actions: seq<Action>, id: NodeId)
    requires id in ids
    ensures (forall i: nat {:trigger At(rules, ids, actions, i, id)} :: i <= |actions| ==> InOrder(At(rules, ids, actions, i, id)))
       <==> (forall i: nat {:trigger OrderGuardAt(rules, ids, actions, i, id)} :: i < |actions| ==> OrderGuardAt(rules, ids, actions, i, id))
  {
    hide InOrder, At, OrderGuard, Takes;
    if forall i: nat {:trigger OrderGuardAt(rules, ids, actions, i, id)} :: i < |actions| ==> OrderGuardAt(rules, ids, actions, i, id) {
      forall i: nat | i <= |actions|
        ensures InOrder(At(rules, ids, actions, i, id))
      {
        InOrderUpTo(rules, ids, actions, i, id);
      }
    }
    if forall i: nat {:trigger At(rules, ids, actions, i, id)} :: i <= |actions| ==> InOrder(At(rules, ids, actions, i, id)) {
      forall i: nat | i < |actions|
        ensures OrderGuardAt(rules, ids, actions, i, id)
      {
        MomentGuarded(rules, ids, actions, i, id);
      }
    }
  }

  /**
   The same with the commit index, which the next `Apply` relies on: at all moments the delivered batches are
   log[1..last_applied] and last_applied <= commit <= last index, if and only if every request handled meets `KeepsExact`.
   */
  lemma ExactlyOnce(rules: Rules, ids: set<NodeId>, actions: seq<Action>, id: NodeId)
    requires id in ids
    ensures (forall i: nat {:trigger At(rules, ids, actions, i, id)} :: i <= |actions| ==> Exact(At(rules, ids, actions, i, id)))
       <==> (forall i: nat {:trigger ExactGuardAt(rules, ids, actions, i, id)} :: i < |actions| ==> ExactGuardAt(rules, ids, actions, i, id))
  {
    hide Exact, At, ExactGuard, Takes;
    if forall i: nat {:trigger ExactGuardAt(rules, ids, actions, i, id)} :: i < |actions| ==> ExactGuardAt(rules, ids, actions, i, id) {
      forall i: nat | i <= |actions|
        ensures Exact(At(rules, ids, actions, i, id))
      {
        ExactUpTo(rules, ids, actions, i, id);
      }
    }
    if forall i: nat {:trigger At(rules, ids, actions, i, id)} :: i <= |actions| ==> Exact(At(rules, ids, actions, i, id)) {
      forall i: nat | i < |actions|
        ensures ExactGuardAt(rules, ids, actions, i, id)
      {
        MomentGuarded(rules, ids, actions, i, id);
      }
    }
  }
}
