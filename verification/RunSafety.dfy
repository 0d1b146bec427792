/** What every run of the repaired cluster guarantees (Figure 3 of the extended Raft paper). */
module RunSafety {
  import opened Types
  import opened RaftLogs
  import opened Quorum
  import opened NodeSpec
  import opened Clusters
  import opened Histories
  import opened AllRules
  import opened LogSafety
  import opened CommitSafety

  lemma NodesKeepSafe(ids: set<NodeId>, nodes: map<NodeId, Node>, h: History, k: History, n: Node, m: Node)
    requires nodes.Keys == ids && (forall id :: id in ids ==> nodes[id].id == id) && n.id in ids && n == nodes[n.id]
    requires NodesSafe(ids, h, nodes) && NodeSafe(ids, k, m) && Steps(ids, h, k, n, m)
    ensures NodesSafe(ids, k, nodes[n.id := m])
  {
    forall id | id in ids
      ensures NodeSafe(ids, k, nodes[n.id := m][id])
    {
      if id != n.id {
        OtherNodeSafe(ids, h, k, n, m, nodes[id]);
      }
    }
  }

  lemma MessagesKeepSafe(
    ids: set<NodeId>, network: set<Message>, h: History, k: History, n: Node, m: Node, sent: set<Message>)
    requires MessagesSafe(ids, h, network) && Steps(ids, h, k, n, m)
    requires forall msg {:trigger msg in sent} :: msg in sent ==> MessageSafe(ids, k, msg)
    ensures MessagesSafe(ids, k, network + sent)
  {
    forall msg | msg in network
      ensures MessageSafe(ids, k, msg)
    {
      assert MessageSafe(ids, h, msg);
      OtherMessageSafe(ids, h, k, n, m, msg);
    }
  }

  lemma StepsHold(ids: set<NodeId>, h: History, n: Node, m: Node, a: Action)
    requires HistoryOk(ids, h) && HistorySafe(h) && NodeOk(ids, h, n) && n.term <= m.term
    requires m.id == n.id && Grows(n.id, h, Record(h, n, m, a))
    ensures Steps(ids, h, Record(h, n, m, a), n, m)
  {
    RecordAccepts(h, n, m, a);
  }

  lemma NodeActionKeepsSafe(ids: set<NodeId>, c: Cluster, h: History, n: Node, m: Node, a: Action, sent: set<Message>)
    requires Safe(ids, c, h) && n.id in ids && n == c.nodes[n.id] && n.term <= m.term
    requires Sound(ids, Cluster(c.nodes[n.id := m], c.network + sent))
    requires StepOk(ids, h, n, m, a)
    requires forall msg :: msg in sent ==> MessageOk(Record(h, n, m, a), msg)
    requires StepSafe(ids, h, n, m, a)
    requires forall msg {:trigger msg in sent} :: msg in sent ==> MessageSafe(ids, Record(h, n, m, a), msg)
    ensures Safe(ids, Cluster(c.nodes[n.id := m], c.network + sent), Record(h, n, m, a))
  {
    var k := Record(h, n, m, a);
    ActionKeepsInvariant(ids, c, h, n, m, a, sent);
    StepsHold(ids, h, n, m, a);
    NodesKeepSafe(ids, c.nodes, h, k, n, m);
    MessagesKeepSafe(ids, c.network, h, k, n, m, sent);
  }

  /** Terms and commit indices never drop, and application never goes back. */
  ghost predicate Onward(n: Node, m: Node)
  {
    n.term <= m.term && n.commit <= m.commit && (n.lastApplied <= n.commit ==> n.lastApplied <= m.lastApplied)
  }

  lemma AppendOnward(n: Node, req: AppendEntriesRequest)
    ensures Onward(n, HandleAppendEntries(REPAIRED, n, req).0)
  {
    hide Store, PrevMatches, ScanDown;
  }

  lemma NeverBack(network: set<Message>, n: Node, a: Action)
    requires Enabled(REPAIRED, network, n, a)
    ensures Onward(n, NodeStep(REPAIRED, network, n, a).0)
  {
    hide HandleAppendEntries, BuildAppend, LogUpToDate, Picks, FindConflictTermIndex, TermAt, LastTerm;
    if a.ReceiveAppendRequest? {
      AppendOnward(n, a.appendRequest);
    }
  }

  /** In a safe cluster whatever a node can do next is safe to do. */
  lemma SafeIsReady(ids: set<NodeId>, c: Cluster, h: History, a: Action)
    requires Safe(ids, c, h) && a.id in ids && Enabled(REPAIRED, c.network, c.nodes[a.id], a)
    ensures Ready(REPAIRED, ids, c.network, h, c.nodes[a.id], a)
  {
    hide NodeStep, Enabled, NodeSound, NodeOk, HistoryOk, HistorySafe, MessageOk, MessageSafe, CommitOk, MatchOk, CallOk, Kept, ActionOk;
    EveryAction(REPAIRED, ids, c.network, h, c.nodes[a.id], a);
    forall v | v in ids
      ensures VotesKeep(h, v)
    {
      assert NodeSafe(ids, h, c.nodes[v]);
    }
  }

  lemma StepKeepsSafe(ids: set<NodeId>, c: Cluster, h: History, a: Action)
    requires Safe(ids, c, h)
    ensures Safe(ids, Next(REPAIRED, c, a), NextHistory(REPAIRED, c, h, a))
  {
    hide NodeStep, Enabled, Invariant, HistorySafe, NodesSafe, MessagesSafe, NodeSound, MessageSound, Before, StepOk, StepSafe, Record;
    if a.id in ids && Enabled(REPAIRED, c.network, c.nodes[a.id], a) {
      var n := c.nodes[a.id];
      SafeIsReady(ids, c, h, a);
      EveryActionSafe(REPAIRED, ids, c.network, h, n, a);
      NeverBack(c.network, n, a);
      StepSound(REPAIRED, ids, c, a);
      var (m, sent) := NodeStep(REPAIRED, c.network, n, a);
      NodeActionKeepsSafe(ids, c, h, n, m, a, sent);
    }
  }

  lemma InitiallySafe(ids: set<NodeId>)
    requires ValidMembers(ids)
    ensures Safe(ids, InitialCluster(ids), EMPTY_HISTORY)
  {
    RunSound(REPAIRED, ids, []);
    RunKeepsInvariant(REPAIRED, ids, []);
  }

  lemma {:induction false} RunSafe(ids: set<NodeId>, actions: seq<Action>)
    requires ValidMembers(ids)
    ensures Safe(ids, Run(REPAIRED, ids, actions), RunHistory(REPAIRED, ids, actions))
  {
    if actions == [] {
      InitiallySafe(ids);
    } else {
      var before := actions[..|actions| - 1];
      RunSafe(ids, before);
      StepKeepsSafe(ids, Run(REPAIRED, ids, before), RunHistory(REPAIRED, ids, before), actions[|actions| - 1]);
    }
  }

  lemma {:induction false} CommittedSince(ids: set<NodeId>, actions: seq<Action>, i: nat, bound: Term, log: Log)
    requires ValidMembers(ids) && i <= |actions|
    requires Committed(ids, RunHistory(REPAIRED, ids, actions[..i]), bound, log)
    ensures Committed(ids, RunHistory(REPAIRED, ids, actions), bound, log)
    decreases |actions|
  {
    if i == |actions| {
      assert actions[..i] == actions;
    } else {
      var before, a := actions[..|actions| - 1], actions[|actions| - 1];
      assert before[..i] == actions[..i];
      CommittedSince(ids, before, i, bound, log);
      RunKeepsInvariant(REPAIRED, ids, before);
      var c, h := Run(REPAIRED, ids, before), RunHistory(REPAIRED, ids, before);
      var k := NextHistory(REPAIRED, c, h, a);
      StepKeepsInvariant(REPAIRED, ids, c, h, a);
      if k != h {
        var m := NodeStep(REPAIRED, c.network, c.nodes[a.id], a).0;
        EveryAction(REPAIRED, ids, c.network, h, c.nodes[a.id], a);
        RecordAccepts(h, c.nodes[a.id], m, a);
        CommittedStable(ids, h, k, bound, log, a.id, m.term);
      }
    }
  }

  /** At any moment, what the node has committed is committed in the history of the whole run, and applied in order. */
  lemma AtSafe(ids: set<NodeId>, actions: seq<Action>, i: nat, id: NodeId)
    requires ValidMembers(ids) && i <= |actions| && id in ids
    ensures var n := At(REPAIRED, ids, actions, i, id);
            var h := RunHistory(REPAIRED, ids, actions);
            && HistoryOk(ids, h) && ElectionsKeep(h)
            && n.lastApplied <= n.commit <= |n.log| && n.delivered == n.log[..n.lastApplied]
            && Committed(ids, h, n.term, n.log[..n.commit])
  {
    RunSafe(ids, actions);
    RunSafe(ids, actions[..i]);
    var n := At(REPAIRED, ids, actions, i, id);
    assert NodeSafe(ids, RunHistory(REPAIRED, ids, actions[..i]), n);
    CommittedSince(ids, actions, i, n.term, n.log[..n.commit]);
  }

  /**
   Leader Completeness: what any node has committed in some term is in the log of every leader of a later term, and of
   every leader of the same term from then on.
   */
  lemma LeaderCompleteness(ids: set<NodeId>, actions: seq<Action>, i: nat, a: NodeId, j: nat, b: NodeId)
    requires ValidMembers(ids) && i <= |actions| && j <= |actions| && a in ids && b in ids
    requires At(REPAIRED, ids, actions, j, b).role == Leader
    requires var s, t := At(REPAIRED, ids, actions, i, a).term, At(REPAIRED, ids, actions, j, b).term;
             s < t || (s == t && i <= j)
    ensures var n := At(REPAIRED, ids, actions, i, a);
            n.commit <= |n.log| && n.log[..n.commit] <= At(REPAIRED, ids, actions, j, b).log
  {
    hide Run, HistoryOk, ElectionsKeep, RunHistory;
    AtSafe(ids, actions, i, a);
    AtOk(REPAIRED, ids, actions, j, b);
    var n, m := At(REPAIRED, ids, actions, i, a), At(REPAIRED, ids, actions, j, b);
    var h, log := RunHistory(REPAIRED, ids, actions), n.log[..n.commit];
    if log != [] {
      if n.term < m.term {
        var t: Term, k: Index :| t <= n.term && ChosenCovers(ids, h, t, k, log);
        ChosenInLaterLeaders(ids, h, t, k, m.term);
      } else {
        SameTermCompleteness(ids, actions, i, j, a, b);
      }
    }
  }

  /** The same-term half of Leader Completeness. */
  lemma SameTermCompleteness(ids: set<NodeId>, actions: seq<Action>, i: nat, j: nat, a: NodeId, b: NodeId)
    requires ValidMembers(ids) && i <= j <= |actions| && a in ids && b in ids
    requires At(REPAIRED, ids, actions, j, b).role == Leader
    requires At(REPAIRED, ids, actions, i, a).term == At(REPAIRED, ids, actions, j, b).term
    ensures var n := At(REPAIRED, ids, actions, i, a);
            n.commit <= |n.log| && n.log[..n.commit] <= At(REPAIRED, ids, actions, j, b).log
  {
    var upTo := actions[..j];
    assert upTo[..i] == actions[..i] && upTo[..j] == upTo;
    AtSafe(ids, upTo, i, a);
    AtSafe(ids, upTo, j, b);
    var n, m := At(REPAIRED, ids, upTo, i, a), At(REPAIRED, ids, upTo, j, b);
    RunKeepsInvariant(REPAIRED, ids, upTo);
    assert NodeOk(ids, RunHistory(REPAIRED, ids, upTo), m);
    CommittedInLeader(ids, RunHistory(REPAIRED, ids, upTo), n.term, n.log[..n.commit], m.term);
  }

  /** State Machine Safety: what two nodes have applied, at any two moments, never differs at an index. */
  lemma StateMachineSafety(ids: set<NodeId>, actions: seq<Action>, i: nat, a: NodeId, j: nat, b: NodeId)
    requires ValidMembers(ids) && i <= |actions| && j <= |actions| && a in ids && b in ids
    ensures var x, y := At(REPAIRED, ids, actions, i, a).delivered, At(REPAIRED, ids, actions, j, b).delivered;
            x <= y || y <= x
  {
    hide Run, HistoryOk, ElectionsKeep, RunHistory, Committed;
    AtSafe(ids, actions, i, a);
    AtSafe(ids, actions, j, b);
    var n, m := At(REPAIRED, ids, actions, i, a), At(REPAIRED, ids, actions, j, b);
    CommittedAgree(ids, RunHistory(REPAIRED, ids, actions), n.term, n.log[..n.commit], m.term, m.log[..m.commit]);
    assert n.delivered == n.log[..n.commit][..n.lastApplied];
    assert m.delivered == m.log[..m.commit][..m.lastApplied];
  }

  lemma AppliedWithinCommit(ids: set<NodeId>, c: Cluster, h: History, a: NodeId)
    requires Safe(ids, c, h) && a in ids
    ensures a in c.nodes && c.nodes[a].lastApplied <= c.nodes[a].commit
  {
    assert NodeSafe(ids, h, c.nodes[a]);
  }

  lemma StepNeverBack(ids: set<NodeId>, c: Cluster, h: History, act: Action, a: NodeId)
    requires Safe(ids, c, h) && a in ids
    ensures a in c.nodes && a in Next(REPAIRED, c, act).nodes
    ensures var n, m := c.nodes[a], Next(REPAIRED, c, act).nodes[a]; n.commit <= m.commit && n.lastApplied <= m.lastApplied
  {
    AppliedWithinCommit(ids, c, h, a);
    hide Safe, Next, NodeStep, Enabled;
    NextNode(REPAIRED, c, act, a);
    if act.id == a && Enabled(REPAIRED, c.network, c.nodes[a], act) {
      NeverBack(c.network, c.nodes[a], act);
    }
  }

  lemma {:induction false} CountersNeverBack(ids: set<NodeId>, actions: seq<Action>, i: nat, a: NodeId)
    requires ValidMembers(ids) && i <= |actions| && a in ids
    ensures var n, m := At(REPAIRED, ids, actions, i, a), Run(REPAIRED, ids, actions).nodes[a];
            n.commit <= m.commit && n.lastApplied <= m.lastApplied
    decreases |actions|
  {
    if i == |actions| {
      assert actions[..i] == actions;
    } else {
      var before := actions[..|actions| - 1];
      assert before[..i] == actions[..i];
      CountersNeverBack(ids, before, i, a);
      RunSafe(ids, before);
      StepNeverBack(ids, Run(REPAIRED, ids, before), RunHistory(REPAIRED, ids, before), actions[|actions| - 1], a);
    }
  }

  /**
   Commit is final, and application is in order and exactly once: the commit index never drops and stays within the log,
   committed entries are never changed, and what has been delivered is exactly the log up to `last_applied_`.
   */
  lemma AppliedExactlyOnce(ids: set<NodeId>, actions: seq<Action>, i: nat, j: nat, a: NodeId)
    requires ValidMembers(ids) && i <= j <= |actions| && a in ids
    ensures var n, m := At(REPAIRED, ids, actions, i, a), At(REPAIRED, ids, actions, j, a);
            && n.commit <= m.commit <= |m.log| && n.commit <= |n.log| && n.log[..n.commit] <= m.log
            && m.lastApplied <= m.commit && m.delivered == m.log[..m.lastApplied] && n.delivered <= m.delivered
  {
    hide Run, Committed, HistoryOk, ElectionsKeep, RunHistory;
    var n, m := At(REPAIRED, ids, actions, i, a), At(REPAIRED, ids, actions, j, a);
    assert actions[..j][..i] == actions[..i];
    CountersNeverBack(ids, actions[..j], i, a);
    AtSafe(ids, actions, i, a);
    AtSafe(ids, actions, j, a);
    CommittedAgree(ids, RunHistory(REPAIRED, ids, actions), n.term, n.log[..n.commit], m.term, m.log[..m.commit]);
    assert n.log[..n.commit] <= m.log[..m.commit];
    assert n.delivered == n.log[..n.commit][..n.lastApplied];
    assert m.delivered == m.log[..m.commit][..m.lastApplied];
  }
}
