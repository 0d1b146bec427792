/**
 Nothing comes from nowhere: in every run, under any rules, each entry of a log, of a request or of a delivered batch is
 a client's command, as proposed to a node that led the entry's term (src/raft/raft.cpp:184-206, 286-338, 592-606).
 */
module Validity {
  import opened Types
  import opened RaftLogs
  import opened NodeSpec
  import opened Clusters
  import opened AllRules
  import opened HandlerLaws

  /** Action `k` of the run proposed the command of `e` to a leader, which gave it the term and index that `e` carries. */
  ghost predicate ProposedAt(rules: Rules, ids: set<NodeId>, actions: seq<Action>, k: nat, e: RaftEntry)
  {
    && k < |actions| && actions[k].ClientPropose? && actions[k].id in ids && SameCommand(e, actions[k].entry)
    && var n := At(rules, ids, actions, k, actions[k].id);
       n.role == Leader && n.term == e.term && |n.log| + 1 == e.index
  }

  ghost predicate Proposed(rules: Rules, ids: set<NodeId>, actions: seq<Action>, e: RaftEntry)
  {
    exists k: nat {:trigger ProposedAt(rules, ids, actions, k, e)} :: ProposedAt(rules, ids, actions, k, e)
  }

  ghost predicate AllProposed(rules: Rules, ids: set<NodeId>, actions: seq<Action>, es: seq<RaftEntry>)
  {
    forall e {:trigger Proposed(rules, ids, actions, e)} :: e in es ==> Proposed(rules, ids, actions, e)
  }

  ghost predicate NodeValid(rules: Rules, ids: set<NodeId>, actions: seq<Action>, n: Node)
  {
    AllProposed(rules, ids, actions, n.log) && AllProposed(rules, ids, actions, n.delivered)
  }

  ghost predicate MessageValid(rules: Rules, ids: set<NodeId>, actions: seq<Action>, m: Message)
  {
    m.AppendRequestMsg? ==> AllProposed(rules, ids, actions, m.appendRequest.entries)
  }

  ghost predicate Valid(rules: Rules, ids: set<NodeId>, actions: seq<Action>, c: Cluster)
  {
    && c.nodes.Keys == ids
    && (forall id {:trigger c.nodes[id]} :: id in ids ==> c.nodes[id].id == id && NodeValid(rules, ids, actions, c.nodes[id]))
    && (forall m {:trigger MessageValid(rules, ids, actions, m)} :: m in c.network ==> MessageValid(rules, ids, actions, m))
  }

  lemma StillProposed(rules: Rules, ids: set<NodeId>, before: seq<Action>, a: Action, e: RaftEntry)
    requires Proposed(rules, ids, before, e)
    ensures Proposed(rules, ids, before + [a], e)
  {
    var k: nat :| ProposedAt(rules, ids, before, k, e);
    assert (before + [a])[..k] == before[..k];
    assert ProposedAt(rules, ids, before + [a], k, e);
  }

  lemma AllStillProposed(rules: Rules, ids: set<NodeId>, before: seq<Action>, a: Action, es: seq<RaftEntry>)
    requires AllProposed(rules, ids, before, es)
    ensures AllProposed(rules, ids, before + [a], es)
  {
    forall e | e in es
      ensures Proposed(rules, ids, before + [a], e)
    {
      StillProposed(rules, ids, before, a, e);
    }
  }

  lemma ClusterStillValid(rules: Rules, ids: set<NodeId>, before: seq<Action>, a: Action, c: Cluster)
    requires Valid(rules, ids, before, c)
    ensures Valid(rules, ids, before + [a], c)
  {
    hide AllProposed;
    forall id | id in ids
      ensures NodeValid(rules, ids, before + [a], c.nodes[id])
    {
      AllStillProposed(rules, ids, before, a, c.nodes[id].log);
      AllStillProposed(rules, ids, before, a, c.nodes[id].delivered);
    }
    forall m | m in c.network
      ensures MessageValid(rules, ids, before + [a], m)
    {
      assert MessageValid(rules, ids, before, m);
      if m.AppendRequestMsg? {
        AllStillProposed(rules, ids, before, a, m.appendRequest.entries);
      }
    }
  }

  // ---- Where the entries of a step come from ----

  lemma StoreMembers(rules: Rules, log: seq<RaftEntry>, batch: seq<RaftEntry>)
    ensures forall e :: e in Store(rules, log, batch) ==> e in log || e in batch
  {
    hide Agreeing;
  }

  lemma ApplyMembers(n: Node)
    ensures forall e :: e in ApplyCommitted(n).delivered ==> e in n.delivered || e in n.log
  {
  }

  lemma AppendMembers(rules: Rules, n: Node, req: AppendEntriesRequest)
    ensures var m := HandleAppendEntries(rules, n, req).0;
            && m.id == n.id && (forall e :: e in m.log ==> e in n.log || e in req.entries)
            && (forall e :: e in m.delivered ==> e in n.delivered || e in m.log)
  {
    hide Store, FollowerCommit, PrevMatches, ApplyCommitted, ScanDown;
    StoreMembers(rules, n.log, req.entries);
    if req.term >= n.term && PrevMatches(n.log, req) {
      var log := Store(rules, n.log, req.entries);
      var stored := BecomeFollower(n, req.term).(leaderId := req.leaderId, log := log, commit := FollowerCommit(rules, n.commit, req, log));
      ApplyMembers(stored);
      ApplyCommittedShape(stored);
    }
  }

  lemma SentMembers(n: Node, peer: NodeId)
    requires n.broadcast.Some? && peer in n.nextIndex
    ensures forall e :: e in BuildAppend(n, peer).entries ==> e in n.log
  {
  }

  /** Where the entries of a node after a step, and of what it sends, come from. */
  lemma StepMembers(rules: Rules, network: set<Message>, n: Node, a: Action)
    requires Enabled(rules, network, n, a)
    ensures var (m, sent) := NodeStep(rules, network, n, a);
            && m.id == n.id
            && (forall e :: e in m.log ==>
                  || e in n.log || (a.ReceiveAppendRequest? && e in a.appendRequest.entries)
                  || (a.ClientPropose? && n.role == Leader && SameCommand(e, a.entry) && e.term == n.term && e.index == |n.log| + 1))
            && (forall e :: e in m.delivered ==> e in n.delivered || e in n.log || e in m.log)
            && (forall msg :: msg in sent && msg.AppendRequestMsg? ==> forall e :: e in msg.appendRequest.entries ==> e in n.log)
  {
    hide HandleAppendEntries, BuildAppend, NodeSpec.OnAppendResponse, LogUpToDate, ApplyCommitted, TermAt, LastTerm;
    match a
    case ReceiveVoteRequest(_, req) => HandleVoteShape(n, req);
    case ReceiveAppendRequest(_, req) => AppendMembers(rules, n, req);
    case SendAppend(_, peer) => SentMembers(n, peer);
    case ReceiveAppendResponse(_, resp) => ResponseMembers(rules, n, resp);
    case AppendCallFails(_) => ResponseMembers(rules, n, NO_APPEND_RESPONSE);
    case LeaderCommits(_) => AdvanceCommitShape(rules, n);
    case Apply(_) =>
      ApplyMembers(n);
      ApplyCommittedShape(n);
    case _ =>
  }

  lemma ResponseMembers(rules: Rules, n: Node, resp: AppendEntriesResponse)
    requires AwaitsResponse(n)
    ensures var m := OnAppendResponse(rules, n, resp); m.id == n.id && m.log == n.log && m.delivered == n.delivered
  {
  }

  // ---- The invariant ----

  lemma StepValid(rules: Rules, ids: set<NodeId>, before: seq<Action>, a: Action)
    requires Valid(rules, ids, before, Run(rules, ids, before))
    ensures Valid(rules, ids, before + [a], Run(rules, ids, before + [a]))
  {
    hide NodeStep, Enabled, Proposed;
    var c, all := Run(rules, ids, before), before + [a];
    assert all[..|before|] == before && all[..|all| - 1] == before;
    ClusterStillValid(rules, ids, before, a, c);
    if a.id in ids && Enabled(rules, c.network, c.nodes[a.id], a) {
      var n := c.nodes[a.id];
      var (m, sent) := NodeStep(rules, c.network, n, a);
      StepMembers(rules, c.network, n, a);
      forall e | e in m.log
        ensures Proposed(rules, ids, all, e)
      {
        EntryProposed(rules, ids, before, a, e);
      }
    }
  }

  /** One entry of the log after the step. */
  lemma EntryProposed(rules: Rules, ids: set<NodeId>, before: seq<Action>, a: Action, e: RaftEntry)
    requires Valid(rules, ids, before + [a], Run(rules, ids, before)) && a.id in ids
    requires var c := Run(rules, ids, before);
             Enabled(rules, c.network, c.nodes[a.id], a) && e in NodeStep(rules, c.network, c.nodes[a.id], a).0.log
    ensures Proposed(rules, ids, before + [a], e)
  {
    hide NodeStep;
    var c, all := Run(rules, ids, before), before + [a];
    var n := c.nodes[a.id];
    assert all[..|before|] == before;
    StepMembers(rules, c.network, n, a);
    if e in n.log {
      assert NodeValid(rules, ids, all, n);
    } else if a.ReceiveAppendRequest? {
      assert MessageValid(rules, ids, all, AppendRequestMsg(n.id, a.appendRequest));
    } else {
      assert ProposedAt(rules, ids, all, |before|, e);
    }
  }

  lemma {:induction false} RunValid(rules: Rules, ids: set<NodeId>, actions: seq<Action>)
    ensures Valid(rules, ids, actions, Run(rules, ids, actions))
  {
    if actions != [] {
      var before, a := actions[..|actions| - 1], actions[|actions| - 1];
      assert actions == before + [a];
      RunValid(rules, ids, before);
      StepValid(rules, ids, before, a);
    }
  }

  /**
   Validity: at the end of any run, under any rules, every entry in the log of a node and every entry it has delivered was
   proposed in the run: same kind, key, value, lease and conf change, to a node that then led the entry's term and whose
   log ended right before the entry's index.
   */
  lemma OnlyProposedIsApplied(rules: Rules, ids: set<NodeId>, actions: seq<Action>, id: NodeId, e: RaftEntry) returns (k: nat)
    requires id in ids
    requires e in Run(rules, ids, actions).nodes[id].log || e in Run(rules, ids, actions).nodes[id].delivered
    ensures k < |actions| && actions[k].ClientPropose? && actions[k].id in ids && SameCommand(e, actions[k].entry)
    ensures var n := At(rules, ids, actions, k, actions[k].id); n.role == Leader && n.term == e.term && |n.log| + 1 == e.index
  {
    RunValid(rules, ids, actions);
    assert NodeValid(rules, ids, actions, Run(rules, ids, actions).nodes[id]);
    assert Proposed(rules, ids, actions, e);
    k :| ProposedAt(rules, ids, actions, k, e);
  }

  // ---- Known leaders ----

  /** Node `id` has led at some moment of the run. */
  ghost predicate HasLed(rules: Rules, ids: set<NodeId>, actions: seq<Action>, id: NodeId)
  {
    id in ids && exists i: nat {:trigger At(rules, ids, actions, i, id)} :: i <= |actions| && At(rules, ids, actions, i, id).role == Leader
  }

  lemma StillHasLed(rules: Rules, ids: set<NodeId>, before: seq<Action>, a: Action, id: NodeId)
    requires HasLed(rules, ids, before, id)
    ensures HasLed(rules, ids, before + [a], id)
  {
    var i: nat :| i <= |before| && At(rules, ids, before, i, id).role == Leader;
    assert (before + [a])[..i] == before[..i];
    assert At(rules, ids, before + [a], i, id).role == Leader;
  }

  lemma LeadsNow(rules: Rules, ids: set<NodeId>, actions: seq<Action>, id: NodeId)
    requires id in ids && Run(rules, ids, actions).nodes[id].role == Leader
    ensures HasLed(rules, ids, actions, id)
  {
    assert actions[..|actions|] == actions;
    assert At(rules, ids, actions, |actions|, id).role == Leader;
  }

  ghost predicate NodeKnows(rules: Rules, ids: set<NodeId>, actions: seq<Action>, n: Node)
  {
    && (n.broadcast.Some? ==> HasLed(rules, ids, actions, n.id))
    && (n.leaderId != NO_NODE ==> HasLed(rules, ids, actions, n.leaderId))
  }

  ghost predicate MessageKnows(rules: Rules, ids: set<NodeId>, actions: seq<Action>, m: Message)
  {
    m.AppendRequestMsg? ==> HasLed(rules, ids, actions, m.appendRequest.leaderId)
  }

  ghost predicate Knows(rules: Rules, ids: set<NodeId>, actions: seq<Action>, c: Cluster)
  {
    && c.nodes.Keys == ids
    && (forall id {:trigger c.nodes[id]} :: id in ids ==> c.nodes[id].id == id && NodeKnows(rules, ids, actions, c.nodes[id]))
    && (forall m {:trigger MessageKnows(rules, ids, actions, m)} :: m in c.network ==> MessageKnows(rules, ids, actions, m))
  }

  /** What a step makes of the known leader and of the heartbeat round, and whose name a request carries. */
  lemma StepNames(rules: Rules, network: set<Message>, n: Node, a: Action)
    requires Enabled(rules, network, n, a)
    ensures var (m, sent) := NodeStep(rules, network, n, a);
            && m.id == n.id
            && (m.leaderId == n.leaderId || m.leaderId == NO_NODE || (m.leaderId == n.id && m.role == Leader)
                || (a.ReceiveAppendRequest? && m.leaderId == a.appendRequest.leaderId))
            && (m.broadcast.Some? ==> n.broadcast.Some? || n.role == Leader)
            && forall msg :: msg in sent && msg.AppendRequestMsg? ==> n.broadcast.Some? && msg.appendRequest.leaderId == n.id
  {
    hide HandleAppendEntries, BuildAppend, NodeSpec.OnAppendResponse, LogUpToDate, Picks, TermAt, LastTerm;
    match a
    case ReceiveAppendRequest(_, req) =>
      AppendAnswered(rules, n, req);
      AppendKeepsTables(rules, n, req);
    case SendAppend(_, peer) => RequestSent(n, peer);
    case ReceiveAppendResponse(_, resp) => ResponseNames(rules, n, resp);
    case AppendCallFails(_) => ResponseNames(rules, n, NO_APPEND_RESPONSE);
    case _ =>
  }

  lemma ResponseNames(rules: Rules, n: Node, resp: AppendEntriesResponse)
    requires AwaitsResponse(n)
    ensures var m := OnAppendResponse(rules, n, resp); m.id == n.id && m.leaderId == n.leaderId
  {
    hide NextAfterRejection;
  }

  lemma ClusterStillKnows(rules: Rules, ids: set<NodeId>, before: seq<Action>, a: Action, c: Cluster)
    requires Knows(rules, ids, before, c)
    ensures Knows(rules, ids, before + [a], c)
  {
    hide HasLed;
    forall id | HasLed(rules, ids, before, id)
      ensures HasLed(rules, ids, before + [a], id)
    {
      StillHasLed(rules, ids, before, a, id);
    }
    forall m | m in c.network
      ensures MessageKnows(rules, ids, before + [a], m)
    {
      assert MessageKnows(rules, ids, before, m);
    }
  }

  /** The node that acts, after the step. */
  lemma ActorKnows(rules: Rules, ids: set<NodeId>, before: seq<Action>, a: Action)
    requires var c := Run(rules, ids, before);
             Knows(rules, ids, before + [a], c) && a.id in ids && Enabled(rules, c.network, c.nodes[a.id], a)
    ensures var c := Run(rules, ids, before);
            NodeKnows(rules, ids, before + [a], NodeStep(rules, c.network, c.nodes[a.id], a).0)
    ensures var c := Run(rules, ids, before);
            c.nodes[a.id].broadcast.Some? ==> HasLed(rules, ids, before + [a], a.id)
  {
    hide NodeStep, Enabled, HasLed, Run, MessageKnows;
    var c, all := Run(rules, ids, before), before + [a];
    var n := c.nodes[a.id];
    var m := NodeStep(rules, c.network, n, a).0;
    StepNames(rules, c.network, n, a);
    AfterStep(rules, ids, before, a);
    if n.role == Leader {
      LeadsNow(rules, ids, before, a.id);
      StillHasLed(rules, ids, before, a, a.id);
    }
    if m.role == Leader {
      LeadsNow(rules, ids, all, a.id);
    }
    if a.ReceiveAppendRequest? {
      RequestWasSent(rules, c.network, n, a);
      NameKnown(rules, ids, all, c, AppendRequestMsg(n.id, a.appendRequest));
    }
  }

  lemma NameKnown(rules: Rules, ids: set<NodeId>, actions: seq<Action>, c: Cluster, m: Message)
    requires Knows(rules, ids, actions, c) && m in c.network && m.AppendRequestMsg?
    ensures HasLed(rules, ids, actions, m.appendRequest.leaderId)
  {
    assert MessageKnows(rules, ids, actions, m);
  }

  lemma AfterStep(rules: Rules, ids: set<NodeId>, before: seq<Action>, a: Action)
    requires var c := Run(rules, ids, before); a.id in ids && Enabled(rules, c.network, c.nodes[a.id], a)
    ensures var c := Run(rules, ids, before);
            var (m, sent) := NodeStep(rules, c.network, c.nodes[a.id], a);
            Run(rules, ids, before + [a]) == Cluster(c.nodes[a.id := m], c.network + sent)
  {
    hide NodeStep, Enabled;
    var all := before + [a];
    assert all[..|all| - 1] == before;
  }

  lemma StepKnows(rules: Rules, ids: set<NodeId>, before: seq<Action>, a: Action)
    requires Knows(rules, ids, before, Run(rules, ids, before))
    ensures Knows(rules, ids, before + [a], Run(rules, ids, before + [a]))
  {
    hide NodeStep, Enabled, HasLed, NodeKnows;
    var c, all := Run(rules, ids, before), before + [a];
    assert all[..|all| - 1] == before;
    ClusterStillKnows(rules, ids, before, a, c);
    if a.id in ids && Enabled(rules, c.network, c.nodes[a.id], a) {
      StepNames(rules, c.network, c.nodes[a.id], a);
      AfterStep(rules, ids, before, a);
      ActorKnows(rules, ids, before, a);
    }
  }

  lemma RequestWasSent(rules: Rules, network: set<Message>, n: Node, a: Action)
    requires Enabled(rules, network, n, a) && a.ReceiveAppendRequest?
    ensures AppendRequestMsg(n.id, a.appendRequest) in network
  {
  }

  lemma {:induction false} RunKnows(rules: Rules, ids: set<NodeId>, actions: seq<Action>)
    ensures Knows(rules, ids, actions, Run(rules, ids, actions))
  {
    if actions != [] {
      var before, a := actions[..|actions| - 1], actions[|actions| - 1];
      assert actions == before + [a];
      RunKnows(rules, ids, before);
      StepKnows(rules, ids, before, a);
    }
  }

  /** In every run, under any rules, whoever a node knows as leader is a node of the cluster and has led. */
  lemma KnownLeaderHasLed(rules: Rules, ids: set<NodeId>, actions: seq<Action>, id: NodeId) returns (i: nat)
    requires id in ids && Run(rules, ids, actions).nodes[id].leaderId != NO_NODE
    ensures var leader := Run(rules, ids, actions).nodes[id].leaderId;
            leader in ids && i <= |actions| && At(rules, ids, actions, i, leader).role == Leader
  {
    RunKnows(rules, ids, actions);
    var leader := Run(rules, ids, actions).nodes[id].leaderId;
    assert HasLed(rules, ids, actions, leader);
    i :| i <= |actions| && At(rules, ids, actions, i, leader).role == Leader;
  }
}
