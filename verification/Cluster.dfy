/**
 A cluster of Raft nodes with fixed membership. One action is one atomic step of one node: a handler call, or the
 part of `StartElection` or `BroadcastHeartbeat` between two calls over the network. A message stays in the network
 for ever once sent, so it may be delivered late, often, out of order or never.
 */
module Clusters {
  import opened Types
  import opened NodeSpec

  datatype Message =
    | VoteRequestMsg(voteRequest: RequestVoteRequest)
    | VoteResponseMsg(voter: NodeId, voteRequest: RequestVoteRequest, voteResponse: RequestVoteResponse)
    | AppendRequestMsg(to: NodeId, appendRequest: AppendEntriesRequest)
    | AppendResponseMsg(from: NodeId, appendRequest: AppendEntriesRequest, appendResponse: AppendEntriesResponse)

  datatype Action =
    | ElectionTimeout(id: NodeId)
    | StartElection(id: NodeId)
    | ReceiveVoteRequest(id: NodeId, voteRequest: RequestVoteRequest)
    | ReceiveVoteResponse(id: NodeId, voter: NodeId, voteResponse: RequestVoteResponse)
    | EndElection(id: NodeId)
    | StartBroadcast(id: NodeId)
    | SendAppend(id: NodeId, peer: NodeId)
    | ReceiveAppendRequest(id: NodeId, appendRequest: AppendEntriesRequest)
    | ReceiveAppendResponse(id: NodeId, appendResponse: AppendEntriesResponse)
    | AppendCallFails(id: NodeId)
    | EndBroadcast(id: NodeId)
    | ClientPropose(id: NodeId, entry: RaftEntry)
    | LeaderCommits(id: NodeId)
    | Apply(id: NodeId)

  datatype Cluster = Cluster(nodes: map<NodeId, Node>, network: set<Message>)

  /** Whether node `n` can take action `a` now. */
  predicate Enabled(rules: Rules, network: set<Message>, n: Node, a: Action)
  {
    match a
    case ElectionTimeout(_) => n.role == Follower && Idle(n)
    case StartElection(_) => n.role == Candidate && Idle(n)
    case ReceiveVoteRequest(_, req) => VoteRequestMsg(req) in network && req.candidateId != n.id
    case ReceiveVoteResponse(_, voter, resp) =>
      n.election.Some? && voter in n.peers && VoteResponseMsg(voter, n.election.value.request, resp) in network
    case EndElection(_) => n.election.Some?
    case StartBroadcast(_) => n.role == Leader && Idle(n)
    case SendAppend(_, peer) =>
      && n.broadcast.Some? && n.broadcast.value.awaiting == None && peer in n.peers && peer in n.nextIndex
      && (rules.recheckLeader ==> n.role == Leader)
    case ReceiveAppendRequest(_, req) => AppendRequestMsg(n.id, req) in network
    case ReceiveAppendResponse(_, resp) =>
      && AwaitsResponse(n)
      && var call := n.broadcast.value.awaiting.value; AppendResponseMsg(call.peer, call.request, resp) in network
    case AppendCallFails(_) => AwaitsResponse(n)
    case EndBroadcast(_) => n.broadcast.Some? && n.broadcast.value.awaiting == None
    case ClientPropose(_, _) => true
    case LeaderCommits(_) => Idle(n)
    case Apply(_) => true
  }

  predicate AwaitsResponse(n: Node)
  {
    n.broadcast.Some? && n.broadcast.value.awaiting.Some? && n.broadcast.value.awaiting.value.peer in n.nextIndex
  }

  /** The node after the action, and the messages it sends. */
  ghost function NodeStep(rules: Rules, network: set<Message>, n: Node, a: Action): (Node, set<Message>)
    requires Enabled(rules, network, n, a)
  {
    match a
    case ElectionTimeout(_) => (BecomeCandidate(n), {})
    case StartElection(_) => (BeginElection(n), if n.peers == {} then {} else {VoteRequestMsg(VoteRequest(n))})
    case ReceiveVoteRequest(_, req) =>
      var (m, resp) := HandleRequestVote(n, req);
      (m, {VoteResponseMsg(n.id, req, resp)})
    case ReceiveVoteResponse(_, voter, resp) => (CountVote(n, voter, resp), {})
    case EndElection(_) => (FinishElection(rules, n), {})
    case StartBroadcast(_) => (n.(broadcast := Some(Broadcast(n.commit, None))), {})
    case SendAppend(_, peer) =>
      var req := BuildAppend(n, peer);
      (n.(broadcast := Some(n.broadcast.value.(awaiting := Some(Call(peer, req))))), {AppendRequestMsg(peer, req)})
    case ReceiveAppendRequest(_, req) =>
      var (m, resp) := HandleAppendEntries(rules, n, req);
      (m, {AppendResponseMsg(n.id, req, resp)})
    case ReceiveAppendResponse(_, resp) => (OnAppendResponse(rules, n, resp), {})
    case AppendCallFails(_) => (OnAppendResponse(rules, n, NO_APPEND_RESPONSE), {})
    case EndBroadcast(_) => (n.(broadcast := None), {})
    case ClientPropose(_, entry) => (Propose(n, entry), {})
    case LeaderCommits(_) => (AdvanceCommit(rules, n), {})
    case Apply(_) => (ApplyCommitted(n), {})
  }

  /** One step; an action that is not enabled changes nothing. */
  ghost function Next(rules: Rules, c: Cluster, a: Action): Cluster
  {
    if a.id in c.nodes && Enabled(rules, c.network, c.nodes[a.id], a) then
      var (m, sent) := NodeStep(rules, c.network, c.nodes[a.id], a);
      Cluster(c.nodes[a.id := m], c.network + sent)
    else c
  }

  /** What a step makes of one node. */
  lemma NextNode(rules: Rules, c: Cluster, act: Action, a: NodeId)
    requires a in c.nodes
    ensures var d := Next(rules, c, act);
            && a in d.nodes
            && d.nodes[a] == if act.id == a && Enabled(rules, c.network, c.nodes[a], act) then NodeStep(rules, c.network, c.nodes[a], act).0
                             else c.nodes[a]
  {
    hide NodeStep, Enabled;
  }

  /** Every node knows all others; node ids are not 0. */
  predicate ValidMembers(ids: set<NodeId>)
  {
    NO_NODE !in ids
  }

  /** The nodes `some` of a cluster with members `ids`, before anything happens. */
  ghost function InitialNodes(some: set<NodeId>, ids: set<NodeId>): (nodes: map<NodeId, Node>)
    ensures nodes.Keys == some && forall id :: id in some ==> nodes[id] == InitialNode(id, ids - {id})
  {
    if some == {} then map[]
    else
      var id :| id in some;
      InitialNodes(some - {id}, ids)[id := InitialNode(id, ids - {id})]
  }

  ghost function InitialCluster(ids: set<NodeId>): Cluster
  {
    Cluster(InitialNodes(ids, ids), {})
  }

  /** The cluster after a run of actions from the initial state. */
  ghost function Run(rules: Rules, ids: set<NodeId>, actions: seq<Action>): (c: Cluster)
    ensures c.nodes.Keys == ids
  {
    if actions == [] then InitialCluster(ids)
    else Next(rules, Run(rules, ids, actions[..|actions| - 1]), actions[|actions| - 1])
  }

  /** The node as it is after the first `i` actions of the run. */
  ghost function At(rules: Rules, ids: set<NodeId>, actions: seq<Action>, i: nat, id: NodeId): Node
    requires i <= |actions| && id in ids
  {
    Run(rules, ids, actions[..i]).nodes[id]
  }
}
