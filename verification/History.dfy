/** What a run has done so far, recorded beside the cluster for the proofs. Nothing in the cluster reads it. */
module Histories {
  import opened Types
  import opened NodeSpec
  import opened Clusters

  type Log = seq<RaftEntry>

  /** Who won the election of a term, with which log and whose votes. */
  datatype Elected = Elected(leader: NodeId, log: Log, voters: set<NodeId>)

  datatype History = History(
    /** The log of each term's leader, as far as that leader has written it. */
    leaderLog: map<Term, Log>,
    elected: map<Term, Elected>,
    /** The log a candidate asked votes with. */
    candidateLog: map<(NodeId, Term), Log>,
    votes: map<(NodeId, Term), NodeId>,
    /** How much of the term's leader log a node has held while it was in that term. */
    accepted: map<(NodeId, Term), Index>)

  const EMPTY_HISTORY := History(map[], map[], map[], map[], map[])

  function AcceptedBy(h: History, id: NodeId, t: Term): Index
  {
    if (id, t) in h.accepted then h.accepted[(id, t)] else 0
  }

  /** The length up to which the action shows the log of `m` to agree with its term's leader. */
  function Confirmed(m: Node, a: Action): Index
  {
    if m.role == Leader then |m.log|
    else if a.ReceiveAppendRequest? && a.appendRequest.term == m.term && PrevMatches(m.log, a.appendRequest)
         && a.appendRequest.prevLogIndex + |a.appendRequest.entries| <= |m.log|
    then a.appendRequest.prevLogIndex + |a.appendRequest.entries|
    else 0
  }

  function Record(h: History, n: Node, m: Node, a: Action): History
  {
    var id, t := n.id, m.term;
    History(
      if m.role == Leader then h.leaderLog[t := m.log] else h.leaderLog,
      if m.role == Leader && n.role != Leader
      then h.elected[t := Elected(id, m.log, {id} + if n.election.Some? then n.election.value.votes else {})]
      else h.elected,
      if m.role == Candidate then h.candidateLog[(id, t) := m.log] else h.candidateLog,
      if m.votedFor != NO_NODE then h.votes[(id, t) := m.votedFor] else h.votes,
      h.accepted[(id, t) := Max(AcceptedBy(h, id, t), Confirmed(m, a))])
  }

  ghost function NextHistory(rules: Rules, c: Cluster, h: History, a: Action): History
  {
    if a.id in c.nodes && Enabled(rules, c.network, c.nodes[a.id], a)
    then Record(h, c.nodes[a.id], NodeStep(rules, c.network, c.nodes[a.id], a).0, a)
    else h
  }

  ghost function RunHistory(rules: Rules, ids: set<NodeId>, actions: seq<Action>): History
  {
    if actions == [] then EMPTY_HISTORY
    else
      var before := actions[..|actions| - 1];
      NextHistory(rules, Run(rules, ids, before), RunHistory(rules, ids, before), actions[|actions| - 1])
  }
}
