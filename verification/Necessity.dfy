/**
 Which rules each property of Figure 3 of the extended Raft paper needs: Leader Completeness and State Machine Safety
 hold in all runs exactly when all five are repaired, Election Safety and Log Matching exactly when the first one is;
 Leader Append-Only needs none (`AllRules.LeaderAppendOnly`). For every other choice there is a run of three nodes.
 */
module Necessity {
  import opened Types
  import opened RaftLogs
  import opened Quorum
  import opened NodeSpec
  import opened Clusters
  import opened LogSafety
  import opened RunSafety

  ghost predicate Reachable(rules: Rules, ids: set<NodeId>, c: Cluster)
  {
    exists actions: seq<Action> :: Run(rules, ids, actions) == c
  }

  /** The clusters of all runs. */
  ghost function ReachableClusters(rules: Rules, ids: set<NodeId>): iset<Cluster>
  {
    iset c: Cluster | Reachable(rules, ids, c)
  }

  /** No step leads out of `r`. The runs below are built in such a set, of which only this is known. */
  ghost predicate Closed(rules: Rules, r: iset<Cluster>)
  {
    forall c: Cluster, a: Action {:trigger Next(rules, c, a)} :: c in r ==> Next(rules, c, a) in r
  }

  lemma ReachableIsClosed(rules: Rules, ids: set<NodeId>)
    ensures Closed(rules, ReachableClusters(rules, ids)) && InitialCluster(ids) in ReachableClusters(rules, ids)
  {
    assert Run(rules, ids, []) == InitialCluster(ids);
    forall c: Cluster, a: Action | c in ReachableClusters(rules, ids)
      ensures Next(rules, c, a) in ReachableClusters(rules, ids)
    {
      var actions: seq<Action> :| Run(rules, ids, actions) == c;
      assert (actions + [a])[..|actions|] == actions;
      assert Run(rules, ids, actions + [a]) == Next(rules, c, a);
    }
  }

  lemma ReachNext(rules: Rules, r: iset<Cluster>, c: Cluster, a: Action) returns (d: Cluster)
    requires Closed(rules, r) && c in r
    ensures d == Next(rules, c, a) && d in r
  {
    d := Next(rules, c, a);
  }

  // ---- Stretches of a run ----

  /** The node after it has timed out, asked for votes and won. */
  ghost function Winner(n: Node): Node
  {
    BecomeLeader(BecomeCandidate(n))
  }

  /** `l` times out and asks `v` for its vote; whether it gets it is left to `v`. */
  lemma Ask(rules: Rules, r: iset<Cluster>, c: Cluster, l: NodeId, v: NodeId) returns (d: Cluster)
    requires Closed(rules, r) && c in r && {l, v} <= c.nodes.Keys && l != v
    requires c.nodes[l].id == l && c.nodes[v].id == v && v in c.nodes[l].peers
    requires c.nodes[l].role == Follower && Idle(c.nodes[l])
    ensures d in r
    ensures var cand := BecomeCandidate(c.nodes[l]);
            var (m, resp) := HandleRequestVote(c.nodes[v], VoteRequest(cand));
            && d.nodes == c.nodes[l := BeginElection(cand)][v := m]
            && c.network <= d.network && VoteRequestMsg(VoteRequest(cand)) in d.network
            && VoteResponseMsg(v, VoteRequest(cand), resp) in d.network
  {
    var cand := BecomeCandidate(c.nodes[l]);
    d := ReachNext(rules, r, c, ElectionTimeout(l));
    d := ReachNext(rules, r, d, StartElection(l));
    assert d.nodes == c.nodes[l := BeginElection(cand)];
    d := ReachNext(rules, r, d, ReceiveVoteRequest(v, VoteRequest(cand)));
  }

  /** `v` receives a vote request that was sent before. */
  lemma HearCandidate(rules: Rules, r: iset<Cluster>, c: Cluster, v: NodeId, req: RequestVoteRequest) returns (d: Cluster)
    requires Closed(rules, r) && c in r && v in c.nodes && VoteRequestMsg(req) in c.network
    requires c.nodes[v].id == v && req.candidateId != v
    ensures d in r && c.network <= d.network
    ensures d.nodes == c.nodes[v := HandleRequestVote(c.nodes[v], req).0]
    ensures VoteResponseMsg(v, req, HandleRequestVote(c.nodes[v], req).1) in d.network
  {
    d := ReachNext(rules, r, c, ReceiveVoteRequest(v, req));
  }

  /** `l` counts the vote of `v`. */
  lemma Count(rules: Rules, r: iset<Cluster>, c: Cluster, l: NodeId, v: NodeId, resp: RequestVoteResponse) returns (d: Cluster)
    requires Closed(rules, r) && c in r && l in c.nodes && c.nodes[l].election.Some? && v in c.nodes[l].peers
    requires VoteResponseMsg(v, c.nodes[l].election.value.request, resp) in c.network
    ensures d in r && d.network == c.network
    ensures d.nodes == c.nodes[l := CountVote(c.nodes[l], v, resp)]
  {
    d := ReachNext(rules, r, c, ReceiveVoteResponse(l, v, resp));
  }

  /** `l` times out and wins with the vote of `v`, in a cluster of three. */
  lemma Elect(rules: Rules, r: iset<Cluster>, c: Cluster, l: NodeId, v: NodeId) returns (d: Cluster)
    requires Closed(rules, r) && c in r && {l, v} <= c.nodes.Keys && l != v
    requires c.nodes[l].id == l && c.nodes[v].id == v && v in c.nodes[l].peers && |c.nodes[l].peers| == 2
    requires c.nodes[l].role == Follower && Idle(c.nodes[l])
    requires HandleRequestVote(c.nodes[v], VoteRequest(BecomeCandidate(c.nodes[l]))).1.voteGranted
    ensures d in r
    ensures var req := VoteRequest(BecomeCandidate(c.nodes[l]));
            && d.nodes == c.nodes[l := Winner(c.nodes[l])][v := HandleRequestVote(c.nodes[v], req).0]
            && c.network <= d.network && VoteRequestMsg(req) in d.network
  {
    var cand := BecomeCandidate(c.nodes[l]);
    var req := VoteRequest(cand);
    d := Ask(rules, r, c, l, v);
    d := Count(rules, r, d, l, v, HandleRequestVote(c.nodes[v], req).1);
    var none: set<NodeId> := {};
    assert none + {v} == {v};
    assert d.nodes[l] == cand.(election := Some(Election(req, {v})));
    d := ReachNext(rules, r, d, EndElection(l));
    assert d.nodes[l] == Winner(c.nodes[l]);
  }

  lemma ProposeAt(rules: Rules, r: iset<Cluster>, c: Cluster, l: NodeId, e: RaftEntry) returns (d: Cluster)
    requires Closed(rules, r) && c in r && l in c.nodes
    ensures d in r && d.network == c.network && d.nodes == c.nodes[l := Propose(c.nodes[l], e)]
  {
    d := ReachNext(rules, r, c, ClientPropose(l, e));
  }

  ghost function Broadcasting(n: Node): Node
  {
    n.(broadcast := Some(Broadcast(n.commit, None)))
  }

  lemma Open(rules: Rules, r: iset<Cluster>, c: Cluster, l: NodeId) returns (d: Cluster)
    requires Closed(rules, r) && c in r && l in c.nodes && c.nodes[l].role == Leader && Idle(c.nodes[l])
    ensures d in r && d.network == c.network && d.nodes == c.nodes[l := Broadcasting(c.nodes[l])]
  {
    d := ReachNext(rules, r, c, StartBroadcast(l));
  }

  lemma Close(rules: Rules, r: iset<Cluster>, c: Cluster, l: NodeId) returns (d: Cluster)
    requires Closed(rules, r) && c in r && l in c.nodes
    requires c.nodes[l].broadcast.Some? && c.nodes[l].broadcast.value.awaiting == None
    ensures d in r && d.network == c.network && d.nodes == c.nodes[l := c.nodes[l].(broadcast := None)]
  {
    d := ReachNext(rules, r, c, EndBroadcast(l));
  }

  ghost predicate CanSend(rules: Rules, n: Node, v: NodeId)
  {
    && n.broadcast.Some? && n.broadcast.value.awaiting == None && v in n.peers && v in n.nextIndex
    && (rules.recheckLeader ==> n.role == Leader)
  }

  ghost function Calling(n: Node, v: NodeId): Node
    requires n.broadcast.Some? && v in n.nextIndex
  {
    n.(broadcast := Some(n.broadcast.value.(awaiting := Some(Call(v, BuildAppend(n, v))))))
  }

  /** `l` sends to `v` and never hears back. */
  lemma SendLost(rules: Rules, r: iset<Cluster>, c: Cluster, l: NodeId, v: NodeId) returns (d: Cluster)
    requires Closed(rules, r) && c in r && l in c.nodes && CanSend(rules, c.nodes[l], v)
    ensures d in r && c.network <= d.network && AppendRequestMsg(v, BuildAppend(c.nodes[l], v)) in d.network
    ensures d.nodes == c.nodes[l := OnAppendResponse(rules, Calling(c.nodes[l], v), NO_APPEND_RESPONSE)]
  {
    d := ReachNext(rules, r, c, SendAppend(l, v));
    assert d.nodes[l] == Calling(c.nodes[l], v);
    d := ReachNext(rules, r, d, AppendCallFails(l));
  }

  lemma Deliver(rules: Rules, r: iset<Cluster>, c: Cluster, v: NodeId, req: AppendEntriesRequest) returns (d: Cluster)
    requires Closed(rules, r) && c in r && v in c.nodes && c.nodes[v].id == v && AppendRequestMsg(v, req) in c.network
    ensures d in r && c.network <= d.network
    ensures var (m, resp) := HandleAppendEntries(rules, c.nodes[v], req);
            d.nodes == c.nodes[v := m] && AppendResponseMsg(v, req, resp) in d.network
  {
    d := ReachNext(rules, r, c, ReceiveAppendRequest(v, req));
  }

  /** `l` sends to `v`, `v` handles the request, `l` handles the response. */
  lemma Exchange(rules: Rules, r: iset<Cluster>, c: Cluster, l: NodeId, v: NodeId) returns (d: Cluster)
    requires Closed(rules, r) && c in r && {l, v} <= c.nodes.Keys && l != v && c.nodes[v].id == v
    requires CanSend(rules, c.nodes[l], v)
    ensures d in r && c.network <= d.network
    ensures var (m, resp) := HandleAppendEntries(rules, c.nodes[v], BuildAppend(c.nodes[l], v));
            d.nodes == c.nodes[v := m][l := OnAppendResponse(rules, Calling(c.nodes[l], v), resp)]
  {
    var req := BuildAppend(c.nodes[l], v);
    d := ReachNext(rules, r, c, SendAppend(l, v));
    assert d.nodes == c.nodes[l := Calling(c.nodes[l], v)];
    d := Deliver(rules, r, d, v, req);
    var resp := HandleAppendEntries(rules, c.nodes[v], req).1;
    d := ReachNext(rules, r, d, ReceiveAppendResponse(l, resp));
    assert d.nodes == c.nodes[v := HandleAppendEntries(rules, c.nodes[v], req).0]
                            [l := OnAppendResponse(rules, Calling(c.nodes[l], v), resp)];
  }

  /** A leader of three whose whole log has reached one more counted node picks its last index. */
  lemma PicksLast(rules: Rules, n: Node, v: NodeId)
    requires |n.peers| == 2 && v in Counted(rules, n) && v in n.matchIndex && n.matchIndex[v] == |n.log|
    requires forall p :: p in n.matchIndex ==> n.matchIndex[p] <= |n.log|
    ensures Picks(rules, n, |n.log|)
  {
    var counted, k := Counted(rules, n), |n.log|;
    assert v in Reached(n.matchIndex, counted, k);
    SubsetSize({v}, Reached(n.matchIndex, counted, k));
    forall j: Index | j > k
      ensures ReachCount(k, n.matchIndex, counted, j) < 2
    {
      assert Reached(n.matchIndex, counted, j) == {};
    }
  }

  /** The leader of `t` has committed and applied its whole log. */
  ghost predicate Decided(n: Node, t: Term, log: seq<RaftEntry>)
  {
    n.role == Leader && n.term == t && n.log == log && n.commit == |log| && n.delivered == log
  }

  /** `l` commits and applies its whole log. */
  lemma CommitAll(rules: Rules, r: iset<Cluster>, c: Cluster, l: NodeId, v: NodeId) returns (d: Cluster)
    requires Closed(rules, r) && c in r && l in c.nodes
    requires var n := c.nodes[l];
             && n.role == Leader && Idle(n) && |n.peers| == 2
             && v in Counted(rules, n) && n.matchIndex[v] == |n.log|
             && (forall p :: p in n.matchIndex ==> n.matchIndex[p] <= |n.log|)
             && n.commit == 0 && n.lastApplied == 0 && n.delivered == [] && n.log != [] && LastTerm(n.log) == n.term
    ensures d in r && d.network == c.network && d.nodes.Keys == c.nodes.Keys
    ensures Decided(d.nodes[l], c.nodes[l].term, c.nodes[l].log)
    ensures forall id :: id in c.nodes && id != l ==> d.nodes[id] == c.nodes[id]
  {
    var n := c.nodes[l];
    PicksLast(rules, n, v);
    d := ReachNext(rules, r, c, LeaderCommits(l));
    forall k: Index | Picks(rules, n, k)
      ensures k == |n.log|
    {
      QuorumIndexUnique(|n.log|, n.matchIndex, Counted(rules, n), 2, k, |n.log|);
    }
    assert d.nodes[l] == n.(commit := |n.log|);
    d := ReachNext(rules, r, d, Apply(l));
    assert n.log[0..|n.log|] == n.log;
  }

  // ---- Nodes that have committed nothing yet ----

  const THREE: set<NodeId> := {1, 2, 3}

  /** Node `id` of three, between two rounds, with nothing committed or applied. */
  ghost predicate Fresh(n: Node, id: NodeId, term: Term, role: Role, log: seq<RaftEntry>)
  {
    && n.id == id && |n.peers| == 2 && id !in n.peers && (forall v {:trigger v in n.peers} :: IsNode(v) && v != id ==> v in n.peers)
    && n.term == term && n.role == role && n.log == log && Idle(n)
    && n.commit == 0 && n.lastApplied == 0 && n.delivered == []
    && (role == Leader ==>
          && (forall v {:trigger v in n.nextIndex} {:trigger v in n.matchIndex} :: IsNode(v) && v != id ==> v in n.nextIndex && v in n.matchIndex)
          && forall p :: p in n.matchIndex ==> n.matchIndex[p] <= |log|)
  }

  predicate IsNode(id: NodeId)
  {
    1 <= id <= 3
  }

  ghost predicate HasNodes(c: Cluster)
  {
    forall id :: IsNode(id) ==> id in c.nodes
  }

  /** `d` differs from `c` in nodes `x` and `y` at most. */
  ghost predicate OnlyChanges(c: Cluster, d: Cluster, x: NodeId, y: NodeId)
  {
    HasNodes(d) && forall id :: IsNode(id) && id != x && id != y ==> id in c.nodes && d.nodes[id] == c.nodes[id]
  }

  function Command(key: byte): RaftEntry
  {
    RaftEntry(0, 0, Put, [key], [], 0, ConfChange(AddNode, 0, []))
  }

  /** The command as it stands in a log. */
  function Entry(key: byte, t: Term, i: Index): RaftEntry
  {
    Command(key).(term := t, index := i)
  }

  lemma FreshElect(rules: Rules, z: iset<Cluster>, c: Cluster, l: NodeId, v: NodeId, t: Term, mine: seq<RaftEntry>, u: Term, r: Role, theirs: seq<RaftEntry>)
    returns (d: Cluster)
    requires Closed(rules, z) && c in z && HasNodes(c) && IsNode(l) && IsNode(v) && l != v
    requires Fresh(c.nodes[l], l, t, Follower, mine) && Fresh(c.nodes[v], v, u, r, theirs) && u <= t
    requires LastTerm(mine) > LastTerm(theirs) || (LastTerm(mine) == LastTerm(theirs) && |mine| >= |theirs|)
    ensures d in z && OnlyChanges(c, d, l, v) && c.network <= d.network
    ensures Fresh(d.nodes[l], l, t + 1, Leader, mine) && Fresh(d.nodes[v], v, t + 1, Follower, theirs)
    ensures forall p :: IsNode(p) && p != l ==> d.nodes[l].nextIndex[p] == |mine| + 1
    ensures VoteRequestMsg(RequestVoteRequest(t + 1, l, |mine|, LastTerm(mine))) in d.network
  {
    HandleVoteShape(c.nodes[v], VoteRequest(BecomeCandidate(c.nodes[l])));
    d := Elect(rules, z, c, l, v);
  }

  lemma FreshPropose(rules: Rules, z: iset<Cluster>, c: Cluster, l: NodeId, t: Term, log: seq<RaftEntry>, key: byte) returns (d: Cluster)
    requires Closed(rules, z) && c in z && HasNodes(c) && IsNode(l) && Fresh(c.nodes[l], l, t, Leader, log)
    ensures d in z && OnlyChanges(c, d, l, l) && d.network == c.network
    ensures Fresh(d.nodes[l], l, t, Leader, log + [Entry(key, t, |log| + 1)])
    ensures d.nodes[l].nextIndex == c.nodes[l].nextIndex && d.nodes[l].matchIndex == c.nodes[l].matchIndex[l := |log| + 1]
  {
    d := ProposeAt(rules, z, c, l, Command(key));
  }

  /** What the follower makes of the rest of the leader's log when its own has nothing that agrees past `prev`. */
  lemma StoreRest(rules: Rules, mine: seq<RaftEntry>, theirs: seq<RaftEntry>, prev: Index)
    requires prev < |mine| && prev <= |theirs| && theirs[..prev] == mine[..prev] && mine[prev].index == prev + 1
    requires prev < |theirs| ==> theirs[prev].term != mine[prev].term
    ensures Store(rules, theirs, mine[prev..]) == mine
  {
    assert mine[..prev] + mine[prev..] == mine;
  }

  /** What the request of a fresh leader does to a fresh follower whose log agrees with it up to `prev`. */
  lemma FreshFollows(rules: Rules, n: Node, id: NodeId, u: Term, r: Role, theirs: seq<RaftEntry>, req: AppendEntriesRequest, mine: seq<RaftEntry>)
    requires Fresh(n, id, u, r, theirs) && u <= req.term && Consecutive(mine, 1) && req.leaderCommit == 0
    requires var prev := req.prevLogIndex;
             && prev < |mine| && req.entries == mine[prev..] && req.prevLogTerm == TermAt(mine, prev)
             && prev <= |theirs| && theirs[..prev] == mine[..prev] && (prev < |theirs| ==> theirs[prev].term != mine[prev].term)
    ensures var (m, resp) := HandleAppendEntries(rules, n, req);
            Fresh(m, id, req.term, Follower, mine) && resp.success && resp.term == req.term
  {
    var prev := req.prevLogIndex;
    StoreRest(rules, mine, theirs, prev);
    assert prev > 0 ==> theirs[..prev][prev - 1] == mine[..prev][prev - 1];
    HandleAppendShape(rules, n, req);
  }

  /** The request that carries the rest of a fresh leader's log. */
  lemma FreshRequest(n: Node, l: NodeId, v: NodeId, t: Term, mine: seq<RaftEntry>, prev: nat)
    requires Fresh(n, l, t, Leader, mine) && IsNode(v) && v != l
    requires n.nextIndex[v] == prev + 1 && prev < |mine| <= prev + MAX_ENTRIES_PER_MESSAGE
    ensures BuildAppend(Broadcasting(n), v) == AppendEntriesRequest(t, l, prev, TermAt(mine, prev), mine[prev..], 0)
  {
    assert BuildAppend(Broadcasting(n), v).entries == mine[prev..];
  }

  /** What a fresh leader does with the acknowledgement of the rest of its log. */
  lemma FreshAcknowledged(rules: Rules, n: Node, l: NodeId, v: NodeId, t: Term, mine: seq<RaftEntry>, prev: nat, resp: AppendEntriesResponse)
    requires Fresh(n, l, t, Leader, mine) && Consecutive(mine, 1) && IsNode(v) && v != l
    requires n.nextIndex[v] == prev + 1 && prev < |mine| <= prev + MAX_ENTRIES_PER_MESSAGE
    requires resp.success && resp.term == t
    ensures var m := OnAppendResponse(rules, Calling(Broadcasting(n), v), resp);
            m == n.(broadcast := Some(Broadcast(0, None)),
                    matchIndex := n.matchIndex[v := |mine|], nextIndex := n.nextIndex[v := |mine| + 1])
  {
    hide BuildAppend;
    FreshRequest(n, l, v, t, mine, prev);
    assert mine[prev..][|mine| - prev - 1] == mine[|mine| - 1];
  }

  /** One round of the leader brings the log of `v` to its own. */
  lemma FreshReplicate(
    rules: Rules, z: iset<Cluster>, c: Cluster, l: NodeId, v: NodeId, t: Term, mine: seq<RaftEntry>,
    u: Term, r: Role, theirs: seq<RaftEntry>, prev: nat)
    returns (d: Cluster)
    requires Closed(rules, z) && c in z && HasNodes(c) && IsNode(l) && IsNode(v) && l != v
    requires Fresh(c.nodes[l], l, t, Leader, mine) && Fresh(c.nodes[v], v, u, r, theirs) && u <= t && Consecutive(mine, 1)
    requires c.nodes[l].nextIndex[v] == prev + 1
    requires prev < |mine| <= prev + MAX_ENTRIES_PER_MESSAGE && prev <= |theirs| && theirs[..prev] == mine[..prev]
    requires prev < |theirs| ==> theirs[prev].term != mine[prev].term
    ensures d in z && OnlyChanges(c, d, l, v) && c.network <= d.network
    ensures Fresh(d.nodes[l], l, t, Leader, mine) && Fresh(d.nodes[v], v, t, Follower, mine)
    ensures d.nodes[l].matchIndex == c.nodes[l].matchIndex[v := |mine|] && d.nodes[l].nextIndex == c.nodes[l].nextIndex[v := |mine| + 1]
  {
    hide BuildAppend, HandleAppendEntries, NodeSpec.OnAppendResponse, TermAt, Closed;
    var n := c.nodes[l];
    FreshRequest(n, l, v, t, mine, prev);
    var req := BuildAppend(Broadcasting(n), v);
    FreshFollows(rules, c.nodes[v], v, u, r, theirs, req, mine);
    var (m, resp) := HandleAppendEntries(rules, c.nodes[v], req);
    FreshAcknowledged(rules, n, l, v, t, mine, prev, resp);
    d := Open(rules, z, c, l);
    d := Exchange(rules, z, d, l, v);
    assert d.nodes[v] == m;
    d := Close(rules, z, d, l);
  }

  /** `l` commits and applies its log, `v` having acknowledged all of it. */
  lemma FreshCommit(rules: Rules, z: iset<Cluster>, c: Cluster, l: NodeId, v: NodeId, t: Term, log: seq<RaftEntry>) returns (d: Cluster)
    requires Closed(rules, z) && c in z && HasNodes(c) && IsNode(l)
    requires Fresh(c.nodes[l], l, t, Leader, log) && log != [] && LastTerm(log) == t
    requires v in Counted(rules, c.nodes[l]) && c.nodes[l].matchIndex[v] == |log|
    ensures d in z && OnlyChanges(c, d, l, l) && d.network == c.network
    ensures Decided(d.nodes[l], t, log)
  {
    d := CommitAll(rules, z, c, l, v);
  }

  /** `l` wins with the vote of `v` and takes a command. */
  lemma TakeOver(
    rules: Rules, z: iset<Cluster>, c: Cluster, l: NodeId, v: NodeId, t: Term, mine: seq<RaftEntry>,
    u: Term, r: Role, theirs: seq<RaftEntry>, key: byte)
    returns (d: Cluster)
    requires Closed(rules, z) && c in z && HasNodes(c) && IsNode(l) && IsNode(v) && l != v
    requires Fresh(c.nodes[l], l, t, Follower, mine) && Fresh(c.nodes[v], v, u, r, theirs) && u <= t
    requires LastTerm(mine) > LastTerm(theirs) || (LastTerm(mine) == LastTerm(theirs) && |mine| >= |theirs|)
    ensures d in z && OnlyChanges(c, d, l, v) && c.network <= d.network
    ensures Fresh(d.nodes[l], l, t + 1, Leader, mine + [Entry(key, t + 1, |mine| + 1)]) && Fresh(d.nodes[v], v, t + 1, Follower, theirs)
    ensures forall p :: IsNode(p) && p != l ==> d.nodes[l].nextIndex[p] == |mine| + 1
    ensures l in d.nodes[l].matchIndex && d.nodes[l].matchIndex[l] == |mine| + 1
    ensures VoteRequestMsg(RequestVoteRequest(t + 1, l, |mine|, LastTerm(mine))) in d.network
  {
    d := FreshElect(rules, z, c, l, v, t, mine, u, r, theirs);
    d := FreshPropose(rules, z, d, l, t + 1, mine, key);
  }

  /** `l` replicates its log to `v`, commits and applies it. */
  lemma Decide(
    rules: Rules, z: iset<Cluster>, c: Cluster, l: NodeId, v: NodeId, t: Term, mine: seq<RaftEntry>,
    u: Term, r: Role, theirs: seq<RaftEntry>, prev: nat)
    returns (d: Cluster)
    requires Closed(rules, z) && c in z && HasNodes(c) && IsNode(l) && IsNode(v) && l != v
    requires Fresh(c.nodes[l], l, t, Leader, mine) && Fresh(c.nodes[v], v, u, r, theirs) && u <= t && Consecutive(mine, 1)
    requires c.nodes[l].nextIndex[v] == prev + 1 && LastTerm(mine) == t
    requires prev < |mine| <= prev + MAX_ENTRIES_PER_MESSAGE && prev <= |theirs| && theirs[..prev] == mine[..prev]
    requires prev < |theirs| ==> theirs[prev].term != mine[prev].term
    ensures d in z && OnlyChanges(c, d, l, v) && c.network <= d.network
    ensures Decided(d.nodes[l], t, mine) && Fresh(d.nodes[v], v, t, Follower, mine)
  {
    d := FreshReplicate(rules, z, c, l, v, t, mine, u, r, theirs, prev);
    d := FreshCommit(rules, z, d, l, v, t, mine);
  }

  /** A heartbeat round to `v` whose call fails: the request stays in the network, `next_index_` goes one back. */
  lemma LostRound(rules: Rules, z: iset<Cluster>, c: Cluster, l: NodeId, v: NodeId, t: Term, log: seq<RaftEntry>) returns (d: Cluster)
    requires Closed(rules, z) && c in z && HasNodes(c) && IsNode(l) && IsNode(v) && l != v
    requires Fresh(c.nodes[l], l, t, Leader, log)
    ensures d in z && OnlyChanges(c, d, l, l) && c.network <= d.network
    ensures Fresh(d.nodes[l], l, t, Leader, log) && d.nodes[l].matchIndex == c.nodes[l].matchIndex
    ensures var next := c.nodes[l].nextIndex[v]; d.nodes[l].nextIndex == c.nodes[l].nextIndex[v := if next > 1 then next - 1 else next]
    ensures AppendRequestMsg(v, BuildAppend(Broadcasting(c.nodes[l]), v)) in d.network
  {
    d := Open(rules, z, c, l);
    d := SendLost(rules, z, d, l, v);
    d := Close(rules, z, d, l);
  }

  /** `l`, whose log holds one entry, wins with the vote of the empty `v`, and decides that entry and one more. */
  lemma WinAndDecide(
    rules: Rules, z: iset<Cluster>, c: Cluster, l: NodeId, v: NodeId, t: Term, mine: seq<RaftEntry>, u: Term, key: byte)
    returns (d: Cluster)
    requires Closed(rules, z) && c in z && HasNodes(c) && IsNode(l) && IsNode(v) && l != v
    requires Fresh(c.nodes[l], l, t, Follower, mine) && Fresh(c.nodes[v], v, u, Follower, []) && u <= t
    requires |mine| == 1 && Consecutive(mine, 1)
    ensures d in z && OnlyChanges(c, d, l, v) && Decided(d.nodes[l], t + 1, mine + [Entry(key, t + 1, 2)])
  {
    var longer := mine + [Entry(key, t + 1, 2)];
    d := TakeOver(rules, z, c, l, v, t, mine, u, Follower, [], key);
    d := LostRound(rules, z, d, l, v, t + 1, longer);
    d := Decide(rules, z, d, l, v, t + 1, longer, t + 1, Follower, [], 0);
  }

  /** `l` hears from `v` that the request with its whole log was accepted, commits and applies. */
  lemma DecideOnWord(rules: Rules, z: iset<Cluster>, c: Cluster, l: NodeId, v: NodeId, t: Term, mine: seq<RaftEntry>) returns (d: Cluster)
    requires Closed(rules, z) && c in z && HasNodes(c) && IsNode(l) && IsNode(v) && l != v && c.nodes[v].id == v
    requires Fresh(c.nodes[l], l, t, Leader, mine) && |mine| == 1 && Consecutive(mine, 1) && LastTerm(mine) == t
    requires c.nodes[l].nextIndex[v] == 1
    requires c.nodes[v].term <= t
    ensures d in z && OnlyChanges(c, d, l, v) && Decided(d.nodes[l], t, mine)
  {
    var req := BuildAppend(Broadcasting(c.nodes[l]), v);
    FreshRequest(c.nodes[l], l, v, t, mine, 0);
    AcceptsFromStart(rules, c.nodes[v], req);
    FreshAcknowledged(rules, c.nodes[l], l, v, t, mine, 0, HandleAppendEntries(rules, c.nodes[v], req).1);
    d := Open(rules, z, c, l);
    d := Exchange(rules, z, d, l, v);
    d := Close(rules, z, d, l);
    d := FreshCommit(rules, z, d, l, v, t, mine);
  }

  /** A vote request of a later term makes `v` a follower of that term. */
  lemma Hear(rules: Rules, z: iset<Cluster>, c: Cluster, v: NodeId, u: Term, r: Role, log: seq<RaftEntry>, req: RequestVoteRequest)
    returns (d: Cluster)
    requires Closed(rules, z) && c in z && HasNodes(c) && IsNode(v) && VoteRequestMsg(req) in c.network
    requires Fresh(c.nodes[v].(broadcast := None), v, u, r, log) && u < req.term && req.candidateId != v
    ensures d in z && OnlyChanges(c, d, v, v) && c.network <= d.network
    ensures Fresh(d.nodes[v].(broadcast := None), v, req.term, Follower, log)
    ensures d.nodes[v].broadcast == c.nodes[v].broadcast && d.nodes[v].nextIndex == c.nodes[v].nextIndex
  {
    HandleVoteShape(c.nodes[v], req);
    d := HearCandidate(rules, z, c, v, req);
  }

  lemma AcceptsFromStart(rules: Rules, n: Node, req: AppendEntriesRequest)
    requires n.term <= req.term && req.prevLogIndex == 0
    ensures var resp := HandleAppendEntries(rules, n, req).1; resp.success && resp.term == req.term
  {
  }

  // ---- The runs ----

  /** Two nodes have applied logs of which neither extends the other. */
  ghost predicate Diverged(c: Cluster, a: NodeId, b: NodeId)
  {
    a in c.nodes && b in c.nodes && !(c.nodes[a].delivered <= c.nodes[b].delivered) && !(c.nodes[b].delivered <= c.nodes[a].delivered)
  }

  /** `b` leads a term not before that of `a`, and lacks an entry that `a` has committed. */
  ghost predicate Incomplete(c: Cluster, a: NodeId, b: NodeId)
  {
    && a in c.nodes && b in c.nodes
    && var n, m := c.nodes[a], c.nodes[b];
       m.role == Leader && n.term <= m.term && n.commit <= |n.log| && !(n.log[..n.commit] <= m.log)
  }

  /** `b` has decided otherwise than `a` had. */
  lemma DecidedOtherwise(c: Cluster, a: NodeId, b: NodeId, s: Term, t: Term, mine: seq<RaftEntry>, theirs: seq<RaftEntry>)
    requires a in c.nodes && b in c.nodes && Decided(c.nodes[a], s, mine) && Decided(c.nodes[b], t, theirs) && s <= t
    requires exists i :: 0 <= i < |mine| && i < |theirs| && mine[i] != theirs[i]
    ensures Diverged(c, a, b) && Incomplete(c, a, b)
  {
    var i :| 0 <= i < |mine| && i < |theirs| && mine[i] != theirs[i];
    assert mine[..|mine|] == mine;
  }

  lemma OneEntry(log: seq<RaftEntry>, key: byte, t: Term)
    requires log == [] + [Entry(key, t, 1)]
    ensures |log| == 1 && Consecutive(log, 1) && LastTerm(log) == t && log[0].term == t
  {
  }

  lemma TwoEntries(one: seq<RaftEntry>, two: seq<RaftEntry>, key: byte, t: Term)
    requires |one| == 1 && Consecutive(one, 1) && two == one + [Entry(key, t, 2)]
    ensures |two| == 2 && Consecutive(two, 1) && LastTerm(two) == t && two[..1] == one[..1] && two[1].term == t
  {
  }

  lemma FreshInitial(id: NodeId)
    requires IsNode(id)
    ensures Fresh(InitialNode(id, THREE - {id}), id, 0, Follower, [])
  {
    assert |THREE - {id}| == |THREE| - 1;
  }

  lemma Start(z: iset<Cluster>) returns (c: Cluster)
    requires InitialCluster(THREE) in z
    ensures c in z && HasNodes(c)
    ensures forall id :: IsNode(id) ==> Fresh(c.nodes[id], id, 0, Follower, [])
  {
    c := InitialCluster(THREE);
    forall id | IsNode(id)
      ensures id in c.nodes && Fresh(c.nodes[id], id, 0, Follower, [])
    {
      FreshInitial(id);
      assert id in THREE;
    }
  }

  /** Nodes 1 and 2 have won one term after the other, each with a command that nobody else has. */
  lemma TwoInARow(rules: Rules, z: iset<Cluster>, a: seq<RaftEntry>, b: seq<RaftEntry>) returns (c: Cluster)
    requires Closed(rules, z) && InitialCluster(THREE) in z && a == [] + [Entry(1, 1, 1)] && b == [] + [Entry(2, 2, 1)]
    ensures c in z && HasNodes(c) && Fresh(c.nodes[1], 1, 1, Leader, a) && Fresh(c.nodes[2], 2, 2, Leader, b)
    ensures forall id {:trigger c.nodes[id]} :: id == 1 || id == 2 ==> id in c.nodes[id].matchIndex && c.nodes[id].matchIndex[id] == 1
  {
    hide Fresh, Closed, LastTerm;
    c := Start(z);
    c := TakeOver(rules, z, c, 1, 2, 0, [], 0, Follower, [], 1);
    c := TakeOver(rules, z, c, 2, 3, 1, [], 0, Follower, [], 2);
  }

  /** Counting the leader twice: in a cluster of three a leader commits what nobody else has. */
  lemma CountingTwice(rules: Rules, z: iset<Cluster>) returns (c: Cluster)
    requires !rules.countOnce && Closed(rules, z) && InitialCluster(THREE) in z
    ensures c in z && Diverged(c, 1, 2) && Incomplete(c, 1, 2)
  {
    var a, b := [] + [Entry(1, 1, 1)], [] + [Entry(2, 2, 1)];
    OneEntry(a, 1, 1);
    OneEntry(b, 2, 2);
    hide Fresh, LastTerm, Closed, Decided;
    c := TwoInARow(rules, z, a, b);
    c := FreshCommit(rules, z, c, 1, 1, 1, a);
    c := FreshCommit(rules, z, c, 2, 2, 2, b);
    assert a[0] != b[0];
    DecidedOtherwise(c, 1, 2, 1, 2, a, b);
  }

  // Always truncating.

  /** A request whose first copy was thought lost arrives after the follower has acknowledged more. */
  lemma AcknowledgedThenCut(rules: Rules, z: iset<Cluster>, one: seq<RaftEntry>, two: seq<RaftEntry>) returns (c: Cluster)
    requires rules.countOnce && !rules.keepSuffix && Closed(rules, z) && InitialCluster(THREE) in z
    requires one == [] + [Entry(1, 1, 1)] && two == one + [Entry(2, 1, 2)]
    ensures c in z && HasNodes(c) && Decided(c.nodes[1], 1, two)
    ensures Fresh(c.nodes[2], 2, 1, Follower, one) && Fresh(c.nodes[3], 3, 0, Follower, [])
  {
    hide Decided, Closed;
    c := SecondAcknowledged(rules, z, one, two);
    c := Deliver(rules, z, c, 2, AppendEntriesRequest(1, 1, 0, 0, one, 0));
    assert c.nodes[2].log == one;
  }

  lemma SecondAcknowledged(rules: Rules, z: iset<Cluster>, one: seq<RaftEntry>, two: seq<RaftEntry>) returns (c: Cluster)
    requires rules.countOnce && Closed(rules, z) && InitialCluster(THREE) in z
    requires one == [] + [Entry(1, 1, 1)] && two == one + [Entry(2, 1, 2)]
    ensures c in z && HasNodes(c) && Decided(c.nodes[1], 1, two)
    ensures AppendRequestMsg(2, AppendEntriesRequest(1, 1, 0, 0, one, 0)) in c.network
    ensures Fresh(c.nodes[2], 2, 1, Follower, two) && Fresh(c.nodes[3], 3, 0, Follower, [])
  {
    OneEntry(one, 1, 1);
    TwoEntries(one, two, 2, 1);
    hide Fresh, LastTerm, Consecutive, Closed, Decided;
    c := FirstCopyLost(rules, z, one);
    c := FreshPropose(rules, z, c, 1, 1, one, 2);
    c := Decide(rules, z, c, 1, 2, 1, two, 1, Follower, [], 0);
  }

  lemma FirstCopyLost(rules: Rules, z: iset<Cluster>, one: seq<RaftEntry>) returns (c: Cluster)
    requires Closed(rules, z) && InitialCluster(THREE) in z && one == [] + [Entry(1, 1, 1)]
    ensures c in z && HasNodes(c) && AppendRequestMsg(2, AppendEntriesRequest(1, 1, 0, 0, one, 0)) in c.network
    ensures Fresh(c.nodes[1], 1, 1, Leader, one) && c.nodes[1].nextIndex[2] == 1
    ensures Fresh(c.nodes[2], 2, 1, Follower, []) && Fresh(c.nodes[3], 3, 0, Follower, [])
  {
    OneEntry(one, 1, 1);
    hide LastTerm, Consecutive, Closed, Decided;
    c := Start(z);
    c := TakeOver(rules, z, c, 1, 2, 0, [], 0, Follower, [], 1);
    assert BuildAppend(Broadcasting(c.nodes[1]), 2) == AppendEntriesRequest(1, 1, 0, 0, one, 0);
    c := LostRound(rules, z, c, 1, 2, 1, one);
  }

  lemma LateDuplicate(rules: Rules, z: iset<Cluster>) returns (c: Cluster)
    requires rules.countOnce && !rules.keepSuffix && Closed(rules, z) && InitialCluster(THREE) in z
    ensures c in z && Diverged(c, 1, 2) && Incomplete(c, 1, 2)
  {
    var one := [] + [Entry(1, 1, 1)];
    var two, other := one + [Entry(2, 1, 2)], one + [Entry(3, 2, 2)];
    c := AcknowledgedThenCut(rules, z, one, two);
    c := WinAndDecide(rules, z, c, 2, 3, 1, one, 0, 3);
    assert two[1] != other[1];
    DecidedOtherwise(c, 1, 2, 1, 2, two, other);
  }

  // Crediting a heartbeat with the follower's whole log.

  /** A heartbeat to a follower whose longer log shares nothing with the leader's is credited with all of it. */
  lemma FalseCredit(
    rules: Rules, z: iset<Cluster>, c: Cluster, l: NodeId, v: NodeId, t: Term, u: Term, r: Role, theirs: seq<RaftEntry>, key: byte)
    returns (d: Cluster)
    requires !rules.clampHeartbeat && Closed(rules, z) && c in z && HasNodes(c) && IsNode(l) && IsNode(v) && l != v
    requires Fresh(c.nodes[l], l, t, Leader, []) && Fresh(c.nodes[v], v, u, r, theirs) && u < t && |theirs| == 1
    requires c.nodes[l].nextIndex[v] == 1
    ensures d in z && OnlyChanges(c, d, l, v)
    ensures Fresh(d.nodes[l], l, t, Leader, [Entry(key, t, 1)]) && d.nodes[l].matchIndex[v] == 1
    ensures Fresh(d.nodes[v], v, t, Follower, theirs)
  {
    d := Open(rules, z, c, l);
    var req := BuildAppend(d.nodes[l], v);
    assert req == AppendEntriesRequest(t, l, 0, 0, [], 0);
    d := Exchange(rules, z, d, l, v);
    d := Close(rules, z, d, l);
    d := ProposeAt(rules, z, d, l, Command(key));
  }

  /** Node 1 commits its entry on the strength of the tail that node 2 still holds. */
  lemma CommittedOnCredit(rules: Rules, z: iset<Cluster>, mine: seq<RaftEntry>, tail: seq<RaftEntry>) returns (c: Cluster)
    requires rules.countOnce && !rules.clampHeartbeat && Closed(rules, z) && InitialCluster(THREE) in z
    requires mine == [Entry(2, 2, 1)] && tail == [] + [Entry(1, 1, 1)]
    ensures c in z && HasNodes(c) && Decided(c.nodes[1], 2, mine)
    ensures Fresh(c.nodes[2], 2, 2, Follower, tail) && Fresh(c.nodes[3], 3, 2, Follower, [])
  {
    hide Fresh;
    c := Start(z);
    c := TakeOver(rules, z, c, 2, 1, 0, [], 0, Follower, [], 1);
    c := FreshElect(rules, z, c, 1, 3, 1, [], 0, Follower, []);
    c := FalseCredit(rules, z, c, 1, 2, 2, 1, Leader, tail, 2);
    c := FreshCommit(rules, z, c, 1, 2, 2, mine);
  }

  lemma CreditedTail(rules: Rules, z: iset<Cluster>) returns (c: Cluster)
    requires rules.countOnce && !rules.clampHeartbeat && Closed(rules, z) && InitialCluster(THREE) in z
    ensures c in z && Diverged(c, 1, 2) && Incomplete(c, 1, 2)
  {
    var mine, tail := [Entry(2, 2, 1)], [] + [Entry(1, 1, 1)];
    var longer := tail + [Entry(3, 3, 2)];
    c := CommittedOnCredit(rules, z, mine, tail);
    c := WinAndDecide(rules, z, c, 2, 3, 2, tail, 2, 3);
    assert mine[0] != longer[0];
    DecidedOtherwise(c, 1, 2, 2, 3, mine, longer);
  }

  // Becoming leader without a second look.

  /** Node 1 has a majority for term 1 in hand when it votes for node 3 in term 2. */
  lemma VotesInHand(rules: Rules, z: iset<Cluster>) returns (c: Cluster)
    requires Closed(rules, z) && InitialCluster(THREE) in z
    ensures c in z && HasNodes(c)
    ensures Fresh(c.nodes[1].(election := None), 1, 2, Follower, [])
    ensures c.nodes[1].election.Some? && |c.nodes[1].election.value.votes| == 1
    ensures Fresh(c.nodes[2], 2, 1, Follower, []) && Fresh(c.nodes[3], 3, 2, Leader, [])
    ensures forall p :: IsNode(p) && p != 3 ==> c.nodes[3].nextIndex[p] == 1
  {
    c := FirstVote(rules, z);
    c := Hear(rules, z, c, 3, 0, Follower, [], RequestVoteRequest(1, 1, 0, 0));
    c := Elect(rules, z, c, 3, 1);
  }

  /** Node 1 has asked for votes in term 1 and counted that of node 2. */
  lemma FirstVote(rules: Rules, z: iset<Cluster>) returns (c: Cluster)
    requires Closed(rules, z) && InitialCluster(THREE) in z
    ensures c in z && HasNodes(c) && VoteRequestMsg(RequestVoteRequest(1, 1, 0, 0)) in c.network
    ensures Fresh(c.nodes[1].(election := None), 1, 1, Candidate, [])
    ensures c.nodes[1].election == Some(Election(RequestVoteRequest(1, 1, 0, 0), {2}))
    ensures Fresh(c.nodes[2], 2, 1, Follower, []) && Fresh(c.nodes[3], 3, 0, Follower, [])
  {
    var none: set<NodeId> := {};
    assert none + {2} == {2};
    c := Start(z);
    c := Ask(rules, z, c, 1, 2);
    c := Count(rules, z, c, 1, 2, RequestVoteResponse(1, true));
  }

  lemma SecondWinner(rules: Rules, z: iset<Cluster>) returns (c: Cluster)
    requires !rules.recheckCandidate && Closed(rules, z) && InitialCluster(THREE) in z
    ensures c in z && HasNodes(c) && Fresh(c.nodes[2], 2, 1, Follower, [])
    ensures Fresh(c.nodes[1], 1, 2, Leader, []) && c.nodes[1].nextIndex[2] == 1
    ensures Fresh(c.nodes[3], 3, 2, Leader, []) && c.nodes[3].nextIndex[2] == 1
  {
    hide Closed;
    c := VotesInHand(rules, z);
    c := ReachNext(rules, z, c, EndElection(1));
  }

  /** The two leaders of term 2 each take a command. */
  lemma TwoTakeCommands(rules: Rules, z: iset<Cluster>, a: seq<RaftEntry>, b: seq<RaftEntry>) returns (c: Cluster)
    requires !rules.recheckCandidate && Closed(rules, z) && InitialCluster(THREE) in z
    requires a == [] + [Entry(1, 2, 1)] && b == [] + [Entry(2, 2, 1)]
    ensures c in z && HasNodes(c) && Fresh(c.nodes[2], 2, 1, Follower, [])
    ensures Fresh(c.nodes[1], 1, 2, Leader, a) && c.nodes[1].nextIndex[2] == 1
    ensures Fresh(c.nodes[3], 3, 2, Leader, b) && c.nodes[3].nextIndex[2] == 1
  {
    hide Fresh, Closed, LastTerm;
    c := SecondWinner(rules, z);
    c := FreshPropose(rules, z, c, 3, 2, [], 2);
    c := FreshPropose(rules, z, c, 1, 2, [], 1);
  }

  /** Node 1 wins term 2, which node 3 leads, and decides `a` in it. */
  lemma TwoLeaders(rules: Rules, z: iset<Cluster>, a: seq<RaftEntry>, b: seq<RaftEntry>) returns (c: Cluster)
    requires rules.countOnce && !rules.recheckCandidate && Closed(rules, z) && InitialCluster(THREE) in z
    requires a == [] + [Entry(1, 2, 1)] && b == [] + [Entry(2, 2, 1)]
    ensures c in z && HasNodes(c) && Decided(c.nodes[1], 2, a) && Fresh(c.nodes[2], 2, 2, Follower, a)
    ensures Fresh(c.nodes[3], 3, 2, Leader, b) && c.nodes[3].nextIndex[2] == 1
  {
    OneEntry(a, 1, 2);
    hide Fresh, LastTerm, Consecutive, Closed, Decided;
    c := TwoTakeCommands(rules, z, a, b);
    c := Decide(rules, z, c, 1, 2, 2, a, 1, Follower, [], 0);
  }

  lemma StaleVictory(rules: Rules, z: iset<Cluster>) returns (c: Cluster)
    requires rules.countOnce && !rules.recheckCandidate && Closed(rules, z) && InitialCluster(THREE) in z
    ensures c in z && Diverged(c, 1, 3) && Incomplete(c, 1, 3)
  {
    var a, b := [] + [Entry(1, 2, 1)], [] + [Entry(2, 2, 1)];
    c := TwoLeaders(rules, z, a, b);
    c := DecideOnWord(rules, z, c, 3, 2, 2, b);
    assert a[0] != b[0];
    DecidedOtherwise(c, 1, 3, 2, 2, a, b);
  }

  // Sending as leader without a second look.

  /** Node 1 leads term 1 and has begun a heartbeat round. */
  lemma HeartbeatBegun(rules: Rules, z: iset<Cluster>, a: seq<RaftEntry>) returns (c: Cluster)
    requires Closed(rules, z) && InitialCluster(THREE) in z && a == [] + [Entry(1, 1, 1)]
    ensures c in z && HasNodes(c) && c.nodes[1].broadcast == Some(Broadcast(0, None))
    ensures Fresh(c.nodes[1].(broadcast := None), 1, 1, Leader, a) && c.nodes[1].nextIndex[2] == 1
    ensures Fresh(c.nodes[2], 2, 1, Follower, []) && Fresh(c.nodes[3], 3, 1, Follower, [])
  {
    OneEntry(a, 1, 1);
    hide LastTerm, Consecutive, Closed, Decided;
    c := Start(z);
    c := TakeOver(rules, z, c, 1, 2, 0, [], 0, Follower, [], 1);
    c := Open(rules, z, c, 1);
    c := Hear(rules, z, c, 3, 0, Follower, [], RequestVoteRequest(1, 1, 0, 0));
  }

  /** Node 1, deposed in the middle of its heartbeat loop, has learnt term 2; node 3 leads it and has decided `b`. */
  lemma DeposedWhileSending(rules: Rules, z: iset<Cluster>, a: seq<RaftEntry>, b: seq<RaftEntry>) returns (c: Cluster)
    requires rules.countOnce && Closed(rules, z) && InitialCluster(THREE) in z
    requires a == [] + [Entry(1, 1, 1)] && b == [] + [Entry(2, 2, 1)]
    ensures c in z && HasNodes(c)
    ensures c.nodes[1].broadcast == Some(Broadcast(0, None))
    ensures 2 in c.nodes[1].nextIndex && c.nodes[1].nextIndex[2] == 1 && Fresh(c.nodes[1].(broadcast := None), 1, 2, Follower, a)
    ensures Fresh(c.nodes[2], 2, 2, Follower, b) && Decided(c.nodes[3], 2, b)
  {
    c := RivalElected(rules, z, a, b);
    c := Hear(rules, z, c, 1, 1, Leader, a, RequestVoteRequest(2, 3, 0, 0));
    c := Decide(rules, z, c, 3, 2, 2, b, 2, Follower, [], 0);
  }

  lemma RivalElected(rules: Rules, z: iset<Cluster>, a: seq<RaftEntry>, b: seq<RaftEntry>) returns (c: Cluster)
    requires Closed(rules, z) && InitialCluster(THREE) in z
    requires a == [] + [Entry(1, 1, 1)] && b == [] + [Entry(2, 2, 1)]
    ensures c in z && HasNodes(c) && VoteRequestMsg(RequestVoteRequest(2, 3, 0, 0)) in c.network
    ensures c.nodes[1].broadcast == Some(Broadcast(0, None))
    ensures Fresh(c.nodes[1].(broadcast := None), 1, 1, Leader, a) && c.nodes[1].nextIndex[2] == 1
    ensures Fresh(c.nodes[2], 2, 2, Follower, []) && Fresh(c.nodes[3], 3, 2, Leader, b) && c.nodes[3].nextIndex[2] == 1
  {
    hide Fresh;
    c := HeartbeatBegun(rules, z, a);
    c := TakeOver(rules, z, c, 3, 2, 1, [], 1, Follower, [], 2);
  }

  /** The deposed node goes on sending, in the new term, and the follower takes its entries for the new leader's. */
  lemma Overwritten(rules: Rules, z: iset<Cluster>, a: seq<RaftEntry>, b: seq<RaftEntry>) returns (c: Cluster)
    requires rules.countOnce && !rules.recheckLeader && Closed(rules, z) && InitialCluster(THREE) in z
    requires a == [] + [Entry(1, 1, 1)] && b == [] + [Entry(2, 2, 1)]
    ensures c in z && HasNodes(c) && Decided(c.nodes[3], 2, b)
    ensures Fresh(c.nodes[1], 1, 2, Follower, a) && Fresh(c.nodes[2], 2, 2, Follower, a)
  {
    c := DeposedWhileSending(rules, z, a, b);
    var req := BuildAppend(c.nodes[1], 2);
    assert req == AppendEntriesRequest(2, 1, 0, 0, a, 0);
    FreshFollows(rules, c.nodes[2], 2, 2, Follower, b, req, a);
    c := Exchange(rules, z, c, 1, 2);
    c := Close(rules, z, c, 1);
  }

  lemma StaleSender(rules: Rules, z: iset<Cluster>) returns (c: Cluster)
    requires rules.countOnce && !rules.recheckLeader && Closed(rules, z) && InitialCluster(THREE) in z
    ensures c in z && Diverged(c, 3, 1) && Incomplete(c, 3, 1)
  {
    var a, b := [] + [Entry(1, 1, 1)], [] + [Entry(2, 2, 1)];
    var longer := a + [Entry(3, 3, 2)];
    OneEntry(a, 1, 1);
    TwoEntries(a, longer, 3, 3);
    hide LastTerm, Consecutive, Closed, Decided;
    c := Overwritten(rules, z, a, b);
    c := TakeOver(rules, z, c, 1, 2, 2, a, 2, Follower, a, 3);
    c := Decide(rules, z, c, 1, 2, 3, longer, 3, Follower, a, 1);
    assert longer[0] != b[0];
    DecidedOtherwise(c, 3, 1, 2, 3, b, longer);
  }

  // ---- The exact condition ----

  /** With these rules, no two nodes ever apply different entries at one index, whatever the cluster and the run. */
  ghost predicate StateMachinesAgree(rules: Rules)
  {
    forall ids: set<NodeId>, actions: seq<Action>, a: NodeId, b: NodeId ::
      ValidMembers(ids) && a in ids && b in ids ==> !Diverged(Run(rules, ids, actions), a, b)
  }

  lemma DivergentRun(rules: Rules) returns (c: Cluster, a: NodeId, b: NodeId)
    requires rules != REPAIRED
    ensures c in ReachableClusters(rules, THREE) && a in THREE && b in THREE && Diverged(c, a, b) && Incomplete(c, a, b)
  {
    ReachableIsClosed(rules, THREE);
    var z := ReachableClusters(rules, THREE);
    a, b := 1, 2;
    if !rules.countOnce {
      c := CountingTwice(rules, z);
    } else if !rules.keepSuffix {
      c := LateDuplicate(rules, z);
    } else if !rules.clampHeartbeat {
      c := CreditedTail(rules, z);
    } else if !rules.recheckCandidate {
      c := StaleVictory(rules, z);
      b := 3;
    } else {
      c := StaleSender(rules, z);
      a, b := 3, 1;
    }
  }

  /** State Machine Safety holds in every run of every cluster if and only if all five rules are repaired. */
  lemma SafeExactlyWhenRepaired(rules: Rules)
    ensures StateMachinesAgree(rules) <==> rules == REPAIRED
  {
    if rules == REPAIRED {
      forall ids: set<NodeId>, actions: seq<Action>, a: NodeId, b: NodeId | ValidMembers(ids) && a in ids && b in ids
        ensures !Diverged(Run(rules, ids, actions), a, b)
      {
        assert actions[..|actions|] == actions;
        StateMachineSafety(ids, actions, |actions|, a, |actions|, b);
      }
    } else {
      var c, a, b := DivergentRun(rules);
      var actions: seq<Action> :| Run(rules, THREE, actions) == c;
      assert Diverged(Run(rules, THREE, actions), a, b);
    }
  }

  /** With these rules, every leader has what was committed before (see `RunSafety.LeaderCompleteness`). */
  ghost predicate LeadersComplete(rules: Rules)
  {
    forall ids: set<NodeId>, actions: seq<Action>, i: nat, a: NodeId, j: nat, b: NodeId
      {:trigger At(rules, ids, actions, i, a), At(rules, ids, actions, j, b)} ::
      ValidMembers(ids) && i <= |actions| && j <= |actions| && a in ids && b in ids ==>
        var n, m := At(rules, ids, actions, i, a), At(rules, ids, actions, j, b);
        m.role == Leader && (n.term < m.term || (n.term == m.term && i <= j)) ==>
          n.commit <= |n.log| && n.log[..n.commit] <= m.log
  }

  /** Leader Completeness holds in every run of every cluster if and only if all five rules are repaired. */
  lemma CompleteExactlyWhenRepaired(rules: Rules)
    ensures LeadersComplete(rules) <==> rules == REPAIRED
  {
    hide At;
    if rules == REPAIRED {
      forall ids: set<NodeId>, actions: seq<Action>, i: nat, a: NodeId, j: nat, b: NodeId |
          && ValidMembers(ids) && i <= |actions| && j <= |actions| && a in ids && b in ids
          && At(rules, ids, actions, j, b).role == Leader
          && var s, t := At(rules, ids, actions, i, a).term, At(rules, ids, actions, j, b).term; s < t || (s == t && i <= j)
        ensures var n := At(rules, ids, actions, i, a);
                n.commit <= |n.log| && n.log[..n.commit] <= At(rules, ids, actions, j, b).log
      {
        LeaderCompleteness(ids, actions, i, a, j, b);
      }
    } else {
      var c, a, b := DivergentRun(rules);
      var actions: seq<Action> :| Run(rules, THREE, actions) == c;
      AtTheEnd(rules, THREE, actions, a);
      AtTheEnd(rules, THREE, actions, b);
    }
  }

  lemma AtTheEnd(rules: Rules, ids: set<NodeId>, actions: seq<Action>, id: NodeId)
    requires id in ids
    ensures At(rules, ids, actions, |actions|, id) == Run(rules, ids, actions).nodes[id]
  {
    assert actions[..|actions|] == actions;
  }

  // ---- What needs the first rule only ----

  /** With these rules, a run never has two leaders of one term. */
  ghost predicate OneLeaderPerTerm(rules: Rules)
  {
    forall ids: set<NodeId>, actions: seq<Action>, i: nat, a: NodeId, j: nat, b: NodeId
      {:trigger At(rules, ids, actions, i, a), At(rules, ids, actions, j, b)} ::
      ValidMembers(ids) && i <= |actions| && j <= |actions| && a in ids && b in ids ==>
        var n, m := At(rules, ids, actions, i, a), At(rules, ids, actions, j, b);
        n.role == Leader && m.role == Leader && n.term == m.term ==> a == b
  }

  /** Election Safety holds in every run of every cluster if and only if candidacy is rechecked. */
  lemma OneLeaderExactlyWhenRechecked(rules: Rules)
    ensures OneLeaderPerTerm(rules) <==> rules.recheckCandidate
  {
    hide At;
    if rules.recheckCandidate {
      forall ids: set<NodeId>, actions: seq<Action>, i: nat, a: NodeId, j: nat, b: NodeId |
          && ValidMembers(ids) && i <= |actions| && j <= |actions| && a in ids && b in ids
          && At(rules, ids, actions, i, a).role == Leader && At(rules, ids, actions, j, b).role == Leader
          && At(rules, ids, actions, i, a).term == At(rules, ids, actions, j, b).term
        ensures a == b
      {
        ElectionSafety(rules, ids, actions, i, a, j, b);
      }
    } else {
      ReachableIsClosed(rules, THREE);
      var c := SecondWinner(rules, ReachableClusters(rules, THREE));
      var actions: seq<Action> :| Run(rules, THREE, actions) == c;
      AtTheEnd(rules, THREE, actions, 1);
      AtTheEnd(rules, THREE, actions, 3);
    }
  }

  /** With these rules, logs that hold an entry of equal index and term are equal up to it. */
  ghost predicate LogsMatch(rules: Rules)
  {
    forall ids: set<NodeId>, actions: seq<Action>, i: nat, a: NodeId, j: nat, b: NodeId, index: Index
      {:trigger TermAt(At(rules, ids, actions, i, a).log, index), TermAt(At(rules, ids, actions, j, b).log, index)} ::
      ValidMembers(ids) && i <= |actions| && j <= |actions| && a in ids && b in ids ==>
        var x, y := At(rules, ids, actions, i, a).log, At(rules, ids, actions, j, b).log;
        1 <= index <= |x| && index <= |y| && TermAt(x, index) == TermAt(y, index) ==> x[..index] == y[..index]
  }

  /** Nodes 1 and 3 end with different entries of index 1 and term 2. */
  lemma MismatchRun(rules: Rules) returns (actions: seq<Action>)
    requires !rules.recheckCandidate
    ensures var x, y := At(rules, THREE, actions, |actions|, 1).log, At(rules, THREE, actions, |actions|, 3).log;
            |x| == |y| == 1 && TermAt(x, 1) == TermAt(y, 1) && x[..1] != y[..1]
  {
    hide Fresh, Closed, HasNodes;
    ReachableIsClosed(rules, THREE);
    var a, b := [] + [Entry(1, 2, 1)], [] + [Entry(2, 2, 1)];
    var c := TwoTakeCommands(rules, ReachableClusters(rules, THREE), a, b);
    actions :| Run(rules, THREE, actions) == c;
    AtTheEnd(rules, THREE, actions, 1);
    AtTheEnd(rules, THREE, actions, 3);
    FreshLog(c.nodes[1], 1, 2, Leader, a);
    FreshLog(c.nodes[3], 3, 2, Leader, b);
    assert a[..1][0] != b[..1][0];
  }

  lemma FreshLog(n: Node, id: NodeId, t: Term, r: Role, log: seq<RaftEntry>)
    requires Fresh(n, id, t, r, log)
    ensures n.log == log
  {
  }

  /** Log Matching holds in every run of every cluster if and only if candidacy is rechecked. */
  lemma MatchExactlyWhenRechecked(rules: Rules)
    ensures LogsMatch(rules) <==> rules.recheckCandidate
  {
    hide At;
    if rules.recheckCandidate {
      forall ids: set<NodeId>, actions: seq<Action>, i: nat, a: NodeId, j: nat, b: NodeId, index: Index |
          && ValidMembers(ids) && i <= |actions| && j <= |actions| && a in ids && b in ids
          && 1 <= index <= |At(rules, ids, actions, i, a).log| && index <= |At(rules, ids, actions, j, b).log|
          && TermAt(At(rules, ids, actions, i, a).log, index) == TermAt(At(rules, ids, actions, j, b).log, index)
        ensures At(rules, ids, actions, i, a).log[..index] == At(rules, ids, actions, j, b).log[..index]
      {
        LogMatching(rules, ids, actions, i, a, j, b, index);
      }
    } else {
      var actions := MismatchRun(rules);
    }
  }

  /** The code as it is written does not meet State Machine Safety. */
  lemma AsWrittenDiverges()
    ensures !StateMachinesAgree(AS_WRITTEN)
  {
    SafeExactlyWhenRepaired(AS_WRITTEN);
  }
}
