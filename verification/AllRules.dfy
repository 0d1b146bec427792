/**
 What every run of a cluster keeps under any of the rules, the code as written included: the order of the logs and of
 the entries on their way (src/raft/raft.cpp:184-210, 314-338, 593-597), one vote per term (lines 512-545), and that a
 leader only appends.
 */
module AllRules {
  import opened Types
  import opened RaftLogs
  import opened NodeSpec
  import opened Clusters

  predicate TermsAtMost(log: seq<RaftEntry>, t: Term)
  {
    forall i :: 0 <= i < |log| ==> log[i].term <= t
  }

  /** Indices count up from 1; terms are positive, never decrease along the log and never exceed `t`. */
  predicate Ordered(log: seq<RaftEntry>, t: Term)
  {
    Consecutive(log, 1) && Ascending(log) && TermsAtMost(log, t)
  }

  /** The entries of a request follow its `prev` in index and term. */
  predicate RequestOrdered(req: AppendEntriesRequest)
  {
    req.entries != [] ==>
      && Consecutive(req.entries, req.prevLogIndex + 1) && Ascending(req.entries) && TermsAtMost(req.entries, req.term)
      && (req.prevLogIndex > 0 ==> 1 <= req.prevLogTerm <= req.entries[0].term)
  }

  /** While a node leads, its tables and the request it waits for stay within its log and term. */
  predicate WorkerSound(n: Node)
  {
    && (n.election == None || n.broadcast == None)
    && (n.role == Leader ==> n.election == None && forall p :: p in n.nextIndex ==> n.nextIndex[p] <= |n.log| + 1)
    && (n.role == Leader && n.broadcast.Some? && n.broadcast.value.awaiting.Some? ==>
          var req := n.broadcast.value.awaiting.value.request;
          req.term == n.term && (req.entries != [] ==> req.entries[|req.entries| - 1].index <= |n.log|))
  }

  predicate NodeSound(n: Node)
  {
    && Ordered(n.log, n.term) && WorkerSound(n)
    && (n.role != Follower || n.election.Some? ==> n.term >= 1)
  }

  predicate MessageSound(m: Message)
  {
    m.AppendRequestMsg? ==> RequestOrdered(m.appendRequest)
  }

  ghost predicate Sound(ids: set<NodeId>, c: Cluster)
  {
    && c.nodes.Keys == ids
    && (forall id {:trigger c.nodes[id]} :: id in ids ==> c.nodes[id].id == id && NodeSound(c.nodes[id]))
    && (forall m {:trigger MessageSound(m)} :: m in c.network ==> MessageSound(m))
  }

  // ---- Storing and sending keep the order ----

  lemma PrevWithin(log: seq<RaftEntry>, req: AppendEntriesRequest)
    requires RequestOrdered(req) && PrevMatches(log, req) && req.entries != []
    ensures req.prevLogIndex <= |log|
    ensures req.prevLogIndex > 0 ==> log[req.prevLogIndex - 1].term <= req.entries[0].term
  {
  }

  /** The first `at` entries of `log` before a run of entries that follows them. */
  lemma JoinedOrdered(log: seq<RaftEntry>, at: nat, es: seq<RaftEntry>, t: Term)
    requires Ordered(log, t) && at <= |log| && Consecutive(es, at + 1) && Ascending(es) && TermsAtMost(es, t)
    requires at > 0 && es != [] ==> log[at - 1].term <= es[0].term
    ensures Ordered(log[..at] + es, t)
  {
    var joined := log[..at] + es;
    forall x, y | 0 <= x <= y < |joined|
      ensures 1 <= joined[x].term <= joined[y].term
    {
      if x < at <= y {
        assert log[x].term <= log[at - 1].term <= es[0].term <= es[y - at].term;
      }
    }
  }

  /** What either way of storing a batch that follows entry `prev` leaves: the old log, or its beginning and the batch's rest. */
  lemma StoreShape(rules: Rules, log: seq<RaftEntry>, prev: Index, es: seq<RaftEntry>) returns (k: nat)
    requires es != [] && es[0].index == prev + 1 && prev <= |log|
    ensures k <= |es| && prev + k <= |log| && (k > 0 ==> log[prev + k - 1].term == es[k - 1].term)
    ensures Store(rules, log, es) == log || Store(rules, log, es) == log[..prev + k] + es[k..]
  {
    k := if rules.keepSuffix then Agreeing(log, prev, es) else 0;
    assert rules.keepSuffix && k > 0 ==> log[prev + (k - 1)].term == es[k - 1].term;
    assert es[0..] == es;
  }

  lemma NothingStored(rules: Rules, log: seq<RaftEntry>)
    ensures Store(rules, log, []) == log
  {
  }

  lemma RestOrdered(es: seq<RaftEntry>, first: Index, k: nat, t: Term)
    requires Consecutive(es, first) && Ascending(es) && TermsAtMost(es, t) && k <= |es|
    ensures Consecutive(es[k..], first + k) && Ascending(es[k..]) && TermsAtMost(es[k..], t)
    ensures 0 < k < |es| ==> es[k - 1].term <= es[k].term
  {
  }

  lemma StoreOrdered(rules: Rules, log: seq<RaftEntry>, req: AppendEntriesRequest)
    requires Ordered(log, req.term) && RequestOrdered(req) && PrevMatches(log, req)
    ensures Ordered(Store(rules, log, req.entries), req.term)
  {
    hide Store, Ordered, Ascending, TermsAtMost, PrevMatches;
    var prev, es := req.prevLogIndex, req.entries;
    if es == [] {
      NothingStored(rules, log);
    } else {
      PrevWithin(log, req);
      var k := StoreShape(rules, log, prev, es);
      RestOrdered(es, prev + 1, k, req.term);
      assert k < |es| ==> es[k..][0] == es[k];
      JoinedOrdered(log, prev + k, es[k..], req.term);
    }
  }

  lemma BuiltOrdered(n: Node, peer: NodeId)
    requires Ordered(n.log, n.term) && n.broadcast.Some? && peer in n.nextIndex
    ensures RequestOrdered(BuildAppend(n, peer)) && BuildAppend(n, peer).term == n.term
    ensures var req := BuildAppend(n, peer); req.entries != [] ==> req.entries[|req.entries| - 1].index <= |n.log|
  {
  }

  lemma AcceptSound(rules: Rules, n: Node, req: AppendEntriesRequest)
    requires NodeSound(n) && RequestOrdered(req)
    ensures var m := HandleAppendEntries(rules, n, req).0; m.id == n.id && NodeSound(m)
  {
    if req.term >= n.term {
      HandleAppendShape(rules, n, req);
      assert Ordered(n.log, req.term);
      if PrevMatches(n.log, req) {
        StoreOrdered(rules, n.log, req);
      }
    }
  }

  lemma ResponseSound(rules: Rules, n: Node, resp: AppendEntriesResponse)
    requires NodeSound(n) && AwaitsResponse(n)
    ensures var m := OnAppendResponse(rules, n, resp); m.id == n.id && NodeSound(m)
  {
    hide Ascending, Consecutive, FindConflictTermIndex;
    assert NextAfterRejection(n.log, n.nextIndex[n.broadcast.value.awaiting.value.peer], resp)
        <= n.nextIndex[n.broadcast.value.awaiting.value.peer];
  }

  /** The node moves to a higher term and does not lead it. */
  lemma LaterTermSound(n: Node, m: Node)
    requires NodeSound(n) && m.log == n.log && n.term <= m.term && m.role != Leader && (m.role == Candidate ==> m.term >= 1)
    requires (m.election == None || m.election == n.election) && (m.broadcast == None || m.broadcast == n.broadcast)
    ensures NodeSound(m)
  {
  }

  lemma ProposeSound(n: Node, entry: RaftEntry)
    requires NodeSound(n)
    ensures var m := Propose(n, entry); m.id == n.id && NodeSound(m)
  {
    if n.role == Leader {
      assert n.log[..|n.log|] == n.log;
      JoinedOrdered(n.log, |n.log|, [entry.(term := n.term, index := |n.log| + 1)], n.term);
    }
  }

  lemma NodeStepSound(rules: Rules, network: set<Message>, n: Node, a: Action)
    requires NodeSound(n) && Enabled(rules, network, n, a)
    requires forall m {:trigger MessageSound(m)} :: m in network ==> MessageSound(m)
    ensures var (m, sent) := NodeStep(rules, network, n, a);
            m.id == n.id && NodeSound(m) && forall msg :: msg in sent ==> MessageSound(msg)
  {
    hide Ascending, Consecutive, TermsAtMost, HandleAppendEntries, BuildAppend, NodeSpec.OnAppendResponse,
      NodeSpec.Propose, LogUpToDate, Picks, TermAt, LastTerm;
    match a
    case ElectionTimeout(_) => LaterTermSound(n, BecomeCandidate(n));
    case ReceiveVoteRequest(_, req) =>
      HandleVoteShape(n, req);
      if req.term > n.term {
        LaterTermSound(n, HandleRequestVote(n, req).0);
      }
    case ReceiveVoteResponse(_, voter, resp) =>
      if resp.term > n.term {
        LaterTermSound(n, CountVote(n, voter, resp));
      }
    case SendAppend(_, peer) => BuiltOrdered(n, peer);
    case ReceiveAppendRequest(_, req) =>
      assert MessageSound(AppendRequestMsg(n.id, req));
      AcceptSound(rules, n, req);
    case ReceiveAppendResponse(_, resp) => ResponseSound(rules, n, resp);
    case AppendCallFails(_) => ResponseSound(rules, n, NO_APPEND_RESPONSE);
    case ClientPropose(_, entry) => ProposeSound(n, entry);
    case LeaderCommits(_) => AdvanceCommitShape(rules, n);
    case Apply(_) => ApplyCommittedShape(n);
    case _ =>
  }

  lemma StepSound(rules: Rules, ids: set<NodeId>, c: Cluster, a: Action)
    requires Sound(ids, c)
    ensures Sound(ids, Next(rules, c, a))
  {
    hide NodeStep, NodeSound, MessageSound, Enabled;
    if a.id in ids && Enabled(rules, c.network, c.nodes[a.id], a) {
      NodeStepSound(rules, c.network, c.nodes[a.id], a);
    }
  }

  lemma {:induction false} RunSound(rules: Rules, ids: set<NodeId>, actions: seq<Action>)
    ensures Sound(ids, Run(rules, ids, actions))
  {
    if actions != [] {
      var before := actions[..|actions| - 1];
      RunSound(rules, ids, before);
      StepSound(rules, ids, Run(rules, ids, before), actions[|actions| - 1]);
    }
  }

  /** In every run, indices count up from 1; terms are positive, never decrease along a log and never exceed the node's term. */
  lemma LogOrder(rules: Rules, ids: set<NodeId>, actions: seq<Action>, i: nat, a: NodeId)
    requires i <= |actions| && a in ids
    ensures var n := At(rules, ids, actions, i, a);
            Consecutive(n.log, 1) && Ascending(n.log) && TermsAtMost(n.log, n.term)
  {
    RunSound(rules, ids, actions[..i]);
  }

  // ---- One vote per term ----

  predicate Granted(m: Message)
  {
    m.VoteResponseMsg? && m.voteResponse.voteGranted
  }

  /** The voter remembers the vote of its term, and is never in an earlier one. */
  predicate Remembers(n: Node, m: Message)
  {
    Granted(m) && m.voter == n.id ==>
      m.voteRequest.term <= n.term && (m.voteRequest.term == n.term ==> n.votedFor == m.voteRequest.candidateId)
  }

  predicate SameVote(x: Message, y: Message)
  {
    Granted(x) && Granted(y) && x.voter == y.voter && x.voteRequest.term == y.voteRequest.term ==>
      x.voteRequest.candidateId == y.voteRequest.candidateId
  }

  predicate NamesCandidate(m: Message)
  {
    && (m.VoteRequestMsg? ==> m.voteRequest.candidateId != NO_NODE)
    && (Granted(m) ==> m.voteRequest.candidateId != NO_NODE)
  }

  ghost predicate VotesSound(ids: set<NodeId>, c: Cluster)
  {
    && ValidMembers(ids) && c.nodes.Keys == ids && (forall id {:trigger c.nodes[id]} :: id in ids ==> c.nodes[id].id == id)
    && (forall m {:trigger NamesCandidate(m)} :: m in c.network ==> NamesCandidate(m))
    && (forall m {:trigger Granted(m)} :: m in c.network && Granted(m) ==> m.voter in ids && Remembers(c.nodes[m.voter], m))
    && (forall x, y {:trigger SameVote(x, y)} :: x in c.network && y in c.network ==> SameVote(x, y))
  }

  /** A request steps the node down, for good in a term it has led. */
  lemma AppendStepsDown(rules: Rules, n: Node, req: AppendEntriesRequest)
    ensures var m := HandleAppendEntries(rules, n, req).0;
            && m.id == n.id && n.term <= m.term && m.election == n.election
            && (m.term == n.term ==> m.votedFor == n.votedFor)
            && (m.role == Follower || m == n)
  {
    hide Store, FollowerCommit, PrevMatches, ScanDown;
  }

  /** A step of the voter: its term never drops, and its vote stays until the term moves. */
  lemma VoteStays(rules: Rules, network: set<Message>, n: Node, a: Action)
    requires Enabled(rules, network, n, a)
    ensures var m := NodeStep(rules, network, n, a).0;
            m.id == n.id && n.term <= m.term && (m.term == n.term && n.votedFor != NO_NODE ==> m.votedFor == n.votedFor)
  {
    hide HandleAppendEntries, BuildAppend, Picks, LogUpToDate, FindConflictTermIndex;
    if a.ReceiveAppendRequest? {
      AppendStepsDown(rules, n, a.appendRequest);
    }
  }

  /** `m` is `n` after it has voted for the sender of `req`. */
  predicate Casts(n: Node, m: Node, req: RequestVoteRequest)
  {
    && n.term <= m.term == req.term && m.votedFor == req.candidateId
    && (req.term == n.term ==> n.votedFor == NO_NODE || n.votedFor == req.candidateId)
  }

  lemma VoteSent(rules: Rules, network: set<Message>, n: Node, a: Action, msg: Message)
    requires Enabled(rules, network, n, a) && n.id != NO_NODE && msg in NodeStep(rules, network, n, a).1
    requires forall m {:trigger NamesCandidate(m)} :: m in network ==> NamesCandidate(m)
    ensures NamesCandidate(msg)
    ensures Granted(msg) ==> msg.voter == n.id && Casts(n, NodeStep(rules, network, n, a).0, msg.voteRequest)
  {
    hide HandleAppendEntries, BuildAppend, Picks, LogUpToDate, FindConflictTermIndex;
    if a.ReceiveVoteRequest? {
      assert NamesCandidate(VoteRequestMsg(a.voteRequest));
    }
  }

  lemma StepVotesSound(rules: Rules, ids: set<NodeId>, c: Cluster, a: Action)
    requires VotesSound(ids, c)
    ensures VotesSound(ids, Next(rules, c, a))
  {
    hide NodeStep, Enabled;
    if a.id in ids && Enabled(rules, c.network, c.nodes[a.id], a) {
      var n, d := c.nodes[a.id], Next(rules, c, a);
      var (m, sent) := NodeStep(rules, c.network, n, a);
      VoteStays(rules, c.network, n, a);
      forall msg | msg in sent
        ensures NamesCandidate(msg)
        ensures Granted(msg) ==> msg.voter == n.id && Casts(n, m, msg.voteRequest)
      {
        VoteSent(rules, c.network, n, a, msg);
      }
      forall x | x in c.network && Granted(x)
        ensures x.voter in ids && Remembers(d.nodes[x.voter], x)
      {
        assert NamesCandidate(x);
      }
      forall x, y | x in d.network && y in d.network
        ensures SameVote(x, y)
      {
        if x in c.network && y in c.network {
          assert SameVote(x, y);
        }
      }
    }
  }

  lemma {:induction false} RunVotesSound(rules: Rules, ids: set<NodeId>, actions: seq<Action>)
    requires ValidMembers(ids)
    ensures VotesSound(ids, Run(rules, ids, actions))
  {
    if actions != [] {
      var before := actions[..|actions| - 1];
      RunVotesSound(rules, ids, before);
      StepVotesSound(rules, ids, Run(rules, ids, before), actions[|actions| - 1]);
    }
  }

  /** In every run, each node grants its vote to at most one candidate per term. */
  lemma OneVotePerTerm(rules: Rules, ids: set<NodeId>, actions: seq<Action>, x: Message, y: Message)
    requires ValidMembers(ids)
    requires {x, y} <= Run(rules, ids, actions).network && x.VoteResponseMsg? && y.VoteResponseMsg?
    requires x.voter == y.voter && x.voteRequest.term == y.voteRequest.term
    requires x.voteResponse.voteGranted && y.voteResponse.voteGranted
    ensures x.voteRequest.candidateId == y.voteRequest.candidateId
  {
    RunVotesSound(rules, ids, actions);
    assert SameVote(x, y);
  }

  // ---- A leader only appends ----

  /** What has become of `n`, which led its term: it leads it still with a longer log, or never will again. */
  predicate LedUntil(n: Node, m: Node)
  {
    || n.term < m.term
    || (n.term == m.term && m.election == None && m.role != Candidate && (m.role == Leader ==> n.log <= m.log))
  }

  lemma StaysLed(rules: Rules, network: set<Message>, n: Node, m: Node, a: Action)
    requires LedUntil(n, m) && Enabled(rules, network, m, a)
    ensures LedUntil(n, NodeStep(rules, network, m, a).0)
  {
    hide HandleAppendEntries, BuildAppend, LogUpToDate, FindConflictTermIndex, Picks, TermAt, LastTerm;
    if a.ReceiveAppendRequest? {
      AppendStepsDown(rules, m, a.appendRequest);
    }
  }

  lemma {:induction false} LedSince(rules: Rules, ids: set<NodeId>, actions: seq<Action>, i: nat, a: NodeId)
    requires i <= |actions| && a in ids && At(rules, ids, actions, i, a).role == Leader
    ensures LedUntil(At(rules, ids, actions, i, a), Run(rules, ids, actions).nodes[a])
    decreases |actions|
  {
    hide NodeStep, Enabled, LedUntil;
    if i == |actions| {
      assert actions[..i] == actions;
      RunSound(rules, ids, actions);
      LedNow(Run(rules, ids, actions).nodes[a]);
    } else {
      var before, act := actions[..|actions| - 1], actions[|actions| - 1];
      assert before[..i] == actions[..i];
      LedSince(rules, ids, before, i, a);
      RunSound(rules, ids, before);
      var c := Run(rules, ids, before);
      NextNode(rules, c, act, a);
      if act.id == a && Enabled(rules, c.network, c.nodes[a], act) {
        StaysLed(rules, c.network, At(rules, ids, actions, i, a), c.nodes[a], act);
      }
    }
  }

  lemma LedNow(n: Node)
    requires NodeSound(n) && n.role == Leader
    ensures LedUntil(n, n)
  {
  }

  /** In every run, a leader never overwrites or deletes entries of its log while it leads (Leader Append-Only). */
  lemma LeaderAppendOnly(rules: Rules, ids: set<NodeId>, actions: seq<Action>, i: nat, j: nat, a: NodeId)
    requires i <= j <= |actions| && a in ids
    requires At(rules, ids, actions, i, a).role == Leader && At(rules, ids, actions, j, a).role == Leader
    requires At(rules, ids, actions, i, a).term == At(rules, ids, actions, j, a).term
    ensures At(rules, ids, actions, i, a).log <= At(rules, ids, actions, j, a).log
  {
    assert actions[..j][..i] == actions[..i];
    LedSince(rules, ids, actions[..j], i, a);
  }
}
