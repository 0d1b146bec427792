/**
 What each handler of a node does, told from outside: who is elected and what is committed counted in nodes, what is
 sent, answered and proposed. Then the same over runs, under any of the rules
 (src/raft/raft.cpp:136-216, 262-284, 314-338, 547-608).
 */
module HandlerLaws {
  import opened Types
  import opened RaftLogs
  import opened Quorum
  import opened NodeSpec
  import opened Clusters
  import opened AllRules
  import opened Application

  // ---- Elections ----

  /** A node that leads from now on: it knows so, and starts every peer past its log with nothing acknowledged. */
  ghost predicate BeginsToLead(n: Node, m: Node)
  {
    && m == n.(role := Leader, leaderId := n.id, election := None, nextIndex := m.nextIndex, matchIndex := m.matchIndex)
    && m.nextIndex.Keys == n.peers && (forall p :: p in n.peers ==> m.nextIndex[p] == |n.log| + 1)
    && m.matchIndex.Keys == n.peers && (forall p :: p in n.peers ==> m.matchIndex[p] == 0)
  }

  /** Who voted for the candidate, itself included. */
  function Backers(n: Node): set<NodeId>
    requires n.election.Some?
  {
    {n.id} + n.election.value.votes
  }

  /** The count at the end of an election: more than half of the nodes make a leader, and nothing less. */
  lemma ElectedByMoreThanHalf(rules: Rules, n: Node)
    requires n.election.Some? && n.id !in n.peers && n.election.value.votes <= n.peers
    ensures var m := FinishElection(rules, n);
            var stillCandidate := n.role == Candidate && n.term == n.election.value.request.term;
            if 2 * |Backers(n)| > |{n.id} + n.peers| && (rules.recheckCandidate ==> stillCandidate)
            then BeginsToLead(n, m) else m == n.(election := None)
  {
    MajorityIsMoreThanHalf({n.id} + n.peers, Backers(n));
    assert |{n.id} + n.peers| == |n.peers| + 1;
    assert |Backers(n)| == |n.election.value.votes| + 1;
  }

  /** A node without peers leads at once; any other asks for votes with its term and the end of its log. */
  lemma ElectionBegins(n: Node)
    ensures var m := BeginElection(n);
            if n.peers == {} then BeginsToLead(n.(election := None), m.(election := None)) && m.election == n.election
            else m == n.(election := Some(Election(RequestVoteRequest(n.term, n.id, |n.log|, if n.log == [] then 0 else n.log[|n.log| - 1].term), {})))
  {
  }

  /** A node that has just started grants the first vote it is asked for. */
  lemma FirstVoteGranted(id: NodeId, peers: set<NodeId>, req: RequestVoteRequest)
    ensures HandleRequestVote(InitialNode(id, peers), req).1 == RequestVoteResponse(req.term, true)
  {
  }

  // ---- Commit ----

  /** The nodes that have entry `i` as far as the leader knows. */
  function Holders(n: Node, i: Index): set<NodeId>
  {
    set v | v in {n.id} + n.matchIndex.Keys && if v == n.id then |n.log| >= i else n.matchIndex[v] >= i
  }

  /** How many of them the code counts: the leader a second time, by the entry it keeps for itself. */
  function Tally(rules: Rules, n: Node, i: Index): nat
  {
    |Holders(n, i)| + if !rules.countOnce && n.id in n.matchIndex && n.matchIndex[n.id] >= i then 1 else 0
  }

  lemma OneMore(s: set<NodeId>, x: NodeId)
    requires x !in s
    ensures |s + {x}| == |s| + 1
  {
  }

  lemma TallyIsReachCount(rules: Rules, n: Node, i: Index)
    ensures Tally(rules, n, i) == ReachCount(|n.log|, n.matchIndex, Counted(rules, n), i)
  {
    var others, all := Reached(n.matchIndex, n.matchIndex.Keys - {n.id}, i), Reached(n.matchIndex, n.matchIndex.Keys, i);
    OneMore(others, n.id);
    assert Holders(n, i) == if |n.log| >= i then others + {n.id} else others;
    assert all == if n.id in n.matchIndex && n.matchIndex[n.id] >= i then others + {n.id} else others;
  }

  lemma FewerHoldMore(rules: Rules, n: Node, i: Index, j: Index)
    requires i <= j
    ensures Tally(rules, n, j) <= Tally(rules, n, i)
  {
    SubsetSize(Holders(n, j), Holders(n, i));
  }

  /** No node is known to have more than this. */
  lemma {:induction false} Furthest(m: map<NodeId, Index>, keys: set<NodeId>) returns (b: Index)
    requires keys <= m.Keys
    ensures forall p :: p in keys ==> m[p] <= b
  {
    b := 0;
    if keys != {} {
      var p :| p in keys;
      b := Furthest(m, keys - {p});
      b := Max(b, m[p]);
    }
  }

  lemma SomePick(rules: Rules, n: Node, i: Index) returns (k: Index)
    requires 2 * Tally(rules, n, i) > |n.peers| + 1
    ensures Picks(rules, n, k)
  {
    var b := Furthest(n.matchIndex, n.matchIndex.Keys);
    k := PickUpTo(rules, n, i, Max(b, |n.log|));
  }

  lemma {:induction false} PickUpTo(rules: Rules, n: Node, i: Index, b: Index) returns (k: Index)
    requires 2 * Tally(rules, n, i) > |n.peers| + 1
    requires |n.log| <= b && forall p :: p in n.matchIndex ==> n.matchIndex[p] <= b
    ensures Picks(rules, n, k)
    decreases b - i
  {
    assert i <= b by {
      assert i > b ==> Holders(n, i) == {};
    }
    if j: Index :| j > i && 2 * Tally(rules, n, j) > |n.peers| + 1 {
      k := PickUpTo(rules, n, j, b);
    } else {
      k := i;
      forall j: Index
        ensures Tally(rules, n, j) == ReachCount(|n.log|, n.matchIndex, Counted(rules, n), j)
      {
        TallyIsReachCount(rules, n, j);
      }
    }
  }

  /** What a pick says, without the sorted list and the size of a majority. */
  lemma PickTallies(rules: Rules, n: Node, k: Index)
    requires Picks(rules, n, k)
    ensures 2 * Tally(rules, n, k) > |n.peers| + 1
    ensures forall j: Index {:trigger Tally(rules, n, j)} :: j > k ==> 2 * Tally(rules, n, j) <= |n.peers| + 1
  {
    TallyIsReachCount(rules, n, k);
    forall j: Index | j > k
      ensures 2 * Tally(rules, n, j) <= |n.peers| + 1
    {
      TallyIsReachCount(rules, n, j);
    }
  }

  /**
   Which entries of its own term a leader commits, exactly: those that more than half of the nodes hold, unless more than
   half are credited with entries past the end of its log. With every node counted once a node counts once.
   */
  lemma CommittedByMoreThanHalf(rules: Rules, n: Node, i: Index)
    requires n.role == Leader && Ordered(n.log, n.term)
    requires n.commit < i <= |n.log| && n.log[i - 1].term == n.term
    ensures var nodes := |n.peers| + 1;
            i <= AdvanceCommit(rules, n).commit <==> 2 * Tally(rules, n, i) > nodes && 2 * Tally(rules, n, |n.log| + 1) <= nodes
    ensures rules.countOnce ==> Tally(rules, n, i) == |Holders(n, i)|
  {
    CountedOnce(rules, n, i);
    hide Tally, Picks, Majority;
    var past := |n.log| + 1;
    if k: Index :| Picks(rules, n, k) {
      PickTallies(rules, n, k);
      FewerHoldMore(rules, n, i, Max(i, k));
      FewerHoldMore(rules, n, past, Max(past, k));
      ThePick(rules, n, k);
      if i <= k <= |n.log| {
        assert TermAt(n.log, k) == n.term;
      }
    } else if 2 * Tally(rules, n, i) > |n.peers| + 1 {
      var k := SomePick(rules, n, i);
      assert false;
    }
  }

  lemma CountedOnce(rules: Rules, n: Node, i: Index)
    ensures rules.countOnce ==> Tally(rules, n, i) == |Holders(n, i)|
  {
  }

  lemma ThePick(rules: Rules, n: Node, k: Index)
    requires n.role == Leader && Picks(rules, n, k)
    ensures AdvanceCommit(rules, n).commit == if k > n.commit && TermAt(n.log, k) == n.term then k else n.commit
  {
    hide IsQuorumIndex;
    forall j: Index | Picks(rules, n, j)
      ensures j == k
    {
      QuorumIndexUnique(|n.log|, n.matchIndex, Counted(rules, n), Majority(|n.peers| + 1), j, k);
    }
  }

  // ---- Requests and answers ----

  /** What a leader sends: its term, name and commit snapshot, and the next entries of its log, 128 of them at most. */
  lemma RequestSent(n: Node, peer: NodeId)
    requires n.broadcast.Some? && peer in n.nextIndex
    ensures var req := BuildAppend(n, peer);
            && req.term == n.term && req.leaderId == n.id && req.leaderCommit == n.broadcast.value.commit
            && req.prevLogIndex + 1 == n.nextIndex[peer]
            && req.prevLogTerm == (if 1 <= req.prevLogIndex <= |n.log| then n.log[req.prevLogIndex - 1].term else 0)
            && |req.entries| == Min(128, if req.prevLogIndex < |n.log| then |n.log| - req.prevLogIndex else 0)
            && forall i :: 0 <= i < |req.entries| ==> req.entries[i] == n.log[req.prevLogIndex + i]
  {
  }

  /** Whether the follower holds the entry that the request builds on. */
  predicate HoldsPrev(log: seq<RaftEntry>, req: AppendEntriesRequest)
  {
    || req.prevLogIndex == 0
    || (if req.prevLogIndex <= |log| then log[req.prevLogIndex - 1].term else 0) == req.prevLogTerm
  }

  /**
   The answer to a request, exactly: it carries the higher of the two terms, which is the follower's from then on, and
   the length of the log as it then is; it is a success when the request is not stale and its `prev` is held; and only a
   rejection for a `prev` that is not held says where the conflict is: which term the follower has there.
   */
  lemma AppendAnswered(rules: Rules, n: Node, req: AppendEntriesRequest)
    ensures var (m, resp) := HandleAppendEntries(rules, n, req);
            var accepted := req.term >= n.term && HoldsPrev(n.log, req);
            && resp.term == m.term == Max(n.term, req.term)
            && resp.success == accepted && resp.lastLogIndex == |m.log|
            && (accepted || req.term < n.term ==> resp.conflictIndex == 0 && resp.conflictTerm == 0)
            && (req.term >= n.term && !accepted ==>
                  resp.conflictIndex >= 1
                  && resp.conflictTerm == if req.prevLogIndex <= |n.log| then n.log[req.prevLogIndex - 1].term else 0)
            && if req.term < n.term then m == n else m.role == Follower && m.leaderId == req.leaderId
  {
    if req.term >= n.term && !PrevMatches(n.log, req) {
      ScanStops(n.log, TermAt(n.log, req.prevLogIndex), req.prevLogIndex);
    }
  }

  lemma {:induction false} ScanStops(log: seq<RaftEntry>, t: Term, i: Index)
    ensures ScanDown(log, t, i) >= 1
  {
    if i > 0 && TermAt(log, i) == t {
      ScanStops(log, t, i - 1);
    }
  }

  /** How far the receiver of a request may commit: its whole log in the code, the request's last entry as repaired. */
  function Reach(rules: Rules, log: seq<RaftEntry>, req: AppendEntriesRequest): nat
  {
    if rules.keepSuffix then req.prevLogIndex + |req.entries| else |log|
  }

  /**
   What an accepted request teaches a follower: when the leader has committed more, the follower commits as much if it
   reaches that far and applies it at once, handing over what it had not applied yet; otherwise nothing of the kind.
   */
  lemma CommitLearned(rules: Rules, n: Node, req: AppendEntriesRequest)
    requires req.term >= n.term && HoldsPrev(n.log, req)
    ensures var m := HandleAppendEntries(rules, n, req).0;
            var reach := Reach(rules, m.log, req);
            if req.leaderCommit <= n.commit
            then m.commit == n.commit && m.lastApplied == n.lastApplied && m.delivered == n.delivered
            else
              && m.commit == (if req.leaderCommit <= reach then req.leaderCommit else if rules.keepSuffix then Max(n.commit, reach) else reach)
              && m.lastApplied == Max(n.lastApplied, m.commit)
              && (n.lastApplied <= m.commit <= |m.log| ==> m.delivered == n.delivered + m.log[n.lastApplied..m.commit])
  {
    hide Store;
    assert PrevMatches(n.log, req);
    var log := Store(rules, n.log, req.entries);
    if req.leaderCommit > n.commit {
      AppliedRest(n.(log := log, commit := FollowerCommit(rules, n.commit, req, log)));
    }
  }

  lemma AppliedRest(n: Node)
    ensures var m := ApplyCommitted(n);
            && m.lastApplied == Max(n.lastApplied, n.commit)
            && (n.lastApplied <= n.commit <= |n.log| ==> m.delivered == n.delivered + n.log[n.lastApplied..n.commit])
  {
    assert n.lastApplied == n.commit <= |n.log| ==> n.log[n.lastApplied..n.commit] == [];
  }

  /** Any answer of a later term makes the sender a follower of that term, and ends its heartbeat round. */
  lemma LaterTermHeard(rules: Rules, n: Node, resp: AppendEntriesResponse)
    requires AwaitsResponse(n) && resp.term > n.term
    ensures OnAppendResponse(rules, n, resp) == n.(term := resp.term, votedFor := NO_NODE, role := Follower, broadcast := None)
  {
  }

  /**
   What any other answer changes: only what the leader keeps about that peer. Sent entries that were accepted count as
   held, and the next request starts behind them; an accepted heartbeat never takes credit away; a rejection moves the
   next request back, by one when it says nothing else.
   */
  lemma ResponseTaken(rules: Rules, n: Node, resp: AppendEntriesResponse)
    requires AwaitsResponse(n) && resp.term <= n.term
    ensures var Call(peer, req) := n.broadcast.value.awaiting.value;
            var m := OnAppendResponse(rules, n, resp);
            var next, matched := n.nextIndex[peer], if peer in n.matchIndex then n.matchIndex[peer] else 0;
            && m == n.(broadcast := Some(Broadcast(n.broadcast.value.commit, None)), nextIndex := m.nextIndex, matchIndex := m.matchIndex)
            && peer in m.nextIndex && m.nextIndex == n.nextIndex[peer := m.nextIndex[peer]]
            && (m.matchIndex == n.matchIndex || (peer in m.matchIndex && m.matchIndex == n.matchIndex[peer := m.matchIndex[peer]]))
            && (resp.success && req.entries != [] ==>
                  var last := req.entries[|req.entries| - 1].index;
                  peer in m.matchIndex && m.matchIndex[peer] == last && m.nextIndex[peer] == last + 1)
            && (resp.success && req.entries == [] ==>
                  && m.nextIndex[peer] == next && peer in m.matchIndex && matched <= m.matchIndex[peer]
                  && m.matchIndex[peer] == Max(matched, if rules.clampHeartbeat then Min(resp.lastLogIndex, req.prevLogIndex) else resp.lastLogIndex))
            && (!resp.success ==> m.matchIndex == n.matchIndex && m.nextIndex[peer] <= next && (next > 1 ==> m.nextIndex[peer] < next))
            && (!resp.success && resp.conflictTerm == 0 && resp.conflictIndex == 0 && next > 1 ==> m.nextIndex[peer] == next - 1)
  {
    hide FindConflictTermIndex;
  }

  /** One answer in the vote loop: a later term ends the election, a granted vote is added, anything else is passed over. */
  lemma VoteCounted(n: Node, voter: NodeId, resp: RequestVoteResponse)
    requires n.election.Some?
    ensures var m := CountVote(n, voter, resp);
            if resp.term > n.term
            then m == n.(term := resp.term, votedFor := NO_NODE, role := Follower, election := None)
            else m == n.(election := m.election) && m.election.Some? && m.election.value.request == n.election.value.request
                 && forall v :: v in m.election.value.votes <==> v in n.election.value.votes || (v == voter && resp.voteGranted)
  {
  }

  // ---- Proposals ----

  /** Two entries carry the same command. */
  predicate SameCommand(a: RaftEntry, b: RaftEntry)
  {
    a.kind == b.kind && a.key == b.key && a.value == b.value && a.leaseId == b.leaseId && a.confChange == b.confChange
  }

  /** A leader adds exactly the proposed command, in its own term, at the next index; anybody else does nothing. */
  lemma ProposalAdded(n: Node, entry: RaftEntry)
    ensures var m := Propose(n, entry);
            if n.role != Leader then m == n
            else
              && |m.log| == |n.log| + 1 && n.log <= m.log
              && SameCommand(m.log[|n.log|], entry) && m.log[|n.log|].term == n.term && m.log[|n.log|].index == |n.log| + 1
              && m == n.(log := m.log, matchIndex := m.matchIndex) && m.matchIndex == n.matchIndex[n.id := |n.log| + 1]
  {
  }

  // ---- Over runs ----

  /** Everybody in a node's tables is a node of the cluster. */
  ghost predicate Acquainted(ids: set<NodeId>, n: Node)
  {
    && n.id in ids && n.peers == ids - {n.id} && n.matchIndex.Keys <= ids
    && (n.election.Some? ==> n.election.value.votes <= n.peers)
    && (n.broadcast.Some? && n.broadcast.value.awaiting.Some? ==> n.broadcast.value.awaiting.value.peer in n.peers)
  }

  lemma StaysAcquainted(rules: Rules, ids: set<NodeId>, network: set<Message>, n: Node, a: Action)
    requires Acquainted(ids, n) && Enabled(rules, network, n, a)
    ensures Acquainted(ids, NodeStep(rules, network, n, a).0)
  {
    hide HandleAppendEntries, BuildAppend, NodeSpec.OnAppendResponse, LogUpToDate, Picks, TermAt, LastTerm;
    match a
    case ReceiveAppendRequest(_, req) => AppendKeepsTables(rules, n, req);
    case ReceiveAppendResponse(_, resp) => ResponseKeepsTables(rules, n, resp);
    case AppendCallFails(_) => ResponseKeepsTables(rules, n, NO_APPEND_RESPONSE);
    case _ =>
  }

  lemma ResponseKeepsTables(rules: Rules, n: Node, resp: AppendEntriesResponse)
    requires AwaitsResponse(n)
    ensures var m := OnAppendResponse(rules, n, resp);
            && m.id == n.id && m.peers == n.peers && m.election == n.election
            && m.matchIndex.Keys <= n.matchIndex.Keys + {n.broadcast.value.awaiting.value.peer}
            && (m.broadcast.Some? ==> m.broadcast.value.awaiting == None)
  {
    hide NextAfterRejection;
  }

  lemma AppendKeepsTables(rules: Rules, n: Node, req: AppendEntriesRequest)
    ensures var m := HandleAppendEntries(rules, n, req).0;
            && m.id == n.id && m.peers == n.peers && m.matchIndex == n.matchIndex
            && m.election == n.election && m.broadcast == n.broadcast
  {
    hide Store, FollowerCommit, PrevMatches, ScanDown;
  }

  lemma {:induction false} RunAcquainted(rules: Rules, ids: set<NodeId>, actions: seq<Action>, id: NodeId)
    requires id in ids
    ensures Run(rules, ids, actions).nodes[id].id == id && Acquainted(ids, Run(rules, ids, actions).nodes[id])
    decreases |actions|
  {
    hide NodeStep, Enabled, Acquainted;
    RunSound(rules, ids, actions);
    if actions == [] {
      assert Acquainted(ids, InitialNode(id, ids - {id})) by { InitiallyAcquainted(ids, id); }
    } else {
      var before, a := actions[..|actions| - 1], actions[|actions| - 1];
      RunAcquainted(rules, ids, before, id);
      var c := Run(rules, ids, before);
      NextNode(rules, c, a, id);
      if a.id == id && Enabled(rules, c.network, c.nodes[id], a) {
        StaysAcquainted(rules, ids, c.network, c.nodes[id], a);
      }
    }
  }

  lemma InitiallyAcquainted(ids: set<NodeId>, id: NodeId)
    requires id in ids
    ensures Acquainted(ids, InitialNode(id, ids - {id}))
  {
  }

  /** A candidate has voted for itself and knows no leader; a leader knows itself. */
  predicate Standing(n: Node)
  {
    && (n.role == Candidate ==> n.votedFor == n.id && n.leaderId == NO_NODE && n.term >= 1)
    && (n.role == Leader ==> n.leaderId == n.id && n.term >= 1)
  }

  lemma StepStanding(rules: Rules, network: set<Message>, n: Node, a: Action)
    requires Enabled(rules, network, n, a) && NodeSound(n) && Standing(n) && n.id != NO_NODE
    ensures Standing(NodeStep(rules, network, n, a).0)
  {
    hide HandleAppendEntries, BuildAppend, NodeSpec.OnAppendResponse, LogUpToDate, Picks, TermAt, LastTerm, Ordered;
    match a
    case ReceiveAppendRequest(_, req) => AppendAnswered(rules, n, req);
    case ReceiveAppendResponse(_, resp) => ResponseStanding(rules, n, resp);
    case AppendCallFails(_) => ResponseStanding(rules, n, NO_APPEND_RESPONSE);
    case _ =>
  }

  lemma ResponseStanding(rules: Rules, n: Node, resp: AppendEntriesResponse)
    requires AwaitsResponse(n) && Standing(n)
    ensures Standing(OnAppendResponse(rules, n, resp))
  {
    hide NextAfterRejection;
  }

  /** In every run: who stands for election, and who leads, says so. */
  lemma {:induction false} RunStanding(rules: Rules, ids: set<NodeId>, actions: seq<Action>, id: NodeId)
    requires ValidMembers(ids) && id in ids
    ensures Standing(Run(rules, ids, actions).nodes[id])
    decreases |actions|
  {
    hide NodeStep, Enabled, Standing, NodeSound;
    if actions == [] {
      assert Standing(InitialNode(id, ids - {id})) by { InitiallyStanding(ids, id); }
    } else {
      var before, a := actions[..|actions| - 1], actions[|actions| - 1];
      RunStanding(rules, ids, before, id);
      RunSound(rules, ids, before);
      var c := Run(rules, ids, before);
      NextNode(rules, c, a, id);
      if a.id == id && Enabled(rules, c.network, c.nodes[id], a) {
        StepStanding(rules, c.network, c.nodes[id], a);
      }
    }
  }

  lemma InitiallyStanding(ids: set<NodeId>, id: NodeId)
    ensures Standing(InitialNode(id, ids - {id}))
  {
  }

  /** In every run, the count at the end of an election makes a leader exactly when more than half of the cluster voted for it. */
  lemma ElectedInRuns(rules: Rules, ids: set<NodeId>, actions: seq<Action>, i: nat, a: NodeId)
    requires i < |actions| && a in ids && actions[i] == EndElection(a) && Takes(rules, ids, actions, i, a)
    ensures var n, m := At(rules, ids, actions, i, a), At(rules, ids, actions, i + 1, a);
            && n.election.Some? && n.role != Leader
            && (m.role == Leader <==>
                  && 2 * |Backers(n)| > |ids|
                  && (rules.recheckCandidate ==> n.role == Candidate && n.term == n.election.value.request.term))
  {
    hide Run, NodeSpec.FinishElection, Ordered;
    RunSound(rules, ids, actions[..i]);
    RunAcquainted(rules, ids, actions[..i], a);
    MomentNext(rules, ids, actions, i, a);
    var n := At(rules, ids, actions, i, a);
    assert {n.id} + n.peers == ids;
    ElectedByMoreThanHalf(rules, n);
  }

  /** In every run, when a leader looks for what to commit: exactly the entries of its term that more than half of the cluster hold. */
  lemma CommittedInRuns(rules: Rules, ids: set<NodeId>, actions: seq<Action>, i: nat, a: NodeId, index: Index)
    requires i < |actions| && a in ids && actions[i] == LeaderCommits(a) && Takes(rules, ids, actions, i, a)
    requires var n := At(rules, ids, actions, i, a);
             n.role == Leader && n.commit < index <= |n.log| && n.log[index - 1].term == n.term
    ensures var n := At(rules, ids, actions, i, a);
            && Holders(n, index) <= ids
            && (index <= At(rules, ids, actions, i + 1, a).commit <==>
                  2 * Tally(rules, n, index) > |ids| && 2 * Tally(rules, n, |n.log| + 1) <= |ids|)
  {
    hide Run, AdvanceCommit, Tally, Holders, Ordered;
    RunSound(rules, ids, actions[..i]);
    RunAcquainted(rules, ids, actions[..i], a);
    MomentNext(rules, ids, actions, i, a);
    var n := At(rules, ids, actions, i, a);
    HoldersAreNodes(ids, n, index);
    CommittedByMoreThanHalf(rules, n, index);
  }

  lemma HoldersAreNodes(ids: set<NodeId>, n: Node, i: Index)
    requires Acquainted(ids, n)
    ensures Holders(n, i) <= ids && |ids| == |n.peers| + 1
  {
    assert n.peers + {n.id} == ids;
    OneMore(n.peers, n.id);
  }

  lemma {:induction false} NetworkGrows(rules: Rules, ids: set<NodeId>, actions: seq<Action>, i: nat)
    requires i <= |actions|
    ensures Run(rules, ids, actions[..i]).network <= Run(rules, ids, actions).network
    decreases |actions|
  {
    hide NodeStep, Enabled;
    if i == |actions| {
      assert actions[..i] == actions;
    } else {
      var before := actions[..|actions| - 1];
      assert before[..i] == actions[..i];
      NetworkGrows(rules, ids, before, i);
    }
  }

  /** The answer that a follower gives at some moment can be received from then on. */
  lemma AnswerSent(rules: Rules, ids: set<NodeId>, actions: seq<Action>, j: nat, b: NodeId, req: AppendEntriesRequest)
    requires j < |actions| && b in ids && actions[j] == ReceiveAppendRequest(b, req) && Takes(rules, ids, actions, j, b)
    ensures AppendResponseMsg(b, req, HandleAppendEntries(rules, At(rules, ids, actions, j, b), req).1) in Run(rules, ids, actions).network
  {
    hide HandleAppendEntries, Enabled;
    RunSound(rules, ids, actions[..j]);
    assert actions[..j + 1][..j] == actions[..j];
    NetworkGrows(rules, ids, actions, j + 1);
  }

  /**
   A leader that waits for the answer of a peer which was in a later term when it answered can receive that answer, and
   then follows in the peer's term. So a deposed leader that is back does not lead on.
   */
  lemma DeposedByAnswer(rules: Rules, ids: set<NodeId>, actions: seq<Action>, j: nat, b: NodeId, req: AppendEntriesRequest, a: NodeId)
    returns (answer: Action)
    requires j < |actions| && a in ids && b in ids
    requires actions[j] == ReceiveAppendRequest(b, req) && Takes(rules, ids, actions, j, b)
    requires var n := Run(rules, ids, actions).nodes[a];
             AwaitsResponse(n) && n.broadcast.value.awaiting.value == Call(b, req) && n.term < At(rules, ids, actions, j, b).term
    ensures var c := Run(rules, ids, actions);
            && answer.ReceiveAppendResponse? && answer.id == a && Enabled(rules, c.network, c.nodes[a], answer)
            && var m := Next(rules, c, answer).nodes[a]; m.role == Follower && m.term == At(rules, ids, actions, j + 1, b).term
  {
    hide HandleAppendEntries, NodeSpec.OnAppendResponse, Run;
    var c, p := Run(rules, ids, actions), At(rules, ids, actions, j, b);
    var resp := HandleAppendEntries(rules, p, req).1;
    answer := ReceiveAppendResponse(a, resp);
    AnswerSent(rules, ids, actions, j, b, req);
    AppendAnswered(rules, p, req);
    MomentNext(rules, ids, actions, j, b);
    RunSound(rules, ids, actions);
    LaterTermHeard(rules, c.nodes[a], resp);
  }

  /** The cluster after the three steps of a heartbeat to one peer that is not lost on its way. */
  ghost function AfterHeartbeat(rules: Rules, c: Cluster, a: NodeId, b: NodeId, req: AppendEntriesRequest): Cluster
  {
    Next(rules, Next(rules, Next(rules, c, StartBroadcast(a)), SendAppend(a, b)), ReceiveAppendRequest(b, req))
  }

  /**
   What a leader has committed spreads: a heartbeat that finds its `prev` at a peer leaves the peer with at least that much
   committed and applied, provided the peer then reaches that far.
   */
  lemma CommitSpreads(rules: Rules, c: Cluster, a: NodeId, b: NodeId) returns (req: AppendEntriesRequest)
    requires a in c.nodes && b in c.nodes && a != b && c.nodes[a].id == a && c.nodes[b].id == b
    requires c.nodes[a].role == Leader && Idle(c.nodes[a]) && b in c.nodes[a].peers && b in c.nodes[a].nextIndex
    requires c.nodes[b].term <= c.nodes[a].term
    requires var next: Index := c.nodes[a].nextIndex[b];
             next == 1 || TermAt(c.nodes[b].log, next - 1) == TermAt(c.nodes[a].log, next - 1)
    ensures var l, f := c.nodes[a], c.nodes[b];
            var d := AfterHeartbeat(rules, c, a, b, req);
            && b in d.nodes
            && var g := d.nodes[b];
               && g.term == l.term && g.role == Follower && g.leaderId == a
               && (f.commit < l.commit <= Reach(rules, g.log, req) ==> g.commit == l.commit && g.lastApplied >= l.commit)
  {
    hide HandleAppendEntries, BuildAppend, Reach;
    var l, f := c.nodes[a], c.nodes[b];
    var n := l.(broadcast := Some(Broadcast(l.commit, None)));
    req := BuildAppend(n, b);
    RequestSent(n, b);
    var c1 := Next(rules, c, StartBroadcast(a));
    assert c1.nodes == c.nodes[a := n];
    var c2 := Next(rules, c1, SendAppend(a, b));
    assert b in c2.nodes && c2.nodes[b] == f && AppendRequestMsg(b, req) in c2.network;
    assert AfterHeartbeat(rules, c, a, b, req).nodes[b] == HandleAppendEntries(rules, f, req).0;
    AppendAnswered(rules, f, req);
    CommitLearned(rules, f, req);
  }
}
