/**
 Election Safety and Log Matching (sections 5.2 and 5.3 of the extended Raft paper) for every run of a cluster that
 rechecks candidacy; the other four rules may be as written.
 */
module LogSafety {
  import opened Types
  import opened RaftLogs
  import opened Quorum
  import opened NodeSpec
  import opened Clusters
  import opened Histories
  import opened AllRules

  /** The prefix of `log` that ends with entry number `i` is a prefix of what the leader of that entry's term wrote. */
  ghost predicate RootedAt(leaderLog: map<Term, Log>, log: Log, i: nat)
    requires i < |log|
  {
    log[i].term in leaderLog && log[..i + 1] <= leaderLog[log[i].term]
  }

  ghost predicate Rooted(leaderLog: map<Term, Log>, log: Log)
  {
    && Consecutive(log, 1)
    && forall i {:trigger RootedAt(leaderLog, log, i)} :: 0 <= i < |log| ==> RootedAt(leaderLog, log, i)
  }

  /** The leader of `t` started from the log it was elected with and added entries of its own term. */
  ghost predicate LeaderLogOk(h: History, t: Term)
    requires t in h.leaderLog && t in h.elected
  {
    && Rooted(h.leaderLog, h.leaderLog[t]) && TermsAtMost(h.leaderLog[t], t)
    && h.elected[t].log <= h.leaderLog[t]
    && (forall i :: 0 <= i < |h.elected[t].log| ==> h.leaderLog[t][i].term < t)
    && (forall i :: |h.elected[t].log| <= i < |h.leaderLog[t]| ==> h.leaderLog[t][i].term == t)
  }

  /** The leader of `t` has the votes of a majority. */
  ghost predicate ElectionOk(ids: set<NodeId>, h: History, t: Term)
    requires t in h.elected
  {
    var e := h.elected[t];
    && e.leader in e.voters && e.voters <= ids && |e.voters| >= Majority(|ids|)
    && forall v :: v in e.voters ==> (v, t) in h.votes && h.votes[(v, t)] == e.leader
  }

  ghost predicate HistoryOk(ids: set<NodeId>, h: History)
  {
    && NO_TERM !in h.leaderLog
    && h.elected.Keys == h.leaderLog.Keys
    && (forall t {:trigger LeaderLogOk(h, t)} :: t in h.elected ==> LeaderLogOk(h, t))
    && (forall t {:trigger ElectionOk(ids, h, t)} :: t in h.elected ==> ElectionOk(ids, h, t))
  }

  ghost predicate VotesOk(h: History, n: Node)
  {
    && (forall t :: (n.id, t) in h.votes ==> t <= n.term)
    && (forall t :: (n.id, t) in h.candidateLog ==> t <= n.term)
    && (n.votedFor == NO_NODE ==> (n.id, n.term) !in h.votes)
    && (n.votedFor != NO_NODE ==> (n.id, n.term) in h.votes && h.votes[(n.id, n.term)] == n.votedFor)
  }

  ghost predicate RoleOk(h: History, n: Node)
  {
    && (n.role == Leader ==>
          && n.term in h.elected && h.elected[n.term].leader == n.id
          && n.term in h.leaderLog && h.leaderLog[n.term] == n.log)
    && (n.role == Candidate ==>
          && n.term >= 1 && n.votedFor == n.id
          && (n.id, n.term) in h.candidateLog && h.candidateLog[(n.id, n.term)] == n.log
          && (n.term in h.elected ==> h.elected[n.term].leader != n.id))
  }

  /** The votes that a running election has counted. */
  ghost predicate CountOk(h: History, n: Node)
  {
    n.election.Some? ==>
      var e := n.election.value;
      && n.role != Leader
      && e.request.candidateId == n.id && e.request.term <= n.term
      && (n.id, e.request.term) in h.votes && h.votes[(n.id, e.request.term)] == n.id
      && n.id !in e.votes && e.votes <= n.peers
      && forall v :: v in e.votes ==> (v, e.request.term) in h.votes && h.votes[(v, e.request.term)] == n.id
  }

  ghost predicate NodeOk(ids: set<NodeId>, h: History, n: Node)
  {
    && n.id in ids && n.id != NO_NODE && n.peers == ids - {n.id}
    && Rooted(h.leaderLog, n.log) && TermsAtMost(n.log, n.term)
    && VotesOk(h, n) && RoleOk(h, n) && CountOk(h, n)
  }

  /** The entries of the request are the end of `source`, and its `prev` is the entry before them. */
  ghost predicate Carries(h: History, source: Log, req: AppendEntriesRequest)
  {
    && Rooted(h.leaderLog, source) && TermsAtMost(source, req.term)
    && req.prevLogIndex + |req.entries| == |source|
    && req.entries == source[req.prevLogIndex..]
    && req.prevLogTerm == TermAt(source, req.prevLogIndex)
  }

  /** The entries were taken from some log; not always from that of the leader of the request's term. */
  ghost predicate RequestOk(h: History, req: AppendEntriesRequest)
  {
    req.entries != [] ==> exists source: Log {:trigger Carries(h, source, req)} :: Carries(h, source, req)
  }

  ghost predicate MessageOk(h: History, m: Message)
  {
    match m
    case VoteRequestMsg(req) =>
      && (req.candidateId, req.term) in h.candidateLog && req.candidateId != NO_NODE
      && var log := h.candidateLog[(req.candidateId, req.term)];
         req.lastLogIndex == |log| && req.lastLogTerm == LastTerm(log)
    case VoteResponseMsg(voter, req, resp) =>
      resp.voteGranted ==> (voter, req.term) in h.votes && h.votes[(voter, req.term)] == req.candidateId
    case AppendRequestMsg(_, req) => RequestOk(h, req)
    case AppendResponseMsg(_, _, _) => true
  }

  ghost predicate Shape(ids: set<NodeId>, c: Cluster)
  {
    ValidMembers(ids) && c.nodes.Keys == ids && forall id :: id in ids ==> c.nodes[id].id == id
  }

  ghost predicate Invariant(ids: set<NodeId>, c: Cluster, h: History)
  {
    && Shape(ids, c)
    && HistoryOk(ids, h)
    && (forall id :: id in ids ==> NodeOk(ids, h, c.nodes[id]))
    && (forall m :: m in c.network ==> MessageOk(h, m))
  }

  // ---- How one step of node `id` may change the history ----

  ghost predicate LogsExtend(old_: map<Term, Log>, new_: map<Term, Log>)
  {
    forall t :: t in old_ ==>
      && t in new_ && old_[t] <= new_[t]
      && forall i :: |old_[t]| <= i < |new_[t]| ==> new_[t][i].term == t
  }

  ghost predicate Grows(id: NodeId, h: History, k: History)
  {
    && LogsExtend(h.leaderLog, k.leaderLog)
    && (forall t :: t in h.elected ==> t in k.elected && k.elected[t] == h.elected[t])
    && (forall t :: t in k.elected && t !in h.elected ==> k.elected[t].leader == id)
    && (forall t :: t in h.leaderLog && h.leaderLog[t] != k.leaderLog[t] ==> t in h.elected && h.elected[t].leader == id)
    && (forall x :: x in h.candidateLog ==> x in k.candidateLog && k.candidateLog[x] == h.candidateLog[x])
    && (forall x :: x in k.candidateLog && x !in h.candidateLog ==> x.0 == id)
    && (forall x :: x in h.votes ==> x in k.votes && k.votes[x] == h.votes[x])
    && (forall x :: x in k.votes && x !in h.votes ==> x.0 == id)
  }

  lemma RootedStable(old_: map<Term, Log>, new_: map<Term, Log>, log: Log)
    requires Rooted(old_, log) && LogsExtend(old_, new_)
    ensures Rooted(new_, log)
  {
    forall i | 0 <= i < |log|
      ensures RootedAt(new_, log, i)
    {
      assert RootedAt(old_, log, i);
    }
  }

  lemma RootedPrefix(leaderLog: map<Term, Log>, log: Log, k: nat)
    requires Rooted(leaderLog, log) && k <= |log|
    ensures Rooted(leaderLog, log[..k])
  {
    forall i | 0 <= i < k
      ensures RootedAt(leaderLog, log[..k], i)
    {
      assert RootedAt(leaderLog, log, i);
      assert log[..k][..i + 1] == log[..i + 1];
    }
  }

  lemma NodeStable(ids: set<NodeId>, h: History, k: History, n: Node, id: NodeId)
    requires NodeOk(ids, h, n) && n.id != id
    requires HistoryOk(ids, h) && Grows(id, h, k)
    ensures NodeOk(ids, k, n)
  {
    RootedStable(h.leaderLog, k.leaderLog, n.log);
  }

  lemma MessageStable(ids: set<NodeId>, h: History, k: History, m: Message, id: NodeId)
    requires MessageOk(h, m) && HistoryOk(ids, h) && Grows(id, h, k)
    ensures MessageOk(k, m)
  {
    if m.AppendRequestMsg? && m.appendRequest.entries != [] {
      var source: Log :| Carries(h, source, m.appendRequest);
      RootedStable(h.leaderLog, k.leaderLog, source);
      assert Carries(k, source, m.appendRequest);
    }
  }

  // ---- Logs that agree on one entry agree up to it ----

  lemma RootedAgree(leaderLog: map<Term, Log>, a: Log, b: Log, i: Index)
    requires Rooted(leaderLog, a) && Rooted(leaderLog, b)
    requires 1 <= i <= |a| && i <= |b| && TermAt(a, i) == TermAt(b, i)
    ensures a[..i] == b[..i]
  {
    assert RootedAt(leaderLog, a, i - 1) && RootedAt(leaderLog, b, i - 1);
    var whole := leaderLog[a[i - 1].term];
    assert a[..i] == whole[..i] == b[..i];
  }

  /** The terms of a rooted log never decrease. */
  lemma RootedSorted(ids: set<NodeId>, h: History, log: Log, i: nat, j: nat)
    requires HistoryOk(ids, h) && Rooted(h.leaderLog, log) && i <= j < |log|
    ensures log[i].term <= log[j].term
  {
    var t := log[j].term;
    assert RootedAt(h.leaderLog, log, j) && LeaderLogOk(h, t);
    assert log[i] == log[..j + 1][i] == h.leaderLog[t][i];
  }

  /** Where the log holds the request's `prev`, it holds all that the sender had before the entries. */
  lemma PrevAgrees(h: History, log: Log, source: Log, req: AppendEntriesRequest)
    requires Rooted(h.leaderLog, log) && Carries(h, source, req) && PrevMatches(log, req) && NO_TERM !in h.leaderLog
    ensures req.prevLogIndex <= |log| && log[..req.prevLogIndex] == source[..req.prevLogIndex]
    ensures req.entries != [] ==> req.entries[0].index == req.prevLogIndex + 1
  {
    var prev := req.prevLogIndex;
    if req.entries != [] {
      assert req.entries[0] == source[prev];
    }
    if prev > 0 {
      assert RootedAt(h.leaderLog, source, prev - 1);
      RootedAgree(h.leaderLog, log, source, prev);
    }
  }

  /** Storing an accepted request as the code does leaves exactly the sender's log up to its last entry, if it has any. */
  lemma StoreCuts(h: History, rules: Rules, log: Log, source: Log, req: AppendEntriesRequest)
    requires Rooted(h.leaderLog, log) && Carries(h, source, req) && PrevMatches(log, req) && NO_TERM !in h.leaderLog
    requires !rules.keepSuffix
    ensures source <= Store(rules, log, req.entries)
    ensures Store(rules, log, req.entries) == if req.entries == [] then log else source
  {
    PrevAgrees(h, log, source, req);
    assert log[..req.prevLogIndex] + req.entries == source;
  }

  /**
   Storing it with the suffix kept: the log is unchanged when it already extends the sender's; otherwise it becomes the
   sender's, and what is lost starts at an entry `at` that conflicts with it.
   */
  lemma StoreKeeps(h: History, rules: Rules, log: Log, source: Log, req: AppendEntriesRequest) returns (at: nat)
    requires Rooted(h.leaderLog, log) && Carries(h, source, req) && PrevMatches(log, req) && NO_TERM !in h.leaderLog
    requires rules.keepSuffix
    ensures at <= |log| && at <= |source| && log[..at] == source[..at]
    ensures at == |source| ==> Store(rules, log, req.entries) == log
    ensures at < |source| ==> Store(rules, log, req.entries) == source && (at < |log| ==> log[at].term != source[at].term)
  {
    hide Rooted, Agreeing, Store, PrevMatches;
    var prev, es := req.prevLogIndex, req.entries;
    PrevAgrees(h, log, source, req);
    if es == [] {
      NothingStored(rules, log);
      return prev;
    }
    at := prev + Agreeing(log, prev, es);
    AgreeingPrefix(h, log, source, prev, es);
    KeptLog(rules, log, source, prev, es);
  }

  lemma AgreeingPrefix(h: History, log: Log, leaders: Log, prev: nat, es: seq<RaftEntry>)
    requires Rooted(h.leaderLog, log) && Rooted(h.leaderLog, leaders)
    requires prev <= |log| && prev + |es| <= |leaders| && es == leaders[prev..prev + |es|] && log[..prev] == leaders[..prev]
    ensures var at := prev + Agreeing(log, prev, es); log[..at] == leaders[..at]
  {
    var k := Agreeing(log, prev, es);
    if k > 0 {
      assert log[prev + (k - 1)].term == es[k - 1].term && es[k - 1] == leaders[prev + k - 1];
      RootedAgree(h.leaderLog, log, leaders, prev + k);
    }
  }

  lemma KeptStore(rules: Rules, log: Log, prev: nat, es: seq<RaftEntry>)
    requires rules.keepSuffix && es != [] && es[0].index == prev + 1 && prev <= |log|
    ensures var k := Agreeing(log, prev, es);
            Store(rules, log, es) == if k == |es| then log else log[..prev + k] + es[k..]
  {
    hide Agreeing;
  }

  lemma KeptLog(rules: Rules, log: Log, carried: Log, prev: nat, es: seq<RaftEntry>)
    requires rules.keepSuffix
    requires es != [] && es[0].index == prev + 1 && prev <= |log| && |carried| == prev + |es| && es == carried[prev..]
    requires var at := prev + Agreeing(log, prev, es); log[..at] == carried[..at]
    ensures var k := Agreeing(log, prev, es);
            && Store(rules, log, es) == (if k == |es| then log else carried)
            && (k < |es| && prev + k < |log| ==> log[prev + k].term != carried[prev + k].term)
  {
    hide Agreeing, Store;
    var k := Agreeing(log, prev, es);
    KeptStore(rules, log, prev, es);
    if k < |es| {
      assert es[k] == carried[prev + k];
      Spliced(log, carried, prev, es, k);
    }
  }

  lemma Spliced(log: Log, carried: Log, prev: nat, es: seq<RaftEntry>, k: nat)
    requires k <= |es| && |carried| == prev + |es| && es == carried[prev..] && prev + k <= |log| && log[..prev + k] == carried[..prev + k]
    ensures log[..prev + k] + es[k..] == carried
  {
    assert es[k..] == carried[prev + k..];
  }

  lemma StoreAgrees(h: History, rules: Rules, log: Log, source: Log, req: AppendEntriesRequest)
    requires Rooted(h.leaderLog, log) && Carries(h, source, req) && PrevMatches(log, req) && NO_TERM !in h.leaderLog
    ensures var stored := Store(rules, log, req.entries);
            source <= stored && (stored == log || stored == source)
  {
    if rules.keepSuffix {
      var at := StoreKeeps(h, rules, log, source, req);
      assert log[..at] <= log;
    } else {
      StoreCuts(h, rules, log, source, req);
    }
  }

  // ---- One step keeps the invariant ----

  /** What has to be shown of the node that acts. */
  ghost predicate StepOk(ids: set<NodeId>, h: History, n: Node, m: Node, a: Action)
  {
    var k := Record(h, n, m, a);
    m.id == n.id && HistoryOk(ids, k) && Grows(n.id, h, k) && NodeOk(ids, k, m)
  }

  /** Nobody is elected and no leader writes: the records of past terms stay as they are. */
  lemma HistoryKept(ids: set<NodeId>, h: History, k: History)
    requires HistoryOk(ids, h)
    requires k.leaderLog == h.leaderLog && k.elected == h.elected
    requires forall x :: x in h.votes ==> x in k.votes && k.votes[x] == h.votes[x]
    ensures HistoryOk(ids, k)
  {
    forall t | t in k.elected
      ensures LeaderLogOk(k, t) && ElectionOk(ids, k, t)
    {
      assert LeaderLogOk(h, t) && ElectionOk(ids, h, t);
    }
  }

  /** Steps after which term, vote, role and log are what they were. */
  lemma QuietStep(ids: set<NodeId>, h: History, n: Node, m: Node, a: Action)
    requires HistoryOk(ids, h) && NodeOk(ids, h, n)
    requires m.id == n.id && m.peers == n.peers && m.term == n.term && m.votedFor == n.votedFor && m.log == n.log && m.role == n.role
    requires CountOk(h, m)
    ensures StepOk(ids, h, n, m, a)
  {
    var k := Record(h, n, m, a);
    assert k.leaderLog == h.leaderLog && k.elected == h.elected && k.candidateLog == h.candidateLog && k.votes == h.votes;
    HistoryKept(ids, h, k);
  }

  /** Steps after which the node is a follower: a higher term, a vote, a new log. */
  lemma FollowerStep(ids: set<NodeId>, h: History, n: Node, m: Node, a: Action)
    requires HistoryOk(ids, h) && NodeOk(ids, h, n)
    requires m.id == n.id && m.peers == n.peers && m.role == Follower
    requires m.election == None || m.election == n.election
    requires m.broadcast == None || m.broadcast == n.broadcast
    requires m.term > n.term || (m.term == n.term && (m.votedFor == n.votedFor || n.votedFor == NO_NODE))
    requires Rooted(h.leaderLog, m.log) && TermsAtMost(m.log, m.term)
    ensures StepOk(ids, h, n, m, a)
  {
    var k := Record(h, n, m, a);
    assert k.leaderLog == h.leaderLog && k.elected == h.elected && k.candidateLog == h.candidateLog;
    HistoryKept(ids, h, k);
  }

  lemma TimeoutStep(ids: set<NodeId>, h: History, n: Node, a: Action)
    requires HistoryOk(ids, h) && NodeOk(ids, h, n) && Idle(n)
    ensures StepOk(ids, h, n, BecomeCandidate(n), a)
  {
    var m := BecomeCandidate(n);
    var k := Record(h, n, m, a);
    assert k.leaderLog == h.leaderLog && k.elected == h.elected;
    HistoryKept(ids, h, k);
    if m.term in h.elected {
      assert ElectionOk(ids, h, m.term);
    }
  }

  /** A step that touches the record of term `t` only. */
  lemma HistoryRebuilt(ids: set<NodeId>, h: History, k: History, t: Term)
    requires HistoryOk(ids, h) && LogsExtend(h.leaderLog, k.leaderLog) && k.votes == h.votes
    requires t in k.elected && t in k.leaderLog && t != NO_TERM
    requires k.elected == h.elected[t := k.elected[t]] && k.leaderLog == h.leaderLog[t := k.leaderLog[t]]
    requires LeaderLogOk(k, t) && ElectionOk(ids, k, t)
    ensures HistoryOk(ids, k)
  {
    forall s | s in k.elected
      ensures LeaderLogOk(k, s) && ElectionOk(ids, k, s)
    {
      if s != t {
        assert LeaderLogOk(h, s) && ElectionOk(ids, h, s);
        RootedStable(h.leaderLog, k.leaderLog, h.leaderLog[s]);
      }
    }
  }

  /** Nobody else can have been elected in a term in which this node holds a majority of the votes. */
  lemma OneWinner(ids: set<NodeId>, h: History, id: NodeId, t: Term, voters: set<NodeId>)
    requires HistoryOk(ids, h) && voters <= ids && |voters| >= Majority(|ids|)
    requires forall v :: v in voters ==> (v, t) in h.votes && h.votes[(v, t)] == id
    requires t in h.elected
    ensures h.elected[t].leader == id
  {
    assert ElectionOk(ids, h, t);
    var both := MajoritiesIntersect(ids, voters, h.elected[t].voters);
  }

  /** Node `id` is elected in `t`, or writes another entry as the leader of `t`. */
  lemma GrowsAt(ids: set<NodeId>, h: History, k: History, id: NodeId, t: Term)
    requires HistoryOk(ids, h) && k.votes == h.votes && k.candidateLog == h.candidateLog
    requires t in k.leaderLog && k.leaderLog == h.leaderLog[t := k.leaderLog[t]]
    requires t in k.elected && k.elected == h.elected[t := k.elected[t]] && k.elected[t].leader == id
    requires t in h.elected ==>
               && k.elected[t] == h.elected[t] && h.leaderLog[t] <= k.leaderLog[t]
               && forall i :: |h.leaderLog[t]| <= i < |k.leaderLog[t]| ==> k.leaderLog[t][i].term == t
    ensures Grows(id, h, k)
  {
  }

  function VotesOf(n: Node): set<NodeId>
  {
    if n.election.Some? then n.election.value.votes else {}
  }

  /** A candidate with a majority: nobody has been elected in its term, and its log is older than the term. */
  lemma Electable(ids: set<NodeId>, h: History, n: Node)
    requires HistoryOk(ids, h) && NodeOk(ids, h, n) && n.role == Candidate
    requires n.election.Some? ==> n.election.value.request.term == n.term
    requires |VotesOf(n)| + 1 >= Majority(|ids|)
    ensures n.term !in h.elected
    ensures forall i :: 0 <= i < |n.log| ==> n.log[i].term < n.term
    ensures var voters := {n.id} + VotesOf(n);
            && voters <= ids && |voters| >= Majority(|ids|)
            && forall v :: v in voters ==> (v, n.term) in h.votes && h.votes[(v, n.term)] == n.id
  {
    var voters := {n.id} + VotesOf(n);
    assert |voters| == |VotesOf(n)| + 1;
    if n.term in h.elected {
      OneWinner(ids, h, n.id, n.term, voters);
    }
    forall i | 0 <= i < |n.log|
      ensures n.log[i].term < n.term
    {
      assert RootedAt(h.leaderLog, n.log, i);
    }
  }

  /** The node wins the election of its term. */
  lemma ElectionStep(ids: set<NodeId>, h: History, n: Node, m: Node, a: Action)
    requires HistoryOk(ids, h) && NodeOk(ids, h, n)
    requires n.role == Candidate && m == BecomeLeader(n.(election := None))
    requires n.election.Some? ==> n.election.value.request.term == n.term
    requires |VotesOf(n)| + 1 >= Majority(|ids|)
    ensures StepOk(ids, h, n, m, a)
  {
    Electable(ids, h, n);
    ElectionRecorded(ids, h, n, m, a);
    hide HistoryOk, Table, Record, LogsExtend, Grows;
    RootedStable(h.leaderLog, Record(h, n, m, a).leaderLog, n.log);
  }

  /** The records of an election: the winner's log becomes the log of its term's leader. */
  lemma ElectionRecorded(ids: set<NodeId>, h: History, n: Node, m: Node, a: Action)
    requires HistoryOk(ids, h) && NodeOk(ids, h, n) && n.role == Candidate && n.term !in h.elected
    requires m.id == n.id && m.role == Leader && m.term == n.term && m.log == n.log && m.votedFor == n.votedFor
    requires forall i :: 0 <= i < |n.log| ==> n.log[i].term < n.term
    requires var voters := {n.id} + VotesOf(n);
             && voters <= ids && |voters| >= Majority(|ids|)
             && forall v :: v in voters ==> (v, n.term) in h.votes && h.votes[(v, n.term)] == n.id
    ensures var k := Record(h, n, m, a);
            && k.votes == h.votes && k.candidateLog == h.candidateLog && k.leaderLog == h.leaderLog[n.term := n.log]
            && k.elected == h.elected[n.term := Elected(n.id, n.log, {n.id} + VotesOf(n))]
            && LogsExtend(h.leaderLog, k.leaderLog) && HistoryOk(ids, k) && Grows(n.id, h, k)
  {
    hide Rooted, VotesOk, CountOk, Grows;
    var t, k := n.term, Record(h, n, m, a);
    assert k.votes == h.votes && k.candidateLog == h.candidateLog;
    GrowsAt(ids, h, k, n.id, t);
    RootedStable(h.leaderLog, k.leaderLog, n.log);
    HistoryRebuilt(ids, h, k, t);
  }

  lemma RootedAppend(leaderLog: map<Term, Log>, log: Log, e: RaftEntry)
    requires Rooted(leaderLog, log) && e.index == |log| + 1 && e.term in leaderLog && leaderLog[e.term] == log + [e]
    ensures Rooted(leaderLog, log + [e])
  {
    forall i | 0 <= i < |log + [e]|
      ensures RootedAt(leaderLog, log + [e], i)
    {
      if i < |log| {
        assert RootedAt(leaderLog, log, i);
        assert (log + [e])[..i + 1] == log[..i + 1];
      }
    }
  }

  /** The records of a proposal: the log of the term's leader gets one entry of its term more. */
  lemma ProposalRecorded(ids: set<NodeId>, h: History, n: Node, m: Node, e: RaftEntry, a: Action)
    requires HistoryOk(ids, h) && NodeOk(ids, h, n) && n.role == Leader && e.index == |n.log| + 1 && e.term == n.term
    requires m.id == n.id && m.role == Leader && m.term == n.term && m.log == n.log + [e] && m.votedFor == n.votedFor
    ensures var k := Record(h, n, m, a);
            && k.votes == h.votes && k.candidateLog == h.candidateLog && k.elected == h.elected
            && k.leaderLog == h.leaderLog[n.term := m.log]
            && HistoryOk(ids, k) && Grows(n.id, h, k) && Rooted(k.leaderLog, m.log)
  {
    hide Rooted, TermsAtMost, CountOk, Grows;
    var t, k := n.term, Record(h, n, m, a);
    assert k.votes == h.votes && k.candidateLog == h.candidateLog && k.elected == h.elected;
    assert LeaderLogOk(h, t) && ElectionOk(ids, h, t);
    GrowsAt(ids, h, k, n.id, t);
    RootedStable(h.leaderLog, k.leaderLog, n.log);
    RootedAppend(k.leaderLog, n.log, e);
    LeaderLogGrown(h, k, t, e);
    HistoryRebuilt(ids, h, k, t);
  }

  lemma LeaderLogGrown(h: History, k: History, t: Term, e: RaftEntry)
    requires t in h.elected && t in h.leaderLog && LeaderLogOk(h, t) && e.term == t
    requires t in k.elected && k.elected[t] == h.elected[t] && t in k.leaderLog && k.leaderLog[t] == h.leaderLog[t] + [e]
    requires Rooted(k.leaderLog, k.leaderLog[t])
    ensures LeaderLogOk(k, t)
  {
    hide Rooted;
  }

  lemma ProposeStep(ids: set<NodeId>, h: History, n: Node, entry: RaftEntry, a: Action)
    requires HistoryOk(ids, h) && NodeOk(ids, h, n) && n.role == Leader
    ensures StepOk(ids, h, n, Propose(n, entry), a)
  {
    hide HistoryOk, Rooted, Grows, Record;
    var m := Propose(n, entry);
    ProposalRecorded(ids, h, n, m, m.log[|n.log|], a);
  }

  // ---- The steps of the cluster, one by one ----

  lemma VoteRequestStep(ids: set<NodeId>, h: History, n: Node, req: RequestVoteRequest, a: Action)
    requires HistoryOk(ids, h) && NodeOk(ids, h, n)
    requires MessageOk(h, VoteRequestMsg(req)) && req.candidateId != n.id
    ensures var (m, resp) := HandleRequestVote(n, req);
            var k := Record(h, n, m, a);
            StepOk(ids, h, n, m, a) && MessageOk(k, VoteResponseMsg(n.id, req, resp))
  {
    var (m, resp) := HandleRequestVote(n, req);
    HandleVoteShape(n, req);
    if n.role == Leader {
      assert ElectionOk(ids, h, n.term);
      assert n.votedFor == n.id;
    }
    if m == n {
      QuietStep(ids, h, n, m, a);
    } else {
      FollowerStep(ids, h, n, m, a);
    }
  }

  lemma VoteResponseStep(
    ids: set<NodeId>, h: History, n: Node, voter: NodeId, resp: RequestVoteResponse, a: Action)
    requires HistoryOk(ids, h) && NodeOk(ids, h, n)
    requires n.election.Some? && voter in n.peers && MessageOk(h, VoteResponseMsg(voter, n.election.value.request, resp))
    ensures var m := CountVote(n, voter, resp); StepOk(ids, h, n, m, a)
  {
    var m := CountVote(n, voter, resp);
    if resp.term > n.term {
      FollowerStep(ids, h, n, m, a);
    } else {
      QuietStep(ids, h, n, m, a);
    }
  }

  lemma EndElectionStep(rules: Rules, ids: set<NodeId>, h: History, n: Node, a: Action)
    requires HistoryOk(ids, h) && NodeOk(ids, h, n)
    requires n.election.Some? && rules.recheckCandidate
    ensures var m := FinishElection(rules, n); StepOk(ids, h, n, m, a)
  {
    var m := FinishElection(rules, n);
    assert |n.peers| + 1 == |ids|;
    if m.role == Leader {
      ElectionStep(ids, h, n, m, a);
    } else {
      QuietStep(ids, h, n, m, a);
    }
  }

  lemma StartElectionStep(ids: set<NodeId>, h: History, n: Node, a: Action)
    requires HistoryOk(ids, h) && NodeOk(ids, h, n)
    requires n.role == Candidate && Idle(n)
    ensures var m := BeginElection(n); var k := Record(h, n, m, a);
            StepOk(ids, h, n, m, a) && MessageOk(k, VoteRequestMsg(VoteRequest(n)))
  {
    var m := BeginElection(n);
    if n.peers == {} {
      assert ids == {n.id};
      ElectionStep(ids, h, n, m, a);
    } else {
      QuietStep(ids, h, n, m, a);
    }
  }

  /** Whoever sends, the entries are a piece of its own log. */
  lemma SendAppendStep(ids: set<NodeId>, h: History, n: Node, peer: NodeId, a: Action)
    requires HistoryOk(ids, h) && NodeOk(ids, h, n)
    requires n.broadcast.Some? && peer in n.nextIndex
    ensures var req := BuildAppend(n, peer);
            var m := n.(broadcast := Some(n.broadcast.value.(awaiting := Some(Call(peer, req)))));
            StepOk(ids, h, n, m, a) && RequestOk(Record(h, n, m, a), req)
  {
    var req := BuildAppend(n, peer);
    var m := n.(broadcast := Some(n.broadcast.value.(awaiting := Some(Call(peer, req)))));
    QuietStep(ids, h, n, m, a);
    var k := Record(h, n, m, a);
    if req.entries != [] {
      var end := req.prevLogIndex + |req.entries|;
      RootedPrefix(k.leaderLog, n.log, end);
      assert Carries(k, n.log[..end], req);
    }
  }

  lemma AppendRequestStep(rules: Rules, ids: set<NodeId>, h: History, n: Node, req: AppendEntriesRequest, a: Action)
    requires HistoryOk(ids, h) && NodeOk(ids, h, n) && RequestOk(h, req)
    ensures StepOk(ids, h, n, HandleAppendEntries(rules, n, req).0, a)
  {
    var m := HandleAppendEntries(rules, n, req).0;
    if req.term < n.term {
      QuietStep(ids, h, n, m, a);
    } else {
      HandleAppendShape(rules, n, req);
      if PrevMatches(n.log, req) && req.entries != [] {
        var source: Log :| Carries(h, source, req);
        StoreAgrees(h, rules, n.log, source, req);
      }
      FollowerStep(ids, h, n, m, a);
    }
  }

  lemma AppendResponseStep(rules: Rules, ids: set<NodeId>, h: History, n: Node, resp: AppendEntriesResponse, a: Action)
    requires HistoryOk(ids, h) && NodeOk(ids, h, n) && AwaitsResponse(n)
    ensures StepOk(ids, h, n, OnAppendResponse(rules, n, resp), a)
  {
    var m := OnAppendResponse(rules, n, resp);
    if resp.term > n.term {
      FollowerStep(ids, h, n, m, a);
    } else {
      QuietStep(ids, h, n, m, a);
    }
  }

  /** What has to be shown of an action. */
  ghost predicate ActionOk(rules: Rules, ids: set<NodeId>, network: set<Message>, h: History, n: Node, a: Action)
    requires Enabled(rules, network, n, a)
  {
    var (m, sent) := NodeStep(rules, network, n, a);
    && StepOk(ids, h, n, m, a)
    && forall msg :: msg in sent ==> MessageOk(Record(h, n, m, a), msg)
  }

  lemma ElectionAction(rules: Rules, ids: set<NodeId>, network: set<Message>, h: History, n: Node, a: Action)
    requires rules.recheckCandidate && HistoryOk(ids, h) && NodeOk(ids, h, n)
    requires forall msg :: msg in network ==> MessageOk(h, msg)
    requires Enabled(rules, network, n, a)
    requires a.ElectionTimeout? || a.StartElection? || a.ReceiveVoteRequest? || a.ReceiveVoteResponse? || a.EndElection?
    ensures ActionOk(rules, ids, network, h, n, a)
  {
    var (m, sent) := NodeStep(rules, network, n, a);
    match a
    case ElectionTimeout(_) => TimeoutStep(ids, h, n, a);
    case StartElection(_) => StartElectionStep(ids, h, n, a);
    case ReceiveVoteRequest(_, req) => VoteRequestStep(ids, h, n, req, a);
    case ReceiveVoteResponse(_, voter, resp) => VoteResponseStep(ids, h, n, voter, resp, a);
    case EndElection(_) => EndElectionStep(rules, ids, h, n, a);
  }

  lemma ReplicationAction(rules: Rules, ids: set<NodeId>, network: set<Message>, h: History, n: Node, a: Action)
    requires rules.recheckCandidate && HistoryOk(ids, h) && NodeOk(ids, h, n)
    requires forall msg :: msg in network ==> MessageOk(h, msg)
    requires Enabled(rules, network, n, a)
    requires a.SendAppend? || a.ReceiveAppendRequest? || a.ReceiveAppendResponse? || a.AppendCallFails?
    ensures ActionOk(rules, ids, network, h, n, a)
  {
    hide HandleAppendEntries, BuildAppend, Rooted, TermsAtMost, VotesOk, RoleOk, HistoryOk, NodeSpec.OnAppendResponse;
    var (m, sent) := NodeStep(rules, network, n, a);
    match a
    case SendAppend(_, peer) => SendAppendStep(ids, h, n, peer, a);
    case ReceiveAppendRequest(_, req) =>
      assert MessageOk(h, AppendRequestMsg(n.id, req));
      AppendRequestStep(rules, ids, h, n, req, a);
    case ReceiveAppendResponse(_, resp) => AppendResponseStep(rules, ids, h, n, resp, a);
    case AppendCallFails(_) => AppendResponseStep(rules, ids, h, n, NO_APPEND_RESPONSE, a);
  }

  lemma LocalAction(rules: Rules, ids: set<NodeId>, network: set<Message>, h: History, n: Node, a: Action)
    requires HistoryOk(ids, h) && NodeOk(ids, h, n)
    requires Enabled(rules, network, n, a)
    requires a.StartBroadcast? || a.EndBroadcast? || a.ClientPropose? || a.LeaderCommits? || a.Apply?
    ensures ActionOk(rules, ids, network, h, n, a)
  {
    var (m, sent) := NodeStep(rules, network, n, a);
    assert sent == {};
    if a.ClientPropose? && n.role == Leader {
      ProposeStep(ids, h, n, a.entry, a);
    } else {
      AdvanceCommitShape(rules, n);
      ApplyCommittedShape(n);
      QuietStep(ids, h, n, m, a);
    }
  }

  lemma EveryAction(rules: Rules, ids: set<NodeId>, network: set<Message>, h: History, n: Node, a: Action)
    requires rules.recheckCandidate && HistoryOk(ids, h) && NodeOk(ids, h, n)
    requires forall msg :: msg in network ==> MessageOk(h, msg)
    requires Enabled(rules, network, n, a)
    ensures ActionOk(rules, ids, network, h, n, a)
  {
    if a.ElectionTimeout? || a.StartElection? || a.ReceiveVoteRequest? || a.ReceiveVoteResponse? || a.EndElection? {
      ElectionAction(rules, ids, network, h, n, a);
    } else if a.SendAppend? || a.ReceiveAppendRequest? || a.ReceiveAppendResponse? || a.AppendCallFails? {
      ReplicationAction(rules, ids, network, h, n, a);
    } else {
      LocalAction(rules, ids, network, h, n, a);
    }
  }

  lemma ActionKeepsInvariant(ids: set<NodeId>, c: Cluster, h: History, n: Node, m: Node, a: Action, sent: set<Message>)
    requires Invariant(ids, c, h) && n.id in ids && n == c.nodes[n.id]
    requires StepOk(ids, h, n, m, a)
    requires forall msg :: msg in sent ==> MessageOk(Record(h, n, m, a), msg)
    ensures Invariant(ids, Cluster(c.nodes[n.id := m], c.network + sent), Record(h, n, m, a))
  {
    hide NodeOk, MessageOk, HistoryOk, Record, Grows, ValidMembers;
    var k := Record(h, n, m, a);
    forall id | id in ids && id != n.id
      ensures NodeOk(ids, k, c.nodes[id])
    {
      NodeStable(ids, h, k, c.nodes[id], n.id);
    }
    forall msg | msg in c.network
      ensures MessageOk(k, msg)
    {
      MessageStable(ids, h, k, msg, n.id);
    }
  }

  lemma StepKeepsInvariant(rules: Rules, ids: set<NodeId>, c: Cluster, h: History, a: Action)
    requires rules.recheckCandidate && Invariant(ids, c, h)
    ensures Invariant(ids, Next(rules, c, a), NextHistory(rules, c, h, a))
    ensures Grows(a.id, h, NextHistory(rules, c, h, a))
  {
    hide NodeStep, Enabled, NodeOk, MessageOk, HistoryOk, Record;
    if a.id in ids && Enabled(rules, c.network, c.nodes[a.id], a) {
      EveryAction(rules, ids, c.network, h, c.nodes[a.id], a);
      var (m, sent) := NodeStep(rules, c.network, c.nodes[a.id], a);
      ActionKeepsInvariant(ids, c, h, c.nodes[a.id], m, a, sent);
    }
  }

  lemma {:induction false} RunKeepsInvariant(rules: Rules, ids: set<NodeId>, actions: seq<Action>)
    requires rules.recheckCandidate && ValidMembers(ids)
    ensures Invariant(ids, Run(rules, ids, actions), RunHistory(rules, ids, actions))
  {
    if actions != [] {
      var before := actions[..|actions| - 1];
      RunKeepsInvariant(rules, ids, before);
      StepKeepsInvariant(rules, ids, Run(rules, ids, before), RunHistory(rules, ids, before), actions[|actions| - 1]);
    }
  }

  // ---- What holds between two moments of a run ----

  /** The later history still knows every election, and every leader's log as a prefix. */
  ghost predicate Since(h: History, k: History)
  {
    LogsExtend(h.leaderLog, k.leaderLog) && forall t :: t in h.elected ==> t in k.elected && k.elected[t] == h.elected[t]
  }

  lemma LogsExtendTransitive(a: map<Term, Log>, b: map<Term, Log>, c: map<Term, Log>)
    requires LogsExtend(a, b) && LogsExtend(b, c)
    ensures LogsExtend(a, c)
  {
    forall t | t in a
      ensures a[t] <= c[t] && forall i :: |a[t]| <= i < |c[t]| ==> c[t][i].term == t
    {
      assert a[t] <= b[t] && b[t] <= c[t];
      assert forall i :: 0 <= i < |b[t]| ==> c[t][i] == b[t][i];
    }
  }

  lemma {:induction false} HistorySince(rules: Rules, ids: set<NodeId>, actions: seq<Action>, i: nat)
    requires rules.recheckCandidate && ValidMembers(ids) && i <= |actions|
    ensures Since(RunHistory(rules, ids, actions[..i]), RunHistory(rules, ids, actions))
    decreases |actions|
  {
    if i < |actions| {
      var before := actions[..|actions| - 1];
      assert before[..i] == actions[..i];
      HistorySince(rules, ids, before, i);
      RunKeepsInvariant(rules, ids, before);
      StepKeepsInvariant(rules, ids, Run(rules, ids, before), RunHistory(rules, ids, before), actions[|actions| - 1]);
      LogsExtendTransitive(
        RunHistory(rules, ids, before[..i]).leaderLog, RunHistory(rules, ids, before).leaderLog,
        RunHistory(rules, ids, actions).leaderLog);
    } else {
      assert actions[..i] == actions;
    }
  }

  /** At any moment the node is sound with respect to the history of the whole run. */
  lemma AtOk(rules: Rules, ids: set<NodeId>, actions: seq<Action>, i: nat, id: NodeId)
    requires rules.recheckCandidate && ValidMembers(ids) && i <= |actions| && id in ids
    ensures var h := RunHistory(rules, ids, actions);
            var n := At(rules, ids, actions, i, id);
            && HistoryOk(ids, h)
            && n.id == id && Rooted(h.leaderLog, n.log) && TermsAtMost(n.log, n.term)
            && (n.role == Leader ==> n.term in h.elected && h.elected[n.term].leader == id && n.log <= h.leaderLog[n.term]
                                     && h.elected[n.term].log <= n.log)
  {
    var then_ := RunHistory(rules, ids, actions[..i]);
    RunKeepsInvariant(rules, ids, actions[..i]);
    RunKeepsInvariant(rules, ids, actions);
    HistorySince(rules, ids, actions, i);
    var n := At(rules, ids, actions, i, id);
    assert NodeOk(ids, then_, n);
    RootedStable(then_.leaderLog, RunHistory(rules, ids, actions).leaderLog, n.log);
    if n.role == Leader {
      assert LeaderLogOk(then_, n.term);
    }
  }

  /** Election Safety: a run has at most one leader per term, at any two moments. */
  lemma ElectionSafety(rules: Rules, ids: set<NodeId>, actions: seq<Action>, i: nat, a: NodeId, j: nat, b: NodeId)
    requires rules.recheckCandidate && ValidMembers(ids) && i <= |actions| && j <= |actions| && a in ids && b in ids
    requires At(rules, ids, actions, i, a).role == Leader && At(rules, ids, actions, j, b).role == Leader
    requires At(rules, ids, actions, i, a).term == At(rules, ids, actions, j, b).term
    ensures a == b
  {
    AtOk(rules, ids, actions, i, a);
    AtOk(rules, ids, actions, j, b);
  }

  /** Log Matching: two logs, at any two moments, that hold an entry of equal index and term are identical up to it. */
  lemma LogMatching(
    rules: Rules, ids: set<NodeId>, actions: seq<Action>, i: nat, a: NodeId, j: nat, b: NodeId, index: Index)
    requires rules.recheckCandidate && ValidMembers(ids) && i <= |actions| && j <= |actions| && a in ids && b in ids
    requires 1 <= index <= |At(rules, ids, actions, i, a).log| && index <= |At(rules, ids, actions, j, b).log|
    requires TermAt(At(rules, ids, actions, i, a).log, index) == TermAt(At(rules, ids, actions, j, b).log, index)
    ensures At(rules, ids, actions, i, a).log[..index] == At(rules, ids, actions, j, b).log[..index]
  {
    AtOk(rules, ids, actions, i, a);
    AtOk(rules, ids, actions, j, b);
    RootedAgree(RunHistory(rules, ids, actions).leaderLog,
                At(rules, ids, actions, i, a).log, At(rules, ids, actions, j, b).log, index);
  }
}
