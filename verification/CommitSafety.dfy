/**
 Leader Completeness and State Machine Safety (section 5.4 of the extended Raft paper) for every run of a cluster
 with all rules repaired.
 */
module CommitSafety {
  import opened Types
  import opened RaftLogs
  import opened Quorum
  import opened NodeSpec
  import opened Clusters
  import opened Histories
  import opened AllRules
  import opened LogSafety

  // ---- Chosen entries ----

  function Acceptors(ids: set<NodeId>, h: History, t: Term, k: Index): set<NodeId>
  {
    set v | v in ids && AcceptedBy(h, v, t) >= k
  }

  /** A majority has accepted the first `k` entries of the leader of `t`, and the last of them is its own. */
  ghost predicate Chosen(ids: set<NodeId>, h: History, t: Term, k: Index)
  {
    && t in h.leaderLog && 1 <= k <= |h.leaderLog[t]|
    && h.leaderLog[t][k - 1].term == t
    && |Acceptors(ids, h, t, k)| >= Majority(|ids|)
  }

  ghost predicate ChosenCovers(ids: set<NodeId>, h: History, t: Term, k: Index, log: Log)
  {
    Chosen(ids, h, t, k) && log <= h.leaderLog[t][..k]
  }

  /** `log` is part of what was chosen in some term up to `bound`. */
  ghost predicate Committed(ids: set<NodeId>, h: History, bound: Term, log: Log)
  {
    log == [] || exists t: Term, k: Index :: t <= bound && ChosenCovers(ids, h, t, k, log)
  }

  // ---- Where accepted entries may have been lost ----

  /** The leader of `s` does not have the first `k` entries of the leader of `t`. */
  ghost predicate Departs(h: History, t: Term, k: Index, s: Term)
    requires t in h.leaderLog && k <= |h.leaderLog[t]|
  {
    s in h.leaderLog && !(h.leaderLog[t][..k] <= h.leaderLog[s])
  }

  ghost predicate Lost(h: History, t: Term, k: Index, bound: int)
    requires t in h.leaderLog && k <= |h.leaderLog[t]|
  {
    exists s: Term :: t < s <= bound && Departs(h, t, k, s)
  }

  /** What a node accepted in term `t` it still has, unless a later leader departed from it. */
  ghost predicate Kept(h: History, id: NodeId, term: Term, log: Log, t: Term, k: Index)
  {
    1 <= k <= AcceptedBy(h, id, t) && t in h.leaderLog && k <= |h.leaderLog[t]| ==>
      t <= term && (h.leaderLog[t][..k] <= log || Lost(h, t, k, term))
  }

  /** What a voter of term `u` had accepted before, the candidate it voted for has too, with the same exception. */
  ghost predicate VoteKept(h: History, v: NodeId, u: Term, t: Term, k: Index)
    requires (v, u) in h.votes && (h.votes[(v, u)], u) in h.candidateLog
  {
    t < u && 1 <= k <= AcceptedBy(h, v, t) && t in h.leaderLog && k <= |h.leaderLog[t]| && h.leaderLog[t][k - 1].term == t ==>
      h.leaderLog[t][..k] <= h.candidateLog[(h.votes[(v, u)], u)] || Lost(h, t, k, u)
  }

  /** What a voter of the elected leader of `u` had accepted before, that leader started with, with the same exception. */
  ghost predicate ElectionKept(h: History, u: Term, v: NodeId, t: Term, k: Index)
    requires u in h.elected
  {
    v in h.elected[u].voters && t < u && 1 <= k <= AcceptedBy(h, v, t)
      && t in h.leaderLog && k <= |h.leaderLog[t]| && h.leaderLog[t][k - 1].term == t ==>
      h.leaderLog[t][..k] <= h.elected[u].log || Lost(h, t, k, u - 1)
  }

  ghost predicate ElectionsKeep(h: History)
  {
    forall u: Term, v: NodeId, t: Term, k: Index {:trigger ElectionKept(h, u, v, t, k)} :: u in h.elected ==> ElectionKept(h, u, v, t, k)
  }

  ghost predicate VotesKeep(h: History, v: NodeId)
  {
    && (forall u: Term {:trigger (v, u) in h.votes} :: (v, u) in h.votes ==> (h.votes[(v, u)], u) in h.candidateLog)
    && (forall u: Term, t: Term, k: Index {:trigger VoteKept(h, v, u, t, k)} :: (v, u) in h.votes ==> VoteKept(h, v, u, t, k))
  }

  ghost predicate CandidateOk(h: History, x: (NodeId, Term))
    requires x in h.candidateLog
  {
    Rooted(h.leaderLog, h.candidateLog[x]) && TermsAtMost(h.candidateLog[x], x.1)
  }

  /** Leader Completeness, term by term: what is chosen in `t` every later leader starts with. */
  lemma {:induction false} ChosenInLaterLeaders(ids: set<NodeId>, h: History, t: Term, k: Index, u: Term)
    requires HistoryOk(ids, h) && ElectionsKeep(h)
    requires Chosen(ids, h, t, k) && t < u && u in h.elected
    ensures h.leaderLog[t][..k] <= h.elected[u].log
    decreases u
  {
    assert ElectionOk(ids, h, u);
    var v := MajoritiesIntersect(ids, Acceptors(ids, h, t, k), h.elected[u].voters);
    assert ElectionKept(h, u, v, t, k);
    if Lost(h, t, k, u - 1) {
      var s: Term :| t < s <= u - 1 && Departs(h, t, k, s);
      assert LeaderLogOk(h, s);
      ChosenInLaterLeaders(ids, h, t, k, s);
    }
  }

  /** A committed log is a prefix of the log of every leader from its term on. */
  lemma CommittedInLeader(ids: set<NodeId>, h: History, bound: Term, log: Log, u: Term)
    requires HistoryOk(ids, h) && ElectionsKeep(h)
    requires Committed(ids, h, bound, log) && bound <= u && u in h.elected
    ensures log <= h.leaderLog[u]
  {
    if log != [] {
      var t: Term, k: Index :| t <= bound && ChosenCovers(ids, h, t, k, log);
      if t < u {
        ChosenInLaterLeaders(ids, h, t, k, u);
        assert LeaderLogOk(h, u);
      }
    }
  }

  /** Two committed logs never differ: one is a prefix of the other. */
  lemma CommittedAgree(ids: set<NodeId>, h: History, b1: Term, log1: Log, b2: Term, log2: Log)
    requires HistoryOk(ids, h) && ElectionsKeep(h)
    requires Committed(ids, h, b1, log1) && Committed(ids, h, b2, log2)
    ensures log1 <= log2 || log2 <= log1
  {
    if log1 != [] && log2 != [] {
      var t1: Term, k1: Index :| t1 <= b1 && ChosenCovers(ids, h, t1, k1, log1);
      var t2: Term, k2: Index :| t2 <= b2 && ChosenCovers(ids, h, t2, k2, log2);
      CommittedInLeader(ids, h, t1, log1, Max(t1, t2));
      CommittedInLeader(ids, h, t2, log2, Max(t1, t2));
    }
  }

  lemma CommittedPrefix(ids: set<NodeId>, h: History, bound: Term, bound': Term, log: Log, k: nat)
    requires Committed(ids, h, bound, log) && k <= |log| && bound <= bound'
    ensures Committed(ids, h, bound', log[..k])
  {
    if log[..k] != [] {
      var t: Term, j: Index :| t <= bound && ChosenCovers(ids, h, t, j, log);
      assert ChosenCovers(ids, h, t, j, log[..k]);
    }
  }

  // ---- Requests ----

  /** The request carries a piece of the log of its term's leader; a deposed node that goes on sending breaks this. */
  ghost predicate FromLeader(h: History, to: NodeId, req: AppendEntriesRequest)
  {
    && req.term in h.elected && req.leaderId == h.elected[req.term].leader && to != req.leaderId
    && req.term in h.leaderLog
    && var log := h.leaderLog[req.term];
       && req.prevLogIndex + |req.entries| <= |log|
       && req.entries == log[req.prevLogIndex..req.prevLogIndex + |req.entries|]
       && req.prevLogTerm == TermAt(log, req.prevLogIndex)
  }

  /** What an accepted request stands for: the leader's log up to its last entry. */
  function Carried(h: History, req: AppendEntriesRequest): Log
    requires req.term in h.leaderLog && req.prevLogIndex + |req.entries| <= |h.leaderLog[req.term]|
  {
    h.leaderLog[req.term][..req.prevLogIndex + |req.entries|]
  }

  lemma CarriedShape(ids: set<NodeId>, h: History, to: NodeId, req: AppendEntriesRequest)
    requires HistoryOk(ids, h) && FromLeader(h, to, req)
    ensures var carried := Carried(h, req);
            && |carried| == req.prevLogIndex + |req.entries| && carried <= h.leaderLog[req.term]
            && Carries(h, carried, req)
  {
    assert LeaderLogOk(h, req.term);
    RootedPrefix(h.leaderLog, h.leaderLog[req.term], req.prevLogIndex + |req.entries|);
  }

  lemma FromLeaderStable(h: History, k: History, to: NodeId, req: AppendEntriesRequest, id: NodeId)
    requires FromLeader(h, to, req) && Grows(id, h, k)
    ensures FromLeader(k, to, req)
  {
    var log, log' := h.leaderLog[req.term], k.leaderLog[req.term];
    assert log == log'[..|log|];
  }

  lemma CallStable(h: History, k: History, n: Node, id: NodeId)
    requires CallOk(h, n) && Grows(id, h, k)
    ensures CallOk(k, n)
  {
    hide FromLeader, Grows;
    if n.broadcast.Some? && n.broadcast.value.awaiting.Some? {
      var call := n.broadcast.value.awaiting.value;
      FromLeaderStable(h, k, call.peer, call.request, id);
    }
  }

  // ---- The invariant ----

  ghost predicate CommitOk(ids: set<NodeId>, h: History, n: Node)
  {
    && n.commit <= |n.log| && Committed(ids, h, n.term, n.log[..n.commit])
    && n.lastApplied <= n.commit && n.delivered == n.log[..n.lastApplied]
    && (n.broadcast.Some? ==> n.broadcast.value.commit <= n.commit)
  }

  ghost predicate MatchOk(h: History, n: Node)
  {
    n.role == Leader ==>
      && AcceptedBy(h, n.id, n.term) >= |n.log|
      && n.matchIndex.Keys <= n.peers + {n.id}
      && forall p :: p in n.matchIndex && p != n.id ==> n.matchIndex[p] <= AcceptedBy(h, p, n.term)
  }

  /** The request that the heartbeat loop waits for an answer to. */
  ghost predicate CallOk(h: History, n: Node)
  {
    n.broadcast.Some? && n.broadcast.value.awaiting.Some? ==>
      var call := n.broadcast.value.awaiting.value;
      call.peer in n.peers && FromLeader(h, call.peer, call.request)
  }

  ghost predicate NodeSafe(ids: set<NodeId>, h: History, n: Node)
  {
    && (forall t: Term, k: Index {:trigger Kept(h, n.id, n.term, n.log, t, k)} :: Kept(h, n.id, n.term, n.log, t, k))
    && VotesKeep(h, n.id)
    && CommitOk(ids, h, n)
    && MatchOk(h, n)
    && CallOk(h, n)
  }

  ghost predicate MessageSafe(ids: set<NodeId>, h: History, m: Message)
  {
    match m
    case AppendRequestMsg(to, req) =>
      && FromLeader(h, to, req) && req.leaderCommit <= |h.leaderLog[req.term]|
      && Committed(ids, h, req.term, h.leaderLog[req.term][..req.leaderCommit])
    case AppendResponseMsg(from, req, resp) =>
      resp.success ==> AcceptedBy(h, from, req.term) >= req.prevLogIndex + |req.entries|
    case _ => true
  }

  /** Nobody accepts more of a leader's log than there is. */
  ghost predicate AcceptedBounded(h: History)
  {
    forall v: NodeId, t: Term {:trigger AcceptedBy(h, v, t)} ::
      AcceptedBy(h, v, t) >= 1 ==> t in h.leaderLog && AcceptedBy(h, v, t) <= |h.leaderLog[t]|
  }

  ghost predicate HistorySafe(h: History)
  {
    && AcceptedBounded(h)
    && ElectionsKeep(h)
    && forall x {:trigger CandidateOk(h, x)} :: x in h.candidateLog ==> CandidateOk(h, x)
  }

  ghost predicate NodesSafe(ids: set<NodeId>, h: History, nodes: map<NodeId, Node>)
    requires nodes.Keys == ids
  {
    forall id {:trigger nodes[id]} :: id in ids ==> NodeSafe(ids, h, nodes[id])
  }

  ghost predicate MessagesSafe(ids: set<NodeId>, h: History, network: set<Message>)
  {
    forall m {:trigger MessageSafe(ids, h, m)} :: m in network ==> MessageSafe(ids, h, m)
  }

  ghost predicate Safe(ids: set<NodeId>, c: Cluster, h: History)
  {
    Sound(ids, c) && Invariant(ids, c, h) && HistorySafe(h) && NodesSafe(ids, h, c.nodes) && MessagesSafe(ids, h, c.network)
  }

  // ---- Stability ----

  /** Only what node `id` has accepted in term `term` may grow. */
  ghost predicate AcceptsMore(id: NodeId, term: Term, h: History, k: History)
  {
    forall v: NodeId, t: Term {:trigger AcceptedBy(k, v, t)} ::
      AcceptedBy(k, v, t) >= AcceptedBy(h, v, t) && ((v, t) != (id, term) ==> AcceptedBy(k, v, t) == AcceptedBy(h, v, t))
  }

  /** Entries of term `s` appended to a log do not make it an extension of an older log that it was not. */
  lemma OlderPrefix(older: Log, old_: Log, new_: Log, s: Term)
    requires old_ <= new_ && forall i :: |old_| <= i < |new_| ==> new_[i].term == s
    requires forall i :: 0 <= i < |older| ==> older[i].term < s
    ensures older <= new_ ==> older <= old_
  {
    if |older| > |old_| && |new_| > |old_| {
      assert older[|old_|].term < s && new_[|old_|].term == s;
    }
    assert older <= new_ && |older| <= |old_| ==> older == new_[..|older|] == old_[..|older|];
  }

  lemma LostStable(ids: set<NodeId>, h: History, k: History, t: Term, i: Index, bound: int)
    requires HistoryOk(ids, h) && LogsExtend(h.leaderLog, k.leaderLog)
    requires t in h.leaderLog && i <= |h.leaderLog[t]| && Lost(h, t, i, bound)
    ensures Lost(k, t, i, bound)
  {
    var s: Term :| t < s <= bound && Departs(h, t, i, s);
    assert LeaderLogOk(h, t);
    assert k.leaderLog[t][..i] == h.leaderLog[t][..i];
    OlderPrefix(h.leaderLog[t][..i], h.leaderLog[s], k.leaderLog[s], s);
    assert Departs(k, t, i, s);
  }

  lemma CommittedStable(ids: set<NodeId>, h: History, k: History, bound: Term, log: Log, id: NodeId, term: Term)
    requires LogsExtend(h.leaderLog, k.leaderLog) && AcceptsMore(id, term, h, k)
    requires Committed(ids, h, bound, log)
    ensures Committed(ids, k, bound, log)
  {
    if log != [] {
      var t: Term, i: Index :| t <= bound && ChosenCovers(ids, h, t, i, log);
      assert k.leaderLog[t][..i] == h.leaderLog[t][..i];
      SubsetSize(Acceptors(ids, h, t, i), Acceptors(ids, k, t, i));
      assert ChosenCovers(ids, k, t, i, log);
    }
  }

  /** The part of a step that all lemmas below rely on. */
  ghost predicate Steps(ids: set<NodeId>, h: History, k: History, n: Node, m: Node)
  {
    && HistoryOk(ids, h) && HistorySafe(h)
    && Grows(n.id, h, k) && AcceptsMore(n.id, m.term, h, k)
    && n.term <= m.term && m.id == n.id
    && (forall t :: (n.id, t) in h.votes ==> t <= n.term)
  }

  /** Elections held before the step: their voters cannot accept anything older than the election any more. */
  lemma ElectionsCarry(ids: set<NodeId>, h: History, k: History, n: Node, m: Node, u: Term)
    requires Steps(ids, h, k, n, m) && u in h.elected
    ensures forall v: NodeId, t: Term, i: Index {:trigger ElectionKept(k, u, v, t, i)} :: ElectionKept(k, u, v, t, i)
  {
    assert ElectionOk(ids, h, u);
    forall v: NodeId, t: Term, i: Index
      ensures ElectionKept(k, u, v, t, i)
    {
      if v in h.elected[u].voters && t < u && 1 <= i <= AcceptedBy(k, v, t) {
        assert AcceptedBy(k, v, t) == AcceptedBy(h, v, t);
        assert ElectionKept(h, u, v, t, i);
        assert k.leaderLog[t][..i] == h.leaderLog[t][..i];
        if Lost(h, t, i, u - 1) {
          LostStable(ids, h, k, t, i, u - 1);
        }
      }
    }
  }

  /** Votes cast before the step, by the node that acts or by another one. */
  lemma VotesCarry(ids: set<NodeId>, h: History, k: History, n: Node, m: Node, v: NodeId, u: Term)
    requires Steps(ids, h, k, n, m) && (v, u) in h.votes && VotesKeep(h, v)
    ensures (k.votes[(v, u)], u) in k.candidateLog
    ensures forall t: Term, i: Index {:trigger VoteKept(k, v, u, t, i)} :: VoteKept(k, v, u, t, i)
  {
    forall t: Term, i: Index
      ensures VoteKept(k, v, u, t, i)
    {
      if t < u && 1 <= i <= AcceptedBy(k, v, t) {
        assert AcceptedBy(k, v, t) == AcceptedBy(h, v, t);
        assert VoteKept(h, v, u, t, i);
        assert k.leaderLog[t][..i] == h.leaderLog[t][..i];
        if Lost(h, t, i, u) {
          LostStable(ids, h, k, t, i, u);
        }
      }
    }
  }

  /** What a node had accepted before the step it keeps if its log stays. */
  lemma KeptCarry(ids: set<NodeId>, h: History, k: History, n: Node, m: Node, v: NodeId, term: Term, term': Term, log: Log, t: Term, i: Index)
    requires Steps(ids, h, k, n, m) && term <= term'
    requires i <= AcceptedBy(h, v, t) && Kept(h, v, term, log, t, i)
    ensures Kept(k, v, term', log, t, i)
  {
    if 1 <= i {
      assert k.leaderLog[t][..i] == h.leaderLog[t][..i];
      if Lost(h, t, i, term) {
        LostStable(ids, h, k, t, i, term);
      }
    }
  }

  /** A node that does not act. */
  lemma OtherNodeSafe(ids: set<NodeId>, h: History, k: History, n: Node, m: Node, p: Node)
    requires Steps(ids, h, k, n, m) && NodeSafe(ids, h, p) && p.id != n.id
    ensures NodeSafe(ids, k, p)
  {
    forall t: Term, i: Index
      ensures Kept(k, p.id, p.term, p.log, t, i)
    {
      if 1 <= i <= AcceptedBy(k, p.id, t) {
        assert AcceptedBy(k, p.id, t) == AcceptedBy(h, p.id, t);
        KeptCarry(ids, h, k, n, m, p.id, p.term, p.term, p.log, t, i);
      }
    }
    forall u: Term | (p.id, u) in k.votes
      ensures (k.votes[(p.id, u)], u) in k.candidateLog
      ensures forall t: Term, i: Index {:trigger VoteKept(k, p.id, u, t, i)} :: VoteKept(k, p.id, u, t, i)
    {
      VotesCarry(ids, h, k, n, m, p.id, u);
    }
    CommittedStable(ids, h, k, p.term, p.log[..p.commit], n.id, m.term);
    CallStable(h, k, p, n.id);
    if p.role == Leader {
      forall q | q in p.matchIndex && q != p.id
        ensures p.matchIndex[q] <= AcceptedBy(k, q, p.term)
      {
        assert AcceptedBy(k, q, p.term) >= AcceptedBy(h, q, p.term);
      }
      assert AcceptedBy(k, p.id, p.term) >= AcceptedBy(h, p.id, p.term);
    }
  }

  lemma OtherMessageSafe(ids: set<NodeId>, h: History, k: History, n: Node, m: Node, msg: Message)
    requires Steps(ids, h, k, n, m) && MessageSafe(ids, h, msg)
    ensures MessageSafe(ids, k, msg)
  {
    if msg.AppendRequestMsg? {
      var req := msg.appendRequest;
      FromLeaderStable(h, k, msg.to, req, n.id);
      CommittedStable(ids, h, k, req.term, h.leaderLog[req.term][..req.leaderCommit], n.id, m.term);
      assert k.leaderLog[req.term][..req.leaderCommit] == h.leaderLog[req.term][..req.leaderCommit];
    } else if msg.AppendResponseMsg? {
      assert AcceptedBy(k, msg.from, msg.appendRequest.term) >= AcceptedBy(h, msg.from, msg.appendRequest.term);
    }
  }

  // ---- The node that acts ----

  ghost predicate StepSafe(ids: set<NodeId>, h: History, n: Node, m: Node, a: Action)
  {
    var k := Record(h, n, m, a);
    HistorySafe(k) && NodeSafe(ids, k, m)
  }

  /** Before a step: the invariants of the histories and of the node. */
  ghost predicate Before(ids: set<NodeId>, h: History, n: Node)
  {
    HistoryOk(ids, h) && HistorySafe(h) && NodeOk(ids, h, n) && NodeSafe(ids, h, n)
  }

  lemma RecordAccepts(h: History, n: Node, m: Node, a: Action)
    requires m.id == n.id
    ensures AcceptsMore(n.id, m.term, h, Record(h, n, m, a))
    ensures AcceptedBy(Record(h, n, m, a), n.id, m.term) == Max(AcceptedBy(h, n.id, m.term), Confirmed(m, a))
  {
  }

  /** The histories after a step. */
  lemma HistoryCarry(ids: set<NodeId>, h: History, n: Node, m: Node, a: Action)
    requires Before(ids, h, n) && StepOk(ids, h, n, m, a)
    requires n.term <= m.term
    requires var k := Record(h, n, m, a);
             forall u: Term, v: NodeId, t: Term, i: Index {:trigger ElectionKept(k, u, v, t, i)} ::
               u in k.elected && u !in h.elected ==> ElectionKept(k, u, v, t, i)
    requires m.role == Candidate ==> m.log == n.log
    requires var k := Record(h, n, m, a);
             Confirmed(m, a) >= 1 ==> m.term in k.leaderLog && Confirmed(m, a) <= |k.leaderLog[m.term]|
    ensures HistorySafe(Record(h, n, m, a))
    ensures Steps(ids, h, Record(h, n, m, a), n, m)
  {
    var k := Record(h, n, m, a);
    RecordAccepts(h, n, m, a);
    forall v: NodeId, t: Term | AcceptedBy(k, v, t) >= 1
      ensures t in k.leaderLog && AcceptedBy(k, v, t) <= |k.leaderLog[t]|
    {
      assert AcceptedBy(h, v, t) >= 1 ==> t in h.leaderLog && AcceptedBy(h, v, t) <= |h.leaderLog[t]|;
    }
    forall u: Term, v: NodeId, t: Term, i: Index | u in k.elected
      ensures ElectionKept(k, u, v, t, i)
    {
      if u in h.elected {
        ElectionsCarry(ids, h, k, n, m, u);
      }
    }
    forall x | x in k.candidateLog
      ensures CandidateOk(k, x)
    {
      if x in h.candidateLog && k.candidateLog[x] == h.candidateLog[x] {
        assert CandidateOk(h, x);
        RootedStable(h.leaderLog, k.leaderLog, h.candidateLog[x]);
      } else {
        RootedStable(h.leaderLog, k.leaderLog, n.log);
      }
    }
  }

  /** What is committed stays so while the log at most grows and the term does not drop. */
  lemma CommitStays(ids: set<NodeId>, h: History, k: History, n: Node, m: Node)
    requires CommitOk(ids, h, n) && LogsExtend(h.leaderLog, k.leaderLog) && AcceptsMore(n.id, m.term, h, k)
    requires n.term <= m.term && n.log <= m.log && (m.broadcast == None || m.broadcast == n.broadcast)
    requires m.commit == n.commit && m.lastApplied == n.lastApplied && m.delivered == n.delivered
    ensures CommitOk(ids, k, m)
  {
    hide Committed;
    var committed := n.log[..n.commit];
    CommittedStable(ids, h, k, n.term, committed, n.id, m.term);
    CommittedPrefix(ids, k, n.term, m.term, committed, n.commit);
    assert m.log[..m.commit] == committed == committed[..n.commit];
  }

  /** Term and log stay; commit index, application, worker variables and leader's tables may change. */
  lemma QuietSafe(ids: set<NodeId>, h: History, n: Node, m: Node, a: Action)
    requires Before(ids, h, n) && StepOk(ids, h, n, m, a)
    requires m.term == n.term && m.log == n.log && m.votedFor == n.votedFor && m.role == n.role
    requires a.ReceiveAppendRequest? ==> Confirmed(m, a) == 0 || m.role == Leader
    requires CommitOk(ids, h, m) && MatchOk(h, m) && CallOk(h, m)
    ensures StepSafe(ids, h, n, m, a)
  {
    hide Rooted, TermsAtMost, CountOk, Committed, FromLeader, AcceptedBounded, ElectionsKeep, CandidateOk, Lost, HistoryOk;
    var k := Record(h, n, m, a);
    HistoryCarry(ids, h, n, m, a);
    RecordAccepts(h, n, m, a);
    ActorVotes(ids, h, k, n, m);
    forall t: Term, i: Index
      ensures Kept(k, m.id, m.term, m.log, t, i)
    {
      if i <= AcceptedBy(h, n.id, t) {
        KeptCarry(ids, h, k, n, m, n.id, n.term, m.term, m.log, t, i);
      } else {
        assert t == m.term ==> AcceptedBy(k, n.id, t) == AcceptedBy(h, n.id, t);
      }
    }
    CommittedStable(ids, h, k, m.term, m.log[..m.commit], n.id, m.term);
    CallStable(h, k, m, n.id);
    if m.role == Leader {
      forall q | q in m.matchIndex && q != m.id
        ensures m.matchIndex[q] <= AcceptedBy(k, q, m.term)
      {
        assert AcceptedBy(k, q, m.term) >= AcceptedBy(h, q, m.term);
      }
    }
  }

  /** The votes of the acting node when it casts no new one. */
  lemma ActorVotes(ids: set<NodeId>, h: History, k: History, n: Node, m: Node)
    requires Steps(ids, h, k, n, m) && VotesKeep(h, n.id)
    requires forall u :: (n.id, u) in k.votes ==> (n.id, u) in h.votes
    ensures VotesKeep(k, n.id)
  {
    forall u: Term | (n.id, u) in k.votes
      ensures (k.votes[(n.id, u)], u) in k.candidateLog
      ensures forall t: Term, i: Index {:trigger VoteKept(k, n.id, u, t, i)} :: VoteKept(k, n.id, u, t, i)
    {
      VotesCarry(ids, h, k, n, m, n.id, u);
    }
  }

  /** The log stays, the term may rise and a vote may be cast. */
  lemma TermSafe(ids: set<NodeId>, h: History, n: Node, m: Node, a: Action)
    requires Before(ids, h, n) && StepOk(ids, h, n, m, a)
    requires n.term <= m.term && m.log == n.log && m.role != Leader && Confirmed(m, a) == 0
    requires m.commit == n.commit && m.lastApplied == n.lastApplied && m.delivered == n.delivered
    requires m.broadcast == None || m.broadcast == n.broadcast
    requires var k := Record(h, n, m, a);
             (n.id, m.term) in k.votes && (n.id, m.term) !in h.votes ==>
               && (k.votes[(n.id, m.term)], m.term) in k.candidateLog
               && forall t: Term, i: Index {:trigger VoteKept(k, n.id, m.term, t, i)} :: VoteKept(k, n.id, m.term, t, i)
    ensures StepSafe(ids, h, n, m, a)
  {
    hide Rooted, TermsAtMost, CountOk, Committed, FromLeader, AcceptedBounded, ElectionsKeep, CandidateOk, Lost, HistoryOk;
    var k := Record(h, n, m, a);
    HistoryCarry(ids, h, n, m, a);
    RecordAccepts(h, n, m, a);
    forall u: Term | (n.id, u) in k.votes
      ensures (k.votes[(n.id, u)], u) in k.candidateLog
      ensures forall t: Term, i: Index {:trigger VoteKept(k, n.id, u, t, i)} :: VoteKept(k, n.id, u, t, i)
    {
      if (n.id, u) in h.votes {
        VotesCarry(ids, h, k, n, m, n.id, u);
      }
    }
    forall t: Term, i: Index
      ensures Kept(k, m.id, m.term, m.log, t, i)
    {
      if i <= AcceptedBy(h, n.id, t) {
        KeptCarry(ids, h, k, n, m, n.id, n.term, m.term, m.log, t, i);
      } else {
        assert AcceptedBy(k, n.id, t) == AcceptedBy(h, n.id, t);
      }
    }
    CallStable(h, k, n, n.id);
    CommitStays(ids, h, k, n, m);
  }

  lemma LowerTermEarlier(ids: set<NodeId>, h: History, log: Log, i: Index, j: Index)
    requires HistoryOk(ids, h) && Rooted(h.leaderLog, log) && 1 <= i <= |log| && 1 <= j <= |log|
    requires log[i - 1].term < log[j - 1].term
    ensures i <= j
  {
    if j < i {
      RootedSorted(ids, h, log, j - 1, i - 1);
    }
  }

  /** An up-to-date candidate has what the voter has, unless a later leader departed from it (section 5.4.1). */
  lemma UpToDateKeeps(ids: set<NodeId>, h: History, mine: Log, theirs: Log, u: Term, t: Term, i: Index)
    requires HistoryOk(ids, h) && Rooted(h.leaderLog, mine) && Rooted(h.leaderLog, theirs) && TermsAtMost(theirs, u)
    requires t in h.leaderLog && 1 <= i <= |h.leaderLog[t]| && h.leaderLog[t][i - 1].term == t
    requires h.leaderLog[t][..i] <= mine
    requires LastTerm(theirs) > LastTerm(mine) || (LastTerm(theirs) == LastTerm(mine) && |theirs| >= |mine|)
    ensures h.leaderLog[t][..i] <= theirs || Lost(h, t, i, u)
  {
    assert mine[i - 1] == h.leaderLog[t][i - 1];
    RootedSorted(ids, h, mine, i - 1, |mine| - 1);
    var s := LastTerm(theirs);
    assert RootedAt(h.leaderLog, theirs, |theirs| - 1) && theirs[..|theirs| - 1 + 1] == theirs;
    assert theirs <= h.leaderLog[s];
    if s == LastTerm(mine) {
      assert RootedAt(h.leaderLog, mine, |mine| - 1) && mine[..|mine| - 1 + 1] == mine;
    } else if h.leaderLog[t][..i] <= h.leaderLog[s] {
      assert LeaderLogOk(h, s);
      assert h.leaderLog[s][i - 1].term == t;
      LowerTermEarlier(ids, h, h.leaderLog[s], i, |theirs|);
    } else {
      assert Departs(h, t, i, s);
    }
  }

  lemma VoteRequestSafe(ids: set<NodeId>, h: History, n: Node, req: RequestVoteRequest, a: Action)
    requires Before(ids, h, n) && MessageOk(h, VoteRequestMsg(req)) && req.candidateId != n.id
    requires a.ReceiveVoteRequest? && StepOk(ids, h, n, HandleRequestVote(n, req).0, a)
    ensures StepSafe(ids, h, n, HandleRequestVote(n, req).0, a)
  {
    hide Rooted, TermsAtMost, CountOk, Kept, Committed, FromLeader, LogUpToDate, AcceptedBounded, ElectionsKeep, CandidateOk;
    var m := HandleRequestVote(n, req).0;
    HandleVoteShape(n, req);
    if m == n {
      QuietSafe(ids, h, n, m, a);
    } else {
      if n.role == Leader {
        assert ElectionOk(ids, h, n.term);
        assert n.votedFor == n.id;
      }
      var k := Record(h, n, m, a);
      if (n.id, m.term) in k.votes && (n.id, m.term) !in h.votes {
        HistoryCarry(ids, h, n, m, a);
        forall t: Term, i: Index
          ensures VoteKept(k, n.id, m.term, t, i)
        {
          NewVoteKept(ids, h, n, m, a, req, t, i);
        }
      }
      TermSafe(ids, h, n, m, a);
    }
  }

  lemma NewVoteKept(
    ids: set<NodeId>, h: History, n: Node, m: Node, a: Action, req: RequestVoteRequest, t: Term, i: Index)
    requires Before(ids, h, n) && MessageOk(h, VoteRequestMsg(req))
    requires n.term <= m.term == req.term && m.votedFor == req.candidateId && LogUpToDate(req, n.log)
    requires Confirmed(m, a) == 0 && Steps(ids, h, Record(h, n, m, a), n, m)
    requires Record(h, n, m, a).leaderLog == h.leaderLog && Record(h, n, m, a).candidateLog == h.candidateLog
    ensures VoteKept(Record(h, n, m, a), n.id, m.term, t, i)
  {
    var k := Record(h, n, m, a);
    RecordAccepts(h, n, m, a);
    if t < m.term && 1 <= i <= AcceptedBy(k, n.id, t) && t in h.leaderLog && i <= |h.leaderLog[t]| && h.leaderLog[t][i - 1].term == t {
      assert AcceptedBy(k, n.id, t) == AcceptedBy(h, n.id, t);
      assert Kept(h, n.id, n.term, n.log, t, i);
      var x := (req.candidateId, req.term);
      assert CandidateOk(h, x);
      if h.leaderLog[t][..i] <= n.log {
        UpToDateKeeps(ids, h, n.log, h.candidateLog[x], m.term, t, i);
      }
      assert h.leaderLog[t][..i] <= h.candidateLog[x] || Lost(h, t, i, m.term);
      if Lost(h, t, i, m.term) {
        LostStable(ids, h, k, t, i, m.term);
      }
    }
  }

  lemma TimeoutSafe(ids: set<NodeId>, h: History, n: Node, a: Action)
    requires Before(ids, h, n) && Idle(n) && !a.ReceiveAppendRequest?
    requires StepOk(ids, h, n, BecomeCandidate(n), a)
    ensures StepSafe(ids, h, n, BecomeCandidate(n), a)
  {
    var m := BecomeCandidate(n);
    var k := Record(h, n, m, a);
    HistoryCarry(ids, h, n, m, a);
    RecordAccepts(h, n, m, a);
    forall t: Term, i: Index
      ensures VoteKept(k, n.id, m.term, t, i)
    {
      if t < m.term && 1 <= i <= AcceptedBy(k, n.id, t) && t in k.leaderLog && i <= |k.leaderLog[t]| {
        assert AcceptedBy(k, n.id, t) == AcceptedBy(h, n.id, t);
        assert Kept(h, n.id, n.term, n.log, t, i);
        KeptCarry(ids, h, k, n, m, n.id, n.term, m.term, n.log, t, i);
      }
    }
    TermSafe(ids, h, n, m, a);
  }

  lemma LeaderKeeps(ids: set<NodeId>, h: History, k: History, n: Node, m: Node, t: Term, i: Index)
    requires Steps(ids, h, k, n, m) && n.term == m.term && n.log <= m.log
    requires Kept(h, n.id, n.term, n.log, t, i)
    requires m.term in k.leaderLog && k.leaderLog[m.term] == m.log
    ensures Kept(k, m.id, m.term, m.log, t, i)
  {
    if t != m.term && i <= AcceptedBy(k, n.id, t) {
      assert AcceptedBy(k, n.id, t) == AcceptedBy(h, n.id, t);
      KeptCarry(ids, h, k, n, m, n.id, n.term, m.term, n.log, t, i);
    }
  }

  lemma MatchStays(h: History, k: History, m: Node)
    requires m.role == Leader && AcceptsMore(m.id, m.term, h, k) && AcceptedBy(k, m.id, m.term) >= |m.log|
    requires m.matchIndex.Keys <= m.peers + {m.id}
    requires forall p :: p in m.matchIndex && p != m.id ==> m.matchIndex[p] <= AcceptedBy(h, p, m.term)
    ensures MatchOk(k, m)
  {
    forall q | q in m.matchIndex && q != m.id
      ensures m.matchIndex[q] <= AcceptedBy(k, q, m.term)
    {
      assert AcceptedBy(k, q, m.term) >= AcceptedBy(h, q, m.term);
    }
  }

  /** The node is or becomes leader and its log is at most extended; commit index and application stay. */
  lemma LeaderSafe(ids: set<NodeId>, h: History, n: Node, m: Node, a: Action)
    requires Before(ids, h, n) && StepOk(ids, h, n, m, a) && !a.ReceiveAppendRequest?
    requires m.role == Leader && m.term == n.term && m.votedFor == n.votedFor && n.log <= m.log
    requires m.commit == n.commit && m.lastApplied == n.lastApplied && m.delivered == n.delivered
    requires m.broadcast == n.broadcast
    requires m.matchIndex.Keys <= m.peers + {m.id}
    requires forall p :: p in m.matchIndex && p != m.id ==> m.matchIndex[p] <= AcceptedBy(h, p, m.term)
    requires var k := Record(h, n, m, a);
             forall u: Term, v: NodeId, t: Term, i: Index {:trigger ElectionKept(k, u, v, t, i)} ::
               u in k.elected && u !in h.elected ==> ElectionKept(k, u, v, t, i)
    ensures StepSafe(ids, h, n, m, a)
  {
    hide HistorySafe, HistoryOk, CountOk, TermsAtMost, Kept, Committed, CommitOk, FromLeader, Rooted, LogsExtend, MatchOk, VotesKeep;
    var k := Record(h, n, m, a);
    HistoryCarry(ids, h, n, m, a);
    RecordAccepts(h, n, m, a);
    ActorVotes(ids, h, k, n, m);
    forall t: Term, i: Index
      ensures Kept(k, m.id, m.term, m.log, t, i)
    {
      LeaderKeeps(ids, h, k, n, m, t, i);
    }
    CommitStays(ids, h, k, n, m);
    CallStable(h, k, n, n.id);
    MatchStays(h, k, m);
  }

  lemma ProposeSafe(ids: set<NodeId>, h: History, n: Node, a: Action)
    requires a.ClientPropose? && n.role == Leader
    requires Before(ids, h, n) && StepOk(ids, h, n, Propose(n, a.entry), a)
    ensures StepSafe(ids, h, n, Propose(n, a.entry), a)
  {
    LeaderSafe(ids, h, n, Propose(n, a.entry), a);
  }

  /** The election of a term whose voters all keep what they voted on. */
  lemma ElectSafe(ids: set<NodeId>, h: History, n: Node, m: Node, a: Action)
    requires a.StartElection? || a.EndElection?
    requires Before(ids, h, n) && StepOk(ids, h, n, m, a)
    requires n.role == Candidate && m == BecomeLeader(n.(election := None))
    requires n.election.Some? ==> n.election.value.request.term == n.term
    requires |VotesOf(n)| + 1 >= Majority(|ids|)
    requires forall v {:trigger VotesKeep(h, v)} :: v in {n.id} + VotesOf(n) ==> VotesKeep(h, v)
    ensures StepSafe(ids, h, n, m, a)
  {
    Electable(ids, h, n);
    var k, u := Record(h, n, m, a), n.term;
    RecordAccepts(h, n, m, a);
    assert k.elected == h.elected[u := Elected(n.id, n.log, {n.id} + VotesOf(n))] && k.leaderLog == h.leaderLog[u := n.log];
    forall v: NodeId, t: Term, i: Index
      ensures ElectionKept(k, u, v, t, i)
    {
      NewElectionKept(ids, h, k, n, v, t, i);
    }
    LeaderSafe(ids, h, n, m, a);
  }

  lemma NewElectionKept(ids: set<NodeId>, h: History, k: History, n: Node, v: NodeId, t: Term, i: Index)
    requires HistoryOk(ids, h) && n.term !in h.elected && RoleOk(h, n) && n.role == Candidate
    requires forall v {:trigger VotesKeep(h, v)} :: v in {n.id} + VotesOf(n) ==> VotesKeep(h, v)
    requires forall v :: v in {n.id} + VotesOf(n) ==> (v, n.term) in h.votes && h.votes[(v, n.term)] == n.id
    requires AcceptsMore(n.id, n.term, h, k)
    requires k.elected == h.elected[n.term := Elected(n.id, n.log, {n.id} + VotesOf(n))]
    requires k.leaderLog == h.leaderLog[n.term := n.log]
    ensures ElectionKept(k, n.term, v, t, i)
  {
    var u := n.term;
    if v in {n.id} + VotesOf(n) && t < u && 1 <= i <= AcceptedBy(k, v, t) && t in h.leaderLog {
      assert AcceptedBy(k, v, t) == AcceptedBy(h, v, t);
      assert VotesKeep(h, v) && VoteKept(h, v, u, t, i);
      if i <= |h.leaderLog[t]| && Lost(h, t, i, u) {
        var s: Term :| t < s <= u && Departs(h, t, i, s);
        assert s <= u - 1;
        assert Lost(h, t, i, u - 1);
        LostStable(ids, h, k, t, i, u - 1);
      }
    }
  }

  lemma OneMore(s: set<NodeId>, x: NodeId)
    requires x !in s
    ensures |{x} + s| == 1 + |s|
  {
    assert {x} + s - {x} == s;
  }

  /** Whoever the leader counts for an index of its own term has accepted it. */
  lemma CountedAccept(ids: set<NodeId>, h: History, n: Node, i: Index, v: NodeId)
    requires NodeOk(ids, h, n) && NodeSafe(ids, h, n) && n.role == Leader && i <= |n.log|
    requires v == n.id || v in Reached(n.matchIndex, Counted(REPAIRED, n), i)
    ensures v in Acceptors(ids, h, n.term, i)
  {
    hide Rooted, VotesOk, TermsAtMost, CountOk, RoleOk, Kept, VotesKeep, CommitOk;
  }

  /** What a pick says about the nodes counted besides the leader. */
  lemma PickedByMajority(n: Node, i: Index)
    requires Picks(REPAIRED, n, i) && i <= |n.log|
    ensures n.id !in Reached(n.matchIndex, Counted(REPAIRED, n), i)
    ensures 1 + |Reached(n.matchIndex, Counted(REPAIRED, n), i)| >= Majority(|n.peers| + 1)
  {
  }

  lemma MembersCounted(ids: set<NodeId>, h: History, n: Node)
    requires NodeOk(ids, h, n)
    ensures |ids| == 1 + |n.peers|
  {
    OneMore(n.peers, n.id);
    assert {n.id} + n.peers == ids;
  }

  /** Enough of the counted nodes are among those that have accepted the entry. */
  lemma MajorityAccepts(others: set<NodeId>, id: NodeId, acceptors: set<NodeId>)
    requires id !in others && {id} + others <= acceptors
    ensures |acceptors| >= 1 + |others|
  {
    OneMore(others, id);
    SubsetSize({id} + others, acceptors);
  }

  /** A quorum index is chosen if it carries an entry of the leader's own term. */
  lemma QuorumIsChosen(ids: set<NodeId>, h: History, n: Node, i: Index)
    requires NodeOk(ids, h, n) && NodeSafe(ids, h, n) && n.role == Leader
    requires Picks(REPAIRED, n, i) && i >= 1 && TermAt(n.log, i) == n.term && n.term >= 1
    ensures Chosen(ids, h, n.term, i)
  {
    var others, acceptors := Reached(n.matchIndex, Counted(REPAIRED, n), i), Acceptors(ids, h, n.term, i);
    PickedByMajority(n, i);
    MembersCounted(ids, h, n);
    hide Picks, Reached, Counted, Acceptors, Rooted, VotesOk, TermsAtMost, CountOk, NodeSafe;
    forall v | v in {n.id} + others
      ensures v in acceptors
    {
      CountedAccept(ids, h, n, i, v);
    }
    MajorityAccepts(others, n.id, acceptors);
  }

  lemma AdvanceSafe(ids: set<NodeId>, h: History, n: Node, a: Action)
    requires a.LeaderCommits?
    requires Before(ids, h, n) && StepOk(ids, h, n, AdvanceCommit(REPAIRED, n), a)
    ensures StepSafe(ids, h, n, AdvanceCommit(REPAIRED, n), a)
    ensures n.commit <= AdvanceCommit(REPAIRED, n).commit <= |n.log|
  {
    var m := AdvanceCommit(REPAIRED, n);
    AdvanceCommitShape(REPAIRED, n);
    if m.commit != n.commit {
      assert n.term in h.leaderLog;
      QuorumIsChosen(ids, h, n, m.commit);
      assert ChosenCovers(ids, h, n.term, m.commit, n.log[..m.commit]);
    }
    QuietSafe(ids, h, n, m, a);
  }

  lemma ApplySafe(ids: set<NodeId>, h: History, n: Node, a: Action)
    requires a.Apply? && Before(ids, h, n) && StepOk(ids, h, n, ApplyCommitted(n), a)
    ensures StepSafe(ids, h, n, ApplyCommitted(n), a)
  {
    ApplyCommittedShape(n);
    ApplyDelivers(n);
    QuietSafe(ids, h, n, ApplyCommitted(n), a);
  }

  /** Application hands over exactly the entries between the old and the new `last_applied_`. */
  lemma ApplyDelivers(n: Node)
    requires n.lastApplied <= n.commit <= |n.log| && n.delivered == n.log[..n.lastApplied]
    ensures ApplyCommitted(n).lastApplied == n.commit && ApplyCommitted(n).delivered == n.log[..n.commit]
  {
  }

  // ---- A follower stores entries ----

  /** What storing a request loses, the leader of its term does not have. */
  lemma StoreLoses(ids: set<NodeId>, h: History, log: Log, to: NodeId, req: AppendEntriesRequest, part: Log)
    requires HistoryOk(ids, h) && Rooted(h.leaderLog, log) && FromLeader(h, to, req) && PrevMatches(log, req)
    requires part <= log && part <= h.leaderLog[req.term]
    ensures part <= Store(REPAIRED, log, req.entries)
    ensures Carried(h, req) <= part ==> Store(REPAIRED, log, req.entries) == log
  {
    var carried := Carried(h, req);
    CarriedShape(ids, h, to, req);
    var at := StoreKeeps(h, REPAIRED, log, carried, req);
    KeptPart(log, h.leaderLog[req.term], carried, Store(REPAIRED, log, req.entries), part, at);
  }

  /** A common prefix of log and leader stays, whatever of the log is given up at its first conflict with `carried`. */
  lemma KeptPart(log: Log, leaders: Log, carried: Log, stored: Log, part: Log, at: nat)
    requires carried <= leaders && part <= log && part <= leaders
    requires at <= |log| && at <= |carried| && log[..at] == carried[..at]
    requires at == |carried| ==> stored == log
    requires at < |carried| ==> stored == carried && (at < |log| ==> log[at].term != carried[at].term)
    ensures part <= stored && (carried <= part ==> stored == log)
  {
    if at < |carried| {
      if at < |log| {
        assert carried[at] == leaders[at];
      }
      assert |part| <= at;
      assert part == leaders[..|part|] == carried[..|part|];
    }
  }

  /** Everything the node had accepted it still has, or the leader of the request departed from it. */
  lemma AppendKeeps(
    ids: set<NodeId>, h: History, n: Node, m: Node, a: Action, req: AppendEntriesRequest, t: Term, i: Index)
    requires Before(ids, h, n) && FromLeader(h, n.id, req)
    requires n.term <= req.term == m.term && PrevMatches(n.log, req) && m.id == n.id
    requires m.log == Store(REPAIRED, n.log, req.entries) && Carried(h, req) <= m.log
    requires Confirmed(m, a) == |Carried(h, req)|
    requires Record(h, n, m, a).leaderLog == h.leaderLog
    ensures Kept(Record(h, n, m, a), n.id, m.term, m.log, t, i)
  {
    var k := Record(h, n, m, a);
    RecordAccepts(h, n, m, a);
    if 1 <= i <= AcceptedBy(k, n.id, t) && t in h.leaderLog && i <= |h.leaderLog[t]| {
      var part := h.leaderLog[t][..i];
      if t == m.term && i <= |Carried(h, req)| {
        assert part <= Carried(h, req);
      } else {
        assert i <= AcceptedBy(h, n.id, t);
        assert Kept(h, n.id, n.term, n.log, t, i);
        if part <= n.log {
          if part <= h.leaderLog[m.term] {
            StoreLoses(ids, h, n.log, n.id, req, part);
          } else {
            assert Departs(k, t, i, m.term);
          }
        } else {
          var s: Term :| t < s <= n.term && Departs(h, t, i, s);
          assert Departs(k, t, i, s);
        }
      }
    }
  }

  /** The log and the records after an accepted request. */
  lemma AcceptedShape(ids: set<NodeId>, h: History, n: Node, req: AppendEntriesRequest, a: Action)
    requires a == ReceiveAppendRequest(n.id, req)
    requires Before(ids, h, n) && FromLeader(h, n.id, req) && req.term >= n.term && PrevMatches(n.log, req)
    ensures var m := HandleAppendEntries(REPAIRED, n, req).0;
            && m.log == Store(REPAIRED, n.log, req.entries) && Carried(h, req) <= m.log && Confirmed(m, a) == |Carried(h, req)|
            && Record(h, n, m, a).leaderLog == h.leaderLog && Record(h, n, m, a).elected == h.elected
  {
    hide HandleAppendEntries, Store;
    var m := HandleAppendEntries(REPAIRED, n, req).0;
    var carried := Carried(h, req);
    HandleAppendShape(REPAIRED, n, req);
    CarriedShape(ids, h, n.id, req);
    StoreAgrees(h, REPAIRED, n.log, carried, req);
    assert PrevMatches(m.log, req) by {
      assert req.prevLogIndex > 0 ==> m.log[req.prevLogIndex - 1] == carried[req.prevLogIndex - 1];
    }
  }

  lemma AcceptedAppendSafe(ids: set<NodeId>, h: History, n: Node, req: AppendEntriesRequest, a: Action)
    requires a == ReceiveAppendRequest(n.id, req)
    requires Before(ids, h, n) && MessageSafe(ids, h, AppendRequestMsg(n.id, req))
    requires req.term >= n.term && PrevMatches(n.log, req)
    requires StepOk(ids, h, n, HandleAppendEntries(REPAIRED, n, req).0, a)
    ensures var m := HandleAppendEntries(REPAIRED, n, req).0;
            StepSafe(ids, h, n, m, a) && n.commit <= m.commit && n.log[..n.commit] <= m.log
            && AcceptedBy(Record(h, n, m, a), n.id, req.term) >= req.prevLogIndex + |req.entries|
  {
    hide Lost, Kept, FollowerCommit, HandleAppendEntries, Store, Confirmed, Carried, PrevMatches, AcceptedBounded, ElectionsKeep, HistoryOk,
      Rooted, TermsAtMost, RoleOk, CountOk, Committed, LogsExtend, VotesKeep;
    var m := HandleAppendEntries(REPAIRED, n, req).0;
    var k := Record(h, n, m, a);
    HandleAppendShape(REPAIRED, n, req);
    HandleAppendCommits(REPAIRED, n, req);
    AcceptedShape(ids, h, n, req, a);
    CarriedShape(ids, h, n.id, req);
    HistoryCarry(ids, h, n, m, a);
    RecordAccepts(h, n, m, a);
    ActorVotes(ids, h, k, n, m);
    forall t: Term, i: Index
      ensures Kept(k, m.id, m.term, m.log, t, i)
    {
      AppendKeeps(ids, h, n, m, a, req, t, i);
    }
    CommittedInLeader(ids, h, n.term, n.log[..n.commit], req.term);
    StoreLoses(ids, h, n.log, n.id, req, n.log[..n.commit]);
    AppendCommitOk(ids, h, n, m, req);
    CommittedStable(ids, h, k, m.term, m.log[..m.commit], n.id, m.term);
    CallStable(h, k, n, n.id);
  }

  /** The commit index after an accepted request stays within what is committed, and nothing committed is lost. */
  lemma AppendCommitOk(ids: set<NodeId>, h: History, n: Node, m: Node, req: AppendEntriesRequest)
    requires CommitOk(ids, h, n) && MessageSafe(ids, h, AppendRequestMsg(n.id, req))
    requires n.term <= req.term == m.term && req.prevLogIndex + |req.entries| <= |h.leaderLog[req.term]|
    requires Commits(REPAIRED, n, m, req) && m.broadcast == n.broadcast
    requires Carried(h, req) <= m.log && n.log[..n.commit] <= m.log
    ensures CommitOk(ids, h, m) && n.commit <= m.commit
  {
    var leaders := h.leaderLog[req.term];
    assert n.log[..n.commit][..n.lastApplied] == n.log[..n.lastApplied];
    assert m.log[..n.commit] == n.log[..n.commit];
    assert m.log[..n.lastApplied] == n.log[..n.lastApplied];
    if m.commit > n.commit {
      assert m.log[..m.commit] == Carried(h, req)[..m.commit] == leaders[..req.leaderCommit][..m.commit];
      CommittedPrefix(ids, h, req.term, req.term, leaders[..req.leaderCommit], m.commit);
    } else {
      CommittedPrefix(ids, h, n.term, m.term, n.log[..n.commit], n.commit);
    }
  }

  lemma AppendRequestSafe(ids: set<NodeId>, h: History, n: Node, req: AppendEntriesRequest, a: Action)
    requires a == ReceiveAppendRequest(n.id, req)
    requires Before(ids, h, n) && MessageSafe(ids, h, AppendRequestMsg(n.id, req))
    requires StepOk(ids, h, n, HandleAppendEntries(REPAIRED, n, req).0, a)
    ensures var (m, resp) := HandleAppendEntries(REPAIRED, n, req);
            StepSafe(ids, h, n, m, a) && MessageSafe(ids, Record(h, n, m, a), AppendResponseMsg(n.id, req, resp))
  {
    var (m, resp) := HandleAppendEntries(REPAIRED, n, req);
    if req.term < n.term {
      QuietSafe(ids, h, n, m, a);
    } else if PrevMatches(n.log, req) {
      AcceptedAppendSafe(ids, h, n, req, a);
    } else {
      HandleAppendRejects(REPAIRED, n, req);
      HandleAppendShape(REPAIRED, n, req);
      RejectedAppendSafe(ids, h, n, m, req, a);
    }
  }

  lemma RejectedAppendSafe(
    ids: set<NodeId>, h: History, n: Node, m: Node, req: AppendEntriesRequest, a: Action)
    requires a == ReceiveAppendRequest(n.id, req)
    requires Before(ids, h, n) && !PrevMatches(n.log, req) && StepOk(ids, h, n, m, a)
    requires m == n.(term := m.term, votedFor := m.votedFor, role := Follower, leaderId := m.leaderId) && n.term <= m.term
    requires m.votedFor == (if m.term > n.term then NO_NODE else n.votedFor)
    ensures StepSafe(ids, h, n, m, a)
  {
    assert Confirmed(m, a) == 0;
    TermSafe(ids, h, n, m, a);
  }

  // ---- The leader hears back ----

  /** What the response says about the awaited peer. */
  ghost predicate ResponseSafe(h: History, n: Node, resp: AppendEntriesResponse)
    requires AwaitsResponse(n)
  {
    var call := n.broadcast.value.awaiting.value;
    resp.success ==> AcceptedBy(h, call.peer, call.request.term) >= call.request.prevLogIndex + |call.request.entries|
  }

  /** The leader credits the peer with no more than it has accepted. */
  lemma CreditIsAccepted(ids: set<NodeId>, h: History, n: Node, resp: AppendEntriesResponse)
    requires HistoryOk(ids, h) && NodeOk(ids, h, n) && NodeSafe(ids, h, n) && NodeSound(n) && AwaitsResponse(n)
    requires ResponseSafe(h, n, resp) && resp.term <= n.term
    ensures MatchOk(h, OnAppendResponse(REPAIRED, n, resp))
  {
    hide TermsAtMost, VotesOk, CountOk, Kept, VotesKeep, CommitOk, Committed, Ordered;
    var req := n.broadcast.value.awaiting.value.request;
    if req.entries != [] {
      assert LeaderLogOk(h, req.term);
      assert req.entries[|req.entries| - 1] == h.leaderLog[req.term][req.prevLogIndex + |req.entries| - 1];
    }
  }

  lemma OnResponseShape(rules: Rules, n: Node, resp: AppendEntriesResponse)
    requires AwaitsResponse(n)
    ensures var m := OnAppendResponse(rules, n, resp);
            if resp.term > n.term then m == BecomeFollower(n, resp.term).(broadcast := None)
            else m == n.(broadcast := Some(Broadcast(n.broadcast.value.commit, None)), matchIndex := m.matchIndex, nextIndex := m.nextIndex)
  {
  }

  lemma AppendResponseSafe(
    ids: set<NodeId>, h: History, n: Node, resp: AppendEntriesResponse, a: Action)
    requires Before(ids, h, n) && NodeSound(n) && AwaitsResponse(n) && !a.ReceiveAppendRequest?
    requires ResponseSafe(h, n, resp)
    requires StepOk(ids, h, n, OnAppendResponse(REPAIRED, n, resp), a)
    ensures StepSafe(ids, h, n, OnAppendResponse(REPAIRED, n, resp), a)
  {
    OnResponseShape(REPAIRED, n, resp);
    if resp.term > n.term {
      TermSafe(ids, h, n, OnAppendResponse(REPAIRED, n, resp), a);
    } else {
      CreditIsAccepted(ids, h, n, resp);
      QuietSafe(ids, h, n, OnAppendResponse(REPAIRED, n, resp), a);
    }
  }

  lemma BuiltFromLeader(ids: set<NodeId>, h: History, n: Node, peer: NodeId)
    requires NodeOk(ids, h, n) && NodeSound(n)
    requires n.role == Leader && n.broadcast.Some? && peer in n.peers && peer in n.nextIndex
    ensures FromLeader(h, peer, BuildAppend(n, peer))
    ensures BuildAppend(n, peer).term == n.term && BuildAppend(n, peer).leaderCommit == n.broadcast.value.commit
  {
    assert n.nextIndex[peer] <= |n.log| + 1;
  }

  lemma SendAppendSafe(ids: set<NodeId>, h: History, n: Node, m: Node, peer: NodeId, a: Action)
    requires Before(ids, h, n) && NodeSound(n) && !a.ReceiveAppendRequest?
    requires n.role == Leader && n.broadcast.Some? && peer in n.peers && peer in n.nextIndex
    requires m == n.(broadcast := Some(n.broadcast.value.(awaiting := Some(Call(peer, BuildAppend(n, peer))))))
    requires StepOk(ids, h, n, m, a)
    ensures StepSafe(ids, h, n, m, a) && MessageSafe(ids, Record(h, n, m, a), AppendRequestMsg(peer, BuildAppend(n, peer)))
  {
    hide Kept, Lost, BuildAppend, FromLeader, HistorySafe, HistoryOk, Rooted, TermsAtMost, VotesOk, CountOk, VotesKeep, Committed, NodeSound;
    var req := BuildAppend(n, peer);
    var k := Record(h, n, m, a);
    BuiltFromLeader(ids, h, n, peer);
    QuietSafe(ids, h, n, m, a);
    FromLeaderStable(h, k, peer, req, n.id);
    SnapshotCommitted(ids, k, n, m, req);
  }

  /** The commit index that a leader sends is committed in its own log. */
  lemma SnapshotCommitted(ids: set<NodeId>, k: History, n: Node, m: Node, req: AppendEntriesRequest)
    requires CommitOk(ids, k, m) && m.log == n.log && m.term == n.term && req.term == n.term && req.leaderCommit <= m.commit
    requires n.term in k.leaderLog && k.leaderLog[n.term] == n.log
    ensures req.leaderCommit <= |k.leaderLog[req.term]| && Committed(ids, k, req.term, k.leaderLog[req.term][..req.leaderCommit])
  {
    assert n.log[..m.commit][..req.leaderCommit] == n.log[..req.leaderCommit];
    CommittedPrefix(ids, k, n.term, n.term, n.log[..m.commit], req.leaderCommit);
  }

  // ---- Elections ----

  lemma VoteResponseSafe(
    ids: set<NodeId>, h: History, n: Node, voter: NodeId, resp: RequestVoteResponse, a: Action)
    requires Before(ids, h, n) && n.election.Some? && a.ReceiveVoteResponse?
    requires StepOk(ids, h, n, CountVote(n, voter, resp), a)
    ensures StepSafe(ids, h, n, CountVote(n, voter, resp), a)
  {
    if resp.term > n.term {
      TermSafe(ids, h, n, CountVote(n, voter, resp), a);
    } else {
      QuietSafe(ids, h, n, CountVote(n, voter, resp), a);
    }
  }

  lemma EndElectionSafe(ids: set<NodeId>, h: History, n: Node, a: Action)
    requires Before(ids, h, n) && n.election.Some? && a.EndElection?
    requires forall v {:trigger VotesKeep(h, v)} :: v in ids ==> VotesKeep(h, v)
    requires StepOk(ids, h, n, FinishElection(REPAIRED, n), a)
    ensures StepSafe(ids, h, n, FinishElection(REPAIRED, n), a)
  {
    hide HistorySafe, HistoryOk, Rooted, TermsAtMost, VotesOk, Kept, VotesKeep, Committed, FromLeader, StepSafe, StepOk;
    var m := FinishElection(REPAIRED, n);
    assert |n.peers| + 1 == |ids|;
    if m.role == Leader {
      ElectSafe(ids, h, n, m, a);
    } else {
      QuietSafe(ids, h, n, m, a);
    }
  }

  lemma StartElectionSafe(ids: set<NodeId>, h: History, n: Node, a: Action)
    requires Before(ids, h, n) && n.role == Candidate && Idle(n) && a.StartElection?
    requires StepOk(ids, h, n, BeginElection(n), a)
    ensures StepSafe(ids, h, n, BeginElection(n), a)
  {
    if n.peers == {} {
      assert ids == {n.id};
      ElectSafe(ids, h, n, BeginElection(n), a);
    } else {
      QuietSafe(ids, h, n, BeginElection(n), a);
    }
  }

  // ---- Every action ----

  ghost predicate ActionSafe(rules: Rules, ids: set<NodeId>, network: set<Message>, h: History, n: Node, a: Action)
    requires Enabled(rules, network, n, a)
  {
    var (m, sent) := NodeStep(rules, network, n, a);
    && StepSafe(ids, h, n, m, a)
    && forall msg {:trigger msg in sent} :: msg in sent ==> MessageSafe(ids, Record(h, n, m, a), msg)
  }

  /** What is known of the cluster when node `n` takes action `a`. */
  ghost predicate Ready(rules: Rules, ids: set<NodeId>, network: set<Message>, h: History, n: Node, a: Action)
  {
    && rules == REPAIRED && Before(ids, h, n) && NodeSound(n) && a.id == n.id
    && (forall v {:trigger VotesKeep(h, v)} :: v in ids ==> VotesKeep(h, v))
    && (forall msg {:trigger MessageOk(h, msg)} :: msg in network ==> MessageOk(h, msg))
    && (forall msg {:trigger MessageSafe(ids, h, msg)} :: msg in network ==> MessageSafe(ids, h, msg))
    && Enabled(rules, network, n, a)
    && ActionOk(rules, ids, network, h, n, a)
  }

  lemma ElectionActionSafe(rules: Rules, ids: set<NodeId>, network: set<Message>, h: History, n: Node, a: Action)
    requires Ready(rules, ids, network, h, n, a)
    requires a.ElectionTimeout? || a.StartElection? || a.ReceiveVoteRequest?
    ensures ActionSafe(rules, ids, network, h, n, a)
  {
    hide NodeOk, NodeSafe, HistorySafe, HistoryOk, NodeSound, StepOk, StepSafe;
    var (m, sent) := NodeStep(rules, network, n, a);
    if a.ElectionTimeout? {
      TimeoutSafe(ids, h, n, a);
    } else if a.StartElection? {
      StartElectionSafe(ids, h, n, a);
    } else {
      assert MessageOk(h, VoteRequestMsg(a.voteRequest));
      VoteRequestSafe(ids, h, n, a.voteRequest, a);
    }
  }

  lemma VoteCountActionSafe(rules: Rules, ids: set<NodeId>, network: set<Message>, h: History, n: Node, a: Action)
    requires Ready(rules, ids, network, h, n, a)
    requires a.ReceiveVoteResponse? || a.EndElection?
    ensures ActionSafe(rules, ids, network, h, n, a)
  {
    hide NodeOk, NodeSafe, HistorySafe, HistoryOk, NodeSound, StepOk, StepSafe;
    if a.EndElection? {
      EndElectionSafe(ids, h, n, a);
    } else {
      VoteResponseSafe(ids, h, n, a.voter, a.voteResponse, a);
    }
  }

  lemma AppendActionSafe(rules: Rules, ids: set<NodeId>, network: set<Message>, h: History, n: Node, a: Action)
    requires Ready(rules, ids, network, h, n, a)
    requires a.SendAppend? || a.ReceiveAppendRequest?
    ensures ActionSafe(rules, ids, network, h, n, a)
  {
    hide HandleAppendEntries, BuildAppend, NodeOk, NodeSafe, HistorySafe, HistoryOk, NodeSound, StepOk, StepSafe;
    var (m, sent) := NodeStep(rules, network, n, a);
    if a.SendAppend? {
      SendAppendSafe(ids, h, n, m, a.peer, a);
    } else {
      var msg := AppendRequestMsg(n.id, a.appendRequest);
      assert MessageSafe(ids, h, msg);
      AppendRequestSafe(ids, h, n, a.appendRequest, a);
    }
  }

  lemma AppendResponseActionSafe(rules: Rules, ids: set<NodeId>, network: set<Message>, h: History, n: Node, a: Action)
    requires Ready(rules, ids, network, h, n, a)
    requires a.ReceiveAppendResponse? || a.AppendCallFails?
    ensures ActionSafe(rules, ids, network, h, n, a)
  {
    hide NodeOk, NodeSafe, HistorySafe, HistoryOk, NodeSound, StepOk, StepSafe;
    var call := n.broadcast.value.awaiting.value;
    if a.ReceiveAppendResponse? {
      assert MessageSafe(ids, h, AppendResponseMsg(call.peer, call.request, a.appendResponse));
      AppendResponseSafe(ids, h, n, a.appendResponse, a);
    } else {
      AppendResponseSafe(ids, h, n, NO_APPEND_RESPONSE, a);
    }
  }

  lemma ProposeActionSafe(rules: Rules, ids: set<NodeId>, network: set<Message>, h: History, n: Node, a: Action)
    requires Ready(rules, ids, network, h, n, a) && a.ClientPropose?
    ensures ActionSafe(rules, ids, network, h, n, a)
  {
    hide NodeOk, HistorySafe, HistoryOk, NodeSound, StepOk, StepSafe, VotesKeep, Kept, Committed, FromLeader;
    assert NodeStep(rules, network, n, a) == (Propose(n, a.entry), {});
    assert StepOk(ids, h, n, Propose(n, a.entry), a);
    if n.role == Leader {
      ProposeSafe(ids, h, n, a);
    } else {
      QuietSafe(ids, h, n, n, a);
    }
  }

  lemma CommitActionSafe(rules: Rules, ids: set<NodeId>, network: set<Message>, h: History, n: Node, a: Action)
    requires Ready(rules, ids, network, h, n, a) && a.LeaderCommits?
    ensures ActionSafe(rules, ids, network, h, n, a)
  {
    hide NodeOk, NodeSafe, HistorySafe, HistoryOk, NodeSound, StepOk, StepSafe;
    assert NodeStep(rules, network, n, a) == (AdvanceCommit(rules, n), {});
    assert StepOk(ids, h, n, AdvanceCommit(rules, n), a);
    AdvanceSafe(ids, h, n, a);
  }

  lemma ApplyActionSafe(rules: Rules, ids: set<NodeId>, network: set<Message>, h: History, n: Node, a: Action)
    requires Ready(rules, ids, network, h, n, a) && a.Apply?
    ensures ActionSafe(rules, ids, network, h, n, a)
  {
    hide NodeOk, NodeSafe, HistorySafe, HistoryOk, NodeSound, StepOk, StepSafe;
    assert NodeStep(rules, network, n, a) == (ApplyCommitted(n), {});
    assert StepOk(ids, h, n, ApplyCommitted(n), a);
    ApplySafe(ids, h, n, a);
  }

  lemma BroadcastActionSafe(rules: Rules, ids: set<NodeId>, network: set<Message>, h: History, n: Node, a: Action)
    requires Ready(rules, ids, network, h, n, a)
    requires a.StartBroadcast? || a.EndBroadcast?
    ensures ActionSafe(rules, ids, network, h, n, a)
  {
    hide NodeOk, HistorySafe, HistoryOk, NodeSound, StepOk, StepSafe, VotesKeep, Kept, Committed, FromLeader;
    QuietSafe(ids, h, n, NodeStep(rules, network, n, a).0, a);
  }

  lemma EveryActionSafe(rules: Rules, ids: set<NodeId>, network: set<Message>, h: History, n: Node, a: Action)
    requires Ready(rules, ids, network, h, n, a)
    ensures ActionSafe(rules, ids, network, h, n, a)
  {
    hide Ready, ActionSafe, Enabled;
    if a.ElectionTimeout? || a.StartElection? || a.ReceiveVoteRequest? {
      ElectionActionSafe(rules, ids, network, h, n, a);
    } else if a.ReceiveVoteResponse? || a.EndElection? {
      VoteCountActionSafe(rules, ids, network, h, n, a);
    } else if a.SendAppend? || a.ReceiveAppendRequest? {
      AppendActionSafe(rules, ids, network, h, n, a);
    } else if a.ReceiveAppendResponse? || a.AppendCallFails? {
      AppendResponseActionSafe(rules, ids, network, h, n, a);
    } else if a.StartBroadcast? || a.EndBroadcast? {
      BroadcastActionSafe(rules, ids, network, h, n, a);
    } else if a.ClientPropose? {
      ProposeActionSafe(rules, ids, network, h, n, a);
    } else if a.LeaderCommits? {
      CommitActionSafe(rules, ids, network, h, n, a);
    } else {
      ApplyActionSafe(rules, ids, network, h, n, a);
    }
  }
}
