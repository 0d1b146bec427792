/**
 What each handler of a Raft node does to the node's state (src/raft/raft.cpp), as functions on values.

 Five places of the code fall short of the protocol. Every function that contains one takes a `Rules` value
 saying which version of that place is meant; `AS_WRITTEN` is the code itself and `REPAIRED` the protocol.
 */
module NodeSpec {
  import opened Types
  import opened RaftLogs
  import opened Quorum

  datatype Rules = Rules(
    /** Before `BecomeLeader`, check that the node is still a candidate in the term it asked votes for (raft.cpp:173). */
    recheckCandidate: bool,
    /** Before each send of the heartbeat loop, check that the node is still the leader (raft.cpp:184-206). */
    recheckLeader: bool,
    /** Count the leader once: by its own log, not also by the entry of `match_index_` it keeps for itself (raft.cpp:267-271). */
    countOnce: bool,
    /** Credit a successful empty heartbeat with no more than its `prev_log_index` (raft.cpp:227). */
    clampHeartbeat: bool,
    /** Truncate only at a conflicting entry, and move the commit index no further than the last new entry (raft.cpp:593-601). */
    keepSuffix: bool)

  const AS_WRITTEN := Rules(false, false, false, false, false)
  const REPAIRED := Rules(true, true, true, true, true)

  datatype Role = Follower | Candidate | Leader

  /** The local variables of a running `StartElection`: the snapshot it sends and who has granted a vote. */
  datatype Election = Election(request: RequestVoteRequest, votes: set<NodeId>)

  /** The local variables of a running `BroadcastHeartbeat`: the commit snapshot and the call it waits for. */
  datatype Broadcast = Broadcast(commit: Index, awaiting: Option<Call>)

  datatype Call = Call(peer: NodeId, request: AppendEntriesRequest)

  /** `next_index_` values never reach 0. */
  type NextIndex = i: Index | i >= 1 witness 1

  datatype Node = Node(
    id: NodeId,
    peers: set<NodeId>,
    term: Term,
    votedFor: NodeId,
    log: seq<RaftEntry>,
    commit: Index,
    lastApplied: Index,
    /** All batches given to `ready_handler_` so far, in order. */
    delivered: seq<RaftEntry>,
    role: Role,
    leaderId: NodeId,
    nextIndex: map<NodeId, NextIndex>,
    matchIndex: map<NodeId, Index>,
    election: Option<Election>,
    broadcast: Option<Broadcast>)

  function InitialNode(id: NodeId, peers: set<NodeId>): Node
  {
    Node(id, peers, 0, NO_NODE, [], 0, 0, [], Follower, NO_NODE, map[], map[], None, None)
  }

  /** The worker thread is between two rounds of its loop. */
  predicate Idle(n: Node)
  {
    n.election == None && n.broadcast == None
  }

  // ---- Role changes ----

  function BecomeFollower(n: Node, term: Term): Node
  {
    if term > n.term then n.(term := term, votedFor := NO_NODE, role := Follower) else n.(role := Follower)
  }

  function BecomeCandidate(n: Node): Node
  {
    n.(role := Candidate, term := n.term + 1, votedFor := n.id, leaderId := NO_NODE)
  }

  /** A table with the same value for every key. */
  ghost function Table<T>(keys: set<NodeId>, value: T): (m: map<NodeId, T>)
    ensures m.Keys == keys && forall p :: p in keys ==> m[p] == value
  {
    if keys == {} then map[]
    else
      var p :| p in keys;
      Table(keys - {p}, value)[p := value]
  }

  ghost function BecomeLeader(n: Node): Node
  {
    n.(role := Leader,
       leaderId := n.id,
       nextIndex := Table(n.peers, |n.log| + 1),
       matchIndex := Table(n.peers, 0))
  }

  // ---- Elections ----

  function VoteRequest(n: Node): RequestVoteRequest
  {
    RequestVoteRequest(n.term, n.id, |n.log|, LastTerm(n.log))
  }

  /** The part of `StartElection` before the first call. */
  ghost function BeginElection(n: Node): Node
  {
    if n.peers == {} then BecomeLeader(n) else n.(election := Some(Election(VoteRequest(n), {})))
  }

  /** One turn of the vote loop, with the response of `peer`. */
  function CountVote(n: Node, peer: NodeId, resp: RequestVoteResponse): Node
    requires n.election.Some?
  {
    if resp.term > n.term then BecomeFollower(n, resp.term).(election := None)
    else if resp.voteGranted then n.(election := Some(n.election.value.(votes := n.election.value.votes + {peer})))
    else n
  }

  /** The end of `StartElection`. */
  ghost function FinishElection(rules: Rules, n: Node): Node
    requires n.election.Some?
  {
    var e := n.election.value;
    var done := n.(election := None);
    if |e.votes| + 1 >= Majority(|n.peers| + 1) && (rules.recheckCandidate ==> n.role == Candidate && n.term == e.request.term)
    then BecomeLeader(done)
    else done
  }

  predicate LogUpToDate(req: RequestVoteRequest, log: seq<RaftEntry>)
  {
    req.lastLogTerm > LastTerm(log) || (req.lastLogTerm == LastTerm(log) && req.lastLogIndex >= |log|)
  }

  function HandleRequestVote(n: Node, req: RequestVoteRequest): (Node, RequestVoteResponse)
  {
    if req.term < n.term then (n, RequestVoteResponse(n.term, false))
    else
      var m := if req.term > n.term then BecomeFollower(n, req.term) else n;
      if (m.votedFor == NO_NODE || m.votedFor == req.candidateId) && LogUpToDate(req, m.log)
      then (m.(votedFor := req.candidateId), RequestVoteResponse(req.term, true))
      else (m, RequestVoteResponse(req.term, false))
  }

  // ---- Replication: the leader's side ----

  const MAX_ENTRIES_PER_MESSAGE: nat := 128

  /** The request one turn of the heartbeat loop sends to `peer`. */
  function BuildAppend(n: Node, peer: NodeId): AppendEntriesRequest
    requires n.broadcast.Some? && peer in n.nextIndex
  {
    var next: Index := n.nextIndex[peer];
    var prev := next - 1;
    var from := Min(prev, |n.log|);
    AppendEntriesRequest(
      n.term, n.id, prev, TermAt(n.log, prev),
      n.log[from..Min(from + MAX_ENTRIES_PER_MESSAGE, |n.log|)],
      n.broadcast.value.commit)
  }

  /** The first index of a run of `term` that the log holds, or `hint` (1 without a hint) when it holds none. */
  function FindConflictTermIndex(log: seq<RaftEntry>, term: Term, hint: Index): (r: Index)
  {
    if HasTerm(log, term) then FirstIndexOf(log, term) else if hint > 0 then hint else 1
  }

  predicate HasTerm(log: seq<RaftEntry>, term: Term)
  {
    exists i :: 1 <= i <= |log| && TermAt(log, i) == term
  }

  function FirstIndexOf(log: seq<RaftEntry>, term: Term): (i: Index)
    requires HasTerm(log, term)
    ensures 1 <= i <= |log| && TermAt(log, i) == term
    ensures forall j :: 1 <= j < i ==> TermAt(log, j) != term
  {
    FirstIndexFrom(log, term, 1)
  }

  function FirstIndexFrom(log: seq<RaftEntry>, term: Term, from: Index): (i: Index)
    requires from >= 1
    requires exists i :: from <= i <= |log| && TermAt(log, i) == term
    ensures from <= i <= |log| && TermAt(log, i) == term
    ensures forall j :: from <= j < i ==> TermAt(log, j) != term
    decreases |log| - from
  {
    if TermAt(log, from) == term then from else FirstIndexFrom(log, term, from + 1)
  }

  /** `next_index_` after a rejection. */
  function NextAfterRejection(log: seq<RaftEntry>, next: NextIndex, resp: AppendEntriesResponse): NextIndex
  {
    var oneBack := if next > 1 then next - 1 else next;
    var hinted := if 0 < resp.conflictIndex < next then resp.conflictIndex else oneBack;
    if resp.conflictTerm > 0 then
      var found := FindConflictTermIndex(log, resp.conflictTerm, resp.conflictIndex);
      if 0 < found < next then found else hinted
    else hinted
  }

  /** The rest of the turn, with the response of the awaited peer. */
  function OnAppendResponse(rules: Rules, n: Node, resp: AppendEntriesResponse): Node
    requires n.broadcast.Some? && n.broadcast.value.awaiting.Some?
    requires n.broadcast.value.awaiting.value.peer in n.nextIndex
  {
    var Call(peer, req) := n.broadcast.value.awaiting.value;
    var m := n.(broadcast := Some(n.broadcast.value.(awaiting := None)));
    var matched := if peer in n.matchIndex then n.matchIndex[peer] else 0;
    if resp.term > n.term then BecomeFollower(n, resp.term).(broadcast := None)
    else if resp.success then
      if req.entries != [] then
        var last := req.entries[|req.entries| - 1].index;
        m.(matchIndex := n.matchIndex[peer := last], nextIndex := n.nextIndex[peer := last + 1])
      else
        var credit := if rules.clampHeartbeat then Min(resp.lastLogIndex, req.prevLogIndex) else resp.lastLogIndex;
        m.(matchIndex := n.matchIndex[peer := Max(matched, credit)])
    else m.(nextIndex := n.nextIndex[peer := NextAfterRejection(n.log, n.nextIndex[peer], resp)])
  }

  /** What the caller sees when the call itself fails. */
  const NO_APPEND_RESPONSE := AppendEntriesResponse(0, false, 0, 0, 0)

  function Propose(n: Node, entry: RaftEntry): Node
  {
    if n.role != Leader then n
    else
      var e := entry.(term := n.term, index := |n.log| + 1);
      n.(log := n.log + [e], matchIndex := n.matchIndex[n.id := e.index])
  }

  /** The nodes whose `match_index_` entry goes into the sorted list. */
  function Counted(rules: Rules, n: Node): set<NodeId>
  {
    if rules.countOnce then n.matchIndex.Keys - {n.id} else n.matchIndex.Keys
  }

  ghost predicate Picks(rules: Rules, n: Node, k: Index)
  {
    IsQuorumIndex(|n.log|, n.matchIndex, Counted(rules, n), Majority(|n.peers| + 1), k)
  }

  ghost function AdvanceCommit(rules: Rules, n: Node): Node
  {
    if n.role == Leader && exists k: Index :: Picks(rules, n, k) then
      var k: Index :| Picks(rules, n, k);
      if k > n.commit && TermAt(n.log, k) == n.term then n.(commit := k) else n
    else n
  }

  // ---- Replication: the follower's side ----

  /** The downward scan: the start of the run of `term` that ends at `i`. */
  function ScanDown(log: seq<RaftEntry>, term: Term, i: Index): Index
  {
    if i == 0 then 1 else if TermAt(log, i) != term then i + 1 else ScanDown(log, term, i - 1)
  }

  /** How many of the leading entries of `batch` the log already holds after its first `base` ones. */
  function Agreeing(log: seq<RaftEntry>, base: Index, batch: seq<RaftEntry>): (k: nat)
    requires base <= |log|
    ensures k <= |batch| && base + k <= |log|
    ensures forall i :: 0 <= i < k ==> log[base + i].term == batch[i].term
    ensures k < |batch| && base + k < |log| ==> log[base + k].term != batch[k].term
    decreases |batch|
  {
    if batch == [] || base == |log| || log[base].term != batch[0].term then 0
    else 1 + Agreeing(log, base + 1, batch[1..])
  }

  /** The log after the entries of a request are stored. */
  function Store(rules: Rules, log: seq<RaftEntry>, batch: seq<RaftEntry>): seq<RaftEntry>
  {
    if batch == [] || batch[0].index == 0 then log
    else if rules.keepSuffix then
      var base := batch[0].index - 1;
      if base > |log| then log
      else
        var k := Agreeing(log, base, batch);
        if k == |batch| then log else log[..base + k] + batch[k..]
    else Appended(Truncated(log, batch[0].index - 1), batch)
  }

  function ApplyCommitted(n: Node): Node
  {
    if n.commit > n.lastApplied then
      var end := Min(n.commit, |n.log|);
      var batch := if n.lastApplied < end then n.log[n.lastApplied..end] else [];
      n.(lastApplied := n.commit, delivered := n.delivered + batch)
    else n
  }

  /** The commit index a follower moves to, `log` being its log after the entries are stored. */
  function FollowerCommit(rules: Rules, commit: Index, req: AppendEntriesRequest, log: seq<RaftEntry>): Index
  {
    if req.leaderCommit <= commit then commit
    else if rules.keepSuffix then Max(commit, Min(req.leaderCommit, req.prevLogIndex + |req.entries|))
    else Min(req.leaderCommit, |log|)
  }

  predicate PrevMatches(log: seq<RaftEntry>, req: AppendEntriesRequest)
  {
    req.prevLogIndex == 0 || TermAt(log, req.prevLogIndex) == req.prevLogTerm
  }

  function Rejection(log: seq<RaftEntry>, req: AppendEntriesRequest): AppendEntriesResponse
  {
    var conflictTerm := TermAt(log, req.prevLogIndex);
    AppendEntriesResponse(req.term, false, |log|, ScanDown(log, conflictTerm, req.prevLogIndex), conflictTerm)
  }

  function HandleAppendEntries(rules: Rules, n: Node, req: AppendEntriesRequest): (Node, AppendEntriesResponse)
  {
    if req.term < n.term then (n, AppendEntriesResponse(n.term, false, |n.log|, 0, 0))
    else
      var m := BecomeFollower(n, req.term).(leaderId := req.leaderId);
      if !PrevMatches(m.log, req) then (m, Rejection(m.log, req))
      else
        var log := Store(rules, m.log, req.entries);
        var stored := m.(log := log, commit := FollowerCommit(rules, m.commit, req, log));
        var done := if req.leaderCommit > m.commit then ApplyCommitted(stored) else stored;
        (done, AppendEntriesResponse(req.term, true, |log|, 0, 0))
  }

  /** What a request that is not stale does apart from the commit index and application. */
  lemma HandleAppendShape(rules: Rules, n: Node, req: AppendEntriesRequest)
    requires req.term >= n.term
    ensures var m := HandleAppendEntries(rules, n, req).0;
            && m.id == n.id && m.peers == n.peers && m.role == Follower && m.term == req.term
            && m.votedFor == (if req.term > n.term then NO_NODE else n.votedFor)
            && m.election == n.election && m.broadcast == n.broadcast
            && m.log == (if PrevMatches(n.log, req) then Store(rules, n.log, req.entries) else n.log)
  {
  }

  lemma AdvanceCommitShape(rules: Rules, n: Node)
    ensures var m := AdvanceCommit(rules, n); m == n.(commit := m.commit)
  {
  }

  /** The leader's commit index never drops, and moves only to an entry of its own log and term. */
  lemma AdvanceCommitMonotone(rules: Rules, n: Node)
    requires n.term != NO_TERM
    ensures var m := AdvanceCommit(rules, n);
            n.commit <= m.commit && (m.commit != n.commit ==> m.commit <= |n.log| && TermAt(n.log, m.commit) == n.term)
  {
  }

  lemma ApplyCommittedShape(n: Node)
    ensures var m := ApplyCommitted(n); m == n.(lastApplied := m.lastApplied, delivered := m.delivered)
  {
  }

  /** A vote request changes at most term, vote and role. */
  lemma HandleVoteShape(n: Node, req: RequestVoteRequest)
    ensures var (m, resp) := HandleRequestVote(n, req);
            && m == n.(term := m.term, votedFor := m.votedFor, role := m.role)
            && (req.term > n.term ==> m.term == req.term && m.role == Follower)
            && (req.term <= n.term ==> m.term == n.term && m.role == n.role)
            && (m.votedFor != n.votedFor ==> req.term > n.term || n.votedFor == NO_NODE)
            && (resp.voteGranted ==> m.term == req.term && m.votedFor == req.candidateId)
  {
  }

  /** When exactly a vote is granted; the answer carries the higher of the two terms, which is the voter's from then on. */
  lemma VoteGrantedExactly(n: Node, req: RequestVoteRequest)
    ensures var (m, resp) := HandleRequestVote(n, req);
            && resp.term == m.term == Max(n.term, req.term)
            && (resp.voteGranted <==>
                  req.term >= n.term && LogUpToDate(req, n.log)
                  && (req.term > n.term || n.votedFor == NO_NODE || n.votedFor == req.candidateId))
  {
  }

  /** The commit index after a request is accepted; what has been delivered never goes past it. */
  ghost predicate Commits(rules: Rules, n: Node, m: Node, req: AppendEntriesRequest)
  {
    && m.commit == FollowerCommit(rules, n.commit, req, m.log)
    && (n.lastApplied <= n.commit <= m.commit <= |m.log| && n.delivered == m.log[..n.lastApplied] ==>
          m.lastApplied <= m.commit && m.delivered == m.log[..m.lastApplied])
  }

  lemma HandleAppendCommits(rules: Rules, n: Node, req: AppendEntriesRequest)
    requires req.term >= n.term && PrevMatches(n.log, req)
    ensures Commits(rules, n, HandleAppendEntries(rules, n, req).0, req)
  {
  }

  /** A rejected request that is not stale changes term, vote, role and known leader. */
  lemma HandleAppendRejects(rules: Rules, n: Node, req: AppendEntriesRequest)
    requires req.term >= n.term && !PrevMatches(n.log, req)
    ensures var (m, resp) := HandleAppendEntries(rules, n, req);
            m == n.(term := m.term, votedFor := m.votedFor, role := Follower, leaderId := m.leaderId)
            && m.term == req.term && !resp.success
  {
  }
}
