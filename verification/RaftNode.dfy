/**
 A Raft node as the code has it (src/raft/raft.cpp): an object whose methods update its fields. `State()` is the
 node's value, and every method changes it as the function of `NodeSpec` for the code as written says.

 `StartElection` and `BroadcastHeartbeat` give up the lock at every call over the network, so each of them is a
 method per stretch between two calls; `election` and `broadcast` hold their local variables meanwhile.
 */
module RaftNodes {
  import opened Types
  import opened RaftLogs
  import opened Quorum
  import opened NodeSpec

  /** One more counted node adds at most itself to those that have reached `k`. */
  lemma ReachedGrows(matchIndex: map<NodeId, Index>, counted: set<NodeId>, p: NodeId)
    requires p in matchIndex && p !in counted
    ensures forall k :: |Reached(matchIndex, counted + {p}, k)| == |Reached(matchIndex, counted, k)| + if matchIndex[p] >= k then 1 else 0
  {
    forall k
      ensures |Reached(matchIndex, counted + {p}, k)| == |Reached(matchIndex, counted, k)| + if matchIndex[p] >= k then 1 else 0
    {
      var before := Reached(matchIndex, counted, k);
      assert Reached(matchIndex, counted + {p}, k) == if matchIndex[p] >= k then before + {p} else before;
    }
  }

  /** The first `limit` of what is left of the entries after `prev`. */
  function FirstOfRest(log: seq<RaftEntry>, prev: Index, limit: nat): seq<RaftEntry>
  {
    var rest := if prev >= |log| then [] else log[prev..];
    if |rest| > limit then rest[..limit] else rest
  }

  lemma BuildAppendIs(n: Node, peer: NodeId)
    requires n.broadcast.Some? && peer in n.nextIndex
    ensures var next: Index := n.nextIndex[peer];
            BuildAppend(n, peer) == AppendEntriesRequest(n.term, n.id, next - 1, TermAt(n.log, next - 1),
              FirstOfRest(n.log, next - 1, MAX_ENTRIES_PER_MESSAGE), n.broadcast.value.commit)
  {
  }

  class RaftNode {
    const id: NodeId
    const peers: set<NodeId>
    const log: RaftLog
    var currentTerm: Term
    var votedFor: NodeId
    var commitIndex: Index
    var lastApplied: Index
    /** What the ready handler has been given. */
    var delivered: seq<RaftEntry>
    var role: Role
    var leaderId: NodeId
    var nextIndex: map<NodeId, NextIndex>
    var matchIndex: map<NodeId, Index>
    var election: Option<Election>
    var broadcast: Option<Broadcast>

    predicate Valid()
      reads this, log
    {
      log.Valid() && log.firstIndex == 1
    }

    function State(): Node
      reads this, log
    {
      Node(id, peers, currentTerm, votedFor, log.entries, commitIndex, lastApplied, delivered, role, leaderId,
           nextIndex, matchIndex, election, broadcast)
    }

    constructor (id: NodeId, peers: set<NodeId>)
      ensures Valid() && fresh(log) && State() == InitialNode(id, peers)
    {
      this.id, this.peers := id, peers;
      log := new RaftLog();
      currentTerm, votedFor, commitIndex, lastApplied, delivered := 0, NO_NODE, 0, 0, [];
      role, leaderId, nextIndex, matchIndex := Follower, NO_NODE, map[], map[];
      election, broadcast := None, None;
    }

    method BecomeFollowerLocked(term: Term)
      requires Valid()
      modifies this
      ensures Valid() && State() == BecomeFollower(old(State()), term)
    {
      if term > currentTerm {
        currentTerm := term;
        votedFor := NO_NODE;
      }
      role := Follower;
    }

    method BecomeCandidateLocked()
      requires Valid()
      modifies this
      ensures Valid() && State() == BecomeCandidate(old(State()))
    {
      role := Candidate;
      currentTerm := currentTerm + 1;
      votedFor := id;
      leaderId := NO_NODE;
    }

    /** Starts `next_index_` past the log and `match_index_` at 0 for every peer. */
    method ResetProgress(last: Index)
      requires Valid()
      modifies this`nextIndex, this`matchIndex
      ensures nextIndex == Table(peers, last + 1) && matchIndex == Table(peers, 0)
    {
      nextIndex, matchIndex := map[], map[];
      var rest := peers;
      while rest != {}
        invariant rest <= peers && nextIndex.Keys == matchIndex.Keys == peers - rest
        invariant forall p :: p in nextIndex ==> nextIndex[p] == last + 1
        invariant forall p :: p in matchIndex ==> matchIndex[p] == 0
      {
        var peer :| peer in rest;
        rest := rest - {peer};
        nextIndex := nextIndex[peer := last + 1];
        matchIndex := matchIndex[peer := 0];
      }
      var next: NextIndex := last + 1;
      assert nextIndex == Table(peers, next);
      assert matchIndex == Table(peers, 0);
    }

    method BecomeLeaderLocked()
      requires Valid()
      modifies this
      ensures Valid() && State() == BecomeLeader(old(State()))
    {
      role := Leader;
      leaderId := id;
      var last := log.LastIndex();
      ResetProgress(last);
    }

    // ---- Elections ----

    /** `StartElection` up to its first call; a node without peers leads at once and sends nothing. */
    method StartElection() returns (req: Option<RequestVoteRequest>)
      requires Valid()
      modifies this
      ensures Valid() && State() == BeginElection(old(State()))
      ensures req == if peers == {} then None else Some(VoteRequest(old(State())))
    {
      var lastIndex := log.LastIndex();
      var lastTerm := log.LastTermOf();
      if peers == {} {
        BecomeLeaderLocked();
        return None;
      }
      var request := RequestVoteRequest(currentTerm, id, lastIndex, lastTerm);
      election := Some(Election(request, {}));
      return Some(request);
    }

    method OnVoteResponse(peer: NodeId, resp: RequestVoteResponse)
      requires Valid() && election.Some?
      modifies this
      ensures Valid() && State() == CountVote(old(State()), peer, resp)
    {
      if resp.term > currentTerm {
        BecomeFollowerLocked(resp.term);
        election := None;
        return;
      }
      if resp.voteGranted {
        election := Some(election.value.(votes := election.value.votes + {peer}));
      }
    }

    method EndElection()
      requires Valid() && election.Some?
      modifies this
      ensures Valid() && State() == FinishElection(AS_WRITTEN, old(State()))
    {
      var votes := |election.value.votes| + 1;
      election := None;
      if votes >= Majority(|peers| + 1) {
        BecomeLeaderLocked();
      }
    }

    method OnRequestVote(req: RequestVoteRequest) returns (resp: RequestVoteResponse)
      requires Valid()
      modifies this
      ensures Valid() && (State(), resp) == HandleRequestVote(old(State()), req)
    {
      resp := RequestVoteResponse(currentTerm, false);
      if req.term < currentTerm {
        return;
      }
      if req.term > currentTerm {
        BecomeFollowerLocked(req.term);
        resp := resp.(term := req.term);
      }
      if votedFor == NO_NODE || votedFor == req.candidateId {
        var lastTerm := log.LastTermOf();
        var lastIndex := log.LastIndex();
        if req.lastLogTerm > lastTerm || (req.lastLogTerm == lastTerm && req.lastLogIndex >= lastIndex) {
          votedFor := req.candidateId;
          resp := resp.(voteGranted := true);
        }
      }
    }

    // ---- Replication: the leader's side ----

    method StartBroadcast()
      requires Valid()
      modifies this`broadcast
      ensures Valid() && State() == old(State()).(broadcast := Some(Broadcast(commitIndex, None)))
    {
      broadcast := Some(Broadcast(commitIndex, None));
    }

    /** One turn of the heartbeat loop up to its call. */
    method SendAppend(peer: NodeId) returns (req: AppendEntriesRequest)
      requires Valid() && broadcast.Some? && peer in nextIndex
      modifies this`broadcast
      ensures Valid() && req == BuildAppend(old(State()), peer)
      ensures State() == old(State()).(broadcast := Some(old(broadcast).value.(awaiting := Some(Call(peer, req)))))
    {
      BuildAppendIs(State(), peer);
      hide Consecutive, BuildAppend, TermAt;
      var next: Index := nextIndex[peer];
      var prev := next - 1;
      var prevTerm := log.TermAtIndex(prev);
      var batch := log.EntriesFrom(prev + 1, 0);
      if |batch| > MAX_ENTRIES_PER_MESSAGE {
        batch := batch[..MAX_ENTRIES_PER_MESSAGE];
      }
      req := AppendEntriesRequest(currentTerm, id, prev, prevTerm, batch, broadcast.value.commit);
      broadcast := Some(broadcast.value.(awaiting := Some(Call(peer, req))));
    }

    /** On a log with ascending terms the binary search finds the first entry of the term, and its last return is dead. */
    method FindConflictTerm(conflictTerm: Term, hint: Index) returns (r: Index)
      requires Valid() && Ascending(log.entries)
      ensures r == FindConflictTermIndex(log.entries, conflictTerm, hint)
    {
      var first := log.firstIndex;
      var last := log.LastIndex();
      var hasTerm := false;
      var i := first;
      while i <= last
        invariant first <= i <= last + 1
        invariant forall j :: first <= j < i ==> TermAt(log.entries, j) != conflictTerm
      {
        var t := log.TermAtIndex(i);
        if t == conflictTerm {
          hasTerm := true;
          break;
        }
        i := i + 1;
      }
      if !hasTerm {
        return if hint > 0 then hint else 1;
      }

      var lo, hi := first, last + 1;
      while lo < hi
        invariant first <= lo <= hi <= last + 1
        invariant forall j :: first <= j < lo ==> TermAt(log.entries, j) < conflictTerm
        invariant forall j :: hi <= j <= last ==> TermAt(log.entries, j) >= conflictTerm
      {
        var mid := lo + (hi - lo) / 2;
        var t := log.TermAtIndex(mid);
        if t < conflictTerm {
          lo := mid + 1;
        } else {
          hi := mid;
        }
      }
      assert TermAt(log.entries, i) == conflictTerm && lo <= i;
      assert TermAt(log.entries, lo) == conflictTerm;
      return lo;
    }

    method LowerNext(peer: NodeId, resp: AppendEntriesResponse)
      requires Valid() && Ascending(log.entries) && peer in nextIndex
      modifies this`nextIndex
      ensures Valid()
      ensures nextIndex == old(nextIndex)[peer := NextAfterRejection(log.entries, old(nextIndex)[peer], resp)]
    {
      var next: Index := nextIndex[peer];
      if resp.conflictTerm > 0 {
        var found := FindConflictTerm(resp.conflictTerm, resp.conflictIndex);
        if found > 0 && found < next {
          nextIndex := nextIndex[peer := found];
        } else if resp.conflictIndex > 0 && resp.conflictIndex < next {
          nextIndex := nextIndex[peer := resp.conflictIndex];
        } else if next > 1 {
          nextIndex := nextIndex[peer := next - 1];
        }
      } else if resp.conflictIndex > 0 {
        if resp.conflictIndex < next {
          nextIndex := nextIndex[peer := resp.conflictIndex];
        } else if next > 1 {
          nextIndex := nextIndex[peer := next - 1];
        }
      } else if next > 1 {
        nextIndex := nextIndex[peer := next - 1];
      }
    }

    /** The rest of a turn of the heartbeat loop. */
    method OnAppendResponse(resp: AppendEntriesResponse)
      requires Valid() && Ascending(log.entries)
      requires broadcast.Some? && broadcast.value.awaiting.Some? && broadcast.value.awaiting.value.peer in nextIndex
      modifies this
      ensures Valid() && State() == NodeSpec.OnAppendResponse(AS_WRITTEN, old(State()), resp)
    {
      var Call(peer, req) := broadcast.value.awaiting.value;
      if resp.term > currentTerm {
        BecomeFollowerLocked(resp.term);
        broadcast := None;
        return;
      }
      broadcast := Some(broadcast.value.(awaiting := None));
      if resp.success {
        if req.entries != [] {
          var last := req.entries[|req.entries| - 1].index;
          matchIndex := matchIndex[peer := last];
          nextIndex := nextIndex[peer := last + 1];
        } else {
          var matched := if peer in matchIndex then matchIndex[peer] else 0;
          matchIndex := matchIndex[peer := Max(matched, resp.lastLogIndex)];
        }
      } else {
        LowerNext(peer, resp);
      }
    }

    method Propose(entry: RaftEntry) returns (accepted: bool, index: Index)
      requires Valid()
      modifies this, log
      ensures Valid() && State() == NodeSpec.Propose(old(State()), entry)
      ensures accepted == (old(role) == Leader)
      ensures index == if accepted then |old(log.entries)| + 1 else 0
    {
      if role != Leader {
        return false, 0;
      }
      var last := log.LastIndex();
      var e := entry.(term := currentTerm, index := last + 1);
      var at := log.Append(e);
      matchIndex := matchIndex[id := e.index];
      return true, at;
    }

    /** The list `AdvanceCommitIndex` sorts: the last index of the log and every value of `match_index_`. */
    method MatchIndices() returns (indices: seq<Index>)
      requires Valid()
      ensures |indices| == 1 + |matchIndex|
      ensures forall k :: CountAtLeast(indices, k) == ReachCount(|log.entries|, matchIndex, matchIndex.Keys, k)
    {
      var last := log.LastIndex();
      indices := [last];
      var rest, done := matchIndex.Keys, {};
      while rest != {}
        invariant rest + done == matchIndex.Keys && rest !! done && |indices| == 1 + |done|
        invariant forall k :: CountAtLeast(indices, k) == ReachCount(|log.entries|, matchIndex, done, k)
        decreases rest
      {
        var peer :| peer in rest;
        ReachedGrows(matchIndex, done, peer);
        forall k
          ensures CountAtLeast(indices + [matchIndex[peer]], k) == CountAtLeast(indices, k) + if matchIndex[peer] >= k then 1 else 0
        {
          CountConcat(indices, [matchIndex[peer]], k);
        }
        indices := indices + [matchIndex[peer]];
        rest, done := rest - {peer}, done + {peer};
      }
    }

    method AdvanceCommitIndex()
      requires Valid()
      modifies this`commitIndex
      ensures Valid() && State() == AdvanceCommit(AS_WRITTEN, old(State()))
    {
      if role != Leader {
        return;
      }
      var indices := MatchIndices();
      var sorted := SortDescending(indices);
      var majority := Majority(|peers| + 1);
      ghost var n := State();
      if majority <= |sorted| {
        var newCommit := sorted[majority - 1];
        PickIsLargestReached(indices, majority);
        assert Picks(AS_WRITTEN, n, newCommit);
        QuorumUnique(n, newCommit);
        if newCommit > commitIndex {
          var t := log.TermAtIndex(newCommit);
          if t == currentTerm {
            commitIndex := newCommit;
          }
        }
      } else {
        forall k: Index
          ensures !Picks(AS_WRITTEN, n, k)
        {
          assert CountAtLeast(indices, k) < majority;
        }
      }
    }

    // ---- Replication: the follower's side ----

    method ApplyCommittedEntries()
      requires Valid()
      modifies this`lastApplied, this`delivered
      ensures Valid() && State() == ApplyCommitted(old(State()))
    {
      if commitIndex > lastApplied {
        var batch := log.Slice(lastApplied + 1, commitIndex + 1);
        lastApplied := commitIndex;
        delivered := delivered + batch;
      }
    }

    /** The downward scan for the start of the run of `conflictTerm` that ends at `prev`. */
    method ConflictStart(conflictTerm: Term, prev: Index) returns (conflictIndex: Index)
      requires Valid()
      ensures conflictIndex == ScanDown(log.entries, conflictTerm, prev)
    {
      conflictIndex := 0;
      var i: Index := prev;
      while i >= log.firstIndex && i > 0
        invariant i <= prev && conflictIndex == 0
        invariant ScanDown(log.entries, conflictTerm, prev) == ScanDown(log.entries, conflictTerm, i)
      {
        var t := log.TermAtIndex(i);
        if t != conflictTerm {
          conflictIndex := i + 1;
          break;
        }
        i := i - 1;
      }
      if conflictIndex == 0 {
        conflictIndex := log.firstIndex;
      }
    }

    /** The part of the handler after `prev` matched. */
    method StoreAndCommit(req: AppendEntriesRequest) returns (last: Index)
      requires Valid() && (req.entries != [] ==> Consecutive(req.entries, req.entries[0].index))
      modifies this`commitIndex, this`lastApplied, this`delivered, log
      ensures Valid() && log.entries == Store(AS_WRITTEN, old(log.entries), req.entries) && last == |log.entries|
      ensures var stored := old(State()).(log := log.entries, commit := FollowerCommit(AS_WRITTEN, old(commitIndex), req, log.entries));
              State() == if req.leaderCommit > old(commitIndex) then ApplyCommitted(stored) else stored
    {
      // With index 0 the unsigned `first_new_idx - 1` wraps around to a bound past every log.
      if req.entries != [] && req.entries[0].index > 0 {
        log.TruncateTo(req.entries[0].index - 1);
        log.AppendBatch(req.entries);
      }
      last := log.LastIndex();
      if req.leaderCommit > commitIndex {
        commitIndex := Min(req.leaderCommit, last);
        ApplyCommittedEntries();
      }
    }

    method OnAppendEntries(req: AppendEntriesRequest) returns (resp: AppendEntriesResponse)
      requires Valid() && (req.entries != [] ==> Consecutive(req.entries, req.entries[0].index))
      modifies this, log
      ensures Valid() && (State(), resp) == HandleAppendEntries(AS_WRITTEN, old(State()), req)
    {
      var last := log.LastIndex();
      resp := AppendEntriesResponse(currentTerm, false, last, 0, 0);
      if req.term < currentTerm {
        return;
      }
      BecomeFollowerLocked(req.term);
      leaderId := req.leaderId;
      resp := resp.(term := req.term);

      if req.prevLogIndex > 0 {
        var localTerm := log.TermAtIndex(req.prevLogIndex);
        if localTerm != req.prevLogTerm {
          var start := ConflictStart(localTerm, req.prevLogIndex);
          resp := resp.(conflictTerm := localTerm, conflictIndex := start);
          return;
        }
      }

      last := StoreAndCommit(req);
      resp := resp.(success := true, lastLogIndex := last);
    }
  }

  lemma QuorumUnique(n: Node, k: Index)
    requires Picks(AS_WRITTEN, n, k)
    ensures forall j: Index :: Picks(AS_WRITTEN, n, j) ==> j == k
  {
    forall j: Index | Picks(AS_WRITTEN, n, j)
      ensures j == k
    {
      QuorumIndexUnique(|n.log|, n.matchIndex, Counted(AS_WRITTEN, n), Majority(|n.peers| + 1), j, k);
    }
  }
}
