/**
 The log-repair loop between a stable leader and one follower (src/raft/raft.cpp:184-257, 471-510, 547-608): how far
 it backs up, that it catches up, and how far a message can move a follower's commit index.
 */
module Repair {
  import opened Types
  import opened RaftLogs
  import opened NodeSpec
  import opened Clusters
  import opened Histories
  import opened AllRules
  import opened LogSafety

  // ---- One rejection ----

  lemma {:induction false} ScanDownShape(log: Log, t: Term, i: Index)
    ensures var s := ScanDown(log, t, i);
            && 1 <= s <= i + 1 && (s > 1 ==> TermAt(log, s - 1) != t)
            && forall j: Index :: s <= j <= i ==> TermAt(log, j) == t
  {
    if i > 0 && TermAt(log, i) == t {
      ScanDownShape(log, t, i - 1);
    }
  }

  /** The follower reports the start of the run of equal terms that ends at `prev`, or the end of its log when `prev` is past it. */
  lemma ScanFindsRunStart(log: Log, prev: Index)
    requires Ascending(log) && prev >= 1
    ensures var t := TermAt(log, prev);
            var s := ScanDown(log, t, prev);
            if prev > |log| then s == |log| + 1
            else 1 <= s <= prev && TermAt(log, s - 1) < t && forall j: Index :: s <= j <= prev ==> TermAt(log, j) == t
  {
    var t := TermAt(log, prev);
    var s := ScanDown(log, t, prev);
    ScanDownShape(log, t, prev);
    if prev > |log| {
      assert s <= |log| ==> TermAt(log, |log|) == t;
    }
  }

  /** Two logs that share an entry's index and term are identical up to it. */
  ghost predicate Matching(a: Log, b: Log)
  {
    forall i: Index {:trigger TermAt(a, i), TermAt(b, i)} ::
      1 <= i <= |a| && i <= |b| && TermAt(a, i) == TermAt(b, i) ==> a[..i] == b[..i]
  }

  /** Where both logs carry `t`, and the follower already carried it one entry earlier, so did the leader. */
  lemma RunShared(leader: Log, follower: Log, t: Term, at: Index)
    requires Matching(leader, follower) && 2 <= at <= |leader| && at <= |follower|
    requires TermAt(leader, at) == TermAt(follower, at) == TermAt(follower, at - 1) == t
    ensures TermAt(leader, at - 1) == t
  {
    assert leader[..at] == follower[..at];
    assert leader[..at][at - 2] == follower[..at][at - 2];
  }

  /** When the leader holds the conflict term too, its run of it starts no later than the follower's, or only after `prev`. */
  lemma LeaderRunStartsFirst(leader: Log, follower: Log, t: Term, s: Index, prev: Index)
    requires Matching(leader, follower) && HasTerm(leader, t)
    requires 1 <= s <= prev <= |follower| && forall j: Index :: s <= j <= prev ==> TermAt(follower, j) == t
    ensures FirstIndexOf(leader, t) <= s || FirstIndexOf(leader, t) > prev
  {
    var found := FirstIndexOf(leader, t);
    if s < found <= prev {
      RunShared(leader, follower, t, found);
    }
  }

  /**
   A rejection lowers `next_index_`, and moves to a `prev` where the follower's term is strictly smaller than the
   conflict term; a `prev` past the follower's log moves to its end.
   */
  lemma RejectionLowers(leader: Log, follower: Log, next: NextIndex, req: AppendEntriesRequest)
    requires Ascending(follower) && Matching(leader, follower)
    requires req.prevLogIndex == next - 1 && !PrevMatches(follower, req)
    ensures var resp := Rejection(follower, req);
            var lower := NextAfterRejection(leader, next, resp);
            && lower < next
            && if req.prevLogIndex > |follower| then lower == |follower| + 1
               else TermAt(follower, lower - 1) < resp.conflictTerm == TermAt(follower, req.prevLogIndex)
  {
    var prev := req.prevLogIndex;
    var resp := Rejection(follower, req);
    ScanFindsRunStart(follower, prev);
    if prev <= |follower| {
      var s := resp.conflictIndex;
      if HasTerm(leader, resp.conflictTerm) {
        LeaderRunStartsFirst(leader, follower, resp.conflictTerm, s, prev);
        var found := FirstIndexOf(leader, resp.conflictTerm);
        if found <= s {
          assert TermAt(follower, found - 1) <= TermAt(follower, s - 1);
        }
      }
    }
  }

  /** The run of equal terms that ends at `prev` is of term `t` and starts at `at`. */
  predicate RunStarts(log: Log, t: Term, at: Index, prev: Index)
  {
    && 1 <= at <= prev <= |log| && (at > 1 ==> log[at - 2].term != t)
    && forall j {:trigger log[j]} :: at - 1 <= j < prev ==> log[j].term == t
  }

  /** The first entry of term `t` has index `at`. */
  predicate StartsAt(log: Log, t: Term, at: Index)
  {
    1 <= at <= |log| && log[at - 1].term == t && forall j {:trigger log[j]} :: 0 <= j < at - 1 ==> log[j].term != t
  }

  /**
   Where a rejection inside the follower's log sends `next_index_`, exactly, `t` being the term that the follower has at
   `prev`: to the leader's first entry of `t`, if the leader has one up to `prev`, and otherwise to the start of the
   follower's run of `t` that ends at `prev`.
   */
  lemma RejectionTarget(leader: Log, follower: Log, next: NextIndex, req: AppendEntriesRequest)
    requires Ascending(follower) && Matching(leader, follower)
    requires req.prevLogIndex == next - 1 && !PrevMatches(follower, req) && req.prevLogIndex <= |follower|
    ensures var prev, t := req.prevLogIndex, follower[req.prevLogIndex - 1].term;
            var lower := NextAfterRejection(leader, next, Rejection(follower, req));
            if exists at: Index {:trigger StartsAt(leader, t, at)} :: at <= prev && StartsAt(leader, t, at) then StartsAt(leader, t, lower)
            else RunStarts(follower, t, lower, prev)
  {
    var prev := req.prevLogIndex;
    var t, s := follower[prev - 1].term, Rejection(follower, req).conflictIndex;
    ScanFindsRunStart(follower, prev);
    forall j | s - 1 <= j < prev
      ensures follower[j].term == t
    {
      assert TermAt(follower, j + 1) == t;
    }
    assert RunStarts(follower, t, s, prev);
    if HasTerm(leader, t) {
      var found := FirstIndexOf(leader, t);
      forall j | 0 <= j < found - 1
        ensures leader[j].term != t
      {
        assert TermAt(leader, j + 1) != t;
      }
      assert StartsAt(leader, t, found);
    }
    if at: Index :| at <= prev && StartsAt(leader, t, at) {
      assert TermAt(leader, at) == t;
    }
  }

  /**
   No over-backtracking: everything below the new `next_index_` is of an older term than the conflict, on both sides, and
   at the new one the leader or the follower has the conflict's term; so what is sent again starts with that term.
   */
  lemma ResentFromConflictTerm(leader: Log, follower: Log, next: NextIndex, req: AppendEntriesRequest)
    requires Ascending(follower) && Matching(leader, follower)
    requires req.prevLogIndex == next - 1 <= |leader| && !PrevMatches(follower, req) && req.prevLogIndex <= |follower|
    ensures var t := follower[req.prevLogIndex - 1].term;
            var lower: Index := NextAfterRejection(leader, next, Rejection(follower, req));
            && 1 <= lower <= req.prevLogIndex
            && (follower[lower - 1].term == t || leader[lower - 1].term == t)
            && (forall j :: 0 <= j < lower - 1 ==> follower[j].term < t)
            && forall j :: 0 <= j < lower - 1 ==> leader[j].term != t
  {
    var prev, t := req.prevLogIndex, follower[req.prevLogIndex - 1].term;
    var lower: Index := NextAfterRejection(leader, next, Rejection(follower, req));
    RejectionTarget(leader, follower, next, req);
    RejectionLowers(leader, follower, next, req);
    forall j | 0 <= j < lower - 1
      ensures leader[j].term != t
    {
      if leader[j].term == t {
        var at := FirstStarts(leader, t, j);
      }
    }
  }

  lemma {:induction false} FirstStarts(log: Log, t: Term, j: nat) returns (at: Index)
    requires j < |log| && log[j].term == t
    ensures at <= j + 1 && StartsAt(log, t, at)
    decreases j
  {
    if i :| 0 <= i < j && log[i].term == t {
      at := FirstStarts(log, t, i);
    } else {
      at := j + 1;
    }
  }

  // ---- Rounds between a leader and one follower ----

  datatype Pair = Pair(leader: Node, follower: Node)

  /** One heartbeat round as far as this follower is concerned, nothing lost: `commit` is the leader's snapshot for it. */
  function Round(rules: Rules, p: Pair, commit: Index): (q: Pair)
    requires p.follower.id in p.leader.nextIndex
    ensures q.follower.id in q.leader.nextIndex
  {
    var req := BuildAppend(p.leader.(broadcast := Some(Broadcast(commit, None))), p.follower.id);
    var (f, resp) := HandleAppendEntries(rules, p.follower, req);
    var l := p.leader.(broadcast := Some(Broadcast(commit, Some(Call(p.follower.id, req)))));
    Pair(OnAppendResponse(rules, l, resp).(broadcast := p.leader.broadcast), f)
  }

  /** One round per commit snapshot. */
  function Rounds(rules: Rules, p: Pair, commits: seq<Index>): (q: Pair)
    requires p.follower.id in p.leader.nextIndex
    ensures q.follower.id in q.leader.nextIndex
    decreases |commits|
  {
    if commits == [] then p else Rounds(rules, Round(rules, p, commits[0]), commits[1..])
  }

  function Next(p: Pair): NextIndex
    requires p.follower.id in p.leader.nextIndex
  {
    p.leader.nextIndex[p.follower.id]
  }

  /** What any two nodes of a run satisfy while one leads and the other's term is not ahead. */
  ghost predicate Ready(p: Pair)
  {
    && p.leader.role == Leader && p.follower.term <= p.leader.term
    && p.follower.id in p.leader.nextIndex && Next(p) <= |p.leader.log| + 1
    && Consecutive(p.leader.log, 1) && Ascending(p.leader.log) && Ascending(p.follower.log)
    && Matching(p.leader.log, p.follower.log)
  }

  /** The follower would accept the leader's next request. */
  predicate Acceptable(p: Pair)
    requires p.follower.id in p.leader.nextIndex
  {
    var prev: Index := Next(p) - 1;
    prev == 0 || TermAt(p.follower.log, prev) == TermAt(p.leader.log, prev)
  }

  /** A rejected round changes nothing but `next_index_` and the follower's term. */
  lemma RejectedRound(rules: Rules, p: Pair, commit: Index)
    requires Ready(p) && !Acceptable(p)
    ensures var q := Round(rules, p, commit);
            && Ready(q) && q.leader.log == p.leader.log && q.follower.log == p.follower.log && Next(q) < Next(p)
            && if Next(p) - 1 > |p.follower.log| then Next(q) == |p.follower.log| + 1
               else TermAt(p.follower.log, Next(q) - 1) < TermAt(p.follower.log, Next(p) - 1)
  {
    var req := BuildAppend(p.leader.(broadcast := Some(Broadcast(commit, None))), p.follower.id);
    RejectionLowers(p.leader.log, p.follower.log, Next(p), req);
    HandleAppendRejects(rules, p.follower, req);
  }

  lemma CutAndAppended(rules: Rules, leader: Log, follower: Log, prev: Index, upTo: Index)
    requires Consecutive(leader, 1) && !rules.keepSuffix
    requires prev < upTo <= |leader| && prev <= |follower| && leader[..prev] == follower[..prev]
    ensures Store(rules, follower, leader[prev..upTo]) == leader[..upTo]
  {
    var batch := leader[prev..upTo];
    assert batch[0].index == prev + 1 && |Truncated(follower, prev)| == prev;
    assert leader[..upTo] == leader[..prev] + batch;
  }

  lemma AgreeingMatches(leader: Log, follower: Log, prev: Index, batch: Log)
    requires Matching(leader, follower) && prev + |batch| <= |leader| && batch == leader[prev..prev + |batch|]
    requires prev <= |follower| && leader[..prev] == follower[..prev]
    ensures var k := Agreeing(follower, prev, batch); leader[..prev + k] == follower[..prev + k]
  {
    var k := Agreeing(follower, prev, batch);
    if k > 0 {
      assert follower[prev + (k - 1)].term == batch[k - 1].term == leader[prev + k - 1].term;
      assert TermAt(leader, prev + k) == TermAt(follower, prev + k);
    }
  }

  lemma KeptOrReplaced(rules: Rules, leader: Log, follower: Log, prev: Index, upTo: Index)
    requires Consecutive(leader, 1) && Matching(leader, follower) && rules.keepSuffix
    requires prev < upTo <= |leader| && prev <= |follower| && leader[..prev] == follower[..prev]
    ensures var log := Store(rules, follower, leader[prev..upTo]);
            log == leader[..upTo] || (log == follower && upTo <= |follower| && follower[..upTo] == leader[..upTo])
  {
    hide Matching, Agreeing;
    var batch := leader[prev..upTo];
    var k := Agreeing(follower, prev, batch);
    assert batch[0].index == prev + 1;
    AgreeingMatches(leader, follower, prev, batch);
    assert leader[..upTo] == leader[..prev + k] + batch[k..];
  }

  /** The follower's log after it stored the leader's entries `prev + 1..upTo`, its log up to `prev` being the leader's. */
  lemma StoredPiece(rules: Rules, leader: Log, follower: Log, prev: Index, upTo: Index)
    requires Consecutive(leader, 1) && Matching(leader, follower)
    requires prev <= upTo <= |leader| && prev <= |follower| && leader[..prev] == follower[..prev]
    ensures var log := Store(rules, follower, leader[prev..upTo]);
            && upTo <= |log| && log[..upTo] == leader[..upTo]
            && (log == leader[..upTo] || log == follower)
            && (!rules.keepSuffix && prev < upTo ==> log == leader[..upTo])
            && (prev == upTo ==> log == follower)
  {
    if prev == upTo {
      assert leader[prev..upTo] == [];
    } else if rules.keepSuffix {
      KeptOrReplaced(rules, leader, follower, prev, upTo);
    } else {
      CutAndAppended(rules, leader, follower, prev, upTo);
    }
  }

  /** Storing a piece of the leader's log keeps the two logs matching, and the next `prev` matches. */
  lemma StoredMatches(rules: Rules, leader: Log, follower: Log, prev: Index, upTo: Index)
    requires Consecutive(leader, 1) && Ascending(leader) && Ascending(follower) && Matching(leader, follower)
    requires prev <= upTo <= |leader| && prev <= |follower| && leader[..prev] == follower[..prev]
    ensures var log := Store(rules, follower, leader[prev..upTo]);
            Matching(leader, log) && Ascending(log) && TermAt(log, upTo) == TermAt(leader, upTo)
  {
    var log := Store(rules, follower, leader[prev..upTo]);
    StoredPiece(rules, leader, follower, prev, upTo);
    StillMatches(leader, follower, log, upTo);
    if upTo > 0 {
      assert leader[..upTo][upTo - 1] == log[..upTo][upTo - 1];
    }
  }

  /** What the leader sends to a follower that will accept it. */
  lemma AcceptableRequest(p: Pair, commit: Index)
    requires Ready(p) && Acceptable(p)
    ensures var req := BuildAppend(p.leader.(broadcast := Some(Broadcast(commit, None))), p.follower.id);
            var prev := req.prevLogIndex;
            && prev == Next(p) - 1 && PrevMatches(p.follower.log, req)
            && prev <= |p.follower.log| && p.leader.log[..prev] == p.follower.log[..prev]
            && req.entries == p.leader.log[prev..Min(prev + MAX_ENTRIES_PER_MESSAGE, |p.leader.log|)]
  {
    var prev: Index := Next(p) - 1;
    if prev > 0 {
      assert TermAt(p.leader.log, prev) >= 1;
      assert p.leader.log[..prev] == p.follower.log[..prev];
    }
  }

  /** From `p` to `q` the follower stored what was sent and `next_index_` moved past it. */
  ghost predicate Moved(rules: Rules, p: Pair, q: Pair)
    requires Ready(p)
  {
    var prev: Index := Next(p) - 1;
    var upTo := Min(prev + MAX_ENTRIES_PER_MESSAGE, |p.leader.log|);
    && q.leader.role == Leader && q.leader.term == p.leader.term && q.leader.log == p.leader.log
    && q.follower.term == p.leader.term
    && q.follower.log == Store(rules, p.follower.log, p.leader.log[prev..upTo])
    && q.follower.id in q.leader.nextIndex && Next(q) == upTo + 1
  }

  lemma RoundMoves(rules: Rules, p: Pair, commit: Index)
    requires Ready(p) && Acceptable(p)
    ensures Moved(rules, p, Round(rules, p, commit))
  {
    hide Matching, Store;
    AcceptableRequest(p, commit);
    var req := BuildAppend(p.leader.(broadcast := Some(Broadcast(commit, None))), p.follower.id);
    HandleAppendShape(rules, p.follower, req);
    if req.entries != [] {
      assert req.entries[|req.entries| - 1] == p.leader.log[req.prevLogIndex + |req.entries| - 1];
    }
  }

  /** `q` is what an accepted round makes of `p`: the follower holds the leader's log up to the new `next_index_`. */
  ghost predicate Advanced(rules: Rules, p: Pair, q: Pair)
    requires Ready(p)
  {
    && Ready(q) && Acceptable(q) && q.leader.log == p.leader.log
    && Next(q) == Min(Next(p) + MAX_ENTRIES_PER_MESSAGE, |p.leader.log| + 1)
    && (!rules.keepSuffix && Next(p) <= |p.leader.log| ==> q.follower.log == p.leader.log[..Next(q) - 1])
    && (Next(p) == |p.leader.log| + 1 ==> q.follower.log == p.follower.log)
  }

  lemma MovedReady(rules: Rules, p: Pair, q: Pair)
    requires Ready(p) && Acceptable(p) && Moved(rules, p, q)
    ensures Ready(q) && Acceptable(q)
  {
    var prev: Index := Next(p) - 1;
    AcceptableHolds(p);
    StoredMatches(rules, p.leader.log, p.follower.log, prev, Min(prev + MAX_ENTRIES_PER_MESSAGE, |p.leader.log|));
  }

  lemma MovedAdvances(rules: Rules, p: Pair, q: Pair)
    requires Ready(p) && Acceptable(p) && Moved(rules, p, q)
    ensures Advanced(rules, p, q)
  {
    hide Matching, Store;
    var prev: Index := Next(p) - 1;
    MovedReady(rules, p, q);
    AcceptableHolds(p);
    StoredPiece(rules, p.leader.log, p.follower.log, prev, Min(prev + MAX_ENTRIES_PER_MESSAGE, |p.leader.log|));
  }

  lemma AcceptedRound(rules: Rules, p: Pair, commit: Index)
    requires Ready(p) && Acceptable(p)
    ensures Advanced(rules, p, Round(rules, p, commit))
  {
    RoundMoves(rules, p, commit);
    MovedAdvances(rules, p, Round(rules, p, commit));
  }

  lemma StillMatches(leader: Log, follower: Log, log: Log, upTo: Index)
    requires Ascending(leader) && Ascending(follower) && Matching(leader, follower)
    requires upTo <= |leader| && (log == leader[..upTo] || log == follower)
    ensures Matching(leader, log) && Ascending(log)
  {
    if log == leader[..upTo] {
      forall i: Index {:trigger TermAt(leader, i), TermAt(log, i)} | 1 <= i <= |leader| && i <= |log|
        ensures leader[..i] == log[..i]
      {
      }
    }
  }

  // ---- How often a follower can reject ----

  function Terms(log: Log): set<Term>
  {
    set i | 0 <= i < |log| :: log[i].term
  }

  /** How many more rejections there can be: the terms of the follower's log up to `prev`, one more when `prev` is past its end. */
  function Patience(p: Pair): nat
    requires p.follower.id in p.leader.nextIndex
  {
    var prev: Index := Next(p) - 1;
    if prev > |p.follower.log| then |Terms(p.follower.log)| + 1 else |Terms(p.follower.log[..prev])|
  }

  lemma TermsShrink(log: Log, low: Index, high: Index)
    requires Ascending(log) && low <= |log| && 1 <= high <= |log| && TermAt(log, low) < TermAt(log, high)
    ensures |Terms(log[..low])| < |Terms(log[..high])|
  {
    var a, b, t := Terms(log[..low]), Terms(log[..high]), TermAt(log, high);
    assert low < high;
    assert log[..high][high - 1].term == t;
    forall x | x in a
      ensures x in b && x != t
    {
      var i :| 0 <= i < low && log[..low][i].term == x;
      assert log[..high][i].term == x && log[i].term <= log[low - 1].term;
    }
    Quorum.SubsetSize(a, b - {t});
  }

  lemma PatienceDrops(rules: Rules, p: Pair, commit: Index)
    requires Ready(p) && !Acceptable(p)
    ensures Patience(Round(rules, p, commit)) < Patience(p)
  {
    hide Round, Terms, Acceptable, Matching, HandleAppendEntries;
    RejectedRound(rules, p, commit);
    var q, log := Round(rules, p, commit), p.follower.log;
    if Next(p) - 1 > |log| {
      assert log[..Next(q) - 1] == log;
    } else {
      TermsShrink(log, Next(q) - 1, Next(p) - 1);
    }
  }

  lemma {:induction false} AcceptableAfter(rules: Rules, p: Pair, commits: seq<Index>)
    requires Ready(p) && |commits| >= Patience(p)
    ensures var q := Rounds(rules, p, commits); Ready(q) && Acceptable(q) && q.leader.log == p.leader.log
    decreases |commits|
  {
    if commits == [] {
      NoPatienceLeft(p);
    } else {
      var q := Round(rules, p, commits[0]);
      if Acceptable(p) {
        AcceptedRounds(rules, p, commits);
      } else {
        RejectedRound(rules, p, commits[0]);
        PatienceDrops(rules, p, commits[0]);
        AcceptableAfter(rules, q, commits[1..]);
      }
    }
  }

  lemma NoPatienceLeft(p: Pair)
    requires Ready(p) && Patience(p) == 0
    ensures Acceptable(p)
  {
    var prev: Index := Next(p) - 1;
    var log := p.follower.log;
    if 1 <= prev <= |log| {
      SomeTerm(log[..prev]);
    }
  }

  lemma SomeTerm(log: Log)
    requires log != []
    ensures |Terms(log)| >= 1
  {
    assert log[0].term in Terms(log);
  }

  /**
   Backtracking bound: against a fixed leader log a follower rejects at most D + 1 times in a row, D being the number
   of distinct terms in its own log.
   */
  lemma BacktrackingBound(rules: Rules, p: Pair, commits: seq<Index>)
    requires Ready(p) && |commits| >= |Terms(p.follower.log)| + 1
    ensures Acceptable(Rounds(rules, p, commits))
  {
    var prev: Index := Next(p) - 1;
    var log := p.follower.log;
    if prev <= |log| {
      forall t | t in Terms(log[..prev])
        ensures t in Terms(log)
      {
        var i :| 0 <= i < prev && log[..prev][i].term == t;
        assert log[i].term == t;
      }
      Quorum.SubsetSize(Terms(log[..prev]), Terms(log));
    }
    AcceptableAfter(rules, p, commits);
  }

  // ---- Catching up ----

  /** Once a request is accepted no later one is rejected, and `next_index_` moves on by 128 a round up to the end of the log. */
  lemma {:induction false} AcceptedRounds(rules: Rules, p: Pair, commits: seq<Index>)
    requires Ready(p) && Acceptable(p)
    ensures var q := Rounds(rules, p, commits);
            && Ready(q) && Acceptable(q) && q.leader.log == p.leader.log
            && Next(q) == Min(Next(p) + MAX_ENTRIES_PER_MESSAGE * |commits|, |p.leader.log| + 1)
    ensures var q := Rounds(rules, p, commits);
            !rules.keepSuffix && commits != [] && Next(p) <= |p.leader.log| ==> q.follower.log == p.leader.log[..Next(q) - 1]
    decreases |commits|
  {
    if commits != [] {
      var q := Round(rules, p, commits[0]);
      AcceptedRound(rules, p, commits[0]);
      AcceptedRounds(rules, q, commits[1..]);
      LastRoundKeeps(rules, q, commits[1..]);
    }
  }

  /** With nothing left to send the follower's log stays as it is. */
  lemma {:induction false} LastRoundKeeps(rules: Rules, p: Pair, commits: seq<Index>)
    requires Ready(p) && Acceptable(p)
    ensures Next(p) == |p.leader.log| + 1 ==> Rounds(rules, p, commits).follower.log == p.follower.log
    decreases |commits|
  {
    if commits != [] && Next(p) == |p.leader.log| + 1 {
      AcceptedRound(rules, p, commits[0]);
      LastRoundKeeps(rules, Round(rules, p, commits[0]), commits[1..]);
    }
  }

  /** `ceil(entries / 128)`. */
  function RoundsFor(entries: nat): nat
  {
    (entries + MAX_ENTRIES_PER_MESSAGE - 1) / MAX_ENTRIES_PER_MESSAGE
  }

  /** As many rounds of 128 as the entries need, and not one more. */
  lemma RoundsForIsCeiling(entries: nat)
    ensures 128 * RoundsFor(entries) >= entries && (entries > 0 ==> 128 * (RoundsFor(entries) - 1) < entries)
  {
  }

  lemma RoundsCover(entries: nat, rounds: nat)
    requires rounds >= RoundsFor(entries)
    ensures MAX_ENTRIES_PER_MESSAGE * rounds >= entries
  {
    var n := RoundsFor(entries);
    assert 128 * n >= entries && 128 * rounds >= 128 * n;
  }

  lemma AcceptableHolds(p: Pair)
    requires Ready(p) && Acceptable(p)
    ensures Next(p) - 1 <= |p.follower.log| && p.leader.log[..Next(p) - 1] == p.follower.log[..Next(p) - 1]
  {
    var prev: Index := Next(p) - 1;
    if prev > 0 {
      assert TermAt(p.leader.log, prev) >= 1;
      assert p.leader.log[..prev] == p.follower.log[..prev];
    }
  }

  /**
   Catch-up: from an accepted request on, after `ceil((last - next + 1) / 128)` rounds the follower holds the whole log
   of the leader; with the code's own truncation it is equal to it as soon as any entry had to be sent.
   */
  lemma CatchUp(rules: Rules, p: Pair, commits: seq<Index>)
    requires Ready(p) && Acceptable(p) && |commits| >= RoundsFor(|p.leader.log| + 1 - Next(p))
    ensures var q := Rounds(rules, p, commits);
            && p.leader.log <= q.follower.log && q.leader.log == p.leader.log
            && (!rules.keepSuffix && Next(p) <= |p.leader.log| ==> q.follower.log == p.leader.log)
  {
    hide Rounds, RoundsFor, Ready, Acceptable, Next;
    NextWithin(p);
    AcceptedRounds(rules, p, commits);
    var q := Rounds(rules, p, commits);
    RoundsCover(|p.leader.log| + 1 - Next(p), |commits|);
    AcceptableHolds(q);
    assert p.leader.log[..|p.leader.log|] == p.leader.log;
  }

  lemma NextWithin(p: Pair)
    requires Ready(p)
    ensures p.follower.id in p.leader.nextIndex && 1 <= Next(p) <= |p.leader.log| + 1
  {
  }

  lemma {:induction false} RoundsConcat(rules: Rules, p: Pair, a: seq<Index>, b: seq<Index>)
    requires p.follower.id in p.leader.nextIndex
    ensures Rounds(rules, p, a + b) == Rounds(rules, Rounds(rules, p, a), b)
    decreases |a|
  {
    if a == [] {
      assert a + b == b;
    } else {
      assert (a + b)[1..] == a[1..] + b;
      RoundsConcat(rules, Round(rules, p, a[0]), a[1..], b);
    }
  }

  lemma RejectedThenAccepted(rules: Rules, p: Pair, a: seq<Index>, b: seq<Index>)
    requires Ready(p) && |a| >= |Terms(p.follower.log)| + 1 && |b| >= RoundsFor(|p.leader.log|)
    ensures p.leader.log <= Rounds(rules, p, a + b).follower.log
  {
    BacktrackingBound(rules, p, a);
    ReadyAfter(rules, p, a);
    CatchUp(rules, Rounds(rules, p, a), b);
    RoundsConcat(rules, p, a, b);
  }

  /** The repair loop ends: at most D + 1 rejections, then one round per 128 entries of the leader's log. */
  lemma RepairEnds(rules: Rules, p: Pair, commits: seq<Index>)
    requires Ready(p) && |commits| >= |Terms(p.follower.log)| + 1 + RoundsFor(|p.leader.log|)
    ensures p.leader.log <= Rounds(rules, p, commits).follower.log
  {
    var n := |Terms(p.follower.log)| + 1;
    assert commits[..n] + commits[n..] == commits;
    RejectedThenAccepted(rules, p, commits[..n], commits[n..]);
  }

  lemma {:induction false} ReadyAfter(rules: Rules, p: Pair, commits: seq<Index>)
    requires Ready(p)
    ensures var q := Rounds(rules, p, commits); Ready(q) && q.leader.log == p.leader.log
    decreases |commits|
  {
    if commits != [] {
      if Acceptable(p) {
        AcceptedRound(rules, p, commits[0]);
      } else {
        RejectedRound(rules, p, commits[0]);
      }
      ReadyAfter(rules, Round(rules, p, commits[0]), commits[1..]);
    }
  }

  /** At any moment of any run, a leader and a peer whose term is not ahead are such a pair. */
  lemma RepairableInRuns(rules: Rules, ids: set<NodeId>, actions: seq<Action>, i: nat, a: NodeId, b: NodeId)
    requires rules.recheckCandidate && ValidMembers(ids) && i <= |actions| && a in ids && b in ids
    requires var l := At(rules, ids, actions, i, a);
             l.role == Leader && b in l.nextIndex && At(rules, ids, actions, i, b).term <= l.term
    ensures Ready(Pair(At(rules, ids, actions, i, a), At(rules, ids, actions, i, b)))
  {
    var l, f := At(rules, ids, actions, i, a), At(rules, ids, actions, i, b);
    LogOrder(rules, ids, actions, i, a);
    LogOrder(rules, ids, actions, i, b);
    RunSound(rules, ids, actions[..i]);
    AtOk(rules, ids, actions, i, a);
    forall k: Index {:trigger TermAt(l.log, k), TermAt(f.log, k)} |
        1 <= k <= |l.log| && k <= |f.log| && TermAt(l.log, k) == TermAt(f.log, k)
      ensures l.log[..k] == f.log[..k]
    {
      LogMatching(rules, ids, actions, i, a, i, b, k);
    }
  }
}
