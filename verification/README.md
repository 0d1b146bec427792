# A model of a replicated key-value store

This project models a small etcd-like server written in C++17 and proves what its parts are for. It covers

- the Raft core: one node (`RaftNode.dfy`, `RaftLog.dfy`, with `NodeSpec.dfy` saying what each handler does), a cluster
  of nodes over a network that loses, repeats, delays and reorders messages (`Cluster.dfy`), what each handler does seen
  from outside (`HandlerLaws.dfy`), what every run keeps under any rules (`AllRules.dfy`, `Validity.dfy`), safety over whole runs (`History.dfy`, `LogSafety.dfy`, `CommitSafety.dfy`,
  `RunSafety.dfy`), which rules each property needs (`Necessity.dfy`, `Clipping.dfy`), the log-repair loop
  (`Repair.dfy`), and commit and application at a follower (`Application.dfy`);
- the multi-version store and its shadow map (`KeyOrder.dfy`, `Mvcc.dfy`, `KvStore.dfy`);
- the byte formats and recovery: CRC-32 (`Crc32.dfy`, `CrcCheck.dfy`), write-ahead log (`Wal.dfy`, `WalFile.dfy`), backend file
  (`Backend.dfy`), RPC messages (`RpcCodec.dfy`), snapshot plus replay (`Recovery.dfy`), the layouts
  spelled out (`Layouts.dfy`), on top of `ByteOrder.dfy`
  and `Frames.dfy`; `Types.dfy` and `Quorum.dfy` are shared.

Objects of the source are classes whose methods update fields; each method is proved against a function on values, and
the theorems are about those functions. `dafny verify dfyconfig.toml` checks everything.

## How the cluster is modelled

A locked method or a handler call is one atomic step. `StartElection` and `BroadcastHeartbeat` give up the lock at every
call over the network, so they are split there, and between two parts any other step of the node may happen. A message
stays in the network for ever, so it may arrive late, often, out of order or never; a call may also fail. A run is any
sequence of actions from the initial state; theorems speak about any two moments of a run. Membership is fixed, node
ids are not 0, there is no restart, and logs start at index 1.

## Where the code falls short of the protocol

`NodeSpec.Rules` has one switch per place; `AS_WRITTEN` is the code and `REPAIRED` the protocol.

1. `recheckCandidate`: `StartElection` becomes leader (src/raft/raft.cpp:173) without checking that it is still a
   candidate in the term it asked votes for (line 137).
2. `recheckLeader`: the heartbeat loop (lines 184-206) goes on to the next peers after the node was deposed in the middle
   of it, and stamps the requests with the new term (line 201).
3. `countOnce`: the leader's own index is in the sorted list twice (lines 267 and 269-271 with 332).
4. `clampHeartbeat`: an accepted empty request is credited with the follower's whole log (line 227).
5. `keepSuffix`: a follower always truncates (lines 593-597), so a late copy of an old request cuts off acknowledged
   entries; and it bounds its commit index by its whole log (line 601). The repaired rule truncates at the first
   conflict, bounds the commit index by the last entry of the request, and never lowers it.

Which of them each property of Figure 3 of the extended Raft paper needs, exactly: Leader Append-Only needs none; Election
Safety and Log Matching hold in all runs if and only if the first is repaired; Leader Completeness and State Machine
Safety if and only if all five are (`Necessity.dfy`). One vote per term, the order of the logs, the follower commit bound
and the conditions for exactly-once application hold under all rules, the code as written included; of `Repair.dfy` only
`RepairableInRuns` needs a rule, the first.

Other places where the code does not do what it or its comments promise; the model follows the code:

- WAL checksum ranges: the writer skips the type byte (src/wal/wal.cpp:222), the reader starts at it and stops four bytes
  early (308-309). `oneRange` says which is meant.
- Compaction keeps "the last version up to rev" so that reads at rev still work (src/storage/mvcc.cpp:62-63), but reads
  skip tombstones (128), so one situation loses a read (`Mvcc.LosesRead`).
- `KVStore::Deserialize` announces to clear the store (src/storage/kvstore.cpp:202) and overlays it.
- Snapshots are labelled with the last index of the log, not the last applied one (src/server/etcd_server.cpp:214-222);
  the WAL then skips the entries in between (`Recovery.LabelDecides`).
- `WAL::TruncateFrom` removes the files before the current one and leaves the current one in place
  (src/wal/wal.cpp:474-481), so entries are read back twice; this is harmless (`Recovery.RestartRecovers`).
- Not cutting off applied entries does not make application exact: the commit index can be left past the end of the log,
  and the next batch is clipped (`Clipping.ClippedBatch`). `Application.KeepsOrder` and `KeepsExact` are the guards on
  (node, request) that decide.

## Model

| member | source | states |
|---|---|---|
| AllRules.OneVotePerTerm | src/raft/raft.cpp:512-545 | under any rules, two granted votes of one voter in one term went to the same candidate |
| AllRules.LogOrder | src/raft/raft.cpp:314-338 | under any rules, indices count up from 1; terms are positive, never decrease and never exceed the node's term |
| AllRules.LeaderAppendOnly | src/raft/raft.cpp:314-338 | under any rules, while a node leads a term its log only grows |
| AllRules.RunSound | src/raft/raft.cpp:184-210 | under any rules, requests carry consecutive entries of ascending terms that follow prev, and a leader's next_index_ never passes last + 1 |
| Validity.OnlyProposedIsApplied | src/raft/raft.cpp:314-338 | under any rules, every entry of a log or of a delivered batch carries the kind, key, value, lease and conf change of a proposal made in the run, to a node that then led the entry's term and whose log ended right before the entry's index |
| Validity.KnownLeaderHasLed | src/raft/raft.cpp:106-134 | under any rules, whoever a node knows as leader is a node of the cluster and has led at some moment of the run |
| HandlerLaws.ElectedByMoreThanHalf | src/raft/raft.cpp:153-176 | the count makes a leader exactly when more than half of the nodes voted for it; a new leader starts every peer at last + 1 with nothing acknowledged |
| HandlerLaws.ElectedInRuns | src/raft/raft.cpp:153-176 | the same at any moment of any run, counted in nodes of the cluster |
| HandlerLaws.VoteCounted | src/raft/raft.cpp:160-170 | one answer in the vote loop: a later term ends the election, a granted vote is added, anything else is passed over |
| HandlerLaws.FirstVoteGranted | src/raft/raft.cpp:512-545 | a node that has just started grants the first vote it is asked for |
| HandlerLaws.RunStanding | src/raft/raft.cpp:106-134 | in every run a candidate has voted for itself and knows no leader, and a leader knows itself |
| HandlerLaws.CommittedByMoreThanHalf | src/raft/raft.cpp:262-284 | an entry of the leader's own term is committed exactly when more than half of the nodes hold it and not more than half are credited with entries past the leader's log; the code counts the leader twice |
| HandlerLaws.CommittedInRuns | src/raft/raft.cpp:262-284 | the same at any moment of any run |
| HandlerLaws.RequestSent | src/raft/raft.cpp:184-206 | prev, term, commit snapshot and exactly the next min(128, rest) entries of the sender's log |
| HandlerLaws.AppendAnswered | src/raft/raft.cpp:547-608 | the answer to a request, exactly: the higher term, success, the length of the log afterwards, conflict fields; and the known leader |
| HandlerLaws.CommitLearned | src/raft/raft.cpp:599-603 | what an accepted request does to the commit index, and that what became committed is handed over at once |
| HandlerLaws.ResponseTaken | src/raft/raft.cpp:213-257 | what an answer changes of what the leader keeps about that peer, and that nothing else changes |
| HandlerLaws.DeposedByAnswer | src/raft/raft.cpp:213-216 | in every run a leader that waits for a peer which answered in a later term can receive that answer, and then follows in that term |
| HandlerLaws.CommitSpreads | src/raft/raft.cpp:178-206 | a heartbeat that finds its prev at a peer leaves the peer with as much committed and applied as the leader had committed |
| HandlerLaws.ProposalAdded | src/raft/raft.cpp:314-338 | a leader adds exactly the proposed command, in its term, at the next index; anybody else does nothing |
| LogSafety.ElectionSafety | src/raft/raft.cpp:136-176 | in every run with candidacy rechecked, two leaders of one term, at any two moments, are the same node |
| LogSafety.LogMatching | src/raft/raft.cpp:547-597 | with candidacy rechecked, two logs, at any two moments of a run, that hold an entry of equal index and term are equal up to it, with the code's own truncation and its deposed senders |
| LogSafety.OneWinner | src/raft/raft.cpp:153-175 | a node with a majority of the votes of a term is the only one that can have been elected in it |
| LogSafety.RunKeepsInvariant | src/raft/raft.cpp:40-77 | every step of every run with candidacy rechecked keeps the invariant behind those theorems |
| LogSafety.StoreCuts | src/raft/raft.cpp:593-597 | storing an accepted request as the code does leaves exactly the log its entries were taken from, up to the last of them |
| LogSafety.StoreKeeps | src/raft/raft.cpp:593-597 | the repaired rule loses nothing but a suffix that starts at an entry conflicting with that log |
| RunSafety.LeaderCompleteness | src/raft/raft.cpp:262-312 | repaired: what any node has committed is in the log of every leader of a later term, and of the same term from then on |
| RunSafety.StateMachineSafety | src/raft/raft.cpp:286-312 | repaired: of what two nodes have applied, at any two moments, one extends the other |
| RunSafety.AppliedExactlyOnce | src/raft/raft.cpp:286-312 | repaired: the commit index never drops and stays within the log, committed entries never change, and the delivered batches together are log[1..last_applied] |
| CommitSafety.ChosenInLaterLeaders | src/raft/raft.cpp:528-541 | an entry of its own term that a majority accepted is in every later leader's log: the vote's up-to-date check and the own-term commit rule together |
| CommitSafety.UpToDateKeeps | src/raft/raft.cpp:534-536 | a candidate that passes the up-to-date check has the chosen entries the voter has, unless a later leader departed from them |
| CommitSafety.CommittedAgree | src/raft/raft.cpp:262-284 | two committed logs never conflict |
| CommitSafety.QuorumIsChosen | src/raft/raft.cpp:275-281 | an index picked by the leader in its own term has been accepted by a majority |
| Necessity.SafeExactlyWhenRepaired | src/raft/raft.cpp:136-312 | State Machine Safety holds in all runs of all clusters if and only if all five rules are repaired |
| Necessity.CompleteExactlyWhenRepaired | src/raft/raft.cpp:136-312 | Leader Completeness holds in all runs of all clusters if and only if all five rules are repaired |
| Necessity.OneLeaderExactlyWhenRechecked | src/raft/raft.cpp:153-176 | Election Safety holds in all runs of all clusters if and only if candidacy is rechecked |
| Necessity.MatchExactlyWhenRechecked | src/raft/raft.cpp:153-176 | Log Matching holds in all runs of all clusters if and only if candidacy is rechecked |
| Necessity.AsWrittenDiverges | src/raft/raft.cpp:262-312 | the code as written has runs in which two nodes apply different entries at one index |
| Necessity.CountingTwice | src/raft/raft.cpp:267-271 | a run of three nodes that diverges because a leader counts itself twice |
| Necessity.LateDuplicate | src/raft/raft.cpp:593-597 | a run that diverges because a late copy of a request cuts acknowledged entries |
| Necessity.CreditedTail | src/raft/raft.cpp:225-228 | a run that diverges because an empty heartbeat credits an unmatched tail |
| Necessity.StaleVictory | src/raft/raft.cpp:153-175 | a run that diverges because a candidate of an old term becomes leader of a newer one |
| Necessity.StaleSender | src/raft/raft.cpp:184-216 | a run that diverges because a deposed leader goes on sending in the new term |
| NodeSpec.VoteGrantedExactly | src/raft/raft.cpp:512-545 | when exactly a vote is granted, and the term of the answer |
| NodeSpec.AdvanceCommitMonotone | src/raft/raft.cpp:275-283 | a leader's commit index never drops and moves only to an entry of its own log and term |
| Quorum.MajoritiesIntersect | src/raft/raft.cpp:155-155 | any two vote sets of size (peers + 1) / 2 + 1 share a node |
| Quorum.MajorityIsMoreThanHalf | src/raft/raft.cpp:155-155 | and a vote set has that size exactly when it is more than half of the nodes |
| Quorum.PickIsLargestReached | src/raft/raft.cpp:273-277 | the element at majority - 1 of the list sorted downwards is the largest index that a majority of the list has reached |
| Quorum.SortPermutes | src/raft/raft.cpp:273-273 | sorting keeps the elements and every count over them |
| Quorum.PicksOverlap | src/raft/raft.cpp:262-284 | with every node counted once, two picks rest on node sets that share a node |
| Quorum.QuorumIndexUnique | src/raft/raft.cpp:275-277 | there is only one largest index reached by a majority |
| Repair.ScanFindsRunStart | src/raft/raft.cpp:570-586 | the follower's downward scan returns the start of the equal-term run that ends at prev, or last + 1 when prev is past the end |
| Repair.RejectionLowers | src/raft/raft.cpp:229-257 | every rejection lowers next_index_ and moves to a prev whose follower term is smaller than the conflict term |
| Repair.RejectionTarget | src/raft/raft.cpp:229-257 | exactly where a rejection inside the follower's log sends next_index_: to the leader's first entry of the follower's term at prev if it has one up to prev, else to the start of the follower's run of that term |
| Repair.ResentFromConflictTerm | src/raft/raft.cpp:471-510 | no over-backtracking: below the new next_index_ the follower has only older terms and the leader not the conflict term, and at it one of them has that term |
| Repair.BacktrackingBound | src/raft/raft.cpp:229-257 | at most D + 1 rejections in a row, D being the number of distinct terms in the follower's log |
| Repair.AcceptedRounds | src/raft/raft.cpp:220-224 | once accepted no later round is rejected, and next_index_ moves on by 128 a round up to the end of the log |
| Repair.CatchUp | src/raft/raft.cpp:184-228 | after ceil((last - next + 1) / 128) accepted rounds the follower holds the leader's log; with the code's truncation it equals it if anything was sent |
| Repair.RepairEnds | src/raft/raft.cpp:184-257 | the whole loop ends: D + 1 rejections, then one round per 128 entries |
| Repair.RepairableInRuns | src/raft/raft.cpp:117-134 | any leader and peer of any run with candidacy rechecked meet the premises of the repair theorems |
| Application.CommitBoundExactly | src/raft/raft.cpp:592-603 | a request moves the commit index past prev + entries exactly when it is accepted and empty, the code's own bound is used, and both leader_commit and the log go further |
| Application.FollowerCommitBound | src/raft/raft.cpp:182-206 | under any rules, a request sent while the sender's commit index was within its log never moves its receiver's commit index past prev + entries, however late it arrives |
| Application.AppendNeverDropped | src/raft/raft_log.h:46-55 | in every run under any rules the batch of an accepted request continues the truncated log, so Append's silent rejection is unreachable |
| Application.AppendInOrder | src/raft/raft.cpp:592-606 | a follower still has delivered log[1..last_applied] after a request exactly when the request was refused, was empty, or repeats the applied entries it overlaps (and, for the repaired bound, its commit index fits) |
| Application.AppendExact | src/raft/raft.cpp:592-606 | and last_applied <= commit <= last index exactly when besides the commit index is not left past the end of what is stored |
| Application.DeliveredInOrder | src/raft/raft.cpp:286-312 | under any rules, the delivered batches are log[1..last_applied] at all moments of a run if and only if every request handled meets that guard and the node never applies with its commit index past its log |
| Application.ExactlyOnce | src/raft/raft.cpp:286-312 | and with last_applied <= commit <= last index at all moments if and only if every request handled meets the stronger guard |
| Clipping.ClippedBatch | src/raft/raft.cpp:286-312 | a run of the code that never cuts applied entries and still delivers one entry for a last_applied_ of 2 |
| RaftNodes.RaftNode.constructor | src/raft/raft_log.h:162-162 | a new node is in the initial state, with an empty log starting at 1 |
| RaftNodes.RaftNode.BecomeFollowerLocked | src/raft/raft.cpp:94-104 | the whole new state is that of the specification |
| RaftNodes.RaftNode.BecomeCandidateLocked | src/raft/raft.cpp:106-115 | likewise |
| RaftNodes.RaftNode.BecomeLeaderLocked | src/raft/raft.cpp:117-134 | likewise; the loop over the peers gives every peer last + 1 and 0 and nobody else anything |
| RaftNodes.RaftNode.StartElection | src/raft/raft.cpp:136-151 | the state and the request up to the first call |
| RaftNodes.RaftNode.OnVoteResponse | src/raft/raft.cpp:160-170 | the state after one turn of the vote loop |
| RaftNodes.RaftNode.EndElection | src/raft/raft.cpp:173-175 | the state after the count |
| RaftNodes.RaftNode.OnRequestVote | src/raft/raft.cpp:512-545 | new state and answer are those of the specification |
| RaftNodes.RaftNode.SendAppend | src/raft/raft.cpp:184-210 | the request built for a peer, at most 128 entries |
| RaftNodes.RaftNode.FindConflictTerm | src/raft/raft.cpp:471-510 | on a log with ascending terms scan and binary search return the first index of the term, and the last fallback is dead |
| RaftNodes.RaftNode.OnAppendResponse | src/raft/raft.cpp:213-257 | the state after a response, all branches of the backtracking included |
| RaftNodes.RaftNode.Propose | src/raft/raft.cpp:314-338 | log, index and the node's own match entry after a proposal |
| RaftNodes.RaftNode.MatchIndices | src/raft/raft.cpp:266-271 | how many elements of the list reach an index equals the count over nodes, the leader twice |
| RaftNodes.RaftNode.AdvanceCommitIndex | src/raft/raft.cpp:262-284 | the new commit index is that of the specification |
| RaftNodes.RaftNode.ApplyCommittedEntries | src/raft/raft.cpp:286-312 | delivered batches and last_applied_ |
| RaftNodes.RaftNode.ConflictStart | src/raft/raft.cpp:576-586 | the loop computes the specified scan |
| RaftNodes.RaftNode.OnAppendEntries | src/raft/raft.cpp:547-608 | new state and answer are those of the specification, on every branch |
| RaftLogs.RaftLog.TermAtIndex | src/raft/raft_log.h:30-36 | the lookup by offset finds exactly the entry with that index |
| RaftLogs.RaftLog.Append | src/raft/raft_log.h:39-43 | one entry is added, whatever its index |
| RaftLogs.RaftLog.AppendBatch | src/raft/raft_log.h:46-55 | a batch whose first index continues the log is added, any other dropped |
| RaftLogs.RaftLog.EntriesFrom | src/raft/raft_log.h:58-68 | the entries from an index on, cut at the limit |
| RaftLogs.RaftLog.Slice | src/raft/raft_log.h:71-79 | exactly the entries with index in [start, end) |
| RaftLogs.RaftLog.TruncateFrom | src/raft/raft_log.h:82-93 | the new first index and what is left |
| RaftLogs.RaftLog.TruncateTo | src/raft/raft_log.h:96-106 | likewise, for conflict removal |
| Mvcc.CompactionPreservesReads | src/storage/mvcc.cpp:61-78 | for increasing revisions, compaction leaves all reads at 0 and from rev on unchanged if and only if the kept version is not a tombstone of a key that is live now and was live before |
| Mvcc.RewrittenKeyLosesRead | src/storage/mvcc.cpp:61-78 | put, delete, put, compact at the deletion: a read that was there is gone |
| Mvcc.CompactionPreservesLookups | src/storage/mvcc.cpp:238-252 | for the whole store: all point reads at 0 and from rev on are unchanged if and only if no key is in that situation |
| Mvcc.WritesAfterCompaction | src/storage/mvcc.cpp:20-54 | on a kept key any sequence of later puts and deletes adds the versions it would have added without compaction, numbers and creation revisions included |
| Mvcc.CompactionKeepsHistory | src/storage/mvcc.cpp:61-78 | compacted histories stay well-formed and increasing |
| Mvcc.WritesKeepHistory | src/storage/mvcc.cpp:20-54 | so do written ones: one creation revision, numbers counting up |
| Mvcc.VisibleIsNewest | src/storage/mvcc.cpp:126-133 | the backward search finds the newest live version up to the revision |
| Mvcc.FindKeepUntil | src/storage/mvcc.cpp:66-72 | the loop finds the last version with revision at most rev |
| Mvcc.ReadKey | src/storage/mvcc.cpp:118-135 | the read of one key: nothing when deleted now, else newest or newest live up to the revision |
| Mvcc.MvccStore.Put | src/storage/mvcc.cpp:84-96 | exactly one history grows, by the right version |
| Mvcc.MvccStore.Delete | src/storage/mvcc.cpp:98-110 | likewise, by a tombstone |
| Mvcc.MvccStore.Get | src/storage/mvcc.cpp:112-145 | the reference read |
| Mvcc.ReadsShowWrites | src/storage/mvcc.cpp:84-145 | in a store built by any writes to any keys, every read shows one write to its key, and which: its value, lease and revision, the revision of the key's first write, and how many writes there were up to it; or nothing, when no write is shown |
| Mvcc.ErasedExactly | src/storage/mvcc.cpp:238-252 | compaction drops a key exactly when its last write is a deletion at or before the revision |
| Mvcc.RangeEnds | src/storage/mvcc.cpp:147-184 | a range includes its start and excludes its end |
| Mvcc.MvccStore.Range | src/storage/mvcc.cpp:147-184 | in key order and cut at limit, exactly the keys of the range whose point read finds something, with what it finds |
| Mvcc.MvccStore.PrefixRange | src/storage/mvcc.cpp:186-224 | the same for the keys with a prefix, although the loop stops at the first other key |
| Mvcc.MvccStore.Keys | src/storage/mvcc.cpp:226-236 | the keys that are not deleted, in order |
| Mvcc.MvccStore.Compact | src/storage/mvcc.cpp:238-252 | every key is compacted, and exactly those with only an old tombstone left disappear |
| Mvcc.ScanUnique | src/storage/mvcc.cpp:147-224 | the point reads determine a scan |
| KeyOrder.PrefixBlock | src/storage/mvcc.cpp:191-193 | keys with a prefix form one block of the order |
| KeyOrder.FirstDifferenceDecides | src/storage/mvcc.cpp:147-224 | keys are ordered by their first different byte, as an unsigned number, and a key is below its extensions |
| KeyOrder.OrderUnique | src/storage/mvcc.cpp:241-251 | a set of keys has one ascending order |
| KvStores.KvStore.Put | src/storage/kvstore.cpp:27-35 | index and backend after a put still agree; the plain map is updated at the key |
| KvStores.KvStore.PutWithPrev | src/storage/kvstore.cpp:37-60 | also returns the plain map's value before and after |
| KvStores.KvStore.Delete | src/storage/kvstore.cpp:62-70 | agreement, and the key leaves the plain map |
| KvStores.KvStore.Get | src/storage/kvstore.cpp:72-88 | the newest read is the plain map's |
| KvStores.KvStore.Compact | src/storage/kvstore.cpp:123-126 | agreement, and the plain map is unchanged |
| KvStores.KvStore.RestoreFromEntries | src/storage/kvstore.cpp:128-140 | agreement, and the plain map is that of applying the entries in order |
| KvStores.KvStore.Serialize | src/storage/kvstore.cpp:142-168 | the bytes of all pairs in key order |
| KvStores.KvStore.Deserialize | src/storage/kvstore.cpp:170-212 | agreement, and exactly the snapshot's pairs are overlaid |
| KvStores.SnapshotRoundTrip | src/storage/kvstore.cpp:142-212 | the pairs of a serialized store are the store |
| KvStores.AgreesAfterCompact | src/storage/kvstore.cpp:123-126 | no compaction takes away the newest version of a live key |
| KvStores.ReplayAgreesWithLive | src/storage/kvstore.cpp:128-140 | replay from an empty store gives every key the versions, values and leases of live application |
| KvStores.WriteRevisions | src/storage/kvstore.cpp:27-140 | a replayed write leaves a version that carries the entry's index, a live one the number of the write |
| KvStores.SameNewestRead | src/storage/kvstore.cpp:72-88 | so newest reads agree in value, version and lease |
| Recovery.RecoveryEqualsReplay | src/wal/wal.cpp:465-471 | a snapshot of log[1..n] and a replay of log[i..m] give for every log the map of log[1..m] if and only if i <= n + 1 |
| Recovery.ReplayRecovers | src/storage/kvstore.cpp:128-140 | so does every replay that skips nothing, however often it jumps back and repeats |
| Recovery.RestartRecovers | src/server/etcd_server.cpp:43-57 | over every run of batches and snapshots a restart rebuilds the map of the running server, if no snapshot label is past the entry after the last applied one |
| Recovery.LabelDecides | src/server/etcd_server.cpp:214-222 | after any run with sound labels, a snapshot and a next batch of any size, a restart recovers whatever the batch if and only if the label is at most applied + 1 |
| Recovery.ProcessRaftEntries | src/server/etcd_server.cpp:154-205 | the effect on the store: the plain map, and the version index of live application |
| Recovery.EtcdServer.RaftReadyHandler | src/server/etcd_server.cpp:131-142 | a batch is applied and logged |
| Recovery.EtcdServer.SnapshotTurn | src/server/etcd_server.cpp:207-225 | one turn of the snapshot loop, threshold included |
| Recovery.EtcdServer.Restart | src/server/etcd_server.cpp:43-57 | the store built from snapshot and log |
| Crc32.Crc.Update | src/wal/wal.cpp:37-42 | the table-driven loop computes the bit-at-a-time division |
| Crc32.InitTable | src/wal/wal.cpp:18-31 | every entry is eight division steps on its index |
| Crc32.Compute | src/wal/wal.cpp:48-52 | the CRC-32 of section 8 of RFC 1952 |
| CrcCheck.CheckValue | src/wal/wal.cpp:18-52 | the checksum of "123456789" is 0xCBF43926 |
| Crc32.TableStepDivides | src/wal/wal.cpp:40-40 | one table look-up does eight division steps, for any polynomial |
| Crc32.FeedConcat | src/wal/wal.cpp:37-42 | the register splits over concatenation |
| Crc32.FeedBitsBijective | src/wal/wal.cpp:37-42 | for each message the register step is undone by an inverse, in both orders |
| Crc32.ByteStepBijective | src/wal/wal.cpp:40-40 | for each byte the register step is a bijection |
| Crc32.BurstDetected | src/wal/wal.cpp:37-42 | a change confined to 32 consecutive bits always changes the register |
| Crc32.FourBytesDetected | src/wal/wal.cpp:37-52 | a change confined to at most four consecutive bytes always changes the checksum |
| Wal.SerializeEntry | src/wal/wal.cpp:175-234 | the record of an entry |
| Wal.DeserializeEntry | src/wal/wal.cpp:236-318 | read back from anywhere in a buffer, a record gives its entry exactly when the reader's checksum range matches the writer's |
| WalFiles.ReadFile | src/wal/wal.cpp:371-389 | from any beginning of a stream of records the loop visits exactly the complete ones and returns those that survive |
| WalFiles.EverythingSurvives | src/wal/wal.cpp:221-223 | with one checksum range every entry comes back |
| WalFiles.AtMostOneSurvives | src/wal/wal.cpp:307-315 | with the code's two ranges, of all entries whose records differ in their last four bytes only, at most one survives |
| WalFiles.AtMostOneLeaseSurvives | src/wal/wal.cpp:307-315 | in particular, of all leases that agree in their low half at most one lets an entry survive |
| WalFiles.WalLog.AppendEntries | src/wal/wal.cpp:320-341 | exactly the entries with a new index are added to the current file |
| WalFiles.WalLog.ReadAllEntries | src/wal/wal.cpp:348-393 | the survivors of all files, oldest first; last_index_ becomes the largest index seen |
| WalFiles.WalLog.TruncateFrom | src/wal/wal.cpp:456-495 | the files and the last index afterwards: older files emptied, the current one left, a new one with what is kept |
| Frames.CompleteFits | src/wal/wal.cpp:372-380 | the complete frames are those that end within the buffer |
| Layouts.BodyLayout | src/wal/wal.cpp:175-234 | order, width and byte order of the fields of a record's body |
| Layouts.RecordLayout | src/wal/wal.cpp:175-234 | length, type byte 0, body, checksum of the body |
| Layouts.FileLayout | src/storage/backend.cpp:95-117 | the eight bytes of the header, then the pairs |
| Layouts.LoadableLimits | src/storage/backend.cpp:58-90 | keys of 1 byte to 1 MiB and values up to 64 MiB are loaded |
| Layouts.SnapshotLayout | src/storage/kvstore.cpp:142-168 | the number of pairs, then the pairs |
| Layouts.VoteRequestLayout | src/raft/tcp_transport.cpp:430-436 | message type, order, width and byte order of the fields |
| Layouts.VoteResponseLayout | src/raft/tcp_transport.cpp:264-268 | likewise |
| Layouts.AppendRequestLayout | src/raft/tcp_transport.cpp:467-491 | likewise |
| Layouts.AppendResponseLayout | src/raft/tcp_transport.cpp:310-317 | likewise |
| Layouts.EntryLayout | src/raft/tcp_transport.cpp:467-491 | likewise for an entry of a request, conf change included |
| Backends.Backend.FlushToDisk | src/storage/backend.cpp:95-117 | header and all pairs in key order |
| Backends.Backend.LoadFromDisk | src/storage/backend.cpp:36-93 | any beginning of a flushed file yields exactly its complete leading pairs, up to the first with an inadmissible length |
| Backends.FileRoundTrip | src/storage/backend.cpp:36-135 | a store of admissible pairs comes back unchanged |
| RpcCodec.SendAppendRequest | src/raft/tcp_transport.cpp:467-491 | an AppendEntries request arrives as sent, conf changes exactly with the entries of that type |
| RpcCodec.SendVoteRequest | src/raft/tcp_transport.cpp:430-436 | a RequestVote request arrives as sent |
| RpcCodec.SendAppendResponse | src/raft/tcp_transport.cpp:310-317 | so does its response |
| RpcCodec.SendVoteResponse | src/raft/tcp_transport.cpp:264-268 | and that of a vote |
| RpcCodec.BinaryReader.ReadAppendRequest | src/raft/tcp_transport.cpp:270-296 | decoding consumes every byte |
| RpcCodec.BinaryReader.ReadVoteRequest | src/raft/tcp_transport.cpp:246-251 | likewise |
| RpcCodec.BinaryWriter.WriteU64 | src/raft/tcp_transport.cpp:20-24 | the shifting loop writes eight bytes, most significant first |
| ByteOrder.CastKeepsResidue | src/raft/tcp_transport.cpp:467-491 | a signed 64-bit number is sent in two's complement and comes back |
| RpcCodec.BinaryReader.ReadU64 | src/raft/tcp_transport.cpp:49-56 | the big-endian value of as many of eight bytes as are left |
| RpcCodec.BinaryReader.ReadString | src/raft/tcp_transport.cpp:58-64 | a string is read back; a length past the end is cut to what is left |

## Left out

- RaftNodes.RaftNode.OnAppendEntries: requires that the indices of a request's entries are consecutive, as those of every request in a run are (`AllRules.RunSound`); what a hand-made request would do to the offset lookup is not modelled.
- RaftNodes.RaftNode.FindConflictTerm: requires ascending terms, which every log of a run has (`AllRules.LogOrder`); so do `LowerNext` and `OnAppendResponse`, which call it.
- Wal.DeserializeEntry: on bytes that are no record it says only that it ends; reads past the buffer and unknown event types are one outcome without meaning.
- KvStores.KvStore.Deserialize: likewise for bytes that are no snapshot.
- RpcCodec.BinaryReader.ReadAppendRequest: likewise for event types that do not exist.
- WalFiles.WalLog.ReadAllEntries: assumes files without a torn tail; a torn file is the subject of `WalFiles.ReadFile`, and appending after a torn tail is not modelled.
- Recovery.RestartRecovers: assumes one checksum range on both sides of the log, as `LabelDecides` does; with the code's two ranges hardly any entry is read back (`WalFiles.AtMostOneSurvives`).
- Recovery.EtcdServer.Restart: assumes that log reader and writer use one checksum range, and does not continue with `KVStore::Open`, which overlays the backend file onto the replayed state.
- Configuration changes, snapshots, in-memory compaction and batch proposals in the cluster: membership is fixed, logs start at 1, and no caller proposes through the batch buffer.
- `FlushBatch`, `ApplyConfChange`, `ApplySnapshot`, `Restore` and the pending queue of committed entries.
- Restart of a Raft node: the loaded hard state is never handed to it.
- Liveness of elections, timeouts, threads, condition variables, fsync, rename and directory listing; files are byte sequences.
- `KVStore::Range` and `KVStore::PrefixRange`, which put the newest value over a historical one; scans are proved on the MVCC store.
- HTTP handling, transactions, watches, leases as such, authentication, sockets, snapshot retention.
- Widths of terms, indices, revisions and versions in memory: they are unbounded in the model; the byte formats use the source's widths.
