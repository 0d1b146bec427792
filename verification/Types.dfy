/** The values every component shares: bytes, log entries, RPC messages. */
module Types {

  datatype Option<+T> = None | Some(value: T)

  type byte = x: int | 0 <= x < 256

  /** A C++ byte vector or std::string. */
  type Bytes = seq<byte>

  type Term = nat
  type Index = nat
  type NodeId = nat

  /** `kNoTerm`, `kNoIndex` and `kNoNodeId`. */
  const NO_TERM: Term := 0
  const NO_INDEX: Index := 0
  const NO_NODE: NodeId := 0

  datatype EventType = Put | Delete | ConfChangeEvent

  datatype ConfChangeType = AddNode | RemoveNode

  datatype ConfChange = ConfChange(kind: ConfChangeType, nodeId: NodeId, peerAddr: Bytes)

  datatype RaftEntry = RaftEntry(
    term: Term,
    index: Index,
    kind: EventType,
    key: Bytes,
    value: Bytes,
    leaseId: int,
    confChange: ConfChange)

  datatype RequestVoteRequest = RequestVoteRequest(
    term: Term, candidateId: NodeId, lastLogIndex: Index, lastLogTerm: Term)

  datatype RequestVoteResponse = RequestVoteResponse(term: Term, voteGranted: bool)

  datatype AppendEntriesRequest = AppendEntriesRequest(
    term: Term,
    leaderId: NodeId,
    prevLogIndex: Index,
    prevLogTerm: Term,
    entries: seq<RaftEntry>,
    leaderCommit: Index)

  datatype AppendEntriesResponse = AppendEntriesResponse(
    term: Term, success: bool, lastLogIndex: Index, conflictIndex: Index, conflictTerm: Term)

  function Min(a: nat, b: nat): nat { if a <= b then a else b }

  function Max(a: nat, b: nat): nat { if a >= b then a else b }
}
