/** The in-memory Raft log (src/raft/raft_log.h): a vector of entries and the index of its first one. */
module RaftLogs {
  import opened Types

  /** Entry number i of the vector carries index `first + i`. */
  predicate Consecutive(entries: seq<RaftEntry>, first: Index)
  {
    forall i :: 0 <= i < |entries| ==> entries[i].index == first + i
  }

  /** `TermAt` on a log that starts at index 1: the term of entry `i`, or `NO_TERM` outside the log. */
  function TermAt(log: seq<RaftEntry>, i: Index): Term
  {
    if 1 <= i <= |log| then log[i - 1].term else NO_TERM
  }

  function LastTerm(log: seq<RaftEntry>): Term
  {
    TermAt(log, |log|)
  }

  /** Terms are positive and never decrease along the log. */
  predicate Ascending(log: seq<RaftEntry>)
  {
    forall x, y :: 0 <= x <= y < |log| ==> 1 <= log[x].term <= log[y].term
  }

  /** What `TruncateTo(idx)` leaves of a log that starts at index 1. */
  function Truncated(log: seq<RaftEntry>, idx: Index): seq<RaftEntry>
  {
    log[..Min(idx, |log|)]
  }

  /** What the batch `Append` makes of a log that starts at index 1: a batch that does not continue it is dropped. */
  function Appended(log: seq<RaftEntry>, batch: seq<RaftEntry>): seq<RaftEntry>
  {
    if batch != [] && batch[0].index == |log| + 1 then log + batch else log
  }

  class RaftLog {
    var entries: seq<RaftEntry>
    var firstIndex: Index

    predicate Valid()
      reads this
    {
      Consecutive(entries, firstIndex)
    }

    constructor ()
      ensures Valid() && entries == [] && firstIndex == 1
    {
      entries, firstIndex := [], 1;
    }

    method LastIndex() returns (idx: Index)
      requires Valid()
      ensures idx == if entries == [] then NO_INDEX else firstIndex + |entries| - 1
    {
      if entries == [] {
        return NO_INDEX;
      }
      return entries[|entries| - 1].index;
    }

    method LastTermOf() returns (term: Term)
      ensures term == if entries == [] then NO_TERM else entries[|entries| - 1].term
    {
      if entries == [] {
        return NO_TERM;
      }
      return entries[|entries| - 1].term;
    }

    /** Looks an entry up by offset; with `Valid()` that is the entry whose index is `idx`. */
    method TermAtIndex(idx: Index) returns (term: Term)
      requires Valid()
      ensures forall e :: e in entries && e.index == idx ==> term == e.term
      ensures (forall e :: e in entries ==> e.index != idx) ==> term == NO_TERM
      ensures firstIndex == 1 ==> term == TermAt(entries, idx)
    {
      if idx < firstIndex {
        return NO_TERM;
      }
      var offset := idx - firstIndex;
      if offset >= |entries| {
        return NO_TERM;
      }
      assert entries[offset] in entries && entries[offset].index == idx;
      return entries[offset].term;
    }

    /** Adds the entry unseen; the log stays consecutive exactly when the entry carries the next index. */
    method Append(entry: RaftEntry) returns (idx: Index)
      requires Valid()
      modifies this`entries
      ensures idx == entry.index && entries == old(entries) + [entry]
      ensures Valid() <==> entry.index == firstIndex + |old(entries)|
    {
      entries := entries + [entry];
      idx := entry.index;
      assert entries[|entries| - 1] == entry;
    }

    /** A batch whose first index does not follow the last one is rejected without a word; nothing looks at the others. */
    method AppendBatch(batch: seq<RaftEntry>)
      requires Valid()
      modifies this`entries
      ensures batch != [] && Consecutive(batch, batch[0].index) ==> Valid()
      ensures entries == if batch != [] && batch[0].index == firstIndex + |old(entries)| then old(entries) + batch else old(entries)
    {
      if batch == [] {
        return;
      }
      var expected := if entries == [] then firstIndex else entries[|entries| - 1].index + 1;
      if batch[0].index != expected {
        return;
      }
      entries := entries + batch;
    }

    /** The entries with index at least `start`, at most `limit` of them when a limit is given. */
    method EntriesFrom(start: Index, limit: nat) returns (result: seq<RaftEntry>)
      requires Valid()
      ensures var from := Max(start, firstIndex) - firstIndex;
              result == if from >= |entries| then []
                        else if limit > 0 then entries[from..Min(from + limit, |entries|)]
                        else entries[from..]
    {
      var s := Max(start, firstIndex);
      var last := LastIndexUnsafe();
      if s > last {
        return [];
      }
      var offset := s - firstIndex;
      var end := |entries|;
      if limit > 0 && offset + limit < end {
        end := offset + limit;
      }
      return entries[offset..end];
    }

    /** The entries with `start <= index < end`, both bounds clipped to the log. */
    method Slice(start: Index, end: Index) returns (result: seq<RaftEntry>)
      requires Valid() && 1 <= firstIndex
      ensures forall e :: e in result <==> e in entries && start <= e.index < end
      ensures var s, t := Max(start, firstIndex), Min(end, firstIndex + |entries|);
              result == if s < t then entries[s - firstIndex..t - firstIndex] else []
    {
      var s := Max(start, firstIndex);
      var last := LastIndexUnsafe();
      var t := if end > last + 1 then last + 1 else end;
      if s >= t {
        return [];
      }
      result := entries[s - firstIndex..t - firstIndex];
      forall e | e in entries && start <= e.index < end
        ensures e in result
      {
        var i :| 0 <= i < |entries| && entries[i] == e;
        assert result[i - (s - firstIndex)] == e;
      }
    }

    /** Log compaction: drops the entries below `idx`. */
    method TruncateFrom(idx: Index)
      requires Valid()
      modifies this
      ensures Valid()
      ensures firstIndex == Max(idx, old(firstIndex))
      ensures entries == if firstIndex - old(firstIndex) >= |old(entries)| && idx > old(firstIndex) then []
                         else old(entries)[firstIndex - old(firstIndex)..]
    {
      if idx <= firstIndex {
        return;
      }
      var offset := idx - firstIndex;
      if offset >= |entries| {
        entries := [];
        firstIndex := idx;
        return;
      }
      entries := entries[offset..];
      firstIndex := idx;
    }

    /** Conflict removal: drops the entries above `idx`. */
    method TruncateTo(idx: Index)
      requires Valid()
      modifies this
      ensures Valid()
      ensures idx < old(firstIndex) ==> entries == [] && firstIndex == idx + 1
      ensures idx >= old(firstIndex) ==>
                firstIndex == old(firstIndex) && entries == old(entries)[..Min(idx + 1 - firstIndex, |old(entries)|)]
      ensures old(firstIndex) == 1 ==> firstIndex == 1 && entries == Truncated(old(entries), idx)
    {
      if idx < firstIndex {
        entries := [];
        firstIndex := idx + 1;
        return;
      }
      var keep := idx - firstIndex + 1;
      if keep >= |entries| {
        return;
      }
      entries := entries[..keep];
    }

    method LastIndexUnsafe() returns (idx: Index)
      requires Valid()
      ensures entries != [] || firstIndex > 0 ==> idx + 1 == firstIndex + |entries|
      ensures entries == [] && firstIndex == 0 ==> idx == NO_INDEX
    {
      if entries == [] {
        return if firstIndex > 0 then firstIndex - 1 else NO_INDEX;
      }
      return entries[|entries| - 1].index;
    }
  }
}
