/** Files of write-ahead-log records: reading one that may be torn, and the log object over its files (src/wal/wal.cpp:320-393, 456-495). */
module WalFiles {
  import opened Types
  import opened ByteOrder
  import opened Crc32
  import opened Frames
  import opened Wal

  ghost predicate AllFit(es: seq<RaftEntry>)
  {
    forall e :: e in es ==> Fits(e)
  }

  function Records(es: seq<RaftEntry>): (frames: seq<Bytes>)
    requires forall e :: e in es ==> Fits(e)
    ensures |frames| == |es| && forall i :: 0 <= i < |es| ==> frames[i] == Record(es[i])
  {
    seq(|es|, i requires 0 <= i < |es| && Fits(es[i]) => Record(es[i]))
  }

  /** What the reader makes of one intact record. */
  function Kept(oneRange: bool): RaftEntry -> seq<RaftEntry>
  {
    e => if Fits(e) && Survives(oneRange, e) && e.index > 0 then [Recovered(e)] else []
  }

  function Survivors(oneRange: bool, es: seq<RaftEntry>): seq<RaftEntry>
  {
    FlatMap(Kept(oneRange), es)
  }

  // ---- What the two checksum ranges do to a log ----

  /** Written back as read: with one checksum range every entry with a positive index comes back. */
  lemma {:induction false} EverythingSurvives(es: seq<RaftEntry>)
    requires AllFit(es) && forall e :: e in es ==> e.index > 0 && (e.kind == ConfChangeEvent || e.confChange == NO_CONF_CHANGE)
    ensures Survivors(true, es) == es
  {
    hide Checksum, Body;
    if es != [] {
      var last := es[|es| - 1];
      EverythingSurvives(es[..|es| - 1]);
      assert last in es && Kept(true)(last) == [last];
    }
  }

  /**
   With the code's two ranges, of all entries whose record bodies differ in the last four bytes only, at most one
   survives being written and read.
   */
  lemma AtMostOneSurvives(d: RaftEntry, e: RaftEntry)
    requires Fits(d) && Fits(e) && |Body(d)| == |Body(e)| && Body(d) != Body(e)
    requires Body(d)[..|Body(d)| - 4] == Body(e)[..|Body(e)| - 4]
    ensures !Survives(false, d) || !Survives(false, e)
  {
    LastBytesDetected(Body(d), Body(e));
  }

  lemma LastBytesDetected(a: Bytes, b: Bytes)
    requires |a| == |b| >= 4 && a != b && a[..|a| - 4] == b[..|b| - 4]
    ensures !ChecksOut(false, a) || !ChecksOut(false, b)
  {
    var front := a[..|a| - 4];
    assert a == front + a[|a| - 4..] + [] && b == front + b[|b| - 4..] + [];
    FourBytesDetected(front, a[|a| - 4..], b[|b| - 4..], []);
  }

  /** In particular, of all the leases that agree in their low half, an entry survives with at most one. */
  lemma AtMostOneLeaseSurvives(e: RaftEntry, lease: int)
    requires Fits(e) && e.kind != ConfChangeEvent && -TWO_TO_63 <= lease < TWO_TO_63
    requires lease != e.leaseId && Le(Unsigned(lease), 8)[..4] == Le(Unsigned(e.leaseId), 8)[..4]
    ensures Fits(e.(leaseId := lease)) && (!Survives(false, e) || !Survives(false, e.(leaseId := lease)))
  {
    var d := e.(leaseId := lease);
    var x, y := Le(Unsigned(lease), 8), Le(Unsigned(e.leaseId), 8);
    Spans();
    if x == y {
      LeRoundTrip(Unsigned(lease), 8);
      LeRoundTrip(Unsigned(e.leaseId), 8);
    }
    BodyEnds(d);
    BodyEnds(e);
    var front := BodyFront(e);
    assert Body(d)[..|Body(d)| - 4] == front + x[..4] && Body(e)[..|Body(e)| - 4] == front + y[..4];
    LastDiffers(front, x, y);
    AtMostOneSurvives(d, e);
  }

  lemma LastDiffers(front: Bytes, x: Bytes, y: Bytes)
    requires x != y
    ensures front + x != front + y
  {
    assert (front + x)[|front|..] == x;
    assert (front + y)[|front|..] == y;
  }

  /** The body up to the lease. */
  function BodyFront(e: RaftEntry): Bytes
  {
    [] + Le(e.term, 8) + Le(e.index, 8) + [KindByte(e.kind)] + Str(e.key) + Str(e.value)
  }

  lemma BodyEnds(e: RaftEntry)
    requires Fits(e) && e.kind != ConfChangeEvent
    ensures Body(e) == BodyFront(e) + Le(Unsigned(e.leaseId), 8)
  {
    Regroup(Le(e.term, 8), Le(e.index, 8), [KindByte(e.kind)], Str(e.key), Str(e.value), Le(Unsigned(e.leaseId), 8), ConfBody(e));
  }

  // ---- The read loop ----

  /** The length prefix, when it is there, is that of the next record. */
  lemma LengthAhead(buffer: Bytes, es: seq<RaftEntry>, offset: nat, k: nat)
    requires AllFit(es) && Reading(buffer, Records(es), offset, k) && offset + 4 <= |buffer|
    ensures k < |es| && Holds(buffer, offset, Le(|Frame(es[k])|, 4)) && |Record(es[k])| == |Frame(es[k])| + 4
  {
    ReadingAhead(buffer, Records(es), offset, k, 4);
    PrefixOf(Frame(es[k]));
  }

  lemma PrefixOf(frame: Bytes)
    ensures (Le(|frame|, 4) + frame)[..4] == Le(|frame|, 4)
  {
  }

  lemma KeptNext(oneRange: bool, es: seq<RaftEntry>, k: nat)
    requires AllFit(es) && k < |es|
    ensures Survivors(oneRange, es[..k + 1]) == Survivors(oneRange, es[..k]) + Kept(oneRange)(es[k])
  {
    assert es[..k + 1][..k] == es[..k];
  }

  /** Too few bytes are left for another record. */
  lemma EndReached(buffer: Bytes, es: seq<RaftEntry>, offset: nat, k: nat)
    requires AllFit(es) && Reading(buffer, Records(es), offset, k) && offset + 4 > |buffer|
    ensures k == Complete(Records(es), |buffer|)
  {
    hide Body, Checksum;
    if offset < |buffer| {
      ReadingAhead(buffer, Records(es), offset, k, 0);
    }
    ReadingEnds(buffer, Records(es), offset, k);
  }

  /** What happens to an intact record when the loop reaches it. */
  lemma KeptIs(oneRange: bool, e: RaftEntry)
    requires Fits(e)
    ensures var r := if Survives(oneRange, e) then Recovered(e) else EMPTY_ENTRY;
            Kept(oneRange)(e) == if r.index > 0 then [r] else []
  {
    hide Survives;
  }

  datatype Visit = Stop | Overrun | Found(entries: seq<RaftEntry>, next: nat)

  /** One turn of the read loop. */
  method VisitRecord(oneRange: bool, buffer: Bytes, offset: nat, ghost es: seq<RaftEntry>, ghost k: nat) returns (visit: Visit)
    requires offset + 4 <= |buffer|
    ensures visit.Found? ==> offset < visit.next <= |buffer|
    ensures AllFit(es) && Reading(buffer, Records(es), offset, k) ==>
              if k == Complete(Records(es), |buffer|) then visit == Stop
              else visit.Found? && visit.entries == Kept(oneRange)(es[k]) && Reading(buffer, Records(es), visit.next, k + 1)
  {
    hide Body, Checksum, Survives, Recovered, Kept;
    ghost var intact := AllFit(es) && Reading(buffer, Records(es), offset, k);
    if intact {
      LengthAhead(buffer, es, offset, k);
      BodyLength(es[k]);
      KeptIs(oneRange, es[k]);
    }
    var len := ReadU32(buffer, offset);
    if len == 0 || offset + 4 + len > |buffer| {
      return Stop;
    }
    if intact {
      ReadingAdvances(buffer, Records(es), offset, k);
    }
    var read := DeserializeEntry(oneRange, buffer, offset, if intact then es[k] else EMPTY_ENTRY);
    if read == Beyond {
      return Overrun;
    }
    return Found(if read.entry.index > 0 then [read.entry] else [], offset + 4 + len);
  }

  /**
   The read loop over one file. When the file holds any beginning of the records of `es`, the loop visits exactly the
   complete ones and returns those that survive; `None` means that the code reads past the buffer.
   */
  method ReadFile(oneRange: bool, buffer: Bytes, ghost es: seq<RaftEntry>) returns (r: Option<seq<RaftEntry>>)
    ensures AllFit(es) && buffer <= Concat(Records(es)) ==>
              r == Some(Survivors(oneRange, es[..Complete(Records(es), |buffer|)]))
  {
    hide Record, Survives, Recovered;
    var entries: seq<RaftEntry> := [];
    var offset := 0;
    ghost var k := 0;
    ghost var intact := AllFit(es) && buffer <= Concat(Records(es));
    if intact {
      ReadingStarts(buffer, Records(es));
    }
    while offset + 4 <= |buffer|
      invariant offset <= |buffer|
      invariant intact == (AllFit(es) && buffer <= Concat(Records(es)))
      invariant intact ==> Reading(buffer, Records(es), offset, k) && entries == Survivors(oneRange, es[..k])
      decreases |buffer| - offset
    {
      var visit := VisitRecord(oneRange, buffer, offset, es, k);
      if visit == Stop {
        return Some(entries);
      }
      if visit == Overrun {
        return None;
      }
      if intact {
        KeptNext(oneRange, es, k);
      }
      entries := entries + visit.entries;
      offset := visit.next;
      k := k + 1;
    }
    if intact {
      EndReached(buffer, es, offset, k);
    }
    r := Some(entries);
  }

  // ---- The log object ----

  /** What `AppendEntries` writes: entries whose index does not exceed the last one are skipped. */
  function Accepted(last: Index, es: seq<RaftEntry>): (r: seq<RaftEntry>)
    ensures forall e :: e in r ==> e in es
    decreases |es|
  {
    if es == [] then []
    else if es[0].index <= last && last > 0 then Accepted(last, es[1..])
    else [es[0]] + Accepted(es[0].index, es[1..])
  }

  function LastAccepted(last: Index, es: seq<RaftEntry>): Index
    decreases |es|
  {
    if es == [] then last
    else if es[0].index <= last && last > 0 then LastAccepted(last, es[1..])
    else LastAccepted(es[0].index, es[1..])
  }

  /** All files read back, oldest first. */
  function Reread(oneRange: bool, logs: seq<seq<RaftEntry>>): seq<RaftEntry>
  {
    if logs == [] then [] else Reread(oneRange, logs[..|logs| - 1]) + Survivors(oneRange, logs[|logs| - 1])
  }

  function MaxIndex(last: Index, es: seq<RaftEntry>): Index
    decreases |es|
  {
    if es == [] then last else MaxIndex(Max(last, es[0].index), es[1..])
  }

  lemma {:induction false} MaxIndexConcat(last: Index, a: seq<RaftEntry>, b: seq<RaftEntry>)
    ensures MaxIndex(last, a + b) == MaxIndex(MaxIndex(last, a), b)
    decreases |a|
  {
    if a == [] {
      assert a + b == b;
    } else {
      assert (a + b)[1..] == a[1..] + b;
      MaxIndexConcat(Max(last, a[0].index), a[1..], b);
    }
  }

  function KeepFrom(idx: Index): RaftEntry -> seq<RaftEntry>
  {
    (e: RaftEntry) => if e.index >= idx then [e] else []
  }

  /** The entries with index at least `idx`. */
  function From(idx: Index, es: seq<RaftEntry>): seq<RaftEntry>
  {
    FlatMap(KeepFrom(idx), es)
  }

  /** Removed files. */
  function Removed<T>(n: nat): (files: seq<seq<T>>)
    ensures |files| == n && forall f :: 0 <= f < n ==> files[f] == []
  {
    seq(n, f => [])
  }

  /** `TruncateFrom`: the files before the current one are emptied, the current one stays, and a new one gets what is kept of all. */
  function Rewritten(oneRange: bool, logs: seq<seq<RaftEntry>>, idx: Index): seq<seq<RaftEntry>>
    requires logs != []
  {
    Removed(|logs| - 1) + [logs[|logs| - 1]] + [From(idx, Reread(oneRange, logs))]
  }

  /** The last index after a truncation; for index 0 the unsigned decrement wraps around. */
  function LastAfterTruncation(idx: Index, kept: seq<RaftEntry>): Index
  {
    if kept != [] then kept[|kept| - 1].index else if idx == 0 then TWO_TO_64 - 1 else idx - 1
  }

  lemma {:induction false} SurvivorsFit(oneRange: bool, es: seq<RaftEntry>)
    requires AllFit(es)
    ensures AllFit(Survivors(oneRange, es))
  {
    hide Checksum, Body, ChecksOut;
    if es != [] {
      SurvivorsFit(oneRange, es[..|es| - 1]);
      assert es[|es| - 1] in es;
    }
  }

  lemma {:induction false} RereadFits(oneRange: bool, logs: seq<seq<RaftEntry>>)
    requires forall l :: l in logs ==> AllFit(l)
    ensures AllFit(Reread(oneRange, logs))
  {
    if logs != [] {
      RereadFits(oneRange, logs[..|logs| - 1]);
      SurvivorsFit(oneRange, logs[|logs| - 1]);
    }
  }

  lemma {:induction false} FromSubset(idx: Index, es: seq<RaftEntry>)
    ensures forall e :: e in From(idx, es) <==> e in es && e.index >= idx
  {
    if es != [] {
      FromSubset(idx, es[..|es| - 1]);
      assert es == es[..|es| - 1] + [es[|es| - 1]];
    }
  }

  lemma OneMoreRecord(es: seq<RaftEntry>, e: RaftEntry)
    requires AllFit(es) && Fits(e)
    ensures AllFit(es + [e]) && Concat(Records(es + [e])) == Concat(Records(es)) + Record(e)
  {
    hide Record;
    assert Records(es + [e]) == Records(es) + [Record(e)];
    ConcatSplits(Records(es), [Record(e)]);
    assert Concat([Record(e)]) == Record(e);
  }

  lemma WholeFile(es: seq<RaftEntry>)
    requires AllFit(es)
    ensures Complete(Records(es), |Concat(Records(es))|) == |es|
  {
    hide Record;
    assert Records(es)[..|es|] == Records(es);
    CompleteFits(Records(es), |Concat(Records(es))|, |es|);
  }

  /** The file holds exactly the records of `log`. */
  ghost predicate HoldsRecords(file: Bytes, log: seq<RaftEntry>)
  {
    AllFit(log) && file == Concat(Records(log))
  }

  lemma NextRecord(file: Bytes, log: seq<RaftEntry>, e: RaftEntry)
    requires HoldsRecords(file, log) && Fits(e)
    ensures HoldsRecords(file + Record(e), log + [e])
  {
    OneMoreRecord(log, e);
  }

  lemma LogsFit(files: seq<Bytes>, logs: seq<seq<RaftEntry>>)
    requires |files| == |logs| && forall f :: 0 <= f < |logs| ==> HoldsRecords(files[f], logs[f])
    ensures forall l :: l in logs ==> AllFit(l)
  {
  }

  lemma EmptyFile()
    ensures HoldsRecords([], [])
  {
    assert Records([]) == [];
  }

  /** A file without a torn tail is read completely. */
  method ReadWholeFile(oneRange: bool, file: Bytes, ghost log: seq<RaftEntry>) returns (entries: seq<RaftEntry>)
    requires HoldsRecords(file, log)
    ensures entries == Survivors(oneRange, log)
  {
    hide Record, Survivors;
    WholeFile(log);
    assert log[..|log|] == log;
    var read := ReadFile(oneRange, file, log);
    entries := read.value;
  }

  class WalLog {
    /** Whether reader and writer take the CRC over the same range. */
    const oneRange: bool
    /** wal_0.log, wal_1.log, ...; a removed file is empty, the last one is being written. */
    var files: seq<Bytes>
    var lastIndex: Index
    /** The entries whose records the files hold. */
    ghost var logs: seq<seq<RaftEntry>>

    ghost predicate Valid()
      reads this
    {
      |files| == |logs| >= 1 && forall f :: 0 <= f < |logs| ==> HoldsRecords(files[f], logs[f])
    }

    constructor (oneRange: bool)
      ensures Valid() && logs == [[]] && lastIndex == 0 && this.oneRange == oneRange
    {
      this.oneRange := oneRange;
      files, lastIndex, logs := [[]], 0, [[]];
    }

    method WriteEntry(e: RaftEntry)
      requires Valid() && Fits(e)
      modifies this`files, this`logs
      ensures Valid() && logs == old(logs)[|old(logs)| - 1 := old(logs)[|old(logs)| - 1] + [e]]
    {
      hide Record, HoldsRecords, Fits;
      var last := |files| - 1;
      var data := SerializeEntry(e);
      NextRecord(files[last], logs[last], e);
      files := files[last := files[last] + data];
      logs := logs[last := logs[last] + [e]];
    }

    method AppendEntries(entries: seq<RaftEntry>)
      requires Valid() && AllFit(entries)
      modifies this
      ensures Valid() && lastIndex == LastAccepted(old(lastIndex), entries)
      ensures logs == old(logs)[|old(logs)| - 1 := old(logs)[|old(logs)| - 1] + Accepted(old(lastIndex), entries)]
    {
      hide Fits, HoldsRecords;
      var i := 0;
      ghost var last := |logs| - 1;
      assert entries[0..] == entries;
      while i < |entries|
        invariant Valid() && i <= |entries| && |logs| == last + 1 && logs[..last] == old(logs)[..last]
        invariant logs[last] + Accepted(lastIndex, entries[i..]) == old(logs)[last] + Accepted(old(lastIndex), entries)
        invariant LastAccepted(lastIndex, entries[i..]) == LastAccepted(old(lastIndex), entries)
      {
        var e := entries[i];
        assert entries[i..][1..] == entries[i + 1..] && e in entries;
        if !(e.index <= lastIndex && lastIndex > 0) {
          WriteEntry(e);
          lastIndex := e.index;
        }
        i := i + 1;
      }
      assert entries[i..] == [] && logs[last] + [] == logs[last];
      assert logs == logs[..last] + [logs[last]] == old(logs)[last := logs[last]];
    }

    method ReadAllEntries() returns (entries: seq<RaftEntry>)
      requires Valid()
      modifies this`lastIndex
      ensures Valid() && entries == Reread(oneRange, logs) && lastIndex == MaxIndex(old(lastIndex), entries) >= old(lastIndex)
    {
      hide HoldsRecords, Survivors;
      entries := [];
      var f := 0;
      while f < |files|
        invariant 0 <= f <= |files| && entries == Reread(oneRange, logs[..f])
        invariant lastIndex == MaxIndex(old(lastIndex), entries) >= old(lastIndex)
      {
        var part := ReadWholeFile(oneRange, files[f], logs[f]);
        assert logs[..f + 1][..f] == logs[..f];
        MaxIndexConcat(old(lastIndex), entries, part);
        MaxIndexGrows(lastIndex, part);
        entries := entries + part;
        lastIndex := MaxIndex(lastIndex, part);
        f := f + 1;
      }
      assert logs[..f] == logs;
    }

    /** Removes the files before the current one and begins a new one. */
    method StartFile()
      requires Valid()
      modifies this`files, this`logs
      ensures Valid() && logs == Removed(|old(logs)| - 1) + [old(logs)[|old(logs)| - 1]] + [[]]
    {
      hide HoldsRecords;
      EmptyFile();
      var current := |files| - 1;
      files := Removed(current) + [files[current]] + [[]];
      logs := Removed(current) + [logs[current]] + [[]];
    }

    method WriteAll(entries: seq<RaftEntry>)
      requires Valid() && AllFit(entries) && logs[|logs| - 1] == []
      modifies this`files, this`logs
      ensures Valid() && logs == old(logs)[|old(logs)| - 1 := entries]
    {
      hide Fits, HoldsRecords;
      ghost var last := |logs| - 1;
      var i := 0;
      while i < |entries|
        invariant Valid() && i <= |entries| && logs == old(logs)[last := entries[..i]]
      {
        assert entries[..i + 1] == entries[..i] + [entries[i]] && entries[i] in entries;
        WriteEntry(entries[i]);
        i := i + 1;
      }
      assert entries[..i] == entries;
    }

    method TruncateFrom(idx: Index)
      requires Valid()
      modifies this
      ensures Valid() && logs == Rewritten(oneRange, old(logs), idx)
      ensures lastIndex == LastAfterTruncation(idx, From(idx, Reread(oneRange, old(logs))))
    {
      hide Fits, HoldsRecords, Survivors;
      var entries := ReadAllEntries();
      var kept := From(idx, entries);
      LogsFit(files, logs);
      RereadFits(oneRange, logs);
      FromSubset(idx, entries);
      StartFile();
      WriteAll(kept);
      lastIndex := LastAfterTruncation(idx, kept);
    }
  }

  lemma {:induction false} MaxIndexGrows(last: Index, es: seq<RaftEntry>)
    ensures MaxIndex(last, es) >= last
    decreases |es|
  {
    if es != [] {
      MaxIndexGrows(Max(last, es[0].index), es[1..]);
    }
  }
}
