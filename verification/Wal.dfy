/**
 The write-ahead log (src/wal/wal.cpp): the record of an entry, the loop that reads a file of records back, and the
 files themselves.

 The writer takes the CRC over what follows the type byte; the reader takes it from the type byte on and stops four
 bytes early. `oneRange` says whether both use the writer's range; the code as written is `oneRange == false`.
 */
module Wal {
  import opened Types
  import opened ByteOrder
  import opened Crc32
  import opened Frames

  const EMPTY_ENTRY := RaftEntry(0, 0, Put, [], [], 0, NO_CONF_CHANGE)
  const NO_CONF_CHANGE := ConfChange(AddNode, 0, [])

  // ---- The record of one entry ----

  function KindByte(kind: EventType): byte
  {
    match kind
    case Put => 0
    case Delete => 1
    case ConfChangeEvent => 2
  }

  function ConfByte(kind: ConfChangeType): byte
  {
    if kind == AddNode then 0 else 1
  }

  function ConfBody(e: RaftEntry): Bytes
    requires Fits(e)
  {
    if e.kind == ConfChangeEvent
    then [ConfByte(e.confChange.kind)] + (Le(e.confChange.nodeId, 8) + Str(e.confChange.peerAddr))
    else []
  }

  /** What follows the type byte, up to the CRC. */
  function Body(e: RaftEntry): (s: Bytes)
    requires Fits(e)
    ensures |s| >= 33
  {
    Le(e.term, 8) + (Le(e.index, 8) + ([KindByte(e.kind)] + (Str(e.key) + (Str(e.value) + (Le(Unsigned(e.leaseId), 8) + ConfBody(e))))))
  }

  function WordBytes(w: Word): (s: Bytes)
    ensures |s| == 4
  {
    [ByteOf(w[..8]), ByteOf(w[8..16]), ByteOf(w[16..24]), ByteOf(w[24..])]
  }

  function WordOf(s: Bytes): Word
    requires |s| == 4
  {
    ByteBits(s[0]) + ByteBits(s[1]) + ByteBits(s[2]) + ByteBits(s[3])
  }

  lemma WordRoundTrip(w: Word)
    ensures WordOf(WordBytes(w)) == w
  {
    ByteRoundTrip(w[..8], 0);
    ByteRoundTrip(w[8..16], 0);
    ByteRoundTrip(w[16..24], 0);
    ByteRoundTrip(w[24..], 0);
  }

  /** The type byte of an entry record is 0. */
  function Frame(e: RaftEntry): Bytes
    requires Fits(e)
  {
    [0] + (Body(e) + WordBytes(Checksum(Body(e))))
  }

  function Record(e: RaftEntry): Bytes
    requires Fits(e)
  {
    Le(|Frame(e)|, 4) + Frame(e)
  }

  /** The values of the entry's C++ fields, and a record whose length fits its prefix. */
  predicate Fits(e: RaftEntry)
  {
    && e.term < TWO_TO_64 && e.index < TWO_TO_64 && -TWO_TO_63 <= e.leaseId < TWO_TO_63
    && e.confChange.nodeId < TWO_TO_64
    && |e.key| + |e.value| + |e.confChange.peerAddr| < 0x1_0000_0000 - 100
  }

  lemma BodyLength(e: RaftEntry)
    requires Fits(e)
    ensures 33 <= |Body(e)| && |Frame(e)| == |Body(e)| + 5 < 0x1_0000_0000
  {
  }

  method SerializeBody(e: RaftEntry) returns (data: Bytes)
    requires Fits(e)
    ensures data == Body(e)
  {
    data := [];
    data := data + Le(e.term, 8);
    data := data + Le(e.index, 8);
    data := data + [KindByte(e.kind)];
    data := data + Str(e.key);
    data := data + Str(e.value);
    data := data + Le(Unsigned(e.leaseId), 8);
    if e.kind == ConfChangeEvent {
      RegroupThree(data, [ConfByte(e.confChange.kind)], Le(e.confChange.nodeId, 8), Str(e.confChange.peerAddr));
      data := data + [ConfByte(e.confChange.kind)];
      data := data + Le(e.confChange.nodeId, 8);
      data := data + Str(e.confChange.peerAddr);
    }
    Regroup(Le(e.term, 8), Le(e.index, 8), [KindByte(e.kind)], Str(e.key), Str(e.value), Le(Unsigned(e.leaseId), 8), ConfBody(e));
  }

  lemma Regroup(a: Bytes, b: Bytes, c: Bytes, d: Bytes, e: Bytes, f: Bytes, g: Bytes)
    ensures a + (b + (c + (d + (e + (f + g))))) == [] + a + b + c + d + e + f + g
  {
    assert a + (b + (c + (d + (e + (f + g))))) == a + b + (c + (d + (e + (f + g))));
    assert a + b + (c + (d + (e + (f + g)))) == a + b + c + d + (e + (f + g));
  }

  lemma RegroupThree(a: Bytes, b: Bytes, c: Bytes, d: Bytes)
    ensures a + (b + (c + d)) == a + b + c + d
  {
  }

  method SerializeEntry(e: RaftEntry) returns (data: Bytes)
    requires Fits(e)
    ensures data == Record(e)
  {
    data := [0];
    var body := SerializeBody(e);
    data := data + body;
    assert data[1..] == Body(e);
    var crc := Compute(data[1..]);
    data := data + WordBytes(crc);
    assert data == Frame(e);
    data := Le(|data|, 4) + data;
  }

  // ---- Reading a record back ----

  /** A string that does not fit moves the offset to the end; without room for its length the code reads past the buffer. */
  method ReadStr(data: Bytes, offset: nat) returns (s: Option<Bytes>, next: nat)
    requires offset <= |data|
    ensures offset <= next <= |data|
    ensures forall x: Bytes {:trigger Str(x)} :: |x| < 0x1_0000_0000 && Holds(data, offset, Str(x)) ==> s == Some(x) && next == offset + |Str(x)|
  {
    if offset + 4 > |data| {
      return None, offset;
    }
    var len := ReadU32(data, offset);
    next := offset + 4;
    s := Some([]);
    if next + len > |data| {
      next := |data|;
    } else {
      s := Some(data[next..next + len]);
      next := next + len;
    }
    forall x: Bytes {:trigger Str(x)} | |x| < 0x1_0000_0000 && Holds(data, offset, Str(x))
      ensures s == Some(x) && next == offset + |Str(x)|
    {
      HoldsSplit(data, offset, Le(|x|, 4), x);
    }
  }

  /** `Beyond`: the code reads past the buffer, or meets a byte that names no event type; what it does then is not modelled. */
  datatype Outcome = Parsed(entry: RaftEntry) | Beyond

  /** A conf change travels with entries of that type only. */
  function Recovered(e: RaftEntry): RaftEntry
  {
    if e.kind == ConfChangeEvent then e else e.(confChange := NO_CONF_CHANGE)
  }

  /** The range the reader checks matches what the writer stored. */
  predicate Survives(oneRange: bool, e: RaftEntry)
    requires Fits(e)
  {
    ChecksOut(oneRange, Body(e))
  }

  predicate ChecksOut(oneRange: bool, body: Bytes)
    requires |body| >= 4
  {
    oneRange || Checksum(SeenByReader(body)) == Checksum(body)
  }

  /** The type byte and the body without its last four bytes. */
  function SeenByReader(body: Bytes): Bytes
    requires |body| >= 4
  {
    [0] + body[..|body| - 4]
  }

  function EventOf(b: byte): Option<EventType>
  {
    if b == 0 then Some(Put) else if b == 1 then Some(Delete) else if b == 2 then Some(ConfChangeEvent) else None
  }

  function ConfChangeOf(b: byte): Option<ConfChangeType>
  {
    if b == 0 then Some(AddNode) else if b == 1 then Some(RemoveNode) else None
  }

  /** Two strings in a row. */
  method ReadStrings(data: Bytes, offset: nat, ghost a: Bytes, ghost b: Bytes, ghost rest: Bytes)
    returns (r: Option<(Bytes, Bytes)>, next: nat)
    requires offset <= |data|
    ensures offset <= next <= |data|
    ensures |a| < 0x1_0000_0000 && |b| < 0x1_0000_0000 && Holds(data, offset, Str(a) + (Str(b) + rest)) ==>
              r == Some((a, b)) && next == offset + |Str(a)| + |Str(b)| && Holds(data, next, rest)
  {
    ghost var intact := |a| < 0x1_0000_0000 && |b| < 0x1_0000_0000 && Holds(data, offset, Str(a) + (Str(b) + rest));
    if intact {
      HoldsSplit(data, offset, Str(a), Str(b) + rest);
      HoldsSplit(data, offset + |Str(a)|, Str(b), rest);
    }
    var first, afterFirst := ReadStr(data, offset);
    if first == None {
      return None, offset;
    }
    var second, afterSecond := ReadStr(data, afterFirst);
    if second == None {
      return None, offset;
    }
    return Some((first.value, second.value)), afterSecond;
  }

  lemma EventRoundTrip(kind: EventType)
    ensures EventOf(KindByte(kind)) == Some(kind)
  {
  }

  /** The fields up to the value; `done` when the code stops there. */
  method ReadHead(data: Bytes, offset: nat, ghost e: RaftEntry) returns (r: Outcome, next: nat, done: bool)
    requires offset <= |data|
    ensures offset <= next <= |data|
    ensures Fits(e) && Holds(data, offset, Body(e)) ==>
              && !done && r == Parsed(EMPTY_ENTRY.(term := e.term, index := e.index, kind := e.kind, key := e.key, value := e.value))
              && Holds(data, next, HeadTail(e)) && next + |HeadTail(e)| == offset + |Body(e)|
  {
    if offset + 8 + 8 + 1 > |data| {
      return Parsed(EMPTY_ENTRY), offset, true;
    }
    ghost var intact := Fits(e) && Holds(data, offset, Body(e));
    if intact {
      HeadSplit(data, offset, e);
      EventRoundTrip(e.kind);
      assert data[offset + 16] == data[offset + 16..offset + 17][0] == KindByte(e.kind);
    }
    var term := ReadU64(data, offset);
    var index := ReadU64(data, offset + 8);
    var kind := EventOf(data[offset + 16]);
    var strings, after := ReadStrings(data, offset + 17, e.key, e.value, if intact then HeadTail(e) else []);
    if kind == None || strings == None {
      return Beyond, offset, true;
    }
    var (key, value) := strings.value;
    return Parsed(EMPTY_ENTRY.(term := term, index := index, kind := kind.value, key := key, value := value)), after, false;
  }

  /** What follows the value. */
  function HeadTail(e: RaftEntry): Bytes
    requires Fits(e)
  {
    Le(Unsigned(e.leaseId), 8) + ConfBody(e)
  }

  lemma HeadSplit(data: Bytes, offset: nat, e: RaftEntry)
    requires Fits(e) && Holds(data, offset, Body(e))
    ensures Holds(data, offset, Le(e.term, 8)) && Holds(data, offset + 8, Le(e.index, 8))
    ensures Holds(data, offset + 16, [KindByte(e.kind)])
    ensures Holds(data, offset + 17, Str(e.key) + (Str(e.value) + HeadTail(e)))
  {
    var strings := Str(e.key) + (Str(e.value) + HeadTail(e));
    HoldsSplit(data, offset, Le(e.term, 8), Le(e.index, 8) + ([KindByte(e.kind)] + strings));
    HoldsSplit(data, offset + 8, Le(e.index, 8), [KindByte(e.kind)] + strings);
    HoldsSplit(data, offset + 16, [KindByte(e.kind)], strings);
  }

  /** The conf change of an entry of that type. */
  method ReadConfChange(data: Bytes, offset: nat, head: RaftEntry, ghost e: RaftEntry) returns (r: Outcome, next: nat, done: bool)
    requires offset <= |data|
    ensures offset <= next <= |data|
    ensures Fits(e) && e.kind == ConfChangeEvent && Holds(data, offset, ConfBody(e)) && offset + |ConfBody(e)| + 4 <= |data| ==>
              !done && r == Parsed(head.(confChange := e.confChange)) && next == offset + |ConfBody(e)|
  {
    if offset + 1 + 8 + 4 > |data| {
      return Parsed(head), offset, true;
    }
    if Fits(e) && e.kind == ConfChangeEvent && Holds(data, offset, ConfBody(e)) {
      HoldsSplit(data, offset, [ConfByte(e.confChange.kind)], Le(e.confChange.nodeId, 8) + Str(e.confChange.peerAddr));
      HoldsSplit(data, offset + 1, Le(e.confChange.nodeId, 8), Str(e.confChange.peerAddr));
    }
    var kind := ConfChangeOf(data[offset]);
    if kind == None {
      return Beyond, offset, true;
    }
    var nodeId := ReadU64(data, offset + 1);
    var addr, after := ReadStr(data, offset + 9);
    if addr == None {
      return Beyond, offset, true;
    }
    return Parsed(head.(confChange := ConfChange(kind.value, nodeId, addr.value))), after, false;
  }

  /** Lease and conf change. */
  method ReadTail(data: Bytes, offset: nat, head: RaftEntry, ghost e: RaftEntry) returns (r: Outcome, next: nat, done: bool)
    requires offset <= |data|
    ensures offset <= next <= |data|
    ensures r.Parsed? && !done ==> next >= offset + 8
    ensures Fits(e) && Holds(data, offset, HeadTail(e)) && offset + |HeadTail(e)| + 4 <= |data| && head.kind == e.kind
            && head.confChange == NO_CONF_CHANGE ==>
              !done && next == offset + |HeadTail(e)| && r == Parsed(head.(leaseId := e.leaseId, confChange := Recovered(e).confChange))
  {
    if offset + 8 + 4 > |data| {
      return Parsed(head), offset, true;
    }
    if Fits(e) && Holds(data, offset, HeadTail(e)) {
      HoldsSplit(data, offset, Le(Unsigned(e.leaseId), 8), ConfBody(e));
    }
    var lease := ReadU64(data, offset);
    var entry := head.(leaseId := Signed(lease));
    if entry.kind == ConfChangeEvent {
      r, next, done := ReadConfChange(data, offset + 8, entry, e);
    } else {
      return Parsed(entry), offset + 8, false;
    }
  }

  lemma RangesSeen(data: Bytes, start: nat, body: Bytes)
    requires |body| >= 4 && Holds(data, start, [0]) && Holds(data, start + 1, body)
    ensures data[start + 1..start + 1 + |body|] == body && data[start..start + 1 + |body| - 4] == SeenByReader(body)
  {
    assert data[start] == data[start..start + 1][0] == 0;
    assert data[start..start + 1 + |body| - 4] == [data[start]] + data[start + 1..start + 1 + |body|][..|body| - 4];
  }

  lemma StoredWord(data: Bytes, at: nat, w: Word)
    requires at + 4 <= |data|
    ensures Holds(data, at, WordBytes(w)) ==> WordOf(data[at..at + 4]) == w
  {
    WordRoundTrip(w);
  }

  /** The reader's check of the record body `start..end`; `body` is what the record may hold after its type byte. */
  method CrcMatches(oneRange: bool, data: Bytes, start: nat, end: nat, ghost body: Bytes) returns (ok: bool)
    requires start + 4 <= end && end + 4 <= |data|
    ensures (|body| >= 4 && Holds(data, start, [0]) && Holds(data, start + 1, body) && end == start + 1 + |body|
             && Holds(data, end, WordBytes(Checksum(body)))) ==> ok == ChecksOut(oneRange, body)
  {
    hide Checksum;
    var expected: Word;
    if oneRange {
      expected := Compute(data[start + 1..end]);
    } else {
      expected := Compute(data[start..end - 4]);
    }
    var stored := WordOf(data[end..end + 4]);
    ok := expected == stored;
    if |body| >= 4 && Holds(data, start, [0]) && Holds(data, start + 1, body) && end == start + 1 + |body| {
      RangesSeen(data, start, body);
      StoredWord(data, end, Checksum(body));
    }
  }

  /** All fields of the record body at `offset`. */
  method ReadFields(data: Bytes, offset: nat, ghost e: RaftEntry) returns (r: Outcome, end: nat, done: bool)
    requires offset <= |data|
    ensures offset <= end <= |data| && (r.Parsed? && !done ==> end >= offset + 8)
    ensures Fits(e) && Holds(data, offset, Body(e)) && offset + |Body(e)| + 4 <= |data| ==>
              !done && r == Parsed(Recovered(e)) && end == offset + |Body(e)|
  {
    r, end, done := ReadHead(data, offset, e);
    if r.Parsed? && !done {
      var head := r.entry;
      var afterHead := end;
      r, end, done := ReadTail(data, afterHead, head, e);
    }
  }

  /** Reads the record at `offset`; `e` is the entry whose record may stand there. */
  method DeserializeEntry(oneRange: bool, data: Bytes, offset: nat, ghost e: RaftEntry) returns (r: Outcome)
    requires offset <= |data|
    ensures Fits(e) && Holds(data, offset, Record(e)) ==> r == Parsed(if Survives(oneRange, e) then Recovered(e) else EMPTY_ENTRY)
  {
    hide Body, Checksum, Recovered;
    if offset + 4 > |data| {
      return Parsed(EMPTY_ENTRY);
    }
    if Fits(e) && Holds(data, offset, Record(e)) {
      FrameSplit(data, offset, e);
    }
    var crcStart := offset + 4;
    if crcStart + 1 > |data| || data[crcStart] != 0 {
      return Parsed(EMPTY_ENTRY);
    }
    var full, end, done := ReadFields(data, crcStart + 1, e);
    if full == Beyond || done {
      return full;
    }
    if end + 4 > |data| {
      return Beyond;
    }
    var ok := CrcMatches(oneRange, data, crcStart, end, if Fits(e) then Body(e) else []);
    return Parsed(if ok then full.entry else EMPTY_ENTRY);
  }

  lemma FrameSplit(data: Bytes, offset: nat, e: RaftEntry)
    requires Fits(e) && Holds(data, offset, Record(e))
    ensures var end := offset + 5 + |Body(e)|;
            && Holds(data, offset, Le(|Frame(e)|, 4)) && Holds(data, offset + 4, [0]) && Holds(data, offset + 5, Body(e))
            && Holds(data, end, WordBytes(Checksum(Body(e))))
  {
    hide Body, Checksum, WordBytes;
    var crc := WordBytes(Checksum(Body(e)));
    HoldsSplit(data, offset, Le(|Frame(e)|, 4), Frame(e));
    HoldsSplit(data, offset + 4, [0], Body(e) + crc);
    HoldsSplit(data, offset + 5, Body(e), crc);
  }
}
