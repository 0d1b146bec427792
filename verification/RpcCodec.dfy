/**
 The bytes of the RPC messages (src/raft/tcp_transport.cpp): the big-endian writer and reader, and what is written for
 and read from each request and response.
 */
module RpcCodec {
  import opened Types
  import opened ByteOrder
  import opened Wal

  const VOTE_REQUEST: byte := 1
  const VOTE_RESPONSE: byte := 2
  const APPEND_REQUEST: byte := 3
  const APPEND_RESPONSE: byte := 4

  // ---- The format; `rest` is what follows in the message ----

  function StringThen(s: Bytes, rest: Bytes): Bytes
  {
    Be(|s|, 8) + (s + rest)
  }

  function ConfThen(e: RaftEntry, rest: Bytes): Bytes
  {
    if e.kind == ConfChangeEvent
    then [ConfByte(e.confChange.kind)] + (Be(e.confChange.nodeId, 8) + StringThen(e.confChange.peerAddr, rest))
    else rest
  }

  function EntryThen(e: RaftEntry, rest: Bytes): Bytes
    requires EntryFits(e)
  {
    Be(e.term, 8) + (Be(e.index, 8) + ([KindByte(e.kind)] + StringThen(e.key, StringThen(e.value,
      Be(Unsigned(e.leaseId), 8) + ConfThen(e, rest)))))
  }

  function EntriesThen(es: seq<RaftEntry>, rest: Bytes): Bytes
    requires EntriesFit(es)
  {
    if es == [] then rest else EntryThen(es[0], EntriesThen(es[1..], rest))
  }

  function VoteRequestBytes(req: RequestVoteRequest): Bytes
  {
    [VOTE_REQUEST] + (Be(req.term, 8) + (Be(req.candidateId, 8) + (Be(req.lastLogIndex, 8) + (Be(req.lastLogTerm, 8) + []))))
  }

  function AppendRequestBytes(req: AppendEntriesRequest): Bytes
    requires EntriesFit(req.entries)
  {
    [APPEND_REQUEST] + (Be(req.term, 8) + (Be(req.leaderId, 8) + (Be(req.prevLogIndex, 8) + (Be(req.prevLogTerm, 8)
      + (Be(req.leaderCommit, 8) + (Be(|req.entries|, 8) + EntriesThen(req.entries, [])))))))
  }

  function Flag(b: bool): byte
  {
    if b then 1 else 0
  }

  function VoteResponseBytes(resp: RequestVoteResponse): Bytes
  {
    [VOTE_RESPONSE] + (Be(resp.term, 8) + ([Flag(resp.voteGranted)] + []))
  }

  function AppendResponseBytes(resp: AppendEntriesResponse): Bytes
  {
    [APPEND_RESPONSE] + (Be(resp.term, 8) + ([Flag(resp.success)] + (Be(resp.lastLogIndex, 8)
      + (Be(resp.conflictIndex, 8) + (Be(resp.conflictTerm, 8) + [])))))
  }

  /** The values of the C++ fields. */
  predicate EntryFits(e: RaftEntry)
  {
    && e.term < TWO_TO_64 && e.index < TWO_TO_64 && -TWO_TO_63 <= e.leaseId < TWO_TO_63 && e.confChange.nodeId < TWO_TO_64
    && |e.key| < TWO_TO_64 && |e.value| < TWO_TO_64 && |e.confChange.peerAddr| < TWO_TO_64
  }

  predicate EntriesFit(es: seq<RaftEntry>)
  {
    forall e :: e in es ==> EntryFits(e)
  }

  predicate VoteRequestFits(req: RequestVoteRequest)
  {
    req.term < TWO_TO_64 && req.candidateId < TWO_TO_64 && req.lastLogIndex < TWO_TO_64 && req.lastLogTerm < TWO_TO_64
  }

  predicate ResponseFits(resp: AppendEntriesResponse)
  {
    resp.term < TWO_TO_64 && resp.lastLogIndex < TWO_TO_64 && resp.conflictIndex < TWO_TO_64 && resp.conflictTerm < TWO_TO_64
  }

  predicate RequestFits(req: AppendEntriesRequest)
  {
    && req.term < TWO_TO_64 && req.leaderId < TWO_TO_64 && req.prevLogIndex < TWO_TO_64 && req.prevLogTerm < TWO_TO_64
    && req.leaderCommit < TWO_TO_64 && |req.entries| < TWO_TO_64 && EntriesFit(req.entries)
  }

  // ---- Appending to a message is appending to its rest ----

  lemma EntryAppends(e: RaftEntry, rest: Bytes)
    requires EntryFits(e)
    ensures EntryThen(e, rest) == EntryThen(e, []) + rest
  {
    hide Be;
    assert ConfThen(e, rest) == ConfThen(e, []) + rest;
    var lease := Be(Unsigned(e.leaseId), 8);
    StringAppends(e.value, lease + ConfThen(e, []), rest);
    assert lease + ConfThen(e, rest) == lease + ConfThen(e, []) + rest;
    StringAppends(e.key, StringThen(e.value, lease + ConfThen(e, [])), rest);
    FieldsAppend(Be(e.term, 8), Be(e.index, 8), [KindByte(e.kind)], StringThen(e.key, StringThen(e.value, lease + ConfThen(e, []))), rest);
  }

  lemma StringAppends(s: Bytes, middle: Bytes, rest: Bytes)
    ensures StringThen(s, middle + rest) == StringThen(s, middle) + rest
  {
    assert s + (middle + rest) == s + middle + rest;
    assert Be(|s|, 8) + (s + middle + rest) == Be(|s|, 8) + (s + middle) + rest;
  }

  lemma FieldsAppend(a: Bytes, b: Bytes, c: Bytes, d: Bytes, rest: Bytes)
    ensures a + (b + (c + (d + rest))) == a + (b + (c + d)) + rest
  {
    assert a + (b + (c + (d + rest))) == a + b + c + d + rest == a + (b + (c + d)) + rest;
  }

  lemma {:induction false} EntriesAppend(es: seq<RaftEntry>, e: RaftEntry)
    requires EntryFits(e) && EntriesFit(es)
    ensures EntriesThen(es + [e], []) == EntriesThen(es, []) + EntryThen(e, [])
  {
    hide EntryThen, EntryFits;
    if es == [] {
      assert [] + [e] == [e] && [e][1..] == [];
    } else {
      assert (es + [e])[1..] == es[1..] + [e];
      EntriesAppend(es[1..], e);
      EntryAppends(es[0], EntriesThen(es[1..], []) + EntryThen(e, []));
      EntryAppends(es[0], EntriesThen(es[1..], []));
      assert EntryThen(es[0], []) + (EntriesThen(es[1..], []) + EntryThen(e, []))
             == EntryThen(es[0], []) + EntriesThen(es[1..], []) + EntryThen(e, []);
    }
  }

  // ---- The writer ----

  /** `v >> (i * 8)`. */
  function ShiftBytes(v: nat, i: nat): nat
  {
    if i == 0 then v else ShiftBytes(v, i - 1) / 256
  }

  class BinaryWriter {
    var buf: Bytes

    constructor ()
      ensures buf == []
    {
      buf := [];
    }

    method WriteU8(v: byte)
      modifies this
      ensures buf == old(buf) + [v]
    {
      buf := buf + [v];
    }

    /** Pushes the eight bytes from the highest shift down. */
    method WriteU64(v: nat)
      requires v < TWO_TO_64
      modifies this
      ensures buf == old(buf) + Be(v, 8)
    {
      var i := 8;
      while i > 0
        invariant 0 <= i <= 8 && buf == old(buf) + Be(ShiftBytes(v, i), 8 - i)
      {
        i := i - 1;
        buf := buf + [ShiftBytes(v, i) % 256];
      }
    }

    method WriteString(s: Bytes)
      requires |s| < TWO_TO_64
      modifies this
      ensures buf == old(buf) + StringThen(s, [])
    {
      hide Be;
      WriteU64(|s|);
      var i := 0;
      while i < |s|
        invariant 0 <= i <= |s| && buf == old(buf) + Be(|s|, 8) + s[..i]
      {
        buf := buf + [s[i]];
        i := i + 1;
      }
      assert s[..i] == s && s + [] == s;
    }

    method WriteEntry(e: RaftEntry)
      requires EntryFits(e)
      modifies this
      ensures buf == old(buf) + EntryThen(e, [])
    {
      hide Be;
      ghost var start := buf;
      WriteU64(e.term);
      WriteU64(e.index);
      WriteU8(KindByte(e.kind));
      WriteString(e.key);
      WriteString(e.value);
      WriteU64(Unsigned(e.leaseId));
      ghost var head := buf;
      if e.kind == ConfChangeEvent {
        WriteU8(ConfByte(e.confChange.kind));
        WriteU64(e.confChange.nodeId);
        WriteString(e.confChange.peerAddr);
        RegroupThree(head, [ConfByte(e.confChange.kind)], Be(e.confChange.nodeId, 8), StringThen(e.confChange.peerAddr, []));
      }
      assert buf == head + ConfThen(e, []);
      EntryRegrouped(e);
      RegroupOnto(start, Be(e.term, 8), Be(e.index, 8), [KindByte(e.kind)], StringThen(e.key, []), StringThen(e.value, []),
                  Be(Unsigned(e.leaseId), 8), ConfThen(e, []));
    }

    method WriteVoteRequest(req: RequestVoteRequest)
      requires buf == [] && VoteRequestFits(req)
      modifies this
      ensures buf == VoteRequestBytes(req)
    {
      hide Be;
      WriteU8(VOTE_REQUEST);
      WriteU64(req.term);
      WriteU64(req.candidateId);
      WriteU64(req.lastLogIndex);
      WriteU64(req.lastLogTerm);
      Regroup([VOTE_REQUEST], Be(req.term, 8), Be(req.candidateId, 8), Be(req.lastLogIndex, 8), Be(req.lastLogTerm, 8), [], []);
    }

    method WriteAppendRequest(req: AppendEntriesRequest)
      requires buf == [] && RequestFits(req)
      modifies this
      ensures buf == AppendRequestBytes(req)
    {
      hide Be, EntryFits, EntryThen;
      WriteU8(APPEND_REQUEST);
      WriteU64(req.term);
      WriteU64(req.leaderId);
      WriteU64(req.prevLogIndex);
      WriteU64(req.prevLogTerm);
      WriteU64(req.leaderCommit);
      WriteU64(|req.entries|);
      ghost var head := buf;
      var i := 0;
      assert req.entries[..0] == [];
      while i < |req.entries|
        invariant 0 <= i <= |req.entries| && buf == head + EntriesThen(req.entries[..i], [])
      {
        assert req.entries[..i + 1] == req.entries[..i] + [req.entries[i]];
        assert req.entries[i] in req.entries;
        EntriesAppend(req.entries[..i], req.entries[i]);
        WriteEntry(req.entries[i]);
        i := i + 1;
      }
      assert req.entries[..i] == req.entries;
      RegroupMessage([APPEND_REQUEST], Be(req.term, 8), Be(req.leaderId, 8), Be(req.prevLogIndex, 8), Be(req.prevLogTerm, 8),
                     Be(req.leaderCommit, 8), Be(|req.entries|, 8), EntriesThen(req.entries, []));
    }

    method WriteVoteResponse(resp: RequestVoteResponse)
      requires buf == [] && resp.term < TWO_TO_64
      modifies this
      ensures buf == VoteResponseBytes(resp)
    {
      hide Be;
      WriteU8(VOTE_RESPONSE);
      WriteU64(resp.term);
      WriteU8(Flag(resp.voteGranted));
      Regroup([VOTE_RESPONSE], Be(resp.term, 8), [Flag(resp.voteGranted)], [], [], [], []);
    }

    method WriteAppendResponse(resp: AppendEntriesResponse)
      requires buf == [] && ResponseFits(resp)
      modifies this
      ensures buf == AppendResponseBytes(resp)
    {
      hide Be;
      WriteU8(APPEND_RESPONSE);
      WriteU64(resp.term);
      WriteU8(Flag(resp.success));
      WriteU64(resp.lastLogIndex);
      WriteU64(resp.conflictIndex);
      WriteU64(resp.conflictTerm);
      Regroup([APPEND_RESPONSE], Be(resp.term, 8), [Flag(resp.success)], Be(resp.lastLogIndex, 8), Be(resp.conflictIndex, 8),
              Be(resp.conflictTerm, 8), []);
    }
  }

  lemma EntryRegrouped(e: RaftEntry)
    requires EntryFits(e)
    ensures EntryThen(e, []) == Be(e.term, 8) + (Be(e.index, 8) + ([KindByte(e.kind)] + (StringThen(e.key, [])
              + (StringThen(e.value, []) + (Be(Unsigned(e.leaseId), 8) + ConfThen(e, []))))))
  {
    hide Be, ConfThen;
    var tail := Be(Unsigned(e.leaseId), 8) + ConfThen(e, []);
    StringAppends(e.value, [], tail);
    assert [] + tail == tail;
    StringAppends(e.key, [], StringThen(e.value, tail));
    assert [] + StringThen(e.value, tail) == StringThen(e.value, tail);
  }

  lemma RegroupOnto(start: Bytes, a: Bytes, b: Bytes, c: Bytes, d: Bytes, e: Bytes, f: Bytes, g: Bytes)
    ensures start + (a + (b + (c + (d + (e + (f + g)))))) == start + a + b + c + d + e + f + g
  {
    Regroup(a, b, c, d, e, f, g);
    assert start + ([] + a + b + c + d + e + f + g) == start + a + b + c + d + e + f + g;
  }

  lemma RegroupMessage(a: Bytes, b: Bytes, c: Bytes, d: Bytes, e: Bytes, f: Bytes, g: Bytes, h: Bytes)
    ensures a + (b + (c + (d + (e + (f + (g + h)))))) == [] + a + b + c + d + e + f + g + h
  {
    RegroupOnto(a, b, c, d, e, f, g, h);
    assert [] + a == a;
  }

  // ---- The reader ----

  /** Exactly `piece` is left to read. */
  predicate Left(data: Bytes, pos: nat, piece: Bytes)
  {
    pos <= |data| && data[pos..] == piece
  }

  lemma LeftSplit(data: Bytes, pos: nat, a: Bytes, b: Bytes)
    requires Left(data, pos, a + b)
    ensures pos + |a| <= |data| && data[pos..pos + |a|] == a && Left(data, pos + |a|, b)
  {
    assert data[pos..pos + |a|] == data[pos..][..|a|];
    assert data[pos + |a|..] == data[pos..][|a|..];
  }

  /** From `from` to `to` stand a length and the string `r`: of that length, or of all bytes left if they are fewer. */
  predicate HasString(data: Bytes, from: nat, to: nat, r: Bytes)
  {
    var start := Min(from + 8, |data|);
    from <= start && to == Min(start + FromBe(data[from..start]), |data|) && r == data[start..to]
  }

  class BinaryReader {
    const data: Bytes
    var pos: nat

    predicate Valid()
      reads this
    {
      pos <= |data|
    }

    constructor (data: Bytes)
      ensures Valid() && this.data == data && pos == 0
    {
      this.data, pos := data, 0;
    }

    /** 0 at the end of the message. */
    method ReadU8(ghost v: byte, ghost rest: Bytes) returns (r: byte)
      requires Valid()
      modifies this
      ensures Valid() && pos == Min(old(pos) + 1, |data|)
      ensures Left(data, old(pos), [v] + rest) ==> r == v && Left(data, pos, rest)
    {
      if Left(data, pos, [v] + rest) {
        LeftSplit(data, pos, [v], rest);
        assert data[pos] == data[pos..pos + 1][0];
      }
      if pos >= |data| {
        return 0;
      }
      r := data[pos];
      pos := pos + 1;
    }

    /** As many of eight bytes as are left. */
    method ReadU64(ghost v: nat, ghost rest: Bytes) returns (r: nat)
      requires Valid()
      modifies this
      ensures Valid() && pos == Min(old(pos) + 8, |data|) && r == FromBe(data[old(pos)..pos]) < TWO_TO_64
      ensures v < TWO_TO_64 && Left(data, old(pos), Be(v, 8) + rest) ==> r == v && Left(data, pos, rest)
    {
      hide Be;
      if v < TWO_TO_64 && Left(data, pos, Be(v, 8) + rest) {
        LeftSplit(data, pos, Be(v, 8), rest);
        Spans();
        BeRoundTrip(v, 8);
      }
      r := 0;
      var i := 0;
      while i < 8 && pos < |data|
        invariant 0 <= i <= 8 && pos == old(pos) + i <= |data| && r == FromBe(data[old(pos)..pos])
      {
        assert data[old(pos)..pos + 1][..i] == data[old(pos)..pos];
        r := 256 * r + data[pos];
        pos := pos + 1;
        i := i + 1;
      }
      FromBeBounded(data[old(pos)..pos]);
    }

    /** A length past the end of the message is cut to what is left. */
    method ReadString(ghost s: Bytes, ghost rest: Bytes) returns (r: Bytes)
      requires Valid()
      modifies this
      ensures Valid() && pos >= old(pos)
      ensures HasString(data, old(pos), pos, r)
      ensures |s| < TWO_TO_64 && Left(data, old(pos), StringThen(s, rest)) ==> r == s && Left(data, pos, rest)
    {
      hide Be;
      var len := ReadU64(|s|, s + rest);
      if |s| < TWO_TO_64 && Left(data, old(pos), StringThen(s, rest)) {
        LeftSplit(data, pos, s, rest);
      }
      if len > |data| - pos {
        len := |data| - pos;
      }
      r := data[pos..pos + len];
      pos := pos + len;
    }

    method ReadConf(e: RaftEntry, ghost want: RaftEntry, ghost rest: Bytes) returns (r: Option<RaftEntry>)
      requires Valid()
      modifies this
      ensures Valid() && pos >= old(pos)
      ensures EntryFits(want) && e.kind == want.kind && Left(data, old(pos), ConfThen(want, rest)) ==>
                r == Some(if e.kind == ConfChangeEvent then e.(confChange := want.confChange) else e) && Left(data, pos, rest)
    {
      hide Be, StringThen, Left, HasString;
      if e.kind != ConfChangeEvent {
        return Some(e);
      }
      ghost var cc := want.confChange;
      var kind := ReadU8(ConfByte(cc.kind), Be(cc.nodeId, 8) + StringThen(cc.peerAddr, rest));
      var nodeId := ReadU64(cc.nodeId, StringThen(cc.peerAddr, rest));
      var addr := ReadString(cc.peerAddr, rest);
      if ConfChangeOf(kind) == None {
        return None;
      }
      return Some(e.(confChange := ConfChange(ConfChangeOf(kind).value, nodeId, addr)));
    }

    /** `None`: a type byte that names no event; what the code does then is not modelled. */
    method ReadEntry(ghost e: RaftEntry, ghost rest: Bytes) returns (r: Option<RaftEntry>)
      requires Valid()
      modifies this
      ensures Valid() && pos >= old(pos)
      ensures EntryFits(e) && Left(data, old(pos), EntryThen(e, rest)) ==> r == Some(Recovered(e)) && Left(data, pos, rest)
    {
      hide Be, StringThen, ConfThen, Left, HasString;
      ghost var fits := EntryFits(e);
      ghost var lease: Bytes := if fits then Be(Unsigned(e.leaseId), 8) + ConfThen(e, rest) else [];
      var term := ReadU64(e.term, Be(e.index, 8) + ([KindByte(e.kind)] + StringThen(e.key, StringThen(e.value, lease))));
      var index := ReadU64(e.index, [KindByte(e.kind)] + StringThen(e.key, StringThen(e.value, lease)));
      var kind := ReadU8(KindByte(e.kind), StringThen(e.key, StringThen(e.value, lease)));
      var key := ReadString(e.key, StringThen(e.value, lease));
      var value := ReadString(e.value, lease);
      var leaseId := ReadU64(if fits then Unsigned(e.leaseId) else 0, ConfThen(e, rest));
      if EventOf(kind) == None {
        return None;
      }
      EventRoundTrip(e.kind);
      var entry := RaftEntry(term, index, EventOf(kind).value, key, value, Signed(leaseId), NO_CONF_CHANGE);
      r := ReadConf(entry, e, rest);
    }

    method ReadEntries(count: nat, ghost es: seq<RaftEntry>) returns (r: Option<seq<RaftEntry>>)
      requires Valid()
      modifies this
      ensures Valid()
      ensures EntriesFit(es) && count == |es| && Left(data, old(pos), EntriesThen(es, [])) ==> r == Some(AllRecovered(es)) && pos == |data|
    {
      hide EntryThen, EntryFits, Recovered;
      ghost var intact := EntriesFit(es) && count == |es| && Left(data, pos, EntriesThen(es, []));
      var entries: seq<RaftEntry> := [];
      var i := 0;
      assert es[0..] == es && es[..0] == [];
      while i < count
        invariant 0 <= i <= count && Valid()
        invariant intact ==> EntriesFit(es) && count == |es|
        invariant intact ==> Left(data, pos, EntriesThen(es[i..], []))
        invariant intact ==> entries == AllRecovered(es[..i])
      {
        ghost var rest: Bytes := if intact then EntriesThen(es[i + 1..], []) else [];
        if intact {
          assert es[i] in es && es[i..][1..] == es[i + 1..];
          assert EntriesThen(es[i..], []) == EntryThen(es[i], rest);
        }
        var e := ReadEntry(if intact then es[i] else EMPTY_ENTRY, rest);
        if e == None {
          return None;
        }
        entries := entries + [e.value];
        i := i + 1;
        if intact {
          assert es[..i] == es[..i - 1] + [es[i - 1]];
        }
      }
      assert intact ==> es[..i] == es && es[i..] == [];
      return Some(entries);
    }

    method ReadVoteRequest(ghost req: RequestVoteRequest) returns (r: RequestVoteRequest)
      requires Valid()
      modifies this
      ensures Valid()
      ensures VoteRequestFits(req) && Left(data, old(pos), VoteRequestBytes(req)) ==> r == req && pos == |data|
    {
      hide Be;
      ghost var last: Bytes := [];
      var kind := ReadU8(VOTE_REQUEST, Be(req.term, 8) + (Be(req.candidateId, 8) + (Be(req.lastLogIndex, 8) + (Be(req.lastLogTerm, 8) + last))));
      var term := ReadU64(req.term, Be(req.candidateId, 8) + (Be(req.lastLogIndex, 8) + (Be(req.lastLogTerm, 8) + last)));
      var candidateId := ReadU64(req.candidateId, Be(req.lastLogIndex, 8) + (Be(req.lastLogTerm, 8) + last));
      var lastLogIndex := ReadU64(req.lastLogIndex, Be(req.lastLogTerm, 8) + last);
      var lastLogTerm := ReadU64(req.lastLogTerm, last);
      r := RequestVoteRequest(term, candidateId, lastLogIndex, lastLogTerm);
    }

    method ReadAppendRequest(ghost req: AppendEntriesRequest) returns (r: Option<AppendEntriesRequest>)
      requires Valid()
      modifies this
      ensures Valid()
      ensures RequestFits(req) && Left(data, old(pos), AppendRequestBytes(req)) ==>
                r == Some(req.(entries := AllRecovered(req.entries))) && pos == |data|
    {
      hide Be, EntryFits, Left, EntriesThen, AllRecovered;
      ghost var entries: Bytes := if RequestFits(req) then EntriesThen(req.entries, []) else [];
      ghost var five: Bytes := Be(|req.entries|, 8) + entries;
      ghost var four := Be(req.leaderCommit, 8) + five;
      ghost var three := Be(req.prevLogTerm, 8) + four;
      ghost var two := Be(req.prevLogIndex, 8) + three;
      ghost var one := Be(req.leaderId, 8) + two;
      var kind := ReadU8(APPEND_REQUEST, Be(req.term, 8) + one);
      var term := ReadU64(req.term, one);
      var leaderId := ReadU64(req.leaderId, two);
      var prevLogIndex := ReadU64(req.prevLogIndex, three);
      var prevLogTerm := ReadU64(req.prevLogTerm, four);
      var leaderCommit := ReadU64(req.leaderCommit, five);
      var count := ReadU64(|req.entries|, entries);
      var read := ReadEntries(count, req.entries);
      if read == None {
        return None;
      }
      return Some(AppendEntriesRequest(term, leaderId, prevLogIndex, prevLogTerm, read.value, leaderCommit));
    }

    method ReadVoteResponse(ghost resp: RequestVoteResponse) returns (r: RequestVoteResponse)
      requires Valid()
      modifies this
      ensures Valid()
      ensures resp.term < TWO_TO_64 && Left(data, old(pos), VoteResponseBytes(resp)) ==> r == resp && pos == |data|
    {
      hide Be;
      var kind := ReadU8(VOTE_RESPONSE, Be(resp.term, 8) + ([Flag(resp.voteGranted)] + []));
      var term := ReadU64(resp.term, [Flag(resp.voteGranted)] + []);
      var granted := ReadU8(Flag(resp.voteGranted), []);
      r := RequestVoteResponse(term, granted != 0);
    }

    method ReadAppendResponse(ghost resp: AppendEntriesResponse) returns (r: AppendEntriesResponse)
      requires Valid()
      modifies this
      ensures Valid()
      ensures ResponseFits(resp) && Left(data, old(pos), AppendResponseBytes(resp)) ==> r == resp && pos == |data|
    {
      hide Be;
      ghost var last: Bytes := Be(resp.conflictTerm, 8) + [];
      ghost var two := Be(resp.lastLogIndex, 8) + (Be(resp.conflictIndex, 8) + last);
      var kind := ReadU8(APPEND_RESPONSE, Be(resp.term, 8) + ([Flag(resp.success)] + two));
      var term := ReadU64(resp.term, [Flag(resp.success)] + two);
      var success := ReadU8(Flag(resp.success), two);
      var lastLogIndex := ReadU64(resp.lastLogIndex, Be(resp.conflictIndex, 8) + last);
      var conflictIndex := ReadU64(resp.conflictIndex, last);
      var conflictTerm := ReadU64(resp.conflictTerm, []);
      r := AppendEntriesResponse(term, success != 0, lastLogIndex, conflictIndex, conflictTerm);
    }
  }

  function AllRecovered(es: seq<RaftEntry>): (r: seq<RaftEntry>)
    ensures |r| == |es| && forall i :: 0 <= i < |es| ==> r[i] == Recovered(es[i])
  {
    seq(|es|, i requires 0 <= i < |es| => Recovered(es[i]))
  }

  lemma {:induction false} FromBeBounded(s: Bytes)
    requires |s| <= 8
    ensures FromBe(s) < Span(|s|) <= TWO_TO_64
  {
    SpanGrows(|s|);
    if s != [] {
      FromBeBounded(s[..|s| - 1]);
    }
  }

  lemma {:induction false} SpanGrows(n: nat)
    requires n <= 8
    ensures Span(n) <= TWO_TO_64
    decreases 8 - n
  {
    Spans();
    if n < 8 {
      SpanGrows(n + 1);
    }
  }

  // ---- Over the wire ----

  /** A request arrives as it was sent, conf changes included exactly with the entries of that type. */
  method SendAppendRequest(req: AppendEntriesRequest) returns (received: Option<AppendEntriesRequest>)
    requires RequestFits(req)
    ensures received.Some? && received.value == req.(entries := AllRecovered(req.entries))
    ensures (forall e :: e in req.entries ==> e.kind == ConfChangeEvent || e.confChange == NO_CONF_CHANGE) ==> received == Some(req)
  {
    var w := new BinaryWriter();
    w.WriteAppendRequest(req);
    var r := new BinaryReader(w.buf);
    assert r.data[0..] == r.data;
    received := r.ReadAppendRequest(req);
    if forall e :: e in req.entries ==> e.kind == ConfChangeEvent || e.confChange == NO_CONF_CHANGE {
      assert AllRecovered(req.entries) == req.entries;
    }
  }

  method SendVoteRequest(req: RequestVoteRequest) returns (received: RequestVoteRequest)
    requires VoteRequestFits(req)
    ensures received == req
  {
    var w := new BinaryWriter();
    w.WriteVoteRequest(req);
    var r := new BinaryReader(w.buf);
    assert r.data[0..] == r.data;
    received := r.ReadVoteRequest(req);
  }

  method SendAppendResponse(resp: AppendEntriesResponse) returns (received: AppendEntriesResponse)
    requires ResponseFits(resp)
    ensures received == resp
  {
    var w := new BinaryWriter();
    w.WriteAppendResponse(resp);
    var r := new BinaryReader(w.buf);
    assert r.data[0..] == r.data;
    received := r.ReadAppendResponse(resp);
  }

  method SendVoteResponse(resp: RequestVoteResponse) returns (received: RequestVoteResponse)
    requires resp.term < TWO_TO_64
    ensures received == resp
  {
    var w := new BinaryWriter();
    w.WriteVoteResponse(resp);
    var r := new BinaryReader(w.buf);
    assert r.data[0..] == r.data;
    received := r.ReadVoteResponse(resp);
  }
}
