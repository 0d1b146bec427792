/**
 The byte formats spelled out for numbers below 256: which field stands where, how wide it is and which of its bytes comes
 first. The round trips elsewhere would hold of any order of fields, as long as writer and reader agree.
 */
module Layouts {
  import opened Types
  import opened ByteOrder
  import opened Frames
  import opened Crc32
  import opened Wal
  import opened RpcCodec
  import opened Backends
  import opened KvStores

  /** Eight bytes, the most significant first. */
  function Big(v: byte): Bytes
  {
    [0, 0, 0, 0, 0, 0, 0, v]
  }

  /** Eight bytes, the least significant first. */
  function Little(v: byte): Bytes
  {
    [v, 0, 0, 0, 0, 0, 0, 0]
  }

  lemma {:induction false} NoBytes(n: nat)
    ensures |Be(0, n)| == n && forall i :: 0 <= i < n ==> Be(0, n)[i] == 0
    ensures |Le(0, n)| == n && forall i :: 0 <= i < n ==> Le(0, n)[i] == 0
  {
    if n > 0 {
      NoBytes(n - 1);
    }
  }

  lemma OneByte(v: byte)
    ensures Be(v, 8) == Big(v) && Le(v, 8) == Little(v) && Le(v, 4) == [v, 0, 0, 0]
  {
    NoBytes(7);
    NoBytes(3);
    assert v / 256 == 0 && v % 256 == v;
    assert Be(v, 8) == Be(0, 7) + [v] && Le(v, 8) == [v] + Le(0, 7) && Le(v, 4) == [v] + Le(0, 3);
  }

  // ---- RPC messages ----

  lemma VoteRequestLayout(term: byte, id: byte, index: byte, lastTerm: byte)
    ensures VoteRequestBytes(RequestVoteRequest(term, id, index, lastTerm))
         == [1] + (Big(term) + (Big(id) + (Big(index) + Big(lastTerm))))
  {
    hide Be, Big;
    OneByte(term);
    OneByte(id);
    OneByte(index);
    OneByte(lastTerm);
    assert Big(lastTerm) + [] == Big(lastTerm);
  }

  lemma VoteResponseLayout(term: byte, granted: bool)
    ensures VoteResponseBytes(RequestVoteResponse(term, granted)) == [2] + (Big(term) + [if granted then 1 else 0])
  {
    hide Be, Big;
    OneByte(term);
  }

  lemma AppendRequestLayout(term: byte, id: byte, prev: byte, prevTerm: byte, commit: byte, es: seq<RaftEntry>)
    requires EntriesFit(es) && |es| < 256
    ensures AppendRequestBytes(AppendEntriesRequest(term, id, prev, prevTerm, es, commit))
         == [3] + (Big(term) + (Big(id) + (Big(prev) + (Big(prevTerm) + (Big(commit) + (Big(|es|) + EntriesThen(es, [])))))))
  {
    hide Be, Big, EntryFits;
    OneByte(term);
    OneByte(id);
    OneByte(prev);
    OneByte(prevTerm);
    OneByte(commit);
    OneByte(|es|);
  }

  lemma AppendResponseLayout(term: byte, success: bool, last: byte, conflict: byte, conflictTerm: byte)
    ensures AppendResponseBytes(AppendEntriesResponse(term, success, last, conflict, conflictTerm))
         == [4] + (Big(term) + ([if success then 1 else 0] + (Big(last) + (Big(conflict) + Big(conflictTerm)))))
  {
    hide Be, Big;
    OneByte(term);
    OneByte(last);
    OneByte(conflict);
    OneByte(conflictTerm);
    assert Big(conflictTerm) + [] == Big(conflictTerm);
  }

  predicate Small(e: RaftEntry)
  {
    && e.term < 256 && e.index < 256 && 0 <= e.leaseId < 256 && e.confChange.nodeId < 256
    && |e.key| < 256 && |e.value| < 256 && |e.confChange.peerAddr| < 256
  }

  /** The byte of an event type, and of a conf change type. */
  function TypeByte(kind: EventType): byte
  {
    if kind.Put? then 0 else if kind.Delete? then 1 else 2
  }

  function ChangeByte(kind: ConfChangeType): byte
  {
    if kind.AddNode? then 0 else 1
  }

  lemma EntryLayout(e: RaftEntry, rest: Bytes)
    requires Small(e)
    ensures EntryFits(e)
    ensures var conf := e.confChange;
            EntryThen(e, rest)
            == Big(e.term) + (Big(e.index) + ([TypeByte(e.kind)] + (Big(|e.key|) + (e.key + (Big(|e.value|) + (e.value + (Big(e.leaseId)
               + if e.kind == ConfChangeEvent
                 then [ChangeByte(conf.kind)] + (Big(conf.nodeId) + (Big(|conf.peerAddr|) + (conf.peerAddr + rest)))
                 else rest)))))))
  {
    hide Be, Big;
    OneByte(e.term);
    OneByte(e.index);
    OneByte(|e.key|);
    OneByte(|e.value|);
    OneByte(e.leaseId);
    OneByte(e.confChange.nodeId);
    OneByte(|e.confChange.peerAddr|);
  }

  // ---- The write-ahead log ----

  lemma BodyLayout(e: RaftEntry)
    requires Small(e)
    ensures Fits(e)
    ensures var conf := e.confChange;
            Body(e)
            == Little(e.term) + (Little(e.index) + ([TypeByte(e.kind)] + (([|e.key|, 0, 0, 0] + e.key) + (([|e.value|, 0, 0, 0] + e.value)
               + (Little(e.leaseId)
               + if e.kind == ConfChangeEvent
                 then [ChangeByte(conf.kind)] + (Little(conf.nodeId) + ([|conf.peerAddr|, 0, 0, 0] + conf.peerAddr))
                 else [])))))
  {
    hide Le, Little;
    OneByte(e.term);
    OneByte(e.index);
    OneByte(|e.key|);
    OneByte(|e.value|);
    OneByte(e.leaseId);
    OneByte(e.confChange.nodeId);
    OneByte(|e.confChange.peerAddr|);
  }

  /** The checksum's bytes, the least significant first. */
  lemma ChecksumLayout(w: Word)
    ensures FromLe(WordBytes(w)) == NatOfBits(w)
  {
    hide NatOfBits;
    Pow2Of8();
    var b := WordBytes(w);
    ValueConcat(w[..8], w[8..]);
    ValueConcat(w[8..16], w[16..]);
    ValueConcat(w[16..24], w[24..]);
    assert w == w[..8] + w[8..] && w[8..] == w[8..16] + w[16..] && w[16..] == w[16..24] + w[24..];
    assert b[1..] == [b[1], b[2], b[3]] && b[1..][1..] == [b[2], b[3]] && b[1..][1..][1..] == [b[3]] && [b[3]][1..] == [];
    assert FromLe([b[3]]) == b[3] && FromLe([b[2], b[3]]) == b[2] + 256 * FromLe([b[3]]);
  }

  /** A record: its length, the type byte 0, the body and the checksum of the body. */
  lemma RecordLayout(e: RaftEntry)
    requires Fits(e) && |Body(e)| < 251
    ensures var crc := WordBytes(Checksum(Body(e)));
            Record(e) == [|Body(e)| + 5, 0, 0, 0] + ([0] + (Body(e) + crc)) && FromLe(crc) == NatOfBits(Checksum(Body(e)))
  {
    hide Body, Checksum, Le;
    OneByte(|Body(e)| + 5);
    ChecksumLayout(Checksum(Body(e)));
  }

  // ---- The backend file and the snapshot ----

  lemma PairLayout(p: Pair)
    requires |p.0| < 256 && |p.1| < 256
    ensures PairFrame(p) == ([|p.0|, 0, 0, 0] + p.0) + ([|p.1|, 0, 0, 0] + p.1)
  {
    hide Le;
    OneByte(|p.0|);
    OneByte(|p.1|);
  }

  /** The file: the letters DTEM, version 1, and the pairs. */
  lemma FileLayout(pairs: seq<Pair>)
    ensures FileOf(pairs) == [0x44, 0x54, 0x45, 0x4D, 1, 0, 0, 0] + Concat(PairFrames(pairs))
  {
    hide PairFrames, Concat;
    OneByte(1);
    assert Le(0x4D455444, 4) == [0x44] + Le(0x4D4554, 3);
    assert Le(0x4D4554, 3) == [0x54] + Le(0x4D45, 2);
    assert Le(0x4D45, 2) == [0x45] + Le(0x4D, 1);
    assert Le(0x4D, 1) == [0x4D] + Le(0, 0);
    assert Le(0x4D455444, 4) == [0x44, 0x54, 0x45, 0x4D];
  }

  /** What the loader takes: keys of 1 to 1048576 bytes, values of at most 67108864. */
  lemma LoadableLimits(p: Pair)
    ensures Loadable(p) <==> 1 <= |p.0| <= 1_048_576 && |p.1| <= 67_108_864
  {
  }

  lemma SnapshotLayout(pairs: seq<Pair>)
    requires |pairs| < 256
    ensures SnapshotOf(pairs) == [|pairs|, 0, 0, 0] + Concat(PairFrames(pairs))
  {
    hide PairFrames, Concat, Le;
    OneByte(|pairs|);
  }
}
