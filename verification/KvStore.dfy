/** The key-value store over the version index and the backend (src/storage/kvstore.cpp). */
module KvStores {
  import opened Types
  import opened ByteOrder
  import opened Frames
  import opened KeyOrder
  import opened Mvcc
  import opened Backends

  type Contents = map<Bytes, Bytes>

  // ---- What log entries do to a plain map ----

  function Apply(m: Contents, e: RaftEntry): Contents
  {
    match e.kind
    case Put => m[e.key := e.value]
    case Delete => m - {e.key}
    case ConfChangeEvent => m
  }

  function ApplyAll(m: Contents, es: seq<RaftEntry>): Contents
  {
    if es == [] then m else Apply(ApplyAll(m, es[..|es| - 1]), es[|es| - 1])
  }

  /** The version index after live application: revisions are allocated one per write. */
  function LiveIndex(index: map<Bytes, KeyIndex>, rev: Revision, es: seq<RaftEntry>): (map<Bytes, KeyIndex>, Revision)
  {
    if es == [] then (index, rev)
    else
      var (before, next) := LiveIndex(index, rev, es[..|es| - 1]);
      var e := es[|es| - 1];
      match e.kind
      case Put => (IndexPut(before, e.key, next, e.value, e.leaseId), next + 1)
      case Delete => (IndexDelete(before, e.key, next), next + 1)
      case ConfChangeEvent => (before, next)
  }

  /** The version index after replay: the revision of a write is the entry's index. */
  function ReplayIndex(index: map<Bytes, KeyIndex>, es: seq<RaftEntry>): map<Bytes, KeyIndex>
  {
    if es == [] then index
    else
      var before := ReplayIndex(index, es[..|es| - 1]);
      var e := es[|es| - 1];
      match e.kind
      case Put => IndexPut(before, e.key, e.index, e.value, e.leaseId)
      case Delete => IndexDelete(before, e.key, e.index)
      case ConfChangeEvent => before
  }

  /** How many of the entries write. */
  function WriteCount(es: seq<RaftEntry>): nat
  {
    if es == [] then 0 else WriteCount(es[..|es| - 1]) + if es[|es| - 1].kind == ConfChangeEvent then 0 else 1
  }

  lemma {:induction false} LiveRevisions(index: map<Bytes, KeyIndex>, rev: Revision, es: seq<RaftEntry>)
    ensures LiveIndex(index, rev, es).1 == rev + WriteCount(es)
  {
    if es != [] {
      LiveRevisions(index, rev, es[..|es| - 1]);
    }
  }

  /** The key of `e` has just been written with revision `rev` as `e` says. */
  predicate JustWritten(index: map<Bytes, KeyIndex>, e: RaftEntry, rev: Revision)
  {
    && e.key in index && index[e.key].versions != [] && index[e.key].lastRevision == rev
    && var v := index[e.key].versions[|index[e.key].versions| - 1];
       && v.revision == rev && v.tombstone == (e.kind == Delete)
       && (e.kind == Put ==>
             v.value == e.value && v.leaseId == e.leaseId
             && Lookup(index, e.key, 0) == Some(KeyValue(e.key, e.value, v.createRevision, rev, v.version, e.leaseId)))
       && (e.kind == Delete ==> Lookup(index, e.key, 0) == None)
  }

  /** A replayed write leaves a version that carries the entry's index; a live one, the number of the write. */
  lemma WriteRevisions(index: map<Bytes, KeyIndex>, rev: Revision, es: seq<RaftEntry>, e: RaftEntry)
    requires e.kind != ConfChangeEvent
    ensures JustWritten(ReplayIndex(index, es + [e]), e, e.index)
    ensures JustWritten(LiveIndex(index, rev, es + [e]).0, e, rev + WriteCount(es))
  {
    assert (es + [e])[..|es|] == es;
    LiveRevisions(index, rev, es);
  }

  /** And writes to one key leave all others alone. */
  lemma OtherKeysStay(index: map<Bytes, KeyIndex>, rev: Revision, es: seq<RaftEntry>, e: RaftEntry, key: Bytes)
    requires e.kind == ConfChangeEvent || e.key != key
    ensures History(ReplayIndex(index, es + [e]), key) == History(ReplayIndex(index, es), key)
    ensures History(LiveIndex(index, rev, es + [e]).0, key) == History(LiveIndex(index, rev, es).0, key)
  {
    assert (es + [e])[..|es|] == es;
  }

  /** The same writes with the same numbers, values and leases; only revisions may differ. */
  predicate SameWrites(a: KeyIndex, b: KeyIndex)
  {
    && |a.versions| == |b.versions|
    && forall i :: 0 <= i < |a.versions| ==>
         var v, w := a.versions[i], b.versions[i];
         v.version == w.version && v.tombstone == w.tombstone && v.leaseId == w.leaseId && v.value == w.value
  }

  ghost predicate SameHistories(a: map<Bytes, KeyIndex>, b: map<Bytes, KeyIndex>)
  {
    a.Keys == b.Keys && forall k :: k in a ==> SameWrites(a[k], b[k])
  }

  lemma SameAfterWrite(a: map<Bytes, KeyIndex>, b: map<Bytes, KeyIndex>, key: Bytes, r: Revision, s: Revision, value: Bytes, leaseId: int)
    requires SameHistories(a, b)
    ensures SameHistories(IndexPut(a, key, r, value, leaseId), IndexPut(b, key, s, value, leaseId))
    ensures SameHistories(IndexDelete(a, key, r), IndexDelete(b, key, s))
  {
    assert SameWrites(History(a, key), History(b, key));
    assert NextNumber(History(a, key)) == NextNumber(History(b, key));
  }

  /** Replaying a log from an empty store gives every key the versions, values and leases that applying it live gave. */
  lemma {:induction false} ReplayAgreesWithLive(a: map<Bytes, KeyIndex>, b: map<Bytes, KeyIndex>, rev: Revision, es: seq<RaftEntry>)
    requires SameHistories(a, b)
    ensures SameHistories(LiveIndex(a, rev, es).0, ReplayIndex(b, es))
  {
    if es != [] {
      hide SameHistories;
      var before, e := es[..|es| - 1], es[|es| - 1];
      ReplayAgreesWithLive(a, b, rev, before);
      var (live, next) := LiveIndex(a, rev, before);
      SameAfterWrite(live, ReplayIndex(b, before), e.key, next, e.index, e.value, e.leaseId);
    }
  }

  /** The newest reads then agree in value, number and lease. */
  lemma SameNewestRead(a: map<Bytes, KeyIndex>, b: map<Bytes, KeyIndex>, key: Bytes)
    requires SameHistories(a, b)
    ensures match Lookup(a, key, 0)
            case None => Lookup(b, key, 0) == None
            case Some(kv) => Lookup(b, key, 0).Some? &&
                             var w := Lookup(b, key, 0).value; w.value == kv.value && w.version == kv.version && w.leaseId == kv.leaseId
  {
    assert key in a ==> SameWrites(a[key], b[key]);
  }

  // ---- The shadow map ----

  /** The backend holds exactly the live keys, each with the value of its newest version. */
  ghost predicate Agrees(index: map<Bytes, KeyIndex>, store: Contents)
  {
    forall k {:trigger AgreesAt(index, store, k)} :: AgreesAt(index, store, k)
  }

  predicate AgreesAt(index: map<Bytes, KeyIndex>, store: Contents, k: Bytes)
  {
    match Lookup(index, k, 0)
    case None => k !in store
    case Some(kv) => k in store && store[k] == kv.value
  }

  lemma AgreesAfterPut(index: map<Bytes, KeyIndex>, store: Contents, key: Bytes, rev: Revision, value: Bytes, leaseId: int)
    requires Agrees(index, store)
    ensures Agrees(IndexPut(index, key, rev, value, leaseId), store[key := value])
  {
    forall k {:trigger AgreesAt(IndexPut(index, key, rev, value, leaseId), store[key := value], k)}
      ensures AgreesAt(IndexPut(index, key, rev, value, leaseId), store[key := value], k)
    {
      assert AgreesAt(index, store, k);
    }
  }

  lemma AgreesAfterDelete(index: map<Bytes, KeyIndex>, store: Contents, key: Bytes, rev: Revision)
    requires Agrees(index, store)
    ensures Agrees(IndexDelete(index, key, rev), store - {key})
  {
    forall k {:trigger AgreesAt(IndexDelete(index, key, rev), store - {key}, k)}
      ensures AgreesAt(IndexDelete(index, key, rev), store - {key}, k)
    {
      assert AgreesAt(index, store, k);
    }
  }

  /** The newest version of a live key survives every compaction. */
  lemma AgreesAfterCompact(before: map<Bytes, KeyIndex>, rev: Revision, after: map<Bytes, KeyIndex>, store: Contents)
    requires IsCompacted(before, rev, after) && Agrees(before, store)
    ensures Agrees(after, store)
  {
    forall k {:trigger AgreesAt(after, store, k)}
      ensures AgreesAt(after, store, k)
    {
      assert AgreesAt(before, store, k);
    }
  }

  // ---- The snapshot format ----

  function SnapshotOf(pairs: seq<Pair>): Bytes
  {
    Le(|pairs|, 4) + Concat(PairFrames(pairs))
  }

  ghost predicate Storable(pairs: seq<Pair>)
  {
    |pairs| < 0x1_0000_0000 && Lengths(pairs)
  }

  /** `Overrun`: the code reads past the buffer, which is not modelled further. */
  datatype LoadResult = Done(ok: bool) | Overrun

  /** A string that does not fit reads as empty and leaves the offset behind its length. */
  method ReadString(data: Bytes, offset: nat, ghost piece: Bytes) returns (s: Option<Bytes>, next: nat)
    requires offset <= |data|
    ensures s.Some? ==> offset + 4 <= next <= |data|
    ensures |piece| < 0x1_0000_0000 && Holds(data, offset, Str(piece)) ==> s == Some(piece) && next == offset + |Str(piece)|
  {
    if offset + 4 > |data| {
      return None, offset;
    }
    if |piece| < 0x1_0000_0000 && Holds(data, offset, Str(piece)) {
      HoldsSplit(data, offset, Le(|piece|, 4), piece);
    }
    var len := ReadU32(data, offset);
    next := offset + 4;
    if next + len > |data| {
      return Some([]), next;
    }
    return Some(data[next..next + len]), next + len;
  }

  method ReadPair(data: Bytes, offset: nat, ghost pair: Pair) returns (r: Option<Pair>, next: nat)
    requires offset <= |data|
    ensures r.Some? ==> offset < next <= |data|
    ensures |pair.0| < 0x1_0000_0000 && |pair.1| < 0x1_0000_0000 && Holds(data, offset, PairFrame(pair)) ==>
              r == Some(pair) && next == offset + |PairFrame(pair)|
  {
    if Holds(data, offset, PairFrame(pair)) {
      HoldsSplit(data, offset, Str(pair.0), Str(pair.1));
    }
    var key, afterKey := ReadString(data, offset, pair.0);
    if key == None {
      return None, offset;
    }
    var value, afterValue := ReadString(data, afterKey, pair.1);
    if value == None {
      return None, offset;
    }
    return Some((key.value, value.value)), afterValue;
  }

  /** The next pair of a snapshot stands at the offset, and the rest follows it. */
  lemma PairNext(data: Bytes, pairs: seq<Pair>, offset: nat, i: nat)
    requires i < |pairs| && Holds(data, offset, Concat(PairFrames(pairs)[i..]))
    ensures Holds(data, offset, PairFrame(pairs[i])) && Holds(data, offset + |PairFrame(pairs[i])|, Concat(PairFrames(pairs)[i + 1..]))
    ensures |PairFrame(pairs[i])| >= 8
    ensures |Concat(PairFrames(pairs)[i..])| == |PairFrame(pairs[i])| + |Concat(PairFrames(pairs)[i + 1..])|
  {
    var frames := PairFrames(pairs);
    assert frames[i..][1..] == frames[i + 1..];
    HoldsSplit(data, offset, frames[i], Concat(frames[i + 1..]));
  }

  /** The counted loop that fills a map from the snapshot. */
  method ReadPairs(data: Bytes, ghost pairs: seq<Pair>) returns (kvs: Option<Contents>)
    requires |data| >= 4
    ensures Storable(pairs) && data == SnapshotOf(pairs) ==> kvs == Some(PutAll(map[], pairs))
  {
    hide PairFrames, PairFrame, Concat;
    ghost var frames := PairFrames(pairs);
    ghost var intact := Storable(pairs) && data == SnapshotOf(pairs);
    if intact {
      assert data[0..|data|] == data;
      HoldsSplit(data, 0, Le(|pairs|, 4), Concat(frames));
      assert frames[0..] == frames && pairs[..0] == [];
    }
    var count := ReadU32(data, 0);
    var offset := 4;
    var m: Contents := map[];
    var i := 0;
    while i < count && offset < |data|
      invariant 4 <= offset <= |data| && i <= count
      invariant intact ==> Storable(pairs) && count == |pairs| && Holds(data, offset, Concat(frames[i..])) && m == PutAll(map[], pairs[..i])
      invariant intact ==> offset + |Concat(frames[i..])| == |data|
      decreases |data| - offset
    {
      if intact {
        PairNext(data, pairs, offset, i);
        assert pairs[i] in pairs && pairs[..i + 1][..i] == pairs[..i];
      }
      var pair, next := ReadPair(data, offset, if intact then pairs[i] else ([], []));
      if pair == None {
        return None;
      }
      m := m[pair.value.0 := pair.value.1];
      offset := next;
      i := i + 1;
    }
    if intact {
      if i < count {
        PairNext(data, pairs, offset, i);
      }
      assert pairs[..i] == pairs;
    }
    return Some(m);
  }

  // ---- The store object ----

  class KvStore {
    const mvcc: MvccStore
    const backend: Backend

    ghost predicate Valid()
      reads this, mvcc, backend
    {
      mvcc.Valid() && Agrees(mvcc.index, backend.store)
    }

    constructor ()
      ensures Valid() && fresh(mvcc) && fresh(backend) && backend.store == map[] && mvcc.index == map[] && mvcc.currentRev == 1
    {
      mvcc := new MvccStore();
      backend := new Backend();
    }

    method Put(key: Bytes, value: Bytes, leaseId: int) returns (rev: Revision)
      requires Valid()
      modifies mvcc, backend
      ensures Valid() && rev == old(mvcc.currentRev) && mvcc.currentRev == rev + 1
      ensures backend.store == old(backend.store)[key := value]
      ensures mvcc.index == IndexPut(old(mvcc.index), key, rev, value, leaseId)
    {
      AgreesAfterPut(mvcc.index, backend.store, key, mvcc.currentRev, value, leaseId);
      rev := mvcc.AllocateRevision();
      mvcc.Put(key, rev, value, leaseId);
      backend.Put(key, value);
    }

    /** The value before and the value after, as the plain map has them. */
    method PutWithPrev(key: Bytes, value: Bytes, leaseId: int) returns (rev: Revision, prev: Option<KeyValue>, now: Option<KeyValue>)
      requires Valid()
      modifies mvcc, backend
      ensures Valid() && rev == old(mvcc.currentRev) && mvcc.currentRev == rev + 1
      ensures backend.store == old(backend.store)[key := value]
      ensures mvcc.index == IndexPut(old(mvcc.index), key, rev, value, leaseId)
      ensures prev == Lookup(old(mvcc.index), key, 0) && now == Lookup(mvcc.index, key, 0)
      ensures prev.Some? <==> key in old(backend.store)
      ensures prev.Some? ==> prev.value.key == key && prev.value.value == old(backend.store)[key]
      ensures now.Some? && now.value.key == key && now.value.value == value && now.value.modRevision == rev && now.value.leaseId == leaseId
      ensures now.value.version == if key in old(mvcc.index) then old(mvcc.index)[key].versions[|old(mvcc.index)[key].versions| - 1].version + 1 else 1
    {
      assert AgreesAt(mvcc.index, backend.store, key);
      AgreesAfterPut(mvcc.index, backend.store, key, mvcc.currentRev, value, leaseId);
      prev := mvcc.Get(key, 0);
      if prev.Some? {
        var stored := backend.Get(key);
        if stored.Some? {
          prev := Some(prev.value.(value := stored.value));
        }
      }
      rev := mvcc.AllocateRevision();
      mvcc.Put(key, rev, value, leaseId);
      backend.Put(key, value);
      now := mvcc.Get(key, 0);
      if now.Some? {
        now := Some(now.value.(value := value));
      }
    }

    method Delete(key: Bytes) returns (rev: Revision)
      requires Valid()
      modifies mvcc, backend
      ensures Valid() && rev == old(mvcc.currentRev) && mvcc.currentRev == rev + 1
      ensures backend.store == old(backend.store) - {key}
      ensures mvcc.index == IndexDelete(old(mvcc.index), key, rev)
    {
      AgreesAfterDelete(mvcc.index, backend.store, key, mvcc.currentRev);
      rev := mvcc.AllocateRevision();
      mvcc.Delete(key, rev);
      backend.Delete(key);
    }

    /** The newest read refines one plain map; a historical one is the index's. */
    method Get(key: Bytes, at: Revision) returns (kv: Option<KeyValue>)
      requires Valid()
      ensures kv == Lookup(mvcc.index, key, at)
      ensures at == 0 ==> (kv.Some? <==> key in backend.store) && (kv.Some? ==> kv.value.key == key && kv.value.value == backend.store[key])
    {
      assert AgreesAt(mvcc.index, backend.store, key);
      kv := mvcc.Get(key, at);
      if kv == None {
        return;
      }
      if at == 0 {
        var stored := backend.Get(key);
        if stored.Some? {
          kv := Some(kv.value.(value := stored.value));
        }
      }
    }

    method Compact(rev: Revision)
      requires Valid()
      modifies mvcc
      ensures Valid() && IsCompacted(old(mvcc.index), rev, mvcc.index) && mvcc.currentRev == old(mvcc.currentRev)
    {
      mvcc.Compact(rev);
      AgreesAfterCompact(old(mvcc.index), rev, mvcc.index, backend.store);
    }

    method RestoreFromEntries(entries: seq<RaftEntry>)
      requires Valid()
      modifies mvcc, backend
      ensures Valid() && backend.store == ApplyAll(old(backend.store), entries)
      ensures mvcc.index == ReplayIndex(old(mvcc.index), entries) && mvcc.currentRev == old(mvcc.currentRev)
    {
      hide IndexPut, IndexDelete, Agrees;
      var i := 0;
      while i < |entries|
        invariant 0 <= i <= |entries| && Valid() && mvcc.currentRev == old(mvcc.currentRev)
        invariant backend.store == ApplyAll(old(backend.store), entries[..i])
        invariant mvcc.index == ReplayIndex(old(mvcc.index), entries[..i])
      {
        var e := entries[i];
        assert entries[..i + 1][..i] == entries[..i];
        if e.kind == EventType.Put {
          AgreesAfterPut(mvcc.index, backend.store, e.key, e.index, e.value, e.leaseId);
          mvcc.Put(e.key, e.index, e.value, e.leaseId);
          backend.Put(e.key, e.value);
        } else if e.kind == EventType.Delete {
          AgreesAfterDelete(mvcc.index, backend.store, e.key, e.index);
          mvcc.Delete(e.key, e.index);
          backend.Delete(e.key);
        }
        i := i + 1;
      }
      assert entries[..i] == entries;
    }

    method Serialize() returns (data: Bytes)
      requires Valid()
      ensures data == SnapshotOf(PairsInOrder(backend.store))
    {
      hide PairFrames, Le, Concat, InOrder;
      var keys := backend.Keys();
      OrderUnique(keys, InOrder(backend.store.Keys));
      ghost var frames := PairFrames(PairsOf(keys, backend.store));
      data := Le(|keys|, 4);
      assert frames[..0] == [];
      ConcatNext(frames, 0);
      var i := 0;
      while i < |keys|
        invariant 0 <= i <= |keys| && data == Le(|keys|, 4) + Concat(frames[..i])
      {
        ConcatNext(frames, i);
        var value := backend.Get(keys[i]);
        data := data + (Str(keys[i]) + Str(match value case None => [] case Some(v) => v));
        i := i + 1;
      }
      assert frames[..i] == frames;
    }

    /** Puts the snapshot's pairs over what the store holds; every key gets one new version without a lease. */
    method Deserialize(data: Bytes, ghost pairs: seq<Pair>) returns (r: LoadResult)
      requires Valid()
      modifies mvcc, backend
      ensures Valid()
      ensures |data| < 4 ==> r == Done(false) && backend.store == old(backend.store)
      ensures Storable(pairs) && data == SnapshotOf(pairs) ==>
                r == Done(true) && backend.store == old(backend.store) + PutAll(map[], pairs)
    {
      if |data| < 4 {
        return Done(false);
      }
      var kvs := ReadPairs(data, pairs);
      if kvs == None {
        return Overrun;
      }
      Overlay(kvs.value);
      return Done(true);
    }

    method Overlay(kvs: Contents)
      requires Valid()
      modifies mvcc, backend
      ensures Valid() && backend.store == old(backend.store) + kvs
    {
      hide Agrees;
      IndexAll(kvs, backend.store);
      backend.BatchPut(kvs);
    }

    /** One new version for every key of the snapshot, in key order. */
    method IndexAll(kvs: Contents, ghost before: Contents)
      requires mvcc.Valid() && Agrees(mvcc.index, before)
      modifies mvcc
      ensures mvcc.Valid() && Agrees(mvcc.index, before + kvs)
    {
      hide IndexPut, Agrees, KeyOrder.Ascending, KeyOrder.Less;
      ghost var done: Contents := map[];
      var keys := KeysInOrder(kvs.Keys);
      var i := 0;
      assert before + done == before;
      while i < |keys|
        invariant 0 <= i <= |keys| && mvcc.Valid() && Agrees(mvcc.index, before + done)
        invariant forall k :: k in done <==> k in keys[..i]
        invariant forall k :: k in done ==> done[k] == kvs[k]
      {
        var key := keys[i];
        assert keys[..i + 1] == keys[..i] + [key];
        AgreesAfterPut(mvcc.index, before + done, key, mvcc.currentRev, kvs[key], 0);
        var rev := mvcc.AllocateRevision();
        mvcc.Put(key, rev, kvs[key], 0);
        assert (before + done)[key := kvs[key]] == before + done[key := kvs[key]];
        done := done[key := kvs[key]];
        i := i + 1;
      }
      assert keys[..i] == keys;
      assert done == kvs;
    }
  }

  /** Loading the snapshot of a store into an empty one gives back its keys and values. */
  lemma SnapshotRoundTrip(store: Contents)
    ensures PutAll(map[], PairsInOrder(store)) == store
  {
    PutAllOfStore(store, InOrder(store.Keys));
  }
}
