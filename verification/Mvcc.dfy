/** The multi-version store (src/storage/mvcc.cpp): version histories, historical reads, compaction and ordered scans. */
module Mvcc {
  import opened Types
  import opened KeyOrder

  type Revision = int

  datatype Version = Version(revision: Revision, version: int, createRevision: Revision, tombstone: bool, leaseId: int, value: Bytes)

  datatype KeyValue = KeyValue(key: Bytes, value: Bytes, createRevision: Revision, modRevision: Revision, version: int, leaseId: int)

  // ---- The history of one key ----

  datatype KeyIndex = KeyIndex(versions: seq<Version>, lastRevision: Revision)

  const NO_VERSIONS := KeyIndex([], 0)

  /** Number and creation revision of the next version. */
  function NextNumber(ki: KeyIndex): int
  {
    if ki.versions == [] then 1 else ki.versions[|ki.versions| - 1].version + 1
  }

  function NextCreate(ki: KeyIndex, rev: Revision): Revision
  {
    if ki.versions == [] then rev else ki.versions[0].createRevision
  }

  function PutVersion(ki: KeyIndex, rev: Revision, value: Bytes, leaseId: int): KeyIndex
  {
    KeyIndex(ki.versions + [Version(rev, NextNumber(ki), NextCreate(ki, rev), false, leaseId, value)], rev)
  }

  /** The lease of a tombstone is left unset by the code; nothing reads it. */
  function Tombstone(ki: KeyIndex, rev: Revision): KeyIndex
  {
    KeyIndex(ki.versions + [Version(rev, NextNumber(ki), NextCreate(ki, rev), true, 0, [])], rev)
  }

  predicate IsDeleted(ki: KeyIndex)
  {
    ki.versions == [] || ki.versions[|ki.versions| - 1].tombstone
  }

  /** The newest version that is not a tombstone and not newer than `at`. */
  function Visible(versions: seq<Version>, at: Revision): Option<Version>
  {
    if versions == [] then None
    else
      var last := versions[|versions| - 1];
      if last.revision <= at && !last.tombstone then Some(last) else Visible(versions[..|versions| - 1], at)
  }

  /** What a read of the key sees: nothing while the key is deleted now, whatever the revision asked for. */
  function Read(ki: KeyIndex, at: Revision): Option<Version>
  {
    if IsDeleted(ki) then None
    else if at == 0 then Some(ki.versions[|ki.versions| - 1])
    else Visible(ki.versions, at)
  }

  function AsKeyValue(key: Bytes, v: Version): KeyValue
  {
    KeyValue(key, v.value, v.createRevision, v.revision, v.version, v.leaseId)
  }

  /** The reference meaning of all reads of the store. */
  function Lookup(index: map<Bytes, KeyIndex>, key: Bytes, at: Revision): Option<KeyValue>
  {
    if key !in index then None
    else
      match Read(index[key], at)
      case None => None
      case Some(v) => Some(AsKeyValue(key, v))
  }

  /** `Visible` finds the last live version up to the revision, if there is one. */
  lemma {:induction false} VisibleIsNewest(versions: seq<Version>, at: Revision, i: nat)
    requires i < |versions| && !versions[i].tombstone && versions[i].revision <= at
    requires forall j :: i < j < |versions| ==> versions[j].tombstone || versions[j].revision > at
    ensures Visible(versions, at) == Some(versions[i])
  {
    if i < |versions| - 1 {
      VisibleIsNewest(versions[..|versions| - 1], at, i);
    }
  }

  lemma {:induction false} NothingVisible(versions: seq<Version>, at: Revision)
    requires forall j :: 0 <= j < |versions| ==> versions[j].tombstone || versions[j].revision > at
    ensures Visible(versions, at) == None
  {
    if versions != [] {
      NothingVisible(versions[..|versions| - 1], at);
    }
  }

  // ---- Compaction of one key ----

  /** The last version with revision at most `rev`, or the first when there is none. */
  function KeepUntil(versions: seq<Version>, rev: Revision): (k: nat)
    ensures versions != [] ==> k < |versions|
    ensures versions == [] ==> k == 0
    ensures forall i :: k < i < |versions| ==> versions[i].revision > rev
    ensures k > 0 ==> versions[k].revision <= rev
  {
    if versions == [] then 0
    else if versions[|versions| - 1].revision <= rev then |versions| - 1
    else KeepUntil(versions[..|versions| - 1], rev)
  }

  function CompactKey(ki: KeyIndex, rev: Revision): KeyIndex
  {
    ki.(versions := ki.versions[KeepUntil(ki.versions, rev)..])
  }

  /** The loop that finds where to cut. */
  method FindKeepUntil(versions: seq<Version>, rev: Revision) returns (k: nat)
    ensures k == KeepUntil(versions, rev)
  {
    k := 0;
    var i := 0;
    while i < |versions|
      invariant 0 <= i <= |versions| && k == KeepUntil(versions[..i], rev)
    {
      assert versions[..i + 1][..i] == versions[..i];
      if versions[i].revision <= rev {
        k := i;
      }
      i := i + 1;
    }
    assert versions[..i] == versions;
  }

  /** The key is dropped from the index altogether. */
  predicate Erased(ki: KeyIndex, rev: Revision)
  {
    ki.versions == [] || (IsDeleted(ki) && ki.lastRevision <= rev)
  }

  /** Revisions start at 1 and increase along the history. */
  predicate Increasing(ki: KeyIndex)
  {
    && (forall i :: 0 <= i < |ki.versions| ==> ki.versions[i].revision >= 1)
    && forall i, j :: 0 <= i < j < |ki.versions| ==> ki.versions[i].revision < ki.versions[j].revision
  }

  /**
   Compaction loses a read exactly here: the version it keeps is a tombstone, the key has been written again since, and
   there was a live version before the tombstone.
   */
  predicate LosesRead(ki: KeyIndex, rev: Revision)
  {
    var k := KeepUntil(ki.versions, rev);
    && k < |ki.versions| && ki.versions[k].tombstone && !IsDeleted(ki)
    && exists i :: 0 <= i < k && !ki.versions[i].tombstone
  }

  /** What a read of a key sees once the key has been compacted, and possibly erased. */
  function ReadCompacted(ki: KeyIndex, rev: Revision, at: Revision): Option<Version>
  {
    var after := CompactKey(ki, rev);
    if Erased(after, rev) then None else Read(after, at)
  }

  predicate Newer(rev: Revision, at: Revision)
  {
    at == 0 || at >= rev
  }

  /** Reading from a suffix that still holds a live version up to the revision, or whose cut-off part holds none. */
  lemma {:induction false} VisibleInSuffix(versions: seq<Version>, at: Revision, k: nat)
    requires k <= |versions|
    requires (exists i :: k <= i < |versions| && !versions[i].tombstone && versions[i].revision <= at)
             || (forall i :: 0 <= i < k ==> versions[i].tombstone || versions[i].revision > at)
    ensures Visible(versions[k..], at) == Visible(versions, at)
  {
    if k == |versions| {
      NothingVisible(versions, at);
    } else {
      var n := |versions| - 1;
      assert versions[k..][..n - k] == versions[..n][k..];
      if versions[n].tombstone || versions[n].revision > at {
        VisibleInSuffix(versions[..n], at, k);
      }
    }
  }

  lemma CompactKeepsRead(ki: KeyIndex, rev: Revision, at: Revision)
    requires Increasing(ki) && !LosesRead(ki, rev) && Newer(rev, at)
    ensures ReadCompacted(ki, rev, at) == Read(ki, at)
  {
    var k := KeepUntil(ki.versions, rev);
    if !IsDeleted(ki) && at != 0 && k > 0 {
      assert !ki.versions[k].tombstone ==> ki.versions[k].revision <= at;
      VisibleInSuffix(ki.versions, at, k);
    }
  }

  lemma CompactLosesRead(ki: KeyIndex, rev: Revision)
    requires Increasing(ki) && LosesRead(ki, rev)
    ensures Newer(rev, rev) && ReadCompacted(ki, rev, rev) == None && Read(ki, rev).Some?
  {
    var versions, k := ki.versions, KeepUntil(ki.versions, rev);
    var i :| 0 <= i < k && !versions[i].tombstone;
    assert versions[k].revision <= rev && versions[i].revision < versions[k].revision;
    NothingVisible(versions[k..], rev);
    VisibleSome(versions, rev, i);
  }

  lemma {:induction false} VisibleSome(versions: seq<Version>, at: Revision, i: nat)
    requires i < |versions| && !versions[i].tombstone && versions[i].revision <= at
    ensures Visible(versions, at) != None
  {
    if i < |versions| - 1 {
      VisibleSome(versions[..|versions| - 1], at, i);
    }
  }

  /**
   Compaction preserves reads, exactly: for a history with increasing revisions, all reads at the newest state and at
   revisions from `rev` on are unchanged if and only if the key is not in the one situation that loses a read.
   */
  lemma CompactionPreservesReads(ki: KeyIndex, rev: Revision)
    requires Increasing(ki)
    ensures (forall at :: Newer(rev, at) ==> ReadCompacted(ki, rev, at) == Read(ki, at)) <==> !LosesRead(ki, rev)
  {
    if LosesRead(ki, rev) {
      CompactLosesRead(ki, rev);
    } else {
      forall at | Newer(rev, at)
        ensures ReadCompacted(ki, rev, at) == Read(ki, at)
      {
        CompactKeepsRead(ki, rev, at);
      }
    }
  }

  /** That situation is an ordinary one: written, deleted, written again, and compacted at the deletion. */
  lemma RewrittenKeyLosesRead(value: Bytes, again: Bytes)
    ensures var ki := PutVersion(Tombstone(PutVersion(NO_VERSIONS, 1, value, 0), 2), 3, again, 0);
            Increasing(ki) && LosesRead(ki, 2) && Read(ki, 2).Some? && ReadCompacted(ki, 2, 2) == None
  {
    var ki := PutVersion(Tombstone(PutVersion(NO_VERSIONS, 1, value, 0), 2), 3, again, 0);
    assert ki.versions[..2][|ki.versions[..2]| - 1] == ki.versions[1];
    assert KeepUntil(ki.versions, 2) == 1;
    assert !ki.versions[0].tombstone;
    NothingVisible(ki.versions[1..], 2);
    VisibleSome(ki.versions, 2, 0);
  }

  /** Every version carries the creation revision of the first; numbers count up by one. */
  predicate WellFormed(ki: KeyIndex)
  {
    && ki.versions != [] && ki.lastRevision == ki.versions[|ki.versions| - 1].revision
    && (forall i :: 0 <= i < |ki.versions| ==> ki.versions[i].createRevision == ki.versions[0].createRevision)
    && forall i :: 0 <= i < |ki.versions| ==> ki.versions[i].version == ki.versions[0].version + i
  }

  /** Writing keeps histories well-formed, and increasing when the revision is new. */
  lemma WritesKeepHistory(ki: KeyIndex, v: Version)
    requires ki == NO_VERSIONS || WellFormed(ki)
    requires v.version == NextNumber(ki) && v.createRevision == NextCreate(ki, v.revision)
    ensures var after := KeyIndex(ki.versions + [v], v.revision);
            WellFormed(after) && (Increasing(ki) && v.revision >= 1 && v.revision > ki.lastRevision ==> Increasing(after))
  {
  }

  lemma CompactionKeepsHistory(ki: KeyIndex, rev: Revision)
    requires WellFormed(ki)
    ensures WellFormed(CompactKey(ki, rev)) && (Increasing(ki) ==> Increasing(CompactKey(ki, rev)))
  {
    hide KeepUntil;
  }

  /** A later write of a key: a put, or a delete, which adds a tombstone. */
  datatype Write = PutAt(rev: Revision, value: Bytes, leaseId: int) | DeleteAt(rev: Revision)

  function WriteOne(ki: KeyIndex, w: Write): KeyIndex
  {
    match w
    case PutAt(rev, value, leaseId) => PutVersion(ki, rev, value, leaseId)
    case DeleteAt(rev) => Tombstone(ki, rev)
  }

  function Written(ki: KeyIndex, writes: seq<Write>): (r: KeyIndex)
    ensures |r.versions| == |ki.versions| + |writes|
    decreases |writes|
  {
    if writes == [] then ki else Written(WriteOne(ki, writes[0]), writes[1..])
  }

  lemma OneWriteAfterCut(ki: KeyIndex, k: nat, w: Write)
    requires WellFormed(ki) && k < |ki.versions|
    ensures WellFormed(WriteOne(ki, w))
    ensures WriteOne(ki.(versions := ki.versions[k..]), w) == WriteOne(ki, w).(versions := WriteOne(ki, w).versions[k..])
  {
    var cut, next := ki.(versions := ki.versions[k..]), WriteOne(ki, w);
    assert cut.versions[|cut.versions| - 1] == ki.versions[|ki.versions| - 1];
    WritesKeepHistory(ki, next.versions[|ki.versions|]);
  }

  lemma {:induction false} WritesAfterCut(ki: KeyIndex, k: nat, writes: seq<Write>)
    requires WellFormed(ki) && k < |ki.versions|
    ensures Written(ki.(versions := ki.versions[k..]), writes) == Written(ki, writes).(versions := Written(ki, writes).versions[k..])
    decreases |writes|
  {
    if writes != [] {
      OneWriteAfterCut(ki, k, writes[0]);
      WritesAfterCut(WriteOne(ki, writes[0]), k, writes[1..]);
    }
  }

  /**
   On a key that compaction keeps, any sequence of later puts and deletes adds the versions it would have added without
   compaction, numbers and creation revisions included: the history is the uncompacted one without what compaction cut.
   */
  lemma WritesAfterCompaction(ki: KeyIndex, rev: Revision, writes: seq<Write>)
    requires WellFormed(ki)
    ensures Written(CompactKey(ki, rev), writes)
         == Written(ki, writes).(versions := Written(ki, writes).versions[KeepUntil(ki.versions, rev)..])
  {
    WritesAfterCut(ki, KeepUntil(ki.versions, rev), writes);
  }

  /** Compaction drops a key exactly when its last write is a deletion at or before the revision. */
  lemma ErasedExactly(ki: KeyIndex, rev: Revision)
    requires WellFormed(ki)
    ensures var last := ki.versions[|ki.versions| - 1];
            Erased(CompactKey(ki, rev), rev) <==> last.tombstone && last.revision <= rev
  {
  }

  // ---- Scans ----

  datatype Span = Between(from: Bytes, to: Bytes) | WithPrefix(prefix: Bytes)

  predicate Covers(span: Span, key: Bytes)
  {
    match span
    case Between(from, to) => !Less(key, from) && Less(key, to)
    case WithPrefix(prefix) => HasPrefix(key, prefix)
  }

  /** A range includes its start and excludes its end. */
  lemma RangeEnds(from: Bytes, to: Bytes)
    ensures !Covers(Between(from, to), to) && (Less(from, to) ==> Covers(Between(from, to), from))
  {
    LessIrreflexive(from);
    LessIrreflexive(to);
  }

  /** `scan` is all keys of the span whose point read at `at` finds something, with what it finds, in key order. */
  ghost predicate IsScan(index: map<Bytes, KeyIndex>, span: Span, at: Revision, scan: seq<KeyValue>)
  {
    && KeysAscend(scan)
    && (forall kv :: kv in scan ==> Covers(span, kv.key) && Lookup(index, kv.key, at) == Some(kv))
    && forall k :: Covers(span, k) && Lookup(index, k, at).Some? ==> Lookup(index, k, at).value in scan
  }

  /** The first `limit` elements, or all of them without a limit. */
  function Cut<T>(limit: int, s: seq<T>): seq<T>
  {
    if 0 < limit < |s| then s[..limit] else s
  }

  /** Reads one key of a scan. */
  method ReadKey(ki: KeyIndex, at: Revision) returns (v: Option<Version>)
    ensures v == Read(ki, at)
  {
    if IsDeleted(ki) {
      return None;
    }
    if at == 0 {
      return Some(ki.versions[|ki.versions| - 1]);
    }
    var i := |ki.versions|;
    assert ki.versions[..i] == ki.versions;
    while i > 0
      invariant 0 <= i <= |ki.versions| && Visible(ki.versions, at) == Visible(ki.versions[..i], at)
    {
      assert ki.versions[..i][..i - 1] == ki.versions[..i - 1];
      i := i - 1;
      if ki.versions[i].revision <= at && !ki.versions[i].tombstone {
        return Some(ki.versions[i]);
      }
    }
    return None;
  }

  // ---- The point reads behind a scan, in order ----

  /** The results of the point reads that find something, of `keys` one after the other. */
  function Present(index: map<Bytes, KeyIndex>, keys: seq<Bytes>, at: Revision): seq<KeyValue>
  {
    if keys == [] then []
    else
      var rest := Present(index, keys[..|keys| - 1], at);
      match Lookup(index, keys[|keys| - 1], at)
      case None => rest
      case Some(kv) => rest + [kv]
  }

  lemma NonePresent(index: map<Bytes, KeyIndex>, at: Revision)
    ensures Present(index, [], at) == []
  {
  }

  lemma PresentNext(index: map<Bytes, KeyIndex>, keys: seq<Bytes>, lo: nat, i: nat, at: Revision)
    requires lo <= i < |keys| && keys[i] in index
    ensures Present(index, keys[lo..i + 1], at)
         == Present(index, keys[lo..i], at)
            + match Read(index[keys[i]], at) case None => [] case Some(v) => [AsKeyValue(keys[i], v)]
  {
    assert keys[lo..i + 1][..i - lo] == keys[lo..i];
  }

  lemma {:induction false} PresentMembers(index: map<Bytes, KeyIndex>, keys: seq<Bytes>, at: Revision)
    ensures forall kv :: kv in Present(index, keys, at) <==> kv.key in keys && Lookup(index, kv.key, at) == Some(kv)
  {
    if keys != [] {
      var n := |keys| - 1;
      assert keys == keys[..n] + [keys[n]];
      PresentMembers(index, keys[..n], at);
    }
  }

  predicate KeysAscend(s: seq<KeyValue>)
  {
    forall i, j :: 0 <= i < j < |s| ==> Less(s[i].key, s[j].key)
  }

  lemma {:induction false} PresentAscends(index: map<Bytes, KeyIndex>, keys: seq<Bytes>, at: Revision)
    requires Ascending(keys)
    ensures KeysAscend(Present(index, keys, at))
  {
    if keys != [] {
      hide Read;
      var n := |keys| - 1;
      PresentAscends(index, keys[..n], at);
      PresentMembers(index, keys[..n], at);
      var s := Present(index, keys[..n], at);
      forall i | 0 <= i < |s|
        ensures Less(s[i].key, keys[n])
      {
        assert s[i] in s && s[i].key in keys[..n];
        var j :| 0 <= j < n && keys[j] == s[i].key;
      }
    }
  }

  /** The covered keys of the index stand in one block of the iteration order. */
  lemma PresentIsScan(index: map<Bytes, KeyIndex>, span: Span, at: Revision, keys: seq<Bytes>, lo: nat, hi: nat)
    requires Orders(keys, index.Keys) && lo <= hi <= |keys|
    requires forall i :: 0 <= i < |keys| ==> (Covers(span, keys[i]) <==> lo <= i < hi)
    ensures IsScan(index, span, at, Present(index, keys[lo..hi], at))
  {
    var block := keys[lo..hi];
    PresentMembers(index, block, at);
    PresentAscends(index, block, at);
    forall k | Covers(span, k) && Lookup(index, k, at).Some?
      ensures Lookup(index, k, at).value in Present(index, block, at)
    {
      assert k in keys;
      var i :| 0 <= i < |keys| && keys[i] == k;
      assert block[i - lo] == k;
    }
    forall kv | kv in Present(index, block, at)
      ensures Covers(span, kv.key)
    {
      var i :| 0 <= i < |block| && block[i] == kv.key;
      assert block[i] == keys[lo + i];
    }
  }

  /** A scan is determined by the point reads. */
  lemma ScanUnique(index: map<Bytes, KeyIndex>, span: Span, at: Revision, s: seq<KeyValue>, t: seq<KeyValue>)
    requires IsScan(index, span, at, s) && IsScan(index, span, at, t)
    ensures s == t
  {
    var a, b := seq(|s|, i requires 0 <= i < |s| => s[i].key), seq(|t|, i requires 0 <= i < |t| => t[i].key);
    forall k
      ensures k in a <==> k in b
    {
      ScanKeys(index, span, at, s, a, t, b, k);
      ScanKeys(index, span, at, t, b, s, a, k);
    }
    OrderUnique(a, b);
    forall i | 0 <= i < |s|
      ensures s[i] == t[i]
    {
      assert a[i] == b[i] && s[i] in s && t[i] in t;
    }
  }

  lemma ScanKeys(index: map<Bytes, KeyIndex>, span: Span, at: Revision, s: seq<KeyValue>, a: seq<Bytes>, t: seq<KeyValue>, b: seq<Bytes>, k: Bytes)
    requires IsScan(index, span, at, s) && IsScan(index, span, at, t)
    requires |a| == |s| && (forall i :: 0 <= i < |s| ==> a[i] == s[i].key)
    requires |b| == |t| && (forall i :: 0 <= i < |t| ==> b[i] == t[i].key)
    ensures k in a ==> k in b
  {
    if k in a {
      var i :| 0 <= i < |a| && a[i] == k;
      assert s[i] in s;
      assert Lookup(index, k, at) == Some(s[i]) && s[i] in t;
      var j :| 0 <= j < |t| && t[j] == s[i];
      assert b[j] == k;
    }
  }

  // ---- The store ----

  function History(index: map<Bytes, KeyIndex>, key: Bytes): KeyIndex
  {
    if key in index then index[key] else NO_VERSIONS
  }

  function IndexPut(index: map<Bytes, KeyIndex>, key: Bytes, rev: Revision, value: Bytes, leaseId: int): map<Bytes, KeyIndex>
  {
    index[key := PutVersion(History(index, key), rev, value, leaseId)]
  }

  function IndexDelete(index: map<Bytes, KeyIndex>, key: Bytes, rev: Revision): map<Bytes, KeyIndex>
  {
    index[key := Tombstone(History(index, key), rev)]
  }

  // ---- What a read returns, in terms of the writes ----

  lemma {:induction false} WrittenOneMore(ki: KeyIndex, writes: seq<Write>, w: Write)
    ensures Written(ki, writes + [w]) == WriteOne(Written(ki, writes), w)
    decreases |writes|
  {
    if writes == [] {
      assert [w][1..] == [];
    } else {
      assert (writes + [w])[1..] == writes[1..] + [w];
      WrittenOneMore(WriteOne(ki, writes[0]), writes[1..], w);
    }
  }

  /** The versions of a key written from scratch: one per write, numbered from 1, all created by the first. */
  lemma {:induction false} WrittenVersions(writes: seq<Write>)
    ensures var ki := Written(NO_VERSIONS, writes);
            && |ki.versions| == |writes| && (writes != [] ==> ki.lastRevision == writes[|writes| - 1].rev)
            && forall i :: 0 <= i < |writes| ==>
                 var w := writes[i];
                 ki.versions[i] == if w.PutAt? then Version(w.rev, i + 1, writes[0].rev, false, w.leaseId, w.value)
                                   else Version(w.rev, i + 1, writes[0].rev, true, 0, [])
    decreases |writes|
  {
    if writes != [] {
      var before, w := writes[..|writes| - 1], writes[|writes| - 1];
      assert writes == before + [w];
      WrittenVersions(before);
      WrittenOneMore(NO_VERSIONS, before, w);
    }
  }

  /**
   Which of the writes a read at `at` shows: none while the last write is a deletion; otherwise, at 0 the last one, and at
   a revision the last put up to it, whatever was deleted in between.
   */
  predicate Shows(writes: seq<Write>, at: Revision, i: nat)
  {
    && i < |writes| && writes[i].PutAt? && writes[|writes| - 1].PutAt?
    && if at == 0 then i == |writes| - 1
       else writes[i].rev <= at && forall j :: i < j < |writes| ==> writes[j].DeleteAt? || writes[j].rev > at
  }

  /**
   The result of a read of `key` after these writes of it: the value, lease and revision of the write it shows, the
   revision of the first write of all, and how many writes there were up to the one it shows.
   */
  ghost predicate IsReadOf(key: Bytes, writes: seq<Write>, at: Revision, r: Option<KeyValue>)
  {
    match r
    case None => forall i: nat :: !Shows(writes, at, i)
    case Some(kv) =>
      exists i: nat :: Shows(writes, at, i)
        && kv == KeyValue(key, writes[i].value, writes[0].rev, writes[i].rev, i + 1, writes[i].leaseId)
  }

  lemma ReadOfWrites(index: map<Bytes, KeyIndex>, key: Bytes, writes: seq<Write>, at: Revision)
    requires History(index, key) == Written(NO_VERSIONS, writes)
    ensures IsReadOf(key, writes, at, Lookup(index, key, at))
  {
    var versions := History(index, key).versions;
    WrittenVersions(writes);
    if i: nat :| Shows(writes, at, i) {
      if at != 0 {
        VisibleIsNewest(versions, at, i);
      }
      assert Lookup(index, key, at) == Some(KeyValue(key, writes[i].value, writes[0].rev, writes[i].rev, i + 1, writes[i].leaseId));
    } else if writes != [] && writes[|writes| - 1].PutAt? {
      LastPutShows(writes);
      NoneShown(writes, at);
      NothingVisible(versions, at);
    }
  }

  lemma LastPutShows(writes: seq<Write>)
    requires writes != [] && writes[|writes| - 1].PutAt?
    ensures Shows(writes, 0, |writes| - 1)
  {
  }

  lemma {:induction false} NoneShown(writes: seq<Write>, at: Revision)
    requires at != 0 && writes != [] && writes[|writes| - 1].PutAt? && forall i: nat :: !Shows(writes, at, i)
    ensures forall i :: 0 <= i < |writes| ==> writes[i].DeleteAt? || writes[i].rev > at
  {
    if exists i :: 0 <= i < |writes| && writes[i].PutAt? && writes[i].rev <= at {
      var i: nat :| i < |writes| && writes[i].PutAt? && writes[i].rev <= at;
      i := LastShown(writes, at, i);
      assert Shows(writes, at, i);
    }
  }

  lemma {:induction false} LastShown(writes: seq<Write>, at: Revision, i: nat) returns (k: nat)
    requires i < |writes| && writes[i].PutAt? && writes[i].rev <= at
    ensures k < |writes| && writes[k].PutAt? && writes[k].rev <= at
    ensures forall j :: k < j < |writes| ==> writes[j].DeleteAt? || writes[j].rev > at
    decreases |writes| - i
  {
    if j: nat :| i < j < |writes| && writes[j].PutAt? && writes[j].rev <= at {
      k := LastShown(writes, at, j);
    } else {
      k := i;
    }
  }

  /** A write to one of the keys of the store. */
  datatype StoreWrite = StoreWrite(key: Bytes, write: Write)

  function StoreAfter(ops: seq<StoreWrite>): map<Bytes, KeyIndex>
  {
    if ops == [] then map[]
    else
      var before, op := StoreAfter(ops[..|ops| - 1]), ops[|ops| - 1];
      match op.write
      case PutAt(rev, value, leaseId) => IndexPut(before, op.key, rev, value, leaseId)
      case DeleteAt(rev) => IndexDelete(before, op.key, rev)
  }

  /** The writes to one key. */
  function WritesTo(key: Bytes, ops: seq<StoreWrite>): seq<Write>
  {
    if ops == [] then []
    else
      var before, op := WritesTo(key, ops[..|ops| - 1]), ops[|ops| - 1];
      if op.key == key then before + [op.write] else before
  }

  lemma {:induction false} HistoryOfWrites(ops: seq<StoreWrite>, key: Bytes)
    ensures History(StoreAfter(ops), key) == Written(NO_VERSIONS, WritesTo(key, ops))
    ensures key in StoreAfter(ops) <==> WritesTo(key, ops) != []
  {
    if ops != [] {
      var before, op := ops[..|ops| - 1], ops[|ops| - 1];
      HistoryOfWrites(before, key);
      WrittenOneMore(NO_VERSIONS, WritesTo(key, before), op.write);
    }
  }

  /** In a store built by any writes to any keys, every read shows a write to its own key, and which one. */
  lemma ReadsShowWrites(ops: seq<StoreWrite>, key: Bytes, at: Revision)
    ensures IsReadOf(key, WritesTo(key, ops), at, Lookup(StoreAfter(ops), key, at))
  {
    HistoryOfWrites(ops, key);
    ReadOfWrites(StoreAfter(ops), key, WritesTo(key, ops), at);
  }

  class MvccStore {
    var index: map<Bytes, KeyIndex>
    var currentRev: Revision

    ghost predicate Valid()
      reads this
    {
      forall k :: k in index ==> WellFormed(index[k])
    }

    constructor ()
      ensures Valid() && index == map[] && currentRev == 1
    {
      index, currentRev := map[], 1;
    }

    method AllocateRevision() returns (rev: Revision)
      modifies this`currentRev
      ensures rev == old(currentRev) && currentRev == rev + 1
    {
      rev := currentRev;
      currentRev := currentRev + 1;
    }

    method Put(key: Bytes, rev: Revision, value: Bytes, leaseId: int)
      requires Valid()
      modifies this`index
      ensures Valid()
      ensures index == IndexPut(old(index), key, rev, value, leaseId)
    {
      var ki := if key in index then index[key] else NO_VERSIONS;
      var after := PutVersion(ki, rev, value, leaseId);
      WritesKeepHistory(ki, after.versions[|ki.versions|]);
      index := index[key := after];
    }

    method Delete(key: Bytes, rev: Revision)
      requires Valid()
      modifies this`index
      ensures Valid()
      ensures index == IndexDelete(old(index), key, rev)
    {
      var ki := if key in index then index[key] else NO_VERSIONS;
      var after := Tombstone(ki, rev);
      WritesKeepHistory(ki, after.versions[|ki.versions|]);
      index := index[key := after];
    }

    method Get(key: Bytes, at: Revision) returns (kv: Option<KeyValue>)
      ensures kv == Lookup(index, key, at)
      ensures forall writes {:trigger Written(NO_VERSIONS, writes)} ::
                History(index, key) == Written(NO_VERSIONS, writes) ==> IsReadOf(key, writes, at, kv)
    {
      forall writes | History(index, key) == Written(NO_VERSIONS, writes)
        ensures IsReadOf(key, writes, at, Lookup(index, key, at))
      {
        ReadOfWrites(index, key, writes, at);
      }
      if key !in index {
        return None;
      }
      var v := ReadKey(index[key], at);
      kv := match v case None => None case Some(v) => Some(AsKeyValue(key, v));
    }

    /** Reads the keys from `lo` on until one is past the span or the limit is reached. */
    method Scan(keys: seq<Bytes>, lo: nat, span: Span, at: Revision, limit: int) returns (result: seq<KeyValue>)
      requires Orders(keys, index.Keys) && lo <= |keys|
      requires forall i :: 0 <= i < lo ==> !Covers(span, keys[i])
      requires forall i, j :: lo <= i < j < |keys| && !Covers(span, keys[i]) ==> !Covers(span, keys[j])
      ensures exists scan :: IsScan(index, span, at, scan) && result == Cut(limit, scan)
    {
      hide Covers, Read, IsScan, Present;
      result := [];
      assert keys[lo..lo] == [];
      NonePresent(index, at);
      var i := lo;
      while i < |keys| && Covers(span, keys[i])
        invariant lo <= i <= |keys| && (forall j :: lo <= j < i ==> Covers(span, keys[j]))
        invariant result == Present(index, keys[lo..i], at) && (limit > 0 ==> |result| <= limit)
      {
        if limit > 0 && |result| >= limit {
          LimitReached(index, span, at, keys, lo, i, limit);
          return;
        }
        var v := ReadKey(index[keys[i]], at);
        PresentNext(index, keys, lo, i, at);
        if v.Some? {
          result := result + [AsKeyValue(keys[i], v.value)];
        }
        i := i + 1;
      }
      PresentIsScan(index, span, at, keys, lo, i);
    }

    /** The keys in `[from, to)`. */
    method Range(from: Bytes, to: Bytes, at: Revision, limit: int) returns (result: seq<KeyValue>)
      ensures exists scan :: IsScan(index, Between(from, to), at, scan) && result == Cut(limit, scan)
    {
      var keys := KeysInOrder(index.Keys);
      var lo := LowerBound(keys, from);
      forall i, j | lo <= i < j < |keys| && !Covers(Between(from, to), keys[i])
        ensures !Covers(Between(from, to), keys[j])
      {
        if Less(keys[j], to) {
          LessTransitive(keys[i], keys[j], to);
        }
      }
      result := Scan(keys, lo, Between(from, to), at, limit);
    }

    /** The keys that begin with `prefix`; stopping at the first other key is right because they form one block. */
    method PrefixRange(prefix: Bytes, at: Revision, limit: int) returns (result: seq<KeyValue>)
      ensures exists scan :: IsScan(index, WithPrefix(prefix), at, scan) && result == Cut(limit, scan)
    {
      var keys := KeysInOrder(index.Keys);
      var lo := LowerBound(keys, prefix);
      forall i | 0 <= i < lo
        ensures !Covers(WithPrefix(prefix), keys[i])
      {
        if HasPrefix(keys[i], prefix) {
          PrefixNotBelow(keys[i], prefix);
        }
      }
      forall i, j | lo <= i < j < |keys| && !Covers(WithPrefix(prefix), keys[i])
        ensures !Covers(WithPrefix(prefix), keys[j])
      {
        PrefixBlock(prefix, keys[i], keys[j]);
      }
      result := Scan(keys, lo, WithPrefix(prefix), at, limit);
    }

    /** The keys that are not deleted, in order. */
    method Keys() returns (keys: seq<Bytes>)
      ensures Ascending(keys) && forall k :: k in keys <==> Lookup(index, k, 0).Some?
    {
      var all := KeysInOrder(index.Keys);
      keys := [];
      var i := 0;
      while i < |all|
        invariant 0 <= i <= |all| && Ascending(keys)
        invariant forall k :: k in keys <==> k in all[..i] && Lookup(index, k, 0).Some?
      {
        assert all[..i + 1] == all[..i] + [all[i]];
        if !IsDeleted(index[all[i]]) {
          forall j | 0 <= j < |keys|
            ensures Less(keys[j], all[i])
          {
            assert keys[j] in keys && keys[j] in all[..i];
          }
          keys := keys + [all[i]];
        }
        i := i + 1;
      }
      assert all[..i] == all;
    }

    method CompactOne(key: Bytes, rev: Revision)
      requires Valid() && key in index
      modifies this`index
      ensures Valid()
      ensures var after := CompactKey(old(index)[key], rev);
              index == if Erased(after, rev) then old(index) - {key} else old(index)[key := after]
    {
      hide WellFormed, KeepUntil, IsDeleted;
      var keep := FindKeepUntil(index[key].versions, rev);
      var after := index[key].(versions := index[key].versions[keep..]);
      CompactionKeepsHistory(index[key], rev);
      if Erased(after, rev) {
        index := index - {key};
      } else {
        index := index[key := after];
      }
    }

    /** Cuts every history and drops the keys of which only an old tombstone is left. */
    method Compact(rev: Revision)
      requires Valid()
      modifies this`index
      ensures Valid() && IsCompacted(old(index), rev, index)
    {
      hide WellFormed, Erased, CompactKey;
      var keys := KeysInOrder(index.Keys);
      var i := 0;
      while i < |keys|
        invariant 0 <= i <= |keys| && Valid()
        invariant forall k :: k !in keys[..i] ==> (k in index <==> k in old(index)) && (k in index ==> index[k] == old(index)[k])
        invariant forall k :: k in keys[..i] ==> k in old(index) && (k in index <==> !Erased(CompactKey(old(index)[k], rev), rev))
        invariant forall k :: k in keys[..i] && k in index ==> index[k] == CompactKey(old(index)[k], rev)
      {
        assert keys[..i + 1] == keys[..i] + [keys[i]];
        NotBefore(keys, i);
        CompactOne(keys[i], rev);
        i := i + 1;
      }
      assert keys[..i] == keys;
    }
  }

  /** When the limit is reached the scan goes on with what is cut off. */
  lemma LimitReached(index: map<Bytes, KeyIndex>, span: Span, at: Revision, keys: seq<Bytes>, lo: nat, i: nat, limit: int)
    requires Orders(keys, index.Keys) && lo <= i < |keys|
    requires forall j :: 0 <= j < lo ==> !Covers(span, keys[j])
    requires forall j :: lo <= j <= i ==> Covers(span, keys[j])
    requires forall j, k :: lo <= j < k < |keys| && !Covers(span, keys[j]) ==> !Covers(span, keys[k])
    requires limit > 0 && |Present(index, keys[lo..i], at)| == limit
    ensures exists scan :: IsScan(index, span, at, scan) && Present(index, keys[lo..i], at) == Cut(limit, scan)
  {
    hide Covers, IsScan, Present, Lookup;
    var hi := BlockEnd(span, keys, i);
    PresentIsScan(index, span, at, keys, lo, hi);
    PresentPrefix(index, keys[lo..hi], at, i - lo);
    assert keys[lo..hi][..i - lo] == keys[lo..i];
    var scan := Present(index, keys[lo..hi], at);
    assert IsScan(index, span, at, scan) && Present(index, keys[lo..i], at) == Cut(limit, scan);
  }

  /** The position after the last covered key. */
  function BlockEnd(span: Span, keys: seq<Bytes>, i: nat): (hi: nat)
    requires i <= |keys|
    ensures i <= hi <= |keys| && (forall j :: i <= j < hi ==> Covers(span, keys[j])) && (hi < |keys| ==> !Covers(span, keys[hi]))
    decreases |keys| - i
  {
    if i == |keys| || !Covers(span, keys[i]) then i else BlockEnd(span, keys, i + 1)
  }

  lemma {:induction false} PresentPrefix(index: map<Bytes, KeyIndex>, keys: seq<Bytes>, at: Revision, n: nat)
    requires n <= |keys|
    ensures Present(index, keys[..n], at) <= Present(index, keys, at)
  {
    if n == |keys| {
      assert keys[..n] == keys;
    } else {
      assert keys[..|keys| - 1][..n] == keys[..n];
      PresentPrefix(index, keys[..|keys| - 1], at, n);
    }
  }

  /** Exactly the keys of which something is left, each compacted. */
  ghost predicate IsCompacted(before: map<Bytes, KeyIndex>, rev: Revision, after: map<Bytes, KeyIndex>)
  {
    && (forall k :: k in after <==> k in before && !Erased(CompactKey(before[k], rev), rev))
    && forall k :: k in after ==> after[k] == CompactKey(before[k], rev)
  }

  lemma CompactedLookup(before: map<Bytes, KeyIndex>, rev: Revision, after: map<Bytes, KeyIndex>, key: Bytes, at: Revision)
    requires IsCompacted(before, rev, after) && key in before
    ensures Lookup(after, key, at) == match ReadCompacted(before[key], rev, at) case None => None case Some(v) => Some(AsKeyValue(key, v))
  {
    hide CompactKey, Erased, Read;
  }

  /**
   Compaction of the whole store, exactly: all point reads at the newest state and from `rev` on are unchanged if and only
   if no key is in the situation that loses a read.
   */
  lemma CompactionPreservesLookups(before: map<Bytes, KeyIndex>, rev: Revision, after: map<Bytes, KeyIndex>)
    requires IsCompacted(before, rev, after) && forall key :: key in before ==> Increasing(before[key])
    ensures (forall key: Bytes, at: Revision {:trigger Lookup(after, key, at)} ::
               Newer(rev, at) ==> Lookup(after, key, at) == Lookup(before, key, at))
       <==> forall key {:trigger before[key]} :: key in before ==> !LosesRead(before[key], rev)
  {
    hide LosesRead, Read, ReadCompacted, Increasing;
    forall key | key in before && LosesRead(before[key], rev)
      ensures Newer(rev, rev) && Lookup(after, key, rev) != Lookup(before, key, rev)
    {
      CompactLosesRead(before[key], rev);
      CompactedLookup(before, rev, after, key, rev);
    }
    forall key: Bytes, at: Revision | Newer(rev, at) && (key in before ==> !LosesRead(before[key], rev))
      ensures Lookup(after, key, at) == Lookup(before, key, at)
    {
      if key in before {
        CompactKeepsRead(before[key], rev, at);
        CompactedLookup(before, rev, after, key, at);
      }
    }
  }
}
