/** The backend store and its file (src/storage/backend.cpp). */
module Backends {
  import opened Types
  import opened ByteOrder
  import opened Frames
  import opened KeyOrder

  const MAGIC: nat := 0x4D455444
  const VERSION: nat := 1
  const MAX_KEY: nat := 1024 * 1024
  const MAX_VALUE: nat := 64 * 1024 * 1024

  type Pair = (Bytes, Bytes)

  function PairFrame(p: Pair): Bytes
  {
    Str(p.0) + Str(p.1)
  }

  function PairFrames(pairs: seq<Pair>): (frames: seq<Bytes>)
    ensures |frames| == |pairs| && forall i :: 0 <= i < |pairs| ==> frames[i] == PairFrame(pairs[i])
  {
    seq(|pairs|, i requires 0 <= i < |pairs| => PairFrame(pairs[i]))
  }

  function Header(): (h: Bytes)
    ensures |h| == 8
  {
    Le(MAGIC, 4) + Le(VERSION, 4)
  }

  /** The file of a store whose pairs, in key order, are `pairs`. */
  function FileOf(pairs: seq<Pair>): Bytes
  {
    Header() + Concat(PairFrames(pairs))
  }

  function PairsOf(keys: seq<Bytes>, store: map<Bytes, Bytes>): (pairs: seq<Pair>)
    requires forall k :: k in keys ==> k in store
    ensures |pairs| == |keys| && forall i :: 0 <= i < |keys| ==> pairs[i] == (keys[i], store[keys[i]])
  {
    seq(|keys|, i requires 0 <= i < |keys| && keys[i] in store => (keys[i], store[keys[i]]))
  }

  /** All pairs of the store, in key order. */
  ghost function PairsInOrder(store: map<Bytes, Bytes>): seq<Pair>
  {
    PairsOf(InOrder(store.Keys), store)
  }

  /** The store after the pairs are put one after the other. */
  function PutAll(store: map<Bytes, Bytes>, pairs: seq<Pair>): map<Bytes, Bytes>
  {
    if pairs == [] then store
    else
      var (k, v) := pairs[|pairs| - 1];
      PutAll(store, pairs[..|pairs| - 1])[k := v]
  }

  /** Of two pairs with one key the later wins, and a pair leaves all other keys alone. */
  lemma LaterPairWins(store: map<Bytes, Bytes>, pairs: seq<Pair>, p: Pair)
    ensures PutAll(store, pairs + [p]) == PutAll(store, pairs)[p.0 := p.1]
  {
    assert (pairs + [p])[..|pairs|] == pairs;
  }

  /** The lengths the loader accepts. */
  predicate Loadable(p: Pair)
  {
    0 < |p.0| <= MAX_KEY && |p.1| <= MAX_VALUE
  }

  /** The number of pairs before the first one the loader rejects. */
  function LoadableRun(pairs: seq<Pair>): (n: nat)
    ensures n <= |pairs| && (forall i :: 0 <= i < n ==> Loadable(pairs[i])) && (n < |pairs| ==> !Loadable(pairs[n]))
  {
    if pairs == [] || !Loadable(pairs[0]) then 0 else 1 + LoadableRun(pairs[1..])
  }

  /** How many pairs a file of `size` bytes yields: those that are complete, up to the first one the loader rejects. */
  function Loaded(pairs: seq<Pair>, size: nat): nat
  {
    if size < 8 then 0 else Min(Complete(PairFrames(pairs), size - 8), LoadableRun(pairs))
  }

  ghost predicate Lengths(pairs: seq<Pair>)
  {
    forall p :: p in pairs ==> |p.0| < 0x1_0000_0000 && |p.1| < 0x1_0000_0000
  }

  lemma {:induction false} PutAllOfStore(store: map<Bytes, Bytes>, keys: seq<Bytes>)
    requires Ascending(keys) && forall k :: k in keys ==> k in store
    ensures var m := PutAll(map[], PairsOf(keys, store));
            (forall k :: k in m <==> k in keys) && forall k :: k in m ==> m[k] == store[k]
  {
    if keys != [] {
      var n := |keys| - 1;
      assert keys == keys[..n] + [keys[n]];
      assert PairsOf(keys, store)[..n] == PairsOf(keys[..n], store);
      PutAllOfStore(store, keys[..n]);
    }
  }

  datatype Visit = Stop | Found(pair: Pair, next: nat)

  /** Reads a length and that many bytes; gives up when they are not all there or the length is not allowed. */
  method ReadPiece(file: Bytes, offset: nat, low: nat, high: nat, ghost piece: Bytes) returns (r: Option<Bytes>)
    requires offset <= |file|
    ensures r.Some? ==> offset + 4 + |r.value| <= |file|
    ensures |piece| < 0x1_0000_0000 && Holds(file, offset, Str(piece)) ==> r == if low <= |piece| <= high then Some(piece) else None
    ensures |piece| < 0x1_0000_0000 && offset + |Str(piece)| > |file| && (offset + 4 <= |file| ==> Holds(file, offset, Le(|piece|, 4))) ==> r == None
  {
    if offset + 4 > |file| {
      return None;
    }
    if |piece| < 0x1_0000_0000 && Holds(file, offset, Str(piece)) {
      HoldsSplit(file, offset, Le(|piece|, 4), piece);
    }
    var len := ReadU32(file, offset);
    if len < low || len > high || offset + 4 + len > |file| {
      return None;
    }
    return Some(file[offset + 4..offset + 4 + len]);
  }

  /** One turn of the load loop. */
  method VisitPair(file: Bytes, offset: nat, ghost pair: Pair) returns (visit: Visit)
    requires offset <= |file|
    ensures visit.Found? ==> offset < visit.next <= |file|
    ensures |pair.0| < 0x1_0000_0000 && |pair.1| < 0x1_0000_0000 && Holds(file, offset, PairFrame(pair)) ==>
              visit == if Loadable(pair) then Found(pair, offset + |PairFrame(pair)|) else Stop
    ensures |pair.0| < 0x1_0000_0000 && |pair.1| < 0x1_0000_0000 && offset + |PairFrame(pair)| > |file| && file[offset..] <= PairFrame(pair) ==>
              visit == Stop
  {
    ghost var fits := |pair.0| < 0x1_0000_0000 && |pair.1| < 0x1_0000_0000;
    if fits && Holds(file, offset, PairFrame(pair)) {
      HoldsSplit(file, offset, Str(pair.0), Str(pair.1));
    } else if fits && offset + |PairFrame(pair)| > |file| && file[offset..] <= PairFrame(pair) {
      CutPair(file, offset, pair);
    }
    var key := ReadPiece(file, offset, 1, MAX_KEY, pair.0);
    if key == None {
      return Stop;
    }
    var at := offset + 4 + |key.value|;
    var value := ReadPiece(file, at, 0, MAX_VALUE, pair.1);
    if value == None {
      return Stop;
    }
    return Found((key.value, value.value), at + 4 + |value.value|);
  }

  /** A pair that is cut off somewhere: either the key is, or the key is there and the value is cut off. */
  lemma CutPair(file: Bytes, offset: nat, pair: Pair)
    requires offset <= |file| && offset + |PairFrame(pair)| > |file| && file[offset..] <= PairFrame(pair)
    ensures offset + 4 <= |file| ==> Holds(file, offset, Le(|pair.0|, 4))
    ensures offset + |Str(pair.0)| <= |file| ==> Holds(file, offset, Str(pair.0))
    ensures offset + |Str(pair.0)| + 4 <= |file| ==> Holds(file, offset + |Str(pair.0)|, Le(|pair.1|, 4))
  {
    var left, frame := file[offset..], PairFrame(pair);
    assert left == frame[..|left|];
    if offset + 4 <= |file| {
      assert file[offset..offset + 4] == left[..4] == frame[..4];
    }
    var n := |Str(pair.0)|;
    if offset + n <= |file| {
      assert file[offset..offset + n] == left[..n] == frame[..n];
    }
    if offset + n + 4 <= |file| {
      assert file[offset + n..offset + n + 4] == left[n..n + 4] == frame[n..n + 4];
    }
  }

  class Backend {
    var store: map<Bytes, Bytes>

    constructor ()
      ensures store == map[]
    {
      store := map[];
    }

    method Put(key: Bytes, value: Bytes)
      modifies this
      ensures store == old(store)[key := value]
    {
      store := store[key := value];
    }

    method Get(key: Bytes) returns (value: Option<Bytes>)
      ensures value == if key in store then Some(store[key]) else None
    {
      value := if key in store then Some(store[key]) else None;
    }

    method Delete(key: Bytes)
      modifies this
      ensures store == old(store) - {key}
    {
      store := store - {key};
    }

    method BatchPut(kvs: map<Bytes, Bytes>)
      modifies this
      ensures store == old(store) + kvs
    {
      store := store + kvs;
    }

    method Keys() returns (keys: seq<Bytes>)
      ensures Orders(keys, store.Keys)
    {
      keys := KeysInOrder(store.Keys);
    }

    method FlushToDisk() returns (file: Bytes)
      ensures file == FileOf(PairsInOrder(store))
    {
      hide PairFrames, Le, Concat;
      hide InOrder;
      var keys := KeysInOrder(store.Keys);
      OrderUnique(keys, InOrder(store.Keys));
      file := Le(MAGIC, 4) + Le(VERSION, 4);
      ghost var frames := PairFrames(PairsOf(keys, store));
      assert frames[..0] == [];
      ConcatNext(frames, 0);
      var i := 0;
      while i < |keys|
        invariant 0 <= i <= |keys| && file == Header() + Concat(frames[..i])
      {
        ConcatNext(frames, i);
        file := file + (Str(keys[i]) + Str(store[keys[i]]));
        i := i + 1;
      }
      assert frames[..i] == frames;
    }

    /**
     Loading any beginning of a flushed file adds exactly its complete leading pairs to the store, up to the first pair
     whose key is empty or too long or whose value is too long.
     */
    method LoadFromDisk(file: Bytes, ghost pairs: seq<Pair>)
      modifies this
      ensures Lengths(pairs) && file <= FileOf(pairs) ==> store == PutAll(old(store), pairs[..Loaded(pairs, |file|)])
    {
      if |file| < 8 {
        return;
      }
      ghost var intact := Lengths(pairs) && file <= FileOf(pairs);
      if intact {
        HeaderRead(file, pairs);
      }
      var magic := ReadU32(file, 0);
      var version := ReadU32(file, 4);
      if magic != MAGIC || version > VERSION {
        return;
      }
      LoadPairs(file[8..], pairs);
    }

    method LoadPairs(body: Bytes, ghost pairs: seq<Pair>)
      modifies this
      ensures Lengths(pairs) && body <= Concat(PairFrames(pairs)) ==> store == PutAll(old(store), pairs[..Loaded(pairs, 8 + |body|)])
    {
      hide PairFrame, PairFrames, Loadable, LoadableRun, Reading, Concat, Complete;
      ghost var frames := PairFrames(pairs);
      ghost var intact := Lengths(pairs) && body <= Concat(frames);
      var offset := 0;
      ghost var k := 0;
      if intact {
        ReadingStarts(body, frames);
      }
      while offset + 4 <= |body|
        invariant offset <= |body| && intact == (Lengths(pairs) && body <= Concat(frames))
        invariant intact ==> Reading(body, frames, offset, k) && k <= LoadableRun(pairs) && store == PutAll(old(store), pairs[..k])
        decreases |body| - offset
      {
        if intact {
          PairAhead(body, pairs, offset, k);
        }
        var visit := VisitPair(body, offset, if intact then pairs[k] else ([], []));
        if visit == Stop {
          return;
        }
        if intact {
          assert pairs[..k + 1][..k] == pairs[..k];
        }
        store := store[visit.pair.0 := visit.pair.1];
        offset := visit.next;
        k := k + 1;
      }
      if intact {
        NothingAhead(body, pairs, offset, k);
      }
    }
  }

  lemma HeaderRead(file: Bytes, pairs: seq<Pair>)
    requires |file| >= 8 && file <= FileOf(pairs)
    ensures Holds(file, 0, Le(MAGIC, 4)) && Holds(file, 4, Le(VERSION, 4)) && file[8..] <= Concat(PairFrames(pairs))
  {
    var whole := FileOf(pairs);
    assert file == whole[..|file|];
    assert file[0..4] == whole[..4] && file[4..8] == whole[4..8];
    assert file[8..] == whole[8..][..|file| - 8];
    assert whole[8..] == Concat(PairFrames(pairs));
  }

  /** What stands at the offset: the next pair, or its beginning when it is the torn one. */
  lemma PairAhead(body: Bytes, pairs: seq<Pair>, offset: nat, k: nat)
    requires Lengths(pairs) && Reading(body, PairFrames(pairs), offset, k) && offset + 4 <= |body|
    ensures k < |pairs| && pairs[k] in pairs && k <= Complete(PairFrames(pairs), |body|)
    ensures offset + |PairFrame(pairs[k])| <= |body| ==>
              Holds(body, offset, PairFrame(pairs[k])) && Reading(body, PairFrames(pairs), offset + |PairFrame(pairs[k])|, k + 1)
    ensures offset + |PairFrame(pairs[k])| > |body| ==>
              k == Complete(PairFrames(pairs), |body|) && body[offset..] <= PairFrame(pairs[k])
  {
    hide PairFrame, PairFrames, Concat, Complete;
    var frames := PairFrames(pairs);
    ReadingAhead(body, frames, offset, k, 0);
    if offset + |frames[k]| <= |body| {
      ReadingAdvances(body, frames, offset, k);
    } else {
      TornFrame(body, frames, offset, k);
    }
  }

  lemma TornFrame(body: Bytes, frames: seq<Bytes>, offset: nat, k: nat)
    requires Reading(body, frames, offset, k) && offset < |body| && k < |frames| && offset + |frames[k]| > |body|
    ensures k == Complete(frames, |body|) && body[offset..] <= frames[k]
  {
    ReadingEnds(body, frames, offset, k);
    ReadingAhead(body, frames, offset, k, |body| - offset);
    assert body[offset..] == body[offset..|body|];
  }

  lemma NothingAhead(body: Bytes, pairs: seq<Pair>, offset: nat, k: nat)
    requires Reading(body, PairFrames(pairs), offset, k) && offset + 4 > |body|
    ensures k == Complete(PairFrames(pairs), |body|)
  {
    if offset < |body| {
      ReadingAhead(body, PairFrames(pairs), offset, k, 0);
    }
    ReadingEnds(body, PairFrames(pairs), offset, k);
  }

  /** A store whose pairs are all loadable comes back from its file unchanged. */
  lemma FileRoundTrip(store: map<Bytes, Bytes>)
    requires forall k :: k in store ==> Loadable((k, store[k]))
    ensures var pairs := PairsInOrder(store);
            Lengths(pairs) && PutAll(map[], pairs[..Loaded(pairs, |FileOf(pairs)|)]) == store
  {
    hide PairFrames, PairFrame, Concat, Complete, LoadableRun, PutAll, InOrder;
    var keys := InOrder(store.Keys);
    var pairs := PairsOf(keys, store);
    var frames := PairFrames(pairs);
    CompleteFits(frames, |Concat(frames)|, |frames|);
    assert frames[..|frames|] == frames && pairs[..|pairs|] == pairs;
    forall p | p in pairs
      ensures Loadable(p)
    {
      var i :| 0 <= i < |pairs| && pairs[i] == p;
      assert keys[i] in store;
    }
    AllLoadable(pairs);
    PutAllOfStore(store, keys);
  }

  lemma {:induction false} AllLoadable(pairs: seq<Pair>)
    requires forall p :: p in pairs ==> Loadable(p)
    ensures LoadableRun(pairs) == |pairs|
  {
    if pairs != [] {
      assert pairs[0] in pairs;
      AllLoadable(pairs[1..]);
    }
  }
}
