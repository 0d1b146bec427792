/** Reading at an offset of a byte buffer, and byte streams made of frames, cut off anywhere. */
module Frames {
  import opened Types
  import opened ByteOrder

  /** `piece` stands at `offset`. */
  predicate Holds(data: Bytes, offset: nat, piece: Bytes)
  {
    offset + |piece| <= |data| && data[offset..offset + |piece|] == piece
  }

  lemma HoldsSplit(data: Bytes, offset: nat, a: Bytes, b: Bytes)
    requires Holds(data, offset, a + b)
    ensures Holds(data, offset, a) && Holds(data, offset + |a|, b)
  {
    assert data[offset..offset + |a|] == (a + b)[..|a|];
    assert data[offset + |a|..offset + |a| + |b|] == (a + b)[|a|..];
  }

  method ReadU64(data: Bytes, offset: nat) returns (v: nat)
    requires offset + 8 <= |data|
    ensures v < TWO_TO_64
    ensures forall x: nat {:trigger Le(x, 8)} :: x < TWO_TO_64 && Holds(data, offset, Le(x, 8)) ==> v == x
  {
    v := FromLe(data[offset..offset + 8]);
    FromLeBounded(data[offset..offset + 8]);
    Spans();
    forall x: nat {:trigger Le(x, 8)} | x < TWO_TO_64 && Holds(data, offset, Le(x, 8))
      ensures v == x
    {
      LeRoundTrip(x, 8);
    }
  }

  method ReadU32(data: Bytes, offset: nat) returns (v: nat)
    requires offset + 4 <= |data|
    ensures v < 0x1_0000_0000
    ensures forall x: nat {:trigger Le(x, 4)} :: x < 0x1_0000_0000 && Holds(data, offset, Le(x, 4)) ==> v == x
  {
    v := FromLe(data[offset..offset + 4]);
    FromLeBounded(data[offset..offset + 4]);
    Spans();
    forall x: nat {:trigger Le(x, 4)} | x < 0x1_0000_0000 && Holds(data, offset, Le(x, 4))
      ensures v == x
    {
      LeRoundTrip(x, 4);
    }
  }

  // ---- Frames ----

  function Concat(frames: seq<Bytes>): Bytes
  {
    if frames == [] then [] else frames[0] + Concat(frames[1..])
  }

  /** How many leading frames lie completely within the first `n` bytes. */
  function Complete(frames: seq<Bytes>, n: nat): (k: nat)
    ensures k <= |frames|
  {
    if frames == [] || |frames[0]| > n then 0 else 1 + Complete(frames[1..], n - |frames[0]|)
  }

  lemma {:induction false} CompleteFits(frames: seq<Bytes>, n: nat, k: nat)
    requires k <= |frames|
    ensures k <= Complete(frames, n) <==> |Concat(frames[..k])| <= n
  {
    if k > 0 {
      assert frames[..k][1..] == frames[1..][..k - 1];
      if |frames[0]| <= n {
        CompleteFits(frames[1..], n - |frames[0]|, k - 1);
      }
    }
  }

  lemma {:induction false} ConcatSplits(a: seq<Bytes>, b: seq<Bytes>)
    ensures Concat(a + b) == Concat(a) + Concat(b)
  {
    if a == [] {
      assert a + b == b;
    } else {
      assert (a + b)[1..] == a[1..] + b;
      ConcatSplits(a[1..], b);
    }
  }

  lemma ConcatNext(frames: seq<Bytes>, i: nat)
    ensures Concat([]) == []
    ensures i < |frames| ==> Concat(frames[..i + 1]) == Concat(frames[..i]) + frames[i]
  {
    if i < |frames| {
      assert frames[..i + 1] == frames[..i] + [frames[i]];
      ConcatSplits(frames[..i], [frames[i]]);
      assert Concat([frames[i]]) == frames[i];
    }
  }

  /** What remains of `buffer` from `offset` on is a beginning of frames `k` and following, and `k` is on the way to the last complete one. */
  ghost predicate Reading(buffer: Bytes, frames: seq<Bytes>, offset: nat, k: nat)
  {
    && offset <= |buffer| && k <= |frames| && buffer[offset..] <= Concat(frames[k..])
    && k + Complete(frames[k..], |buffer| - offset) == Complete(frames, |buffer|)
  }

  lemma ReadingStarts(buffer: Bytes, frames: seq<Bytes>)
    requires buffer <= Concat(frames)
    ensures Reading(buffer, frames, 0, 0)
  {
    assert frames[0..] == frames && buffer[0..] == buffer;
  }

  lemma ReadingAhead(buffer: Bytes, frames: seq<Bytes>, offset: nat, k: nat, j: nat)
    requires Reading(buffer, frames, offset, k) && offset < |buffer|
    ensures k < |frames| && (j <= |frames[k]| && offset + j <= |buffer| ==> Holds(buffer, offset, frames[k][..j]))
  {
    var frame, tail, left := frames[k], Concat(frames[k..][1..]), buffer[offset..];
    if j <= |frame| && offset + j <= |buffer| {
      assert buffer[offset..offset + j] == left[..j] == (frame + tail)[..j];
    }
  }

  lemma ReadingAdvances(buffer: Bytes, frames: seq<Bytes>, offset: nat, k: nat)
    requires Reading(buffer, frames, offset, k) && k < |frames| && offset + |frames[k]| <= |buffer|
    ensures Holds(buffer, offset, frames[k]) && Reading(buffer, frames, offset + |frames[k]|, k + 1)
  {
    var frame, tail, left := frames[k], Concat(frames[k..][1..]), buffer[offset..];
    assert frames[k..][1..] == frames[k + 1..];
    assert left == (frame + tail)[..|left|];
    assert buffer[offset..offset + |frame|] == left[..|frame|] == frame;
    assert buffer[offset + |frame|..] == left[|frame|..] == tail[..|left| - |frame|];
  }

  lemma ReadingEnds(buffer: Bytes, frames: seq<Bytes>, offset: nat, k: nat)
    requires Reading(buffer, frames, offset, k) && (k == |frames| || offset + |frames[k]| > |buffer|)
    ensures k == Complete(frames, |buffer|)
  {
  }

  // ---- Collecting what is read ----

  function FlatMap<T, U>(f: T -> seq<U>, s: seq<T>): seq<U>
  {
    if s == [] then [] else FlatMap(f, s[..|s| - 1]) + f(s[|s| - 1])
  }

  lemma {:induction false} FlatMapConcat<T, U>(f: T -> seq<U>, a: seq<T>, b: seq<T>)
    ensures FlatMap(f, a + b) == FlatMap(f, a) + FlatMap(f, b)
  {
    if b == [] {
      assert a + b == a;
    } else {
      assert (a + b)[..|a + b| - 1] == a + b[..|b| - 1];
      FlatMapConcat(f, a, b[..|b| - 1]);
    }
  }
}
