/**
 Snapshot and replay (src/server/etcd_server.cpp:43-57, 131-225): why replaying a log over a snapshot it overlaps is
 harmless, and for which snapshot labels a restarted server holds what the running one held.
 */
module Recovery {
  import opened Types
  import opened Frames
  import opened Wal
  import opened WalFiles
  import opened Mvcc
  import opened Backends
  import opened KvStores
  import opened RaftLogs
  import KeyOrder

  // ---- What a piece of log does to one key ----

  /** The last write to `k`: its value, or a deletion; `None` when the entries do not touch the key. */
  function Effect(es: seq<RaftEntry>, k: Bytes): Option<Option<Bytes>>
  {
    if es == [] then None
    else
      var e := es[|es| - 1];
      if e.kind == EventType.Put && e.key == k then Some(Some(e.value))
      else if e.kind == EventType.Delete && e.key == k then Some(None)
      else Effect(es[..|es| - 1], k)
  }

  function ValueAt(m: Contents, k: Bytes): Option<Bytes>
  {
    if k in m then Some(m[k]) else None
  }

  lemma {:induction false} ApplyEffect(m: Contents, es: seq<RaftEntry>, k: Bytes)
    ensures ValueAt(ApplyAll(m, es), k) == match Effect(es, k) case None => ValueAt(m, k) case Some(v) => v
  {
    if es != [] {
      ApplyEffect(m, es[..|es| - 1], k);
    }
  }

  lemma {:induction false} EffectConcat(a: seq<RaftEntry>, b: seq<RaftEntry>, k: Bytes)
    ensures Effect(a + b, k) == if Effect(b, k).Some? then Effect(b, k) else Effect(a, k)
  {
    if b == [] {
      assert a + b == a;
    } else {
      assert (a + b)[..|a + b| - 1] == a + b[..|b| - 1];
      EffectConcat(a, b[..|b| - 1], k);
    }
  }

  lemma SameValues(a: Contents, b: Contents)
    requires forall k :: ValueAt(a, k) == ValueAt(b, k)
    ensures a == b
  {
    forall k
      ensures k in a <==> k in b
      ensures k in a && k in b ==> a[k] == b[k]
    {
      assert ValueAt(a, k) == ValueAt(b, k);
    }
  }

  // ---- Replaying over a snapshot ----

  /** The store holds, for every key that the log does not touch again from `from` on, what the whole log leaves there. */
  ghost predicate SettledUpTo(log: seq<RaftEntry>, m: Contents, from: nat)
    requires from <= |log|
  {
    forall k {:trigger Effect(log[from..], k)} :: Effect(log[from..], k) == None ==> ValueAt(m, k) == ValueAt(ApplyAll(map[], log), k)
  }

  lemma SnapshotSettles(log: seq<RaftEntry>, n: nat, from: nat)
    requires from <= n <= |log|
    ensures SettledUpTo(log, ApplyAll(map[], log[..n]), from)
  {
    forall k {:trigger Effect(log[from..], k)} | Effect(log[from..], k) == None
      ensures ValueAt(ApplyAll(map[], log[..n]), k) == ValueAt(ApplyAll(map[], log), k)
    {
      assert log[from..] == log[from..n] + log[n..] && log == log[..n] + log[n..];
      EffectConcat(log[from..n], log[n..], k);
      EffectConcat(log[..n], log[n..], k);
      ApplyEffect(map[], log, k);
      ApplyEffect(map[], log[..n], k);
    }
  }

  lemma EntrySettlesAt(log: seq<RaftEntry>, m: Contents, at: nat, next: nat, k: Bytes)
    requires at < |log| && next <= at + 1 && Effect(log[next..], k) == None
    requires Effect(log[at..], k) == None ==> ValueAt(m, k) == ValueAt(ApplyAll(map[], log), k)
    ensures ValueAt(Apply(m, log[at]), k) == ValueAt(ApplyAll(map[], log), k)
  {
    hide ValueAt, ApplyAll, Apply, Effect;
    TailUntouched(log, next, at + 1, k);
    LastTouch(log, at, k);
    ApplyEffect(map[], log, k);
    ApplyOne(m, log[at], k);
  }

  lemma TailUntouched(log: seq<RaftEntry>, from: nat, later: nat, k: Bytes)
    requires from <= later <= |log| && Effect(log[from..], k) == None
    ensures Effect(log[later..], k) == None
  {
    hide Effect;
    assert log[from..] == log[from..later] + log[later..];
    EffectConcat(log[from..later], log[later..], k);
  }

  /** The last entry that can touch a key decides. */
  lemma LastTouch(log: seq<RaftEntry>, at: nat, k: Bytes)
    requires at < |log| && Effect(log[at + 1..], k) == None
    ensures Effect(log[at..], k) == Effect([log[at]], k)
    ensures Effect([log[at]], k).Some? ==> Effect(log, k) == Effect([log[at]], k)
  {
    hide Effect;
    assert log[at..] == [log[at]] + log[at + 1..];
    EffectConcat([log[at]], log[at + 1..], k);
    assert log == log[..at] + log[at..];
    EffectConcat(log[..at], log[at..], k);
  }

  lemma ApplyOne(m: Contents, e: RaftEntry, k: Bytes)
    ensures ValueAt(Apply(m, e), k) == match Effect([e], k) case None => ValueAt(m, k) case Some(v) => v
  {
    assert [e][..0] == [];
  }

  /** Replaying entry `at` settles the log up to any point that is not past the entry after it. */
  lemma EntrySettles(log: seq<RaftEntry>, m: Contents, at: nat, next: nat)
    requires at < |log| && next <= at + 1 && SettledUpTo(log, m, at)
    ensures SettledUpTo(log, Apply(m, log[at]), next)
  {
    hide Effect, ApplyAll, Apply, ValueAt;
    forall k {:trigger Effect(log[next..], k)} | Effect(log[next..], k) == None
      ensures ValueAt(Apply(m, log[at]), k) == ValueAt(ApplyAll(map[], log), k)
    {
      EntrySettlesAt(log, m, at, next, k);
    }
  }

  lemma AllSettled(log: seq<RaftEntry>, m: Contents)
    requires SettledUpTo(log, m, |log|)
    ensures m == ApplyAll(map[], log)
  {
    forall k
      ensures ValueAt(m, k) == ValueAt(ApplyAll(map[], log), k)
    {
      assert Effect(log[|log|..], k) == None;
    }
    SameValues(m, ApplyAll(map[], log));
  }

  /** Where a replay over a snapshot of the first `n` entries has got to. */
  function Reached(r: seq<RaftEntry>, n: nat): nat
  {
    if r == [] then n else r[|r| - 1].index
  }

  /**
   A sequence of entries of `log` in which the index goes up by at most one at each step, however far it jumps back, and
   which starts right after `n` or earlier. It may repeat entries.
   */
  ghost predicate NoSkip(log: seq<RaftEntry>, r: seq<RaftEntry>, n: nat)
  {
    r != [] ==>
      var before, e := r[..|r| - 1], r[|r| - 1];
      NoSkip(log, before, n) && 1 <= e.index <= |log| && e == log[e.index - 1] && e.index <= Reached(before, n) + 1
  }

  lemma {:induction false} NoSkipConcat(log: seq<RaftEntry>, a: seq<RaftEntry>, b: seq<RaftEntry>, n: nat)
    ensures Reached(a + b, n) == Reached(b, Reached(a, n))
    ensures NoSkip(log, a + b, n) <==> NoSkip(log, a, n) && NoSkip(log, b, Reached(a, n))
    decreases |b|
  {
    if b == [] {
      assert a + b == a;
    } else {
      assert (a + b)[..|a + b| - 1] == a + b[..|b| - 1];
      NoSkipConcat(log, a, b[..|b| - 1], n);
    }
  }

  lemma {:induction false} NoSkipFromLater(log: seq<RaftEntry>, r: seq<RaftEntry>, n: nat, m: nat)
    requires NoSkip(log, r, n) && n <= m
    ensures NoSkip(log, r, m)
    decreases |r|
  {
    if r != [] {
      NoSkipFromLater(log, r[..|r| - 1], n, m);
    }
  }

  lemma {:induction false} NoSkipLongerLog(log: seq<RaftEntry>, more: seq<RaftEntry>, r: seq<RaftEntry>, n: nat)
    requires NoSkip(log, r, n)
    ensures NoSkip(log + more, r, n)
    decreases |r|
  {
    if r != [] {
      NoSkipLongerLog(log, more, r[..|r| - 1], n);
    }
  }

  lemma {:induction false} PieceNoSkip(log: seq<RaftEntry>, i: nat, j: nat)
    requires Consecutive(log, 1) && i <= j <= |log|
    ensures NoSkip(log, log[i..j], i) && Reached(log[i..j], i) == j
    decreases j
  {
    if i < j {
      assert log[i..j][..j - i - 1] == log[i..j - 1] && log[i..j][j - i - 1] == log[j - 1];
      PieceNoSkip(log, i, j - 1);
    }
  }

  lemma {:induction false} ReplaySettles(log: seq<RaftEntry>, r: seq<RaftEntry>, n: nat, from: nat)
    requires n <= |log| && NoSkip(log, r, n) && from <= Reached(r, n)
    ensures from <= |log| && SettledUpTo(log, ApplyAll(ApplyAll(map[], log[..n]), r), from)
    decreases |r|
  {
    if r == [] {
      SnapshotSettles(log, n, from);
    } else {
      hide SettledUpTo;
      var before, e := r[..|r| - 1], r[|r| - 1];
      ReplaySettles(log, before, n, e.index - 1);
      EntrySettles(log, ApplyAll(ApplyAll(map[], log[..n]), before), e.index - 1, from);
    }
  }

  /** Loading a snapshot of log[1..n] and replaying, without skipping, up to the end of the log gives the state of the whole log. */
  lemma ReplayRecovers(log: seq<RaftEntry>, r: seq<RaftEntry>, n: nat)
    requires n <= |log| && NoSkip(log, r, n) && Reached(r, n) == |log|
    ensures ApplyAll(ApplyAll(map[], log[..n]), r) == ApplyAll(map[], log)
  {
    ReplaySettles(log, r, n, |log|);
    AllSettled(log, ApplyAll(ApplyAll(map[], log[..n]), r));
  }

  /** An entry that writes the key [1], or one that writes nothing. */
  function Sample(index: Index, writes: bool): RaftEntry
  {
    RaftEntry(1, index, if writes then EventType.Put else ConfChangeEvent, [1], [], 0, NO_CONF_CHANGE)
  }

  /** A log of `m` entries of which only number `w` writes. */
  function SampleLog(m: nat, w: nat): (log: seq<RaftEntry>)
    ensures |log| == m && forall i :: 0 <= i < m ==> log[i] == Sample(i + 1, i + 1 == w)
  {
    seq(m, i requires 0 <= i => Sample(i + 1, i + 1 == w))
  }

  lemma {:induction false} SampleEffect(es: seq<RaftEntry>)
    requires forall e :: e in es ==> e.kind == ConfChangeEvent
    ensures Effect(es, [1]) == None
  {
    if es != [] {
      SampleEffect(es[..|es| - 1]);
    }
  }

  /**
   Recovery equals full replay, exactly: with a snapshot of log[1..n], replaying log[i..m] gives for every log the same
   map as applying log[1..m] if and only if the replay starts no later than right after the snapshot.
   */
  lemma RecoveryEqualsReplay(n: nat, i: nat, m: nat)
    requires n <= m && 1 <= i <= m + 1
    ensures (forall log: seq<RaftEntry> :: |log| == m && Consecutive(log, 1) ==>
               ApplyAll(ApplyAll(map[], log[..n]), log[i - 1..]) == ApplyAll(map[], log)) <==> i <= n + 1
  {
    if i <= n + 1 {
      forall log: seq<RaftEntry> | |log| == m && Consecutive(log, 1)
        ensures ApplyAll(ApplyAll(map[], log[..n]), log[i - 1..]) == ApplyAll(map[], log)
      {
        assert log[i - 1..] == log[i - 1..m];
        PieceNoSkip(log, i - 1, m);
        NoSkipFromLater(log, log[i - 1..], i - 1, n);
        ReplayRecovers(log, log[i - 1..], n);
      }
    } else {
      LateReplayLoses(n, i, m);
    }
  }

  lemma LateReplayLoses(n: nat, i: nat, m: nat)
    requires n + 1 < i <= m + 1
    ensures var log := SampleLog(m, n + 1);
            |log| == m && Consecutive(log, 1) && ApplyAll(ApplyAll(map[], log[..n]), log[i - 1..]) != ApplyAll(map[], log)
  {
    var log := SampleLog(m, n + 1);
    SampleEffect(log[..n]);
    SampleEffect(log[i - 1..]);
    SampleEffect(log[n + 1..]);
    ApplyEffect(map[], log[..n], [1]);
    ApplyEffect(ApplyAll(map[], log[..n]), log[i - 1..], [1]);
    ApplyEffect(map[], log, [1]);
    assert log == log[..n + 1] + log[n + 1..];
    EffectConcat(log[..n + 1], log[n + 1..], [1]);
  }

  // ---- A server that applies, logs and takes snapshots ----

  /** An entry as the log has it: its record fits, and a conf change travels with entries of that type only. */
  ghost predicate Clean(e: RaftEntry)
  {
    Fits(e) && e.index > 0 && (e.kind == ConfChangeEvent || e.confChange == NO_CONF_CHANGE)
  }

  /**
   What survives a restart, and the entries applied so far: the write-ahead log's files and last index, and the newest
   snapshot's contents (of the first `taken` entries).
   */
  datatype Durable = Durable(applied: seq<RaftEntry>, logs: seq<seq<RaftEntry>>, lastIndex: Index, snapshot: Contents, taken: nat)

  const FRESH := Durable([], [[]], 0, map[], 0)

  /** `Ready`: a batch from the raft node; `Snapshot`: the snapshot thread, with the label it chose. */
  datatype Event = Ready(batch: seq<RaftEntry>) | Snapshot(idx: Index)

  ghost predicate Possible(d: Durable, ev: Event)
  {
    match ev
    case Ready(batch) => Consecutive(batch, |d.applied| + 1) && forall e :: e in batch ==> Clean(e)
    case Snapshot(idx) => idx >= 1
  }

  function Happens(d: Durable, ev: Event): (m: Durable)
    requires d.logs != []
    ensures m.logs != []
  {
    match ev
    case Ready(batch) =>
      var last := |d.logs| - 1;
      d.(applied := d.applied + batch,
         logs := d.logs[last := d.logs[last] + Accepted(d.lastIndex, batch)],
         lastIndex := LastAccepted(d.lastIndex, batch))
    case Snapshot(idx) =>
      d.(logs := Rewritten(true, d.logs, idx),
         lastIndex := LastAfterTruncation(idx, From(idx, Reread(true, d.logs))),
         snapshot := ApplyAll(map[], d.applied),
         taken := |d.applied|)
  }

  ghost predicate PossibleRun(evs: seq<Event>)
  {
    forall i :: 0 <= i < |evs| ==> Possible(After(evs[..i]), evs[i])
  }

  function After(evs: seq<Event>): (d: Durable)
    ensures d.logs != []
  {
    if evs == [] then FRESH else Happens(After(evs[..|evs| - 1]), evs[|evs| - 1])
  }

  /** The key-value state a restarted server rebuilds. */
  function Restarted(d: Durable): Contents
  {
    ApplyAll(d.snapshot, Reread(true, d.logs))
  }

  /** The label is not past the entry after the last applied one. */
  predicate LabelOk(d: Durable, ev: Event)
  {
    ev.Snapshot? ==> ev.idx <= |d.applied| + 1
  }

  // ---- The invariant ----

  ghost predicate AllClean(es: seq<RaftEntry>)
  {
    forall e :: e in es ==> Clean(e)
  }

  /** A replay of the log's files over the snapshot skips nothing and ends with the last applied entry. */
  ghost predicate Replayable(d: Durable)
  {
    && d.logs != [] && (forall l :: l in d.logs ==> AllClean(l)) && AllClean(d.applied) && Consecutive(d.applied, 1)
    && d.taken <= |d.applied| && d.snapshot == ApplyAll(map[], d.applied[..d.taken])
    && NoSkip(d.applied, Reread(true, d.logs), d.taken) && Reached(Reread(true, d.logs), d.taken) == |d.applied|
  }

  /** And the log takes the next entry for a new one. */
  ghost predicate DurableOk(d: Durable)
  {
    Replayable(d) && d.lastIndex <= |d.applied|
  }

  lemma CleanSurvives(es: seq<RaftEntry>)
    requires AllClean(es)
    ensures Survivors(true, es) == es
  {
    hide Fits;
    EverythingSurvives(es);
  }

  /** A batch that continues the log is accepted whole. */
  lemma {:induction false} BatchAccepted(last: Index, batch: seq<RaftEntry>, next: Index)
    requires Consecutive(batch, next) && last < next
    ensures Accepted(last, batch) == batch
    ensures LastAccepted(last, batch) == if batch == [] then last else next + |batch| - 1
    decreases |batch|
  {
    if batch != [] {
      BatchAccepted(batch[0].index, batch[1..], next + 1);
    }
  }

  lemma NoSkipExtends(log: seq<RaftEntry>, r: seq<RaftEntry>, n: nat, batch: seq<RaftEntry>)
    requires Consecutive(log, 1) && NoSkip(log, r, n) && Reached(r, n) == |log| && Consecutive(batch, |log| + 1)
    ensures NoSkip(log + batch, r + batch, n) && Reached(r + batch, n) == |log + batch|
  {
    var long := log + batch;
    NoSkipLongerLog(log, batch, r, n);
    assert long[|log|..|long|] == batch;
    PieceNoSkip(long, |log|, |long|);
    NoSkipConcat(long, r, batch, n);
  }

  lemma RereadAppended(logs: seq<seq<RaftEntry>>, batch: seq<RaftEntry>)
    requires logs != [] && AllClean(logs[|logs| - 1]) && AllClean(batch)
    ensures Reread(true, logs[|logs| - 1 := logs[|logs| - 1] + batch]) == Reread(true, logs) + batch
  {
    hide Clean, Survivors;
    var last := |logs| - 1;
    var longer := logs[last := logs[last] + batch];
    CleanSurvives(logs[last]);
    CleanSurvives(logs[last] + batch);
    assert longer[..last] == logs[..last];
    assert Reread(true, logs[..last]) + (logs[last] + batch) == Reread(true, logs[..last]) + logs[last] + batch;
  }

  lemma ReadyKeeps(d: Durable, batch: seq<RaftEntry>)
    requires DurableOk(d) && Possible(d, Ready(batch))
    ensures DurableOk(Happens(d, Ready(batch)))
  {
    hide Clean, Survivors, Reread, NoSkip, Reached;
    var m := Happens(d, Ready(batch));
    BatchAccepted(d.lastIndex, batch, |d.applied| + 1);
    RereadAppended(d.logs, batch);
    NoSkipExtends(d.applied, Reread(true, d.logs), d.taken, batch);
    assert m.applied[..m.taken] == d.applied[..d.taken];
  }

  lemma {:induction false} FromConcatOne(idx: Index, r: seq<RaftEntry>, e: RaftEntry)
    ensures From(idx, r + [e]) == if e.index >= idx then From(idx, r) + [e] else From(idx, r)
  {
    assert (r + [e])[..|r|] == r;
  }

  lemma NoSkipOneMore(log: seq<RaftEntry>, r: seq<RaftEntry>, e: RaftEntry, n: nat)
    ensures NoSkip(log, r + [e], n) <==> NoSkip(log, r, n) && 1 <= e.index <= |log| && e == log[e.index - 1] && e.index <= Reached(r, n) + 1
  {
    assert (r + [e])[..|r|] == r;
  }

  /** `kept` skips nothing, and ends where `r` ends if that is not below `idx`. */
  ghost predicate Follows(log: seq<RaftEntry>, r: seq<RaftEntry>, kept: seq<RaftEntry>, idx: Index)
  {
    && NoSkip(log, kept, |log|) && (r == [] ==> kept == []) && (kept != [] ==> kept[|kept| - 1].index >= idx)
    && (r != [] && r[|r| - 1].index >= idx ==> kept != [] && kept[|kept| - 1].index == r[|r| - 1].index)
  }

  lemma FollowsStep(log: seq<RaftEntry>, r: seq<RaftEntry>, kept: seq<RaftEntry>, e: RaftEntry, n: nat, idx: Index)
    requires Follows(log, r, kept, idx) && NoSkip(log, r + [e], n)
    ensures Follows(log, r + [e], if e.index >= idx then kept + [e] else kept, idx)
  {
    hide NoSkip;
    NoSkipOneMore(log, r, e, n);
    NoSkipOneMore(log, kept, e, |log|);
  }

  /** Keeping the entries from `idx` on skips nothing. */
  lemma {:induction false} FromNoSkip(log: seq<RaftEntry>, r: seq<RaftEntry>, n: nat, idx: Index)
    requires NoSkip(log, r, n)
    ensures Follows(log, r, From(idx, r), idx)
    decreases |r|
  {
    if r == [] {
      assert From(idx, r) == [];
    } else {
      hide Follows, From;
      var before, e := r[..|r| - 1], r[|r| - 1];
      assert r == before + [e];
      FromNoSkip(log, before, n, idx);
      FollowsStep(log, before, From(idx, before), e, n, idx);
      FromConcatOne(idx, before, e);
    }
  }

  lemma {:induction false} RereadRemoved(n: nat)
    ensures Reread(true, Removed(n)) == []
  {
    hide Survivors;
    if n > 0 {
      assert Removed<RaftEntry>(n)[..n - 1] == Removed(n - 1);
      RereadRemoved(n - 1);
      assert Survivors(true, []) == [] by { NoneSurvive(); }
    }
  }

  lemma NoneSurvive()
    ensures Survivors(true, []) == []
  {
  }

  lemma RereadTruncated(logs: seq<seq<RaftEntry>>, idx: Index)
    requires logs != []
    ensures Reread(true, Rewritten(true, logs, idx)) == Survivors(true, logs[|logs| - 1]) + Survivors(true, From(idx, Reread(true, logs)))
  {
    hide Survivors, Reread, From, Removed;
    var current, kept := logs[|logs| - 1], From(idx, Reread(true, logs));
    RereadRemoved(|logs| - 1);
    RereadTwoMore(Removed(|logs| - 1), current, kept);
    assert [] + Survivors(true, current) == Survivors(true, current);
  }

  lemma RereadTwoMore(files: seq<seq<RaftEntry>>, a: seq<RaftEntry>, b: seq<RaftEntry>)
    ensures Reread(true, files + [a] + [b]) == Reread(true, files) + Survivors(true, a) + Survivors(true, b)
  {
    hide Survivors;
    assert (files + [a] + [b])[..|files| + 1] == files + [a];
    assert (files + [a])[..|files|] == files;
  }

  lemma {:induction false} RereadClean(logs: seq<seq<RaftEntry>>)
    requires forall l :: l in logs ==> AllClean(l)
    ensures AllClean(Reread(true, logs))
  {
    if logs != [] {
      hide Clean, Survivors;
      RereadClean(logs[..|logs| - 1]);
      assert logs[|logs| - 1] in logs;
      CleanSurvives(logs[|logs| - 1]);
    }
  }

  /** What a snapshot does to the log's files, seen as what they read as. */
  lemma TruncationSound(log: seq<RaftEntry>, older: seq<RaftEntry>, current: seq<RaftEntry>, n: nat, idx: Index)
    requires n <= |log| && NoSkip(log, older + current, n) && Reached(older + current, n) == |log| && 1 <= idx
    ensures var kept := From(idx, older + current);
            && NoSkip(log, current + kept, |log|) && Reached(current + kept, |log|) == |log|
            && (kept != [] ==> LastAfterTruncation(idx, kept) == |log|)
            && if idx <= |log| + 1 then LastAfterTruncation(idx, kept) <= |log| else LastAfterTruncation(idx, kept) == idx - 1
  {
    var r := older + current;
    var kept := From(idx, r);
    FromNoSkip(log, r, n, idx);
    FromSubset(idx, r);
    EntriesWithin(log, r, n);
    assert kept != [] ==> kept[|kept| - 1] in kept && kept[|kept| - 1].index <= |log|;
    NoSkipConcat(log, older, current, n);
    EntriesWithin(log, older, n);
    NoSkipFromLater(log, current, Reached(older, n), |log|);
    NoSkipConcat(log, current, kept, |log|);
  }

  lemma {:induction false} EntriesWithin(log: seq<RaftEntry>, r: seq<RaftEntry>, n: nat)
    requires n <= |log| && NoSkip(log, r, n)
    ensures Reached(r, n) <= |log| && forall e :: e in r ==> e.index <= |log|
    decreases |r|
  {
    if r != [] {
      EntriesWithin(log, r[..|r| - 1], n);
      assert r == r[..|r| - 1] + [r[|r| - 1]];
    }
  }

  lemma SnapshotKeeps(d: Durable, idx: Index)
    requires Replayable(d) && Possible(d, Snapshot(idx))
    ensures var m := Happens(d, Snapshot(idx));
            Replayable(m) && (m.lastIndex <= |d.applied| <==> LabelOk(d, Snapshot(idx))) && (LabelOk(d, Snapshot(idx)) || m.lastIndex == idx - 1)
            && (From(idx, Reread(true, d.logs)) != [] ==> m.lastIndex == |d.applied|)
  {
    hide Clean, Survivors, Reread, NoSkip, Reached, LastAfterTruncation;
    var log, current := d.applied, d.logs[|d.logs| - 1];
    var older := OlderFiles(d.logs);
    var kept := From(idx, older + current);
    TruncationSound(log, older, current, d.taken, idx);
    RereadClean(d.logs);
    FromSubset(idx, older + current);
    CleanSurvives(current);
    CleanSurvives(kept);
    RereadTruncated(d.logs, idx);
    assert log[..|log|] == log;
  }

  /** What the files before the current one read as. */
  lemma OlderFiles(logs: seq<seq<RaftEntry>>) returns (older: seq<RaftEntry>)
    requires logs != [] && AllClean(logs[|logs| - 1])
    ensures Reread(true, logs) == older + logs[|logs| - 1]
  {
    CleanSurvives(logs[|logs| - 1]);
    older := Reread(true, logs[..|logs| - 1]);
  }

  lemma {:induction false} RunKeepsDurable(evs: seq<Event>)
    requires PossibleRun(evs) && forall i :: 0 <= i < |evs| ==> LabelOk(After(evs[..i]), evs[i])
    ensures DurableOk(After(evs))
  {
    if evs == [] {
      assert DurableOk(FRESH);
    } else {
      hide DurableOk, Happens;
      var before, ev := evs[..|evs| - 1], evs[|evs| - 1];
      forall i | 0 <= i < |before|
        ensures Possible(After(before[..i]), before[i]) && LabelOk(After(before[..i]), before[i])
      {
        assert before[..i] == evs[..i];
      }
      RunKeepsDurable(before);
      assert evs[..|evs| - 1] == before;
      match ev {
        case Ready(batch) => ReadyKeeps(After(before), batch);
        case Snapshot(idx) => SnapshotKeeps(After(before), idx);
      }
    }
  }

  /**
   A restart recovers exactly what the running server held, over any run of batches and snapshots, truncated logs and
   left-over files included, as long as no snapshot was labelled past the entry after the last applied one.
   */
  lemma RestartRecovers(evs: seq<Event>)
    requires PossibleRun(evs) && forall i :: 0 <= i < |evs| ==> LabelOk(After(evs[..i]), evs[i])
    ensures Restarted(After(evs)) == ApplyAll(map[], After(evs).applied)
  {
    RunKeepsDurable(evs);
    ReplayedWhole(After(evs));
  }

  // ---- The label decides ----

  /** The durable state after a run that goes on with a snapshot labelled `idx` and the next batch. */
  function GoneOn(evs: seq<Event>, idx: Index, batch: seq<RaftEntry>): Durable
  {
    After(evs + [Snapshot(idx)] + [Ready(batch)])
  }

  lemma GoneOnSteps(evs: seq<Event>, idx: Index, batch: seq<RaftEntry>)
    ensures GoneOn(evs, idx, batch) == Happens(Happens(After(evs), Snapshot(idx)), Ready(batch))
    ensures GoneOn(evs, idx, batch).applied == After(evs).applied + batch
  {
    hide Rewritten, Accepted, LastAccepted, LastAfterTruncation, ApplyAll, Reread, From;
    var some := evs + [Snapshot(idx)];
    var all := some + [Ready(batch)];
    assert some[..|some| - 1] == evs && all[..|all| - 1] == some;
    assert After(all) == Happens(After(some), all[|all| - 1]) && After(some) == Happens(After(evs), some[|some| - 1]);
  }

  lemma EarlyLabelRecovers(d: Durable, idx: Index, batch: seq<RaftEntry>)
    requires DurableOk(d) && Possible(d, Ready(batch)) && 1 <= idx <= |d.applied| + 1
    ensures var m := Happens(Happens(d, Snapshot(idx)), Ready(batch)); Restarted(m) == ApplyAll(map[], m.applied)
  {
    hide NoSkip, Reached, Reread, AllClean, Accepted, LastAccepted, LastAfterTruncation, Rewritten;
    SnapshotKeeps(d, idx);
    ReadyKeeps(Happens(d, Snapshot(idx)), batch);
    ReplayedWhole(Happens(Happens(d, Snapshot(idx)), Ready(batch)));
  }

  lemma ReplayedWhole(d: Durable)
    requires Replayable(d)
    ensures Restarted(d) == ApplyAll(map[], d.applied)
  {
    ReplayRecovers(d.applied, Reread(true, d.logs), d.taken);
  }

  lemma {:induction false} AcceptedWithoutFirst(last: Index, es: seq<RaftEntry>)
    requires es != [] && es[0].index <= last && last > 0
    ensures forall e :: e in Accepted(last, es) ==> e in es[1..]
  {
  }

  /** A value that the key [1] does not have. */
  function OtherValue(m: Contents): Bytes
  {
    if ValueAt(m, [1]) == Some([]) then [0] else []
  }

  /** A batch after entry `n` whose first entry alone writes: that value to that key. */
  function Telltale(n: nat, c: nat, value: Bytes): (batch: seq<RaftEntry>)
    ensures |batch| == c && forall i {:trigger batch[i]} :: 0 <= i < c ==>
              batch[i] == if i == 0 then Sample(n + 1, true).(value := value) else Sample(n + i + 1, false)
  {
    seq(c, i requires 0 <= i => if i == 0 then Sample(n + 1, true).(value := value) else Sample(n + i + 1, false))
  }

  lemma TelltalePossible(d: Durable, c: nat)
    requires |d.applied| + c < 0x1_0000_0000_0000_0000
    ensures Possible(d, Ready(Telltale(|d.applied|, c, OtherValue(ApplyAll(map[], d.applied)))))
  {
  }

  /** Where the first entry of the batch is not logged, a replay does not see its write. */
  lemma MissesWrite(before: Contents, after: Contents, n: nat, c: nat, logged: seq<RaftEntry>)
    requires c >= 1
    requires var batch := Telltale(n, c, OtherValue(before));
             after == ApplyAll(before, batch) && forall e :: e in logged ==> e in batch[1..]
    ensures ApplyAll(before, logged) != after
  {
    var key: Bytes, batch := [1], Telltale(n, c, OtherValue(before));
    SampleEffect(logged);
    SampleEffect(batch[1..]);
    ApplyEffect(before, logged, key);
    ApplyEffect(before, batch, key);
    assert batch == [batch[0]] + batch[1..];
    EffectConcat([batch[0]], batch[1..], key);
  }

  /** With a label too high the first entry after the snapshot is never logged, and a restart misses it. */
  lemma LateLabelLoses(d: Durable, idx: Index, c: nat)
    requires DurableOk(d) && c >= 1 && |d.applied| + c < 0x1_0000_0000_0000_0000 && idx > |d.applied| + 1
    ensures var before := ApplyAll(map[], d.applied);
            var batch := Telltale(|d.applied|, c, OtherValue(before));
            var m := Happens(Happens(d, Snapshot(idx)), Ready(batch));
            Possible(d, Ready(batch)) && Restarted(m) != ApplyAll(map[], m.applied)
  {
    hide Reread, Accepted, LastAccepted, Rewritten, Clean, NoSkip, Reached, LastAfterTruncation;
    var before := ApplyAll(map[], d.applied);
    var batch := Telltale(|d.applied|, c, OtherValue(before));
    var s := Happens(d, Snapshot(idx));
    TelltalePossible(d, c);
    SnapshotKeeps(d, idx);
    ReplayedWhole(s);
    var logged := Accepted(s.lastIndex, batch);
    RereadAppended(s.logs, logged);
    AcceptedWithoutFirst(s.lastIndex, batch);
    ApplyAllConcat(s.snapshot, Reread(true, s.logs), logged);
    ApplyAllConcat(map[], d.applied, batch);
    MissesWrite(before, ApplyAll(before, batch), |d.applied|, c, logged);
  }

  /**
   Where a snapshot label may lie, exactly: after any run whose labels were sound, a snapshot labelled `idx` and a next
   batch of `c` entries, a restart recovers what was applied, whatever the batch, if and only if the label is at most the
   index after the last applied entry.
   */
  lemma LabelDecides(evs: seq<Event>, idx: Index, c: nat)
    requires PossibleRun(evs) && (forall i :: 0 <= i < |evs| ==> LabelOk(After(evs[..i]), evs[i]))
    requires idx >= 1 && c >= 1 && |After(evs).applied| + c < 0x1_0000_0000_0000_0000
    ensures (forall batch: seq<RaftEntry> {:trigger GoneOn(evs, idx, batch)} :: |batch| == c && Possible(After(evs), Ready(batch)) ==>
               Restarted(GoneOn(evs, idx, batch)) == ApplyAll(map[], After(evs).applied + batch))
            <==> idx <= |After(evs).applied| + 1
  {
    hide After, Happens, Possible, Restarted, ApplyAll, DurableOk;
    var d := After(evs);
    RunKeepsDurable(evs);
    if idx <= |d.applied| + 1 {
      forall batch: seq<RaftEntry> | |batch| == c && Possible(d, Ready(batch))
        ensures Restarted(GoneOn(evs, idx, batch)) == ApplyAll(map[], d.applied + batch)
      {
        GoneOnSteps(evs, idx, batch);
        EarlyLabelRecovers(d, idx, batch);
      }
    } else {
      LateLabelLoses(d, idx, c);
      GoneOnSteps(evs, idx, Telltale(|d.applied|, c, OtherValue(ApplyAll(map[], d.applied))));
    }
  }

  // ---- The server's own methods ----

  /** `ProcessRaftEntries` as far as the store is concerned. */
  method ProcessRaftEntries(kv: KvStore, entries: seq<RaftEntry>)
    requires kv.Valid()
    modifies kv.mvcc, kv.backend
    ensures kv.Valid() && kv.backend.store == ApplyAll(old(kv.backend.store), entries)
    ensures (kv.mvcc.index, kv.mvcc.currentRev) == LiveIndex(old(kv.mvcc.index), old(kv.mvcc.currentRev), entries)
  {
    hide IndexPut, IndexDelete, Agrees;
    var i := 0;
    while i < |entries|
      invariant 0 <= i <= |entries| && kv.Valid()
      invariant kv.backend.store == ApplyAll(old(kv.backend.store), entries[..i])
      invariant (kv.mvcc.index, kv.mvcc.currentRev) == LiveIndex(old(kv.mvcc.index), old(kv.mvcc.currentRev), entries[..i])
    {
      var e := entries[i];
      assert entries[..i + 1][..i] == entries[..i];
      if e.kind == EventType.Put {
        var rev, prev, now := kv.PutWithPrev(e.key, e.value, e.leaseId);
      } else if e.kind == EventType.Delete {
        var rev := kv.Delete(e.key);
      }
      i := i + 1;
    }
    assert entries[..i] == entries;
  }

  const SNAPSHOT_THRESHOLD: nat := 10000

  class EtcdServer {
    const kv: KvStore
    const wal: WalLog
    var snapshotIndex: Index
    /** The newest snapshot's data. */
    var snapshot: Option<Bytes>
    /** The pairs in it, the number of entries applied when it was taken, and all entries applied so far. */
    ghost var saved: seq<Pair>
    ghost var taken: nat
    ghost var applied: seq<RaftEntry>

    ghost predicate Valid()
      reads this, kv, kv.mvcc, kv.backend, wal
    {
      && kv.Valid() && wal.Valid() && wal.oneRange && kv.backend.store == ApplyAll(map[], applied)
      && match snapshot
         case None => saved == []
         case Some(data) => Storable(saved) && data == SnapshotOf(saved)
    }

    ghost function State(): Durable
      reads this, wal
    {
      Durable(applied, wal.logs, wal.lastIndex, PutAll(map[], saved), taken)
    }

    /** A server whose log reader and writer agree on the checksum range. */
    constructor ()
      ensures Valid() && fresh(kv) && fresh(kv.mvcc) && fresh(kv.backend) && fresh(wal) && State() == FRESH && snapshotIndex == 0
    {
      kv := new KvStore();
      wal := new WalLog(true);
      snapshotIndex, snapshot, saved, taken, applied := 0, None, [], 0, [];
    }

    /** Applies a batch, then logs it. */
    method RaftReadyHandler(entries: seq<RaftEntry>)
      requires Valid() && AllFit(entries)
      modifies this, kv.mvcc, kv.backend, wal
      ensures Valid() && State() == Happens(old(State()), Ready(entries)) && snapshotIndex == old(snapshotIndex)
    {
      hide Fits, Accepted, LastAccepted, SnapshotOf, Storable, Agrees, HoldsRecords, WellFormed, LiveIndex;
      ProcessRaftEntries(kv, entries);
      ApplyAllConcat(map[], applied, entries);
      wal.AppendEntries(entries);
      applied := applied + entries;
    }

    /** What a store must be for its snapshot's 32-bit lengths to be right. */
    ghost predicate SizesFit()
      reads kv, kv.backend
    {
      |kv.backend.store| < 0x1_0000_0000
      && forall k :: k in kv.backend.store ==> |k| < 0x1_0000_0000 && |kv.backend.store[k]| < 0x1_0000_0000
    }

    /** One turn of the snapshot loop; `lastIndex` is the last index of the raft log at that moment. */
    method SnapshotTurn(lastIndex: Index)
      requires Valid() && SizesFit()
      modifies this, wal
      ensures Valid()
      ensures if lastIndex > old(snapshotIndex) && lastIndex - old(snapshotIndex) >= 10_000
              then State() == Happens(old(State()), Snapshot(lastIndex)) && snapshotIndex == lastIndex
              else State() == old(State()) && snapshotIndex == old(snapshotIndex)
    {
      hide Valid, SizesFit;
      if lastIndex > snapshotIndex && lastIndex - snapshotIndex >= SNAPSHOT_THRESHOLD {
        TakeSnapshot(lastIndex);
      }
    }

    method TakeSnapshot(lastIndex: Index)
      requires Valid() && SizesFit()
      modifies this, wal
      ensures Valid() && applied == old(applied) && taken == |applied| && snapshotIndex == lastIndex
      ensures PutAll(map[], saved) == ApplyAll(map[], applied)
      ensures wal.logs == Rewritten(true, old(wal.logs), lastIndex)
      ensures wal.lastIndex == LastAfterTruncation(lastIndex, From(lastIndex, Reread(true, old(wal.logs))))
    {
      hide SnapshotOf, Storable, PutAll, ApplyAll, Rewritten, LastAfterTruncation, Agrees, HoldsRecords, WellFormed, Reread, From;
      SaveSnapshot();
      wal.TruncateFrom(lastIndex);
      snapshotIndex := lastIndex;
    }

    method SaveSnapshot()
      requires kv.Valid() && SizesFit()
      modifies this`snapshot, this`saved, this`taken
      ensures snapshot == Some(SnapshotOf(saved)) && Storable(saved) && PutAll(map[], saved) == kv.backend.store && taken == |applied|
    {
      hide SnapshotOf, Storable, PutAll;
      var data := kv.Serialize();
      SnapshotRoundTrip(kv.backend.store);
      OrderedPairsStorable(kv.backend.store);
      snapshot := Some(data);
      saved := PairsInOrder(kv.backend.store);
      taken := |applied|;
    }

    /** What `Start` builds on the next run: the snapshot, then every entry of the log over it. */
    method Restart() returns (store: KvStore)
      requires Valid()
      modifies wal
      ensures store.Valid() && fresh(store) && store.backend.store == Restarted(old(State()))
    {
      hide SnapshotOf, PutAll, Storable;
      store := new KvStore();
      if snapshot.Some? {
        var r := store.Deserialize(snapshot.value, saved);
      }
      PutAllNone();
      assert map[] + PutAll(map[], saved) == PutAll(map[], saved);
      var entries := wal.ReadAllEntries();
      store.RestoreFromEntries(entries);
    }
  }

  lemma PutAllNone()
    ensures PutAll(map[], []) == map[]
  {
  }

  lemma {:induction false} ApplyAllConcat(m: Contents, a: seq<RaftEntry>, b: seq<RaftEntry>)
    ensures ApplyAll(m, a + b) == ApplyAll(ApplyAll(m, a), b)
  {
    if b == [] {
      assert a + b == a;
    } else {
      assert (a + b)[..|a + b| - 1] == a + b[..|b| - 1];
      ApplyAllConcat(m, a, b[..|b| - 1]);
    }
  }

  lemma OrderedPairsStorable(store: Contents)
    requires |store| < 0x1_0000_0000
    requires forall k :: k in store ==> |k| < 0x1_0000_0000 && |store[k]| < 0x1_0000_0000
    ensures Storable(PairsInOrder(store))
  {
    var order := KeyOrder.InOrder(store.Keys);
    OrderSize(order, store.Keys);
    var pairs := PairsOf(order, store);
    forall p | p in pairs
      ensures |p.0| < 0x1_0000_0000 && |p.1| < 0x1_0000_0000
    {
      var i :| 0 <= i < |pairs| && pairs[i] == p;
      assert order[i] in store;
    }
  }

  lemma {:induction false} OrderSize(order: seq<Bytes>, keys: set<Bytes>)
    requires KeyOrder.Orders(order, keys)
    ensures |order| == |keys|
    decreases |order|
  {
    if order == [] {
      assert keys == {};
    } else {
      var n := |order| - 1;
      assert order[n] in order;
      KeyOrder.NotBefore(order, n);
      assert order == order[..n] + [order[n]];
      OrderSize(order[..n], keys - {order[n]});
    }
  }
}
