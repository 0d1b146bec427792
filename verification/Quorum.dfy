/** Majorities, and the commit index picked by sorting (src/raft/raft.cpp, AdvanceCommitIndex). */
module Quorum {
  import opened Types

  /** `(peers + 1) / 2 + 1` with `n` the number of nodes including this one. */
  function Majority(n: nat): nat
  {
    n / 2 + 1
  }

  /** Any two majorities of the same nodes share a node. */
  lemma MajoritiesIntersect(all: set<NodeId>, a: set<NodeId>, b: set<NodeId>) returns (common: NodeId)
    requires a <= all && b <= all
    requires |a| >= Majority(|all|) && |b| >= Majority(|all|)
    ensures common in a && common in b
  {
    SubsetSize(a + b, all);
    assert |a + b| == |a| + |b| - |a * b|;
    common :| common in a * b;
  }

  /** And a vote set is a majority exactly when it is more than half of the nodes. */
  lemma MajorityIsMoreThanHalf(all: set<NodeId>, a: set<NodeId>)
    requires a <= all
    ensures |a| >= Majority(|all|) <==> 2 * |a| > |all|
  {
  }

  lemma {:induction false} SubsetSize<T>(a: set<T>, b: set<T>)
    requires a <= b
    ensures |a| <= |b|
  {
    if a != {} {
      var x :| x in a;
      SubsetSize(a - {x}, b - {x});
    }
  }

  // ---- The list the leader sorts ----

  function CountAtLeast(s: seq<Index>, k: Index): (c: nat)
    ensures c <= |s|
  {
    if s == [] then 0 else (if s[0] >= k then 1 else 0) + CountAtLeast(s[1..], k)
  }

  predicate Descending(s: seq<Index>)
  {
    forall i, j :: 0 <= i < j < |s| ==> s[i] >= s[j]
  }

  function InsertDescending(x: Index, s: seq<Index>): (r: seq<Index>)
    requires Descending(s)
    ensures |r| == |s| + 1 && Descending(r) && (r[0] == x || (s != [] && r[0] == s[0]))
  {
    if s == [] then [x]
    else if x >= s[0] then [x] + s
    else [s[0]] + InsertDescending(x, s[1..])
  }

  /** `std::sort` with `std::greater`. */
  function SortDescending(s: seq<Index>): (r: seq<Index>)
    ensures Descending(r) && |r| == |s|
  {
    if s == [] then [] else InsertDescending(s[0], SortDescending(s[1..]))
  }

  lemma {:induction false} CountConcat(a: seq<Index>, b: seq<Index>, k: Index)
    ensures CountAtLeast(a + b, k) == CountAtLeast(a, k) + CountAtLeast(b, k)
  {
    if a == [] {
      assert a + b == b;
    } else {
      assert (a + b)[1..] == a[1..] + b;
      CountConcat(a[1..], b, k);
    }
  }

  lemma {:induction false} InsertPermutes(x: Index, s: seq<Index>)
    requires Descending(s)
    ensures multiset(InsertDescending(x, s)) == multiset(s) + multiset{x}
  {
    if s != [] {
      assert s == [s[0]] + s[1..];
      if x < s[0] {
        InsertPermutes(x, s[1..]);
      }
    }
  }

  lemma {:induction false} InsertCounts(x: Index, s: seq<Index>, k: Index)
    requires Descending(s)
    ensures CountAtLeast(InsertDescending(x, s), k) == CountAtLeast(s, k) + if x >= k then 1 else 0
  {
    if s == [] {
      assert [x][1..] == [];
    } else if x < s[0] {
      InsertCounts(x, s[1..], k);
      assert ([s[0]] + InsertDescending(x, s[1..]))[1..] == InsertDescending(x, s[1..]);
    } else {
      assert ([x] + s)[1..] == s;
    }
  }

  /** Sorting keeps the elements, and so every count of them. */
  lemma {:induction false} SortPermutes(s: seq<Index>, k: Index)
    ensures multiset(SortDescending(s)) == multiset(s) && CountAtLeast(SortDescending(s), k) == CountAtLeast(s, k)
  {
    if s != [] {
      assert s == [s[0]] + s[1..];
      SortPermutes(s[1..], k);
      InsertPermutes(s[0], SortDescending(s[1..]));
      InsertCounts(s[0], SortDescending(s[1..]), k);
    }
  }

  /** In a descending list everything before position `i` reaches `s[i]`, and nothing after it exceeds `s[i]`. */
  lemma {:induction false} CountInDescending(s: seq<Index>, i: nat, k: Index)
    requires Descending(s) && i < |s|
    ensures k <= s[i] ==> CountAtLeast(s, k) >= i + 1
    ensures k > s[i] ==> CountAtLeast(s, k) <= i
  {
    if i > 0 {
      CountInDescending(s[1..], i - 1, k);
    } else if |s| > 1 {
      CountInDescending(s[1..], 0, k);
    }
  }

  /** The element at `majority - 1` of the sorted list is the largest index that at least `majority` of its members have reached. */
  lemma PickIsLargestReached(s: seq<Index>, majority: nat)
    requires 1 <= majority <= |s|
    ensures var k := SortDescending(s)[majority - 1];
            && CountAtLeast(s, k) >= majority
            && forall j :: j > k ==> CountAtLeast(s, j) < majority
  {
    var sorted := SortDescending(s);
    var k := sorted[majority - 1];
    SortPermutes(s, k);
    CountInDescending(sorted, majority - 1, k);
    forall j | j > k
      ensures CountAtLeast(s, j) < majority
    {
      SortPermutes(s, j);
      CountInDescending(sorted, majority - 1, j);
    }
  }

  // ---- The same count over nodes ----

  /** The counted nodes whose `matchIndex` has reached `k`. */
  function Reached(matchIndex: map<NodeId, Index>, counted: set<NodeId>, k: Index): set<NodeId>
  {
    set p | p in counted && p in matchIndex && matchIndex[p] >= k
  }

  /** How many of the counted nodes have reached `k`: the leader by its own log, the others by `matchIndex`. */
  function ReachCount(own: Index, matchIndex: map<NodeId, Index>, counted: set<NodeId>, k: Index): nat
  {
    (if own >= k then 1 else 0) + |Reached(matchIndex, counted, k)|
  }

  /** `k` is the largest index reached by at least `majority` of the counted nodes. */
  ghost predicate IsQuorumIndex(own: Index, matchIndex: map<NodeId, Index>, counted: set<NodeId>, majority: nat, k: Index)
  {
    && ReachCount(own, matchIndex, counted, k) >= majority
    && forall j :: j > k ==> ReachCount(own, matchIndex, counted, j) < majority
  }

  /** The nodes a pick rests on when every node is counted once. */
  function Supporters(ids: set<NodeId>, leader: NodeId, own: Index, matchIndex: map<NodeId, Index>, k: Index): set<NodeId>
  {
    (if own >= k then {leader} else {}) + Reached(matchIndex, ids - {leader}, k)
  }

  /** Two picks of the same leader, or of two, rest on node sets that share a node. */
  lemma PicksOverlap(
    ids: set<NodeId>, a: NodeId, ownA: Index, matchA: map<NodeId, Index>, j: Index,
    b: NodeId, ownB: Index, matchB: map<NodeId, Index>, k: Index) returns (common: NodeId)
    requires a in ids && b in ids
    requires IsQuorumIndex(ownA, matchA, ids - {a}, Majority(|ids|), j)
    requires IsQuorumIndex(ownB, matchB, ids - {b}, Majority(|ids|), k)
    ensures common in Supporters(ids, a, ownA, matchA, j) && common in Supporters(ids, b, ownB, matchB, k)
  {
    var left, right := Supporters(ids, a, ownA, matchA, j), Supporters(ids, b, ownB, matchB, k);
    assert |left| == ReachCount(ownA, matchA, ids - {a}, j);
    assert |right| == ReachCount(ownB, matchB, ids - {b}, k);
    common := MajoritiesIntersect(ids, left, right);
  }

  lemma QuorumIndexUnique(own: Index, m: map<NodeId, Index>, counted: set<NodeId>, majority: nat, j: Index, k: Index)
    requires IsQuorumIndex(own, m, counted, majority, j) && IsQuorumIndex(own, m, counted, majority, k)
    ensures j == k
  {
    assert j < k ==> ReachCount(own, m, counted, k) < majority;
    assert k < j ==> ReachCount(own, m, counted, j) < majority;
  }
}
