/** The order of keys in a `std::map<std::string, …>`: lexicographic on unsigned bytes. */
module KeyOrder {
  import opened Types

  predicate Less(a: Bytes, b: Bytes)
  {
    b != [] && (a == [] || a[0] < b[0] || (a[0] == b[0] && Less(a[1..], b[1..])))
  }

  /** The first byte in which two keys differ decides, as a number from 0 to 255; a key is below its extensions. */
  lemma {:induction false} FirstDifferenceDecides(common: Bytes, x: byte, y: byte, a: Bytes, b: Bytes)
    requires x != y
    ensures Less(common + ([x] + a), common + ([y] + b)) <==> x < y
    ensures Less(common, common + ([x] + a)) && !Less(common + ([x] + a), common)
    decreases |common|
  {
    var left, right := common + ([x] + a), common + ([y] + b);
    if common == [] {
      assert left == [x] + a && right == [y] + b;
    } else {
      assert left[1..] == common[1..] + ([x] + a) && right[1..] == common[1..] + ([y] + b);
      FirstDifferenceDecides(common[1..], x, y, a, b);
    }
  }

  lemma {:induction false} LessTransitive(a: Bytes, b: Bytes, c: Bytes)
    requires Less(a, b) && Less(b, c)
    ensures Less(a, c)
  {
    if a != [] && a[0] == b[0] == c[0] {
      LessTransitive(a[1..], b[1..], c[1..]);
    }
  }

  lemma {:induction false} LessIrreflexive(a: Bytes)
    ensures !Less(a, a)
  {
    if a != [] {
      LessIrreflexive(a[1..]);
    }
  }

  lemma {:induction false} LessTotal(a: Bytes, b: Bytes)
    ensures Less(a, b) || a == b || Less(b, a)
  {
    if a != [] && b != [] {
      LessTotal(a[1..], b[1..]);
      assert a == [a[0]] + a[1..] && b == [b[0]] + b[1..];
    }
  }

  /** `compare(0, prefix.size(), prefix) == 0`. */
  predicate HasPrefix(key: Bytes, prefix: Bytes)
  {
    prefix <= key
  }

  lemma {:induction false} PrefixNotBelow(key: Bytes, prefix: Bytes)
    requires HasPrefix(key, prefix)
    ensures !Less(key, prefix)
  {
    if prefix != [] {
      assert key[0] == prefix[0] && prefix[1..] <= key[1..];
      PrefixNotBelow(key[1..], prefix[1..]);
    }
  }

  /**
   The keys with a given prefix form one block that starts at the first key not below the prefix: past that point, a key
   without the prefix is followed by no key with it.
   */
  lemma {:induction false} PrefixBlock(prefix: Bytes, a: Bytes, b: Bytes)
    requires !Less(a, prefix) && Less(a, b) && !HasPrefix(a, prefix)
    ensures !HasPrefix(b, prefix)
  {
    if HasPrefix(b, prefix) && prefix != [] && a != [] && a[0] == prefix[0] {
      PrefixTail(a, prefix);
      PrefixTail(b, prefix);
      PrefixBlock(prefix[1..], a[1..], b[1..]);
    }
  }

  lemma PrefixTail(key: Bytes, prefix: Bytes)
    requires key != [] && prefix != [] && key[0] == prefix[0]
    ensures HasPrefix(key, prefix) <==> HasPrefix(key[1..], prefix[1..])
  {
    assert key == [key[0]] + key[1..] && prefix == [prefix[0]] + prefix[1..];
  }

  // ---- Keys in order ----

  predicate Ascending(keys: seq<Bytes>)
  {
    forall i, j :: 0 <= i < j < |keys| ==> Less(keys[i], keys[j])
  }

  /** `keys` in ascending order: how an ordered map iterates. */
  ghost predicate Orders(s: seq<Bytes>, keys: set<Bytes>)
  {
    Ascending(s) && (forall k :: k in s <==> k in keys)
  }

  /** There is only one order. */
  lemma {:induction false} OrderUnique(s: seq<Bytes>, t: seq<Bytes>)
    requires Ascending(s) && Ascending(t) && forall k :: k in s <==> k in t
    ensures s == t
  {
    if s == [] {
      if t != [] {
        SomeMember(t);
      }
    } else {
      assert s[0] in t && t != [];
      FirstSame(s, t);
      TailMembers(s, t);
      OrderUnique(s[1..], t[1..]);
      assert s == [s[0]] + s[1..] && t == [t[0]] + t[1..];
    }
  }

  lemma SomeMember(s: seq<Bytes>)
    requires s != []
    ensures exists k :: k in s
  {
    assert s[0] in s;
  }

  lemma FirstSame(s: seq<Bytes>, t: seq<Bytes>)
    requires Ascending(s) && Ascending(t) && s != [] && t != [] && forall k :: k in s <==> k in t
    ensures s[0] == t[0]
  {
    assert s[0] in t && t[0] in s;
    var i :| 0 <= i < |t| && t[i] == s[0];
    var j :| 0 <= j < |s| && s[j] == t[0];
    if i > 0 && j > 0 {
      LessTransitive(s[0], s[j], s[0]);
      LessIrreflexive(s[0]);
    }
  }

  lemma TailMembers(s: seq<Bytes>, t: seq<Bytes>)
    requires Ascending(s) && Ascending(t) && s != [] && t != [] && s[0] == t[0] && forall k :: k in s <==> k in t
    ensures forall k :: k in s[1..] <==> k in t[1..]
  {
    TailWithoutFirst(s);
    TailWithoutFirst(t);
  }

  lemma TailWithoutFirst(s: seq<Bytes>)
    requires Ascending(s) && s != []
    ensures forall k :: k in s[1..] <==> k in s && k != s[0]
  {
    LessIrreflexive(s[0]);
    assert s == [s[0]] + s[1..];
  }

  lemma NotBefore(keys: seq<Bytes>, i: nat)
    requires Ascending(keys) && i < |keys|
    ensures keys[i] !in keys[..i]
  {
    LessIrreflexive(keys[i]);
  }

  /** One more key where it belongs. */
  function Inserted(s: seq<Bytes>, key: Bytes): (r: seq<Bytes>)
    requires Ascending(s) && key !in s
    ensures Ascending(r) && forall k :: k in r <==> k in s || k == key
  {
    if s == [] then [key]
    else if Less(key, s[0]) then FirstInserted(s, key); [key] + s
    else
      assert s == [s[0]] + s[1..];
      LessTotal(s[0], key);
      var rest := Inserted(s[1..], key);
      FirstKept(s, key, rest);
      [s[0]] + rest
  }

  lemma FirstInserted(s: seq<Bytes>, key: Bytes)
    requires Ascending(s) && s != [] && Less(key, s[0])
    ensures Ascending([key] + s)
  {
    forall j | 0 < j < |s|
      ensures Less(key, s[j])
    {
      LessTransitive(key, s[0], s[j]);
    }
  }

  lemma FirstKept(s: seq<Bytes>, key: Bytes, rest: seq<Bytes>)
    requires Ascending(s) && s != [] && Less(s[0], key) && Ascending(rest) && forall k :: k in rest ==> k in s[1..] || k == key
    ensures Ascending([s[0]] + rest)
  {
    forall j | 0 <= j < |rest|
      ensures Less(s[0], rest[j])
    {
      assert rest[j] in rest;
    }
  }

  /** The keys of a map in iteration order. */
  ghost function InOrder(keys: set<Bytes>): (s: seq<Bytes>)
    ensures Orders(s, keys)
  {
    if keys == {} then []
    else
      var key :| key in keys;
      Inserted(InOrder(keys - {key}), key)
  }

  method KeysInOrder(keys: set<Bytes>) returns (s: seq<Bytes>)
    ensures Orders(s, keys)
  {
    s := [];
    var rest := keys;
    while rest != {}
      invariant rest <= keys && Ascending(s) && forall k :: k in s <==> k in keys - rest
    {
      var key :| key in rest;
      s := Inserted(s, key);
      rest := rest - {key};
    }
  }

  /** The position of the first key that is not below `key`. */
  method LowerBound(s: seq<Bytes>, key: Bytes) returns (i: nat)
    requires Ascending(s)
    ensures i <= |s| && (forall j :: 0 <= j < i ==> Less(s[j], key)) && forall j :: i <= j < |s| ==> !Less(s[j], key)
  {
    i := 0;
    while i < |s| && Less(s[i], key)
      invariant 0 <= i <= |s| && forall j :: 0 <= j < i ==> Less(s[j], key)
    {
      i := i + 1;
    }
    forall j | i <= j < |s|
      ensures !Less(s[j], key)
    {
      if i < j && Less(s[j], key) {
        LessTransitive(s[i], s[j], key);
      }
    }
  }
}
