/**
 * Grouping a list by a key the way a JavaScript `Map` fills up when each
 * element is pushed onto the array stored under its key: the keys come out
 * in the order they were first seen, and each group keeps input order.
 */
module KeyedGroups {
  import opened Seqs

  /** The keys of the `Map`, in insertion order. */
  function FirstSeenKeys<T, K(==)>(s: seq<T>, key: T -> K): (keys: seq<K>)
    ensures Distinct(keys)
  {
    if s == [] then []
    else
      var keys := FirstSeenKeys(s[..|s| - 1], key);
      var k := key(s[|s| - 1]);
      if k in keys then keys else keys + [k]
  }

  /** The array the `Map` holds under `k`. */
  function GroupOf<T, K(==)>(s: seq<T>, key: T -> K, k: K): seq<T> {
    Filter(s, x => key(x) == k)
  }

  lemma FirstSeenKeysSnoc<T, K>(s: seq<T>, key: T -> K)
    requires s != []
    ensures var keys := FirstSeenKeys(s[..|s| - 1], key);
      FirstSeenKeys(s, key) == if key(s[|s| - 1]) in keys then keys else keys + [key(s[|s| - 1])]
  {
  }

  /** Some element of `s` has key `k`. */
  ghost predicate HasKey<T, K>(s: seq<T>, key: T -> K, k: K) {
    exists i :: 0 <= i < |s| && key(s[i]) == k
  }

  /** The keys are exactly the keys of the elements. */
  lemma {:induction false} FirstSeenKeysMembers<T, K>(s: seq<T>, key: T -> K)
    ensures forall k :: k in FirstSeenKeys(s, key) <==> HasKey(s, key, k)
  {
    if s != [] {
      var p := s[..|s| - 1];
      FirstSeenKeysMembers(p, key);
      forall k ensures k in FirstSeenKeys(s, key) <==> HasKey(s, key, k) {
        if HasKey(p, key, k) {
          var i :| 0 <= i < |p| && key(p[i]) == k;
          assert s[i] == p[i];
        }
        if HasKey(s, key, k) && k != key(s[|s| - 1]) {
          var i :| 0 <= i < |s| && key(s[i]) == k;
          assert p[i] == s[i];
        }
      }
    }
  }

  /**
   * First-seen order: the keys of a prefix are a prefix of the keys, so a key
   * first seen earlier comes earlier.
   */
  lemma {:induction false} FirstSeenKeysOfPrefix<T, K>(s: seq<T>, key: T -> K, n: nat)
    requires n <= |s|
    ensures var keys := FirstSeenKeys(s, key);
      var pre := FirstSeenKeys(s[..n], key);
      |pre| <= |keys| && keys[..|pre|] == pre
    decreases |s| - n
  {
    if n < |s| {
      FirstSeenKeysOfPrefix(s, key, n + 1);
      assert s[..n + 1][..n] == s[..n];
    } else {
      assert s[..n] == s;
    }
  }

  /** Each count of keys from 0 up to all of them is reached by some prefix. */
  lemma {:induction false} PrefixWithKeys<T, K>(s: seq<T>, key: T -> K, m: nat)
    requires m <= |FirstSeenKeys(s, key)|
    ensures exists n :: 0 <= n <= |s| && |FirstSeenKeys(s[..n], key)| == m
  {
    if m == |FirstSeenKeys(s, key)| {
      assert s[..|s|] == s;
    } else {
      var p := s[..|s| - 1];
      PrefixWithKeys(p, key, m);
      var n :| 0 <= n <= |p| && |FirstSeenKeys(p[..n], key)| == m;
      assert p[..n] == s[..n];
    }
  }

  /**
   * The keys come in the order they are first seen: of two keys, the
   * earlier one has been seen after some prefix in which the later one
   * has not.
   */
  lemma FirstSeenOrder<T, K>(s: seq<T>, key: T -> K, a: int, b: int)
    requires 0 <= a < b < |FirstSeenKeys(s, key)|
    ensures var keys := FirstSeenKeys(s, key);
      exists n :: 0 <= n <= |s| && HasKey(s[..n], key, keys[a]) && !HasKey(s[..n], key, keys[b])
  {
    var keys := FirstSeenKeys(s, key);
    PrefixWithKeys(s, key, a + 1);
    var n :| 0 <= n <= |s| && |FirstSeenKeys(s[..n], key)| == a + 1;
    FirstSeenKeysOfPrefix(s, key, n);
    var pre := FirstSeenKeys(s[..n], key);
    assert pre == keys[..a + 1];
    FirstSeenKeysMembers(s[..n], key);
    assert keys[a] in pre;
    assert keys[b] !in pre;
    assert HasKey(s[..n], key, keys[a]) && !HasKey(s[..n], key, keys[b]);
  }

  lemma GroupMembers<T, K>(s: seq<T>, key: T -> K, k: K)
    ensures forall x :: x in GroupOf(s, key, k) <==> x in s && key(x) == k
  {
    FilterMembers(s, x => key(x) == k);
  }

  /** Every key stands for a non-empty group. */
  lemma GroupNonEmpty<T, K>(s: seq<T>, key: T -> K, k: K)
    requires k in FirstSeenKeys(s, key)
    ensures |GroupOf(s, key, k)| > 0
  {
    FirstSeenKeysMembers(s, key);
    var i :| 0 <= i < |s| && key(s[i]) == k;
    GroupMembers(s, key, k);
    assert s[i] in GroupOf(s, key, k);
  }

  /** Pushing one more element extends its own group and no other. */
  lemma GroupOfSnoc<T, K>(s: seq<T>, key: T -> K)
    requires s != []
    ensures forall k :: GroupOf(s, key, k) ==
              GroupOf(s[..|s| - 1], key, k) + (if key(s[|s| - 1]) == k then [s[|s| - 1]] else [])
  {
  }

  /** A key not seen yet has an empty group. */
  lemma GroupOfUnseen<T, K>(s: seq<T>, key: T -> K, k: K)
    requires k !in FirstSeenKeys(s, key)
    ensures GroupOf(s, key, k) == []
  {
    FirstSeenKeysMembers(s, key);
    GroupMembers(s, key, k);
    if GroupOf(s, key, k) != [] {
      assert false;
    }
  }

  /** The sizes of the groups of `keys`, added up. */
  function GroupSizes<T, K(==)>(s: seq<T>, key: T -> K, keys: seq<K>): nat {
    if keys == [] then 0
    else GroupSizes(s, key, keys[..|keys| - 1]) + |GroupOf(s, key, keys[|keys| - 1])|
  }

  lemma {:induction false} GroupSizesSnoc<T, K>(s: seq<T>, key: T -> K, keys: seq<K>)
    requires s != [] && Distinct(keys)
    ensures GroupSizes(s, key, keys) ==
              GroupSizes(s[..|s| - 1], key, keys) + (if key(s[|s| - 1]) in keys then 1 else 0)
  {
    if keys != [] {
      var ks := keys[..|keys| - 1];
      assert Distinct(ks);
      GroupSizesSnoc(s, key, ks);
      GroupOfSnoc(s, key);
      assert key(s[|s| - 1]) in keys <==> key(s[|s| - 1]) in ks || key(s[|s| - 1]) == keys[|keys| - 1];
    }
  }

  /** The groups partition the input: their sizes add up to its length. */
  lemma {:induction false} GroupsPartition<T, K>(s: seq<T>, key: T -> K)
    ensures GroupSizes(s, key, FirstSeenKeys(s, key)) == |s|
  {
    if s != [] {
      var p := s[..|s| - 1];
      var k := key(s[|s| - 1]);
      var keys := FirstSeenKeys(p, key);
      GroupsPartition(p, key);
      GroupSizesSnoc(s, key, keys);
      if k !in keys {
        GroupOfSnoc(s, key);
        GroupOfUnseen(p, key, k);
        assert (keys + [k])[..|keys|] == keys;
      }
    }
  }

  /**
   * The `forEach` that fills the `Map`: creates an empty array under a key
   * not seen yet, then pushes the element onto the array under its key.
   */
  method GroupByKey<T, K(==)>(s: seq<T>, key: T -> K) returns (keys: seq<K>, groups: map<K, seq<T>>)
    ensures keys == FirstSeenKeys(s, key)
    ensures forall k :: k in groups <==> k in keys
    ensures forall k :: k in groups ==> groups[k] == GroupOf(s, key, k)
  {
    keys := [];
    groups := map[];
    for i := 0 to |s|
      invariant keys == FirstSeenKeys(s[..i], key)
      invariant forall k :: k in groups <==> k in keys
      invariant forall k :: k in groups ==> groups[k] == GroupOf(s[..i], key, k)
    {
      var k := key(s[i]);
      assert s[..i + 1][..i] == s[..i];
      FirstSeenKeysSnoc(s[..i + 1], key);
      GroupOfSnoc(s[..i + 1], key);
      if k !in groups {
        GroupOfUnseen(s[..i], key, k);
        keys := keys + [k];
        groups := groups[k := []];
      }
      groups := groups[k := groups[k] + [s[i]]];
    }
    assert s[..|s|] == s;
  }

  /** The `forEach` that adds each key to a `Set`; the `Set` in insertion order. */
  method DistinctKeys<T, K(==)>(s: seq<T>, key: T -> K) returns (keys: seq<K>)
    ensures keys == FirstSeenKeys(s, key)
  {
    keys := [];
    for i := 0 to |s|
      invariant keys == FirstSeenKeys(s[..i], key)
    {
      var k := key(s[i]);
      assert s[..i + 1][..i] == s[..i];
      FirstSeenKeysSnoc(s[..i + 1], key);
      if k !in keys {
        keys := keys + [k];
      }
    }
    assert s[..|s|] == s;
  }
}
