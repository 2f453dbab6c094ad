/**
 * `Array.prototype.sort` with a comparator. ECMAScript requires the sort to be
 * stable; it does not fix the algorithm. The model sorts in place by insertion
 * and `SortByIsTheStableSort` shows that any sorted, stable arrangement of
 * the input is the one the model computes, so the choice of algorithm is
 * immaterial.
 *
 * A comparator `compare` is represented by `le(a, b) == (compare(a, b) <= 0)`:
 * "`a` may stay in front of `b`".
 */
module StableSort {

  /** What a consistent comparator gives: a total preorder. */
  ghost predicate TotalPreorder<T(!new)>(le: (T, T) -> bool) {
    && (forall a, b :: le(a, b) || le(b, a))
    && (forall a, b, c :: le(a, b) && le(b, c) ==> le(a, c))
  }

  ghost predicate SortedBy<T>(s: seq<T>, le: (T, T) -> bool) {
    forall i, j :: 0 <= i < j < |s| ==> le(s[i], s[j])
  }

  /** `a` and `b` compare equal. */
  predicate Tied<T>(a: T, b: T, le: (T, T) -> bool) {
    le(a, b) && le(b, a)
  }

  /** The elements of `s` that compare equal to `c`, in their order in `s`. */
  function TiedWith<T>(s: seq<T>, c: T, le: (T, T) -> bool): seq<T>
  {
    if s == [] then []
    else TiedWith(s[..|s| - 1], c, le) + (if Tied(s[|s| - 1], c, le) then [s[|s| - 1]] else [])
  }

  /** Stability: every class of equal elements keeps its relative order. */
  ghost predicate StableArrangement<T(!new)>(r: seq<T>, s: seq<T>, le: (T, T) -> bool) {
    forall c :: TiedWith(r, c, le) == TiedWith(s, c, le)
  }

  /**
   * Inserts `x` into `t` behind every element from the right that `x` may
   * not overtake: the inner step of an insertion sort.
   */
  function Insert<T>(t: seq<T>, x: T, le: (T, T) -> bool): (r: seq<T>)
    ensures |r| == |t| + 1
    decreases |t|
  {
    if t == [] then [x]
    else if le(t[|t| - 1], x) then t + [x]
    else Insert(t[..|t| - 1], x, le) + [t[|t| - 1]]
  }

  /** The stable sort of `s`. */
  function SortBy<T>(s: seq<T>, le: (T, T) -> bool): (r: seq<T>)
    ensures |r| == |s|
  {
    if s == [] then []
    else Insert(SortBy(s[..|s| - 1], le), s[|s| - 1], le)
  }

  lemma {:induction false} TiedWithMembers<T>(s: seq<T>, c: T, le: (T, T) -> bool)
    ensures forall x :: x in TiedWith(s, c, le) ==> x in s && Tied(x, c, le)
  {
    if s != [] {
      TiedWithMembers(s[..|s| - 1], c, le);
    }
  }

  lemma {:induction false} InsertPermutes<T>(t: seq<T>, x: T, le: (T, T) -> bool)
    ensures multiset(Insert(t, x, le)) == multiset(t) + multiset{x}
    decreases |t|
  {
    if t != [] && !le(t[|t| - 1], x) {
      var u := t[..|t| - 1];
      InsertPermutes(u, x, le);
      assert t == u + [t[|t| - 1]];
    }
  }

  /** The sort rearranges its input: nothing is lost or duplicated. */
  lemma {:induction false} SortByPermutes<T>(s: seq<T>, le: (T, T) -> bool)
    ensures multiset(SortBy(s, le)) == multiset(s)
  {
    if s != [] {
      var u := s[..|s| - 1];
      SortByPermutes(u, le);
      InsertPermutes(SortBy(u, le), s[|s| - 1], le);
      assert s == u + [s[|s| - 1]];
    }
  }

  /** Where the insertion loop stops, `Insert` puts `x`. */
  lemma {:induction false} InsertAt<T>(t: seq<T>, x: T, le: (T, T) -> bool, j: nat)
    requires j <= |t|
    requires j == 0 || le(t[j - 1], x)
    requires forall k :: j <= k < |t| ==> !le(t[k], x)
    ensures Insert(t, x, le) == t[..j] + [x] + t[j..]
    decreases |t|
  {
    if j == |t| {
      assert t[..j] + [x] + t[j..] == t + [x];
    } else {
      var u, last := t[..|t| - 1], t[|t| - 1];
      assert Insert(t, x, le) == Insert(u, x, le) + [last] by {
        assert !le(last, x);
      }
      InsertAt(u, x, le, j);
      assert t[..j] + [x] + t[j..] == (u[..j] + [x] + u[j..]) + [last] by {
        assert u[..j] == t[..j];
        assert t[j..] == u[j..] + [last];
      }
    }
  }

  lemma {:induction false} InsertSorted<T(!new)>(t: seq<T>, x: T, le: (T, T) -> bool)
    requires TotalPreorder(le)
    requires SortedBy(t, le)
    ensures SortedBy(Insert(t, x, le), le)
    decreases |t|
  {
    if t == [] {
    } else if le(t[|t| - 1], x) {
      var r := t + [x];
      forall i, j | 0 <= i < j < |r| ensures le(r[i], r[j]) {
        if j == |t| && i < |t| - 1 {
          assert le(t[i], t[|t| - 1]);
        }
      }
    } else {
      var u := t[..|t| - 1];
      var last := t[|t| - 1];
      InsertSorted(u, x, le);
      var v := Insert(u, x, le);
      assert le(x, last);
      InsertPermutes(u, x, le);
      var r := v + [last];
      forall i, j | 0 <= i < j < |r| ensures le(r[i], r[j]) {
        if j == |v| {
          assert r[i] in multiset(v);
          if r[i] != x {
            assert r[i] in u;
            var k :| 0 <= k < |u| && u[k] == r[i];
            assert le(t[k], t[|t| - 1]);
          }
        }
      }
    }
  }

  lemma {:induction false} SortByIsSorted<T(!new)>(s: seq<T>, le: (T, T) -> bool)
    requires TotalPreorder(le)
    ensures SortedBy(SortBy(s, le), le)
  {
    if s != [] {
      SortByIsSorted(s[..|s| - 1], le);
      InsertSorted(SortBy(s[..|s| - 1], le), s[|s| - 1], le);
    }
  }

  lemma {:induction false} InsertKeepsTies<T(!new)>(t: seq<T>, x: T, le: (T, T) -> bool, c: T)
    requires TotalPreorder(le)
    ensures TiedWith(Insert(t, x, le), c, le) == TiedWith(t, c, le) + (if Tied(x, c, le) then [x] else [])
    decreases |t|
  {
    if t == [] {
    } else if le(t[|t| - 1], x) {
      assert (t + [x])[..|t|] == t;
    } else {
      var u := t[..|t| - 1];
      var last := t[|t| - 1];
      InsertKeepsTies(u, x, le, c);
      var r := Insert(u, x, le) + [last];
      assert r[..|r| - 1] == Insert(u, x, le);
      assert !(Tied(x, c, le) && Tied(last, c, le));
    }
  }

  lemma {:induction false} SortByIsStable<T(!new)>(s: seq<T>, le: (T, T) -> bool)
    requires TotalPreorder(le)
    ensures StableArrangement(SortBy(s, le), s, le)
  {
    if s != [] {
      var u := s[..|s| - 1];
      SortByIsStable(u, le);
      forall c ensures TiedWith(SortBy(s, le), c, le) == TiedWith(s, c, le) {
        InsertKeepsTies(SortBy(u, le), s[|s| - 1], le, c);
      }
    }
  }

  lemma TiedWithSelf<T(!new)>(s: seq<T>, le: (T, T) -> bool)
    requires TotalPreorder(le)
    requires s != []
    ensures TiedWith(s, s[|s| - 1], le) == TiedWith(s[..|s| - 1], s[|s| - 1], le) + [s[|s| - 1]]
  {
  }

  lemma {:induction false} TiedWithEmpty<T(!new)>(s: seq<T>, c: T, le: (T, T) -> bool)
    requires forall x :: x in s ==> !Tied(x, c, le)
    ensures TiedWith(s, c, le) == []
  {
    if s != [] {
      TiedWithEmpty(s[..|s| - 1], c, le);
    }
  }

  lemma AppendCancel<T>(a: seq<T>, b: seq<T>, e: seq<T>)
    requires a + e == b + e
    ensures a == b
  {
    assert |a| == |b|;
    assert a == (a + e)[..|a|] && b == (b + e)[..|b|];
  }

  /** Two sorted sequences with the same classes of equal elements, in the same orders, are equal. */
  lemma {:induction false} SortedTiesDetermine<T(!new)>(r: seq<T>, r': seq<T>, le: (T, T) -> bool)
    requires TotalPreorder(le)
    requires SortedBy(r, le) && SortedBy(r', le)
    requires forall c :: TiedWith(r, c, le) == TiedWith(r', c, le)
    ensures r == r'
    decreases |r| + |r'|
  {
    if r == [] || r' == [] {
      if r != [] {
        var c := r[|r| - 1];
        TiedWithSelf(r, le);
        TiedWithEmpty(r', c, le);
        assert false;
      }
      if r' != [] {
        var c := r'[|r'| - 1];
        TiedWithSelf(r', le);
        TiedWithEmpty(r, c, le);
        assert false;
      }
    } else {
      var x, y := r[|r| - 1], r'[|r'| - 1];
      var u, u' := r[..|r| - 1], r'[..|r'| - 1];
      TiedWithSelf(r, le);
      TiedWithSelf(r', le);
      assert le(y, x) by {
        assert TiedWith(r, y, le) == TiedWith(r', y, le);
        TiedWithMembers(r, y, le);
        var k :| 0 <= k < |r| && r[k] == y;
        if k < |r| - 1 { assert le(r[k], r[|r| - 1]); }
      }
      assert le(x, y) by {
        assert TiedWith(r, x, le) == TiedWith(r', x, le);
        TiedWithMembers(r', x, le);
        var k :| 0 <= k < |r'| && r'[k] == x;
        if k < |r'| - 1 { assert le(r'[k], r'[|r'| - 1]); }
      }
      assert x == y by {
        assert r'[..|r'| - 1] == u';
        assert Tied(y, x, le);
        var w := TiedWith(r', x, le);
        assert w == TiedWith(u', x, le) + [y];
        assert w == TiedWith(u, x, le) + [x];
        assert w[|w| - 1] == y && w[|w| - 1] == x;
      }
      forall c ensures TiedWith(u, c, le) == TiedWith(u', c, le) {
        var e := if Tied(x, c, le) then [x] else [];
        assert TiedWith(r, c, le) == TiedWith(u, c, le) + e;
        assert TiedWith(r', c, le) == TiedWith(u', c, le) + e;
        AppendCancel(TiedWith(u, c, le), TiedWith(u', c, le), e);
      }
      forall i, j | 0 <= i < j < |u| ensures le(u[i], u[j]) { assert le(r[i], r[j]); }
      forall i, j | 0 <= i < j < |u'| ensures le(u'[i], u'[j]) { assert le(r'[i], r'[j]); }
      SortedTiesDetermine(u, u', le);
      assert r == u + [x] && r' == u' + [y];
    }
  }

  /**
   * Any stable sort agrees with `SortBy`: a sorted arrangement of `s` that
   * keeps the order of every class of equal elements is `SortBy(s, le)`.
   */
  lemma SortByIsTheStableSort<T(!new)>(s: seq<T>, r: seq<T>, le: (T, T) -> bool)
    requires TotalPreorder(le)
    requires SortedBy(r, le) && StableArrangement(r, s, le)
    ensures r == SortBy(s, le)
  {
    SortByIsSorted(s, le);
    SortByIsStable(s, le);
    forall c ensures TiedWith(r, c, le) == TiedWith(SortBy(s, le), c, le) {
      assert TiedWith(r, c, le) == TiedWith(s, c, le);
    }
    SortedTiesDetermine(r, SortBy(s, le), le);
  }

  /** `a.sort(compare)`: sorts `a` in place by insertion. */
  method SortInPlace<T>(a: array<T>, le: (T, T) -> bool)
    modifies a
    ensures a[..] == SortBy(old(a[..]), le)
  {
    ghost var input := a[..];
    var i := 0;
    while i < a.Length
      invariant 0 <= i <= a.Length
      invariant a[..i] == SortBy(input[..i], le)
      invariant a[i..] == input[i..]
    {
      assert input[..i + 1] == input[..i] + [input[i]];
      InsertLast(a, i, le);
      i := i + 1;
    }
    assert input[..a.Length] == input;
  }

  /** Moves `a[i]` leftwards into the sorted prefix `a[..i]`. */
  method InsertLast<T>(a: array<T>, i: nat, le: (T, T) -> bool)
    requires i < a.Length
    modifies a
    ensures a[..i + 1] == Insert(old(a[..i]), old(a[i]), le)
    ensures a[i + 1..] == old(a[i + 1..])
  {
    var x := a[i];
    ghost var t := a[..i];
    var j := i;
    while j > 0 && !le(a[j - 1], x)
      invariant 0 <= j <= i
      invariant forall k :: 0 <= k < j ==> a[k] == t[k]
      invariant forall k :: j < k <= i ==> a[k] == t[k - 1]
      invariant a[i + 1..] == old(a[i + 1..])
      invariant forall k :: j <= k < i ==> !le(t[k], x)
    {
      a[j] := a[j - 1];
      j := j - 1;
    }
    a[j] := x;
    InsertAt(t, x, le, j);
    assert a[..i + 1] == t[..j] + [x] + t[j..];
  }
}
