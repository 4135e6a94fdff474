/**
 * Python's `list.sort(key=..., reverse=True)`: descending by key, and stable, so
 * records with equal keys keep their relative order.  `SortDesc` is the
 * specification (insertion of each element, left to right, after every element
 * whose key is at least its own); `SortInPlace` is the in-place sort of a list.
 */
module StableSort {

  predicate SortedDesc<T>(s: seq<T>, key: T -> real) {
    forall i, j :: 0 <= i < j < |s| ==> key(s[i]) >= key(s[j])
  }

  /** The elements of `s` whose key is `v`, in order. */
  function WithKey<T>(s: seq<T>, key: T -> real, v: real): seq<T> {
    if s == [] then [] else (if key(s[0]) == v then [s[0]] else []) + WithKey(s[1..], key, v)
  }

  /** `x` placed after the leading elements whose key is at least `key(x)`. */
  function Insert<T>(x: T, s: seq<T>, key: T -> real): (r: seq<T>)
    ensures |r| == |s| + 1
  {
    if s == [] || key(s[0]) < key(x) then [x] + s
    else [s[0]] + Insert(x, s[1..], key)
  }

  lemma {:induction false} InsertElements<T>(x: T, s: seq<T>, key: T -> real)
    ensures multiset(Insert(x, s, key)) == multiset(s) + multiset{x}
    decreases |s|
  {
    if s != [] && key(s[0]) >= key(x) {
      InsertElements(x, s[1..], key);
      assert s == [s[0]] + s[1..];
    }
  }

  lemma {:induction false} InsertSorted<T>(x: T, s: seq<T>, key: T -> real)
    requires SortedDesc(s, key)
    ensures SortedDesc(Insert(x, s, key), key)
    decreases |s|
  {
    if s != [] && key(s[0]) >= key(x) {
      InsertSorted(x, s[1..], key);
      InsertElements(x, s[1..], key);
      var r := Insert(x, s, key);
      var t := Insert(x, s[1..], key);
      assert r == [s[0]] + t;
      forall k | 0 <= k < |t| ensures key(s[0]) >= key(t[k]) {
        assert t[k] in multiset(t);
        assert t[k] in multiset(s[1..]) + multiset{x};
        if t[k] != x {
          assert t[k] in multiset(s[1..]);
          var m :| 0 <= m < |s[1..]| && s[1..][m] == t[k];
          assert s[m + 1] == t[k];
        }
      }
    }
  }

  /** The stable descending sort of `s` by `key`. */
  function SortDesc<T>(s: seq<T>, key: T -> real): (r: seq<T>)
    ensures |r| == |s|
  {
    if s == [] then [] else Insert(s[|s| - 1], SortDesc(s[..|s| - 1], key), key)
  }

  /** The sort is ordered by key, descending, and holds exactly the input's elements. */
  lemma {:induction false} SortDescSortedPermutation<T>(s: seq<T>, key: T -> real)
    ensures SortedDesc(SortDesc(s, key), key)
    ensures multiset(SortDesc(s, key)) == multiset(s)
    decreases |s|
  {
    if s != [] {
      var init, last := s[..|s| - 1], s[|s| - 1];
      SortDescSortedPermutation(init, key);
      InsertSorted(last, SortDesc(init, key), key);
      InsertElements(last, SortDesc(init, key), key);
      assert s == init + [last];
    }
  }

  lemma {:induction false} WithKeyAppend<T>(a: seq<T>, b: seq<T>, key: T -> real, v: real)
    ensures WithKey(a + b, key, v) == WithKey(a, key, v) + WithKey(b, key, v)
    decreases |a|
  {
    if a == [] {
      assert a + b == b;
    } else {
      var ab := a + b;
      var h := if key(a[0]) == v then [a[0]] else [];
      assert ab[0] == a[0] && ab[1..] == a[1..] + b;
      WithKeyAppend(a[1..], b, key, v);
      var wa, wb := WithKey(a[1..], key, v), WithKey(b, key, v);
      assert WithKey(ab, key, v) == h + (wa + wb);
      assert WithKey(a, key, v) == h + wa;
      assert h + (wa + wb) == (h + wa) + wb;
    }
  }

  lemma SortedTail<T>(s: seq<T>, key: T -> real)
    requires SortedDesc(s, key) && s != []
    ensures SortedDesc(s[1..], key)
    ensures forall i :: 0 <= i < |s| ==> key(s[i]) <= key(s[0])
  {
    forall i, j | 0 <= i < j < |s[1..]| ensures key(s[1..][i]) >= key(s[1..][j]) {
      assert s[1..][i] == s[i + 1] && s[1..][j] == s[j + 1];
    }
  }

  lemma {:induction false} WithKeyNone<T>(s: seq<T>, key: T -> real, v: real)
    requires forall i :: 0 <= i < |s| ==> key(s[i]) != v
    ensures WithKey(s, key, v) == []
    decreases |s|
  {
    if s != [] {
      WithKeyNone(s[1..], key, v);
    }
  }

  /** Inserting into a sorted list puts `x` after every element with the same key. */
  lemma {:induction false} InsertWithKey<T>(x: T, s: seq<T>, key: T -> real, v: real)
    requires SortedDesc(s, key)
    ensures WithKey(Insert(x, s, key), key, v) == WithKey(s, key, v) + (if key(x) == v then [x] else [])
    decreases |s|
  {
    if s == [] {
      assert Insert(x, s, key) == [x];
    } else {
      SortedTail(s, key);
      if key(s[0]) < key(x) {
        var r := [x] + s;
        assert Insert(x, s, key) == r;
        assert r[1..] == s;
        assert WithKey(r, key, v) == (if key(x) == v then [x] else []) + WithKey(s, key, v);
        if key(x) == v {
          WithKeyNone(s, key, v);
        }
      } else {
        var t := Insert(x, s[1..], key);
        var r := [s[0]] + t;
        assert Insert(x, s, key) == r;
        assert r[1..] == t;
        InsertWithKey(x, s[1..], key, v);
        assert WithKey(r, key, v) == (if key(s[0]) == v then [s[0]] else []) + WithKey(t, key, v);
        assert WithKey(s, key, v) == (if key(s[0]) == v then [s[0]] else []) + WithKey(s[1..], key, v);
      }
    }
  }

  /** Stability: for every key value, the sort keeps the records with that key in their original order. */
  lemma {:induction false} SortDescStable<T>(s: seq<T>, key: T -> real, v: real)
    ensures WithKey(SortDesc(s, key), key, v) == WithKey(s, key, v)
    decreases |s|
  {
    if s != [] {
      var init, last := s[..|s| - 1], s[|s| - 1];
      var sorted := SortDesc(init, key);
      assert SortDesc(s, key) == Insert(last, sorted, key);
      SortDescStable(init, key, v);
      SortDescSortedPermutation(init, key);
      InsertWithKey(last, sorted, key, v);
      assert s == init + [last];
      WithKeyAppend(init, [last], key, v);
      assert [last][1..] == [];
      assert WithKey([last], key, v) == (if key(last) == v then [last] else []) + WithKey([], key, v);
    }
  }

  /** Where `Insert` puts `x` in a sorted list: at the first position whose key is below `key(x)`. */
  lemma {:induction false} InsertAt<T>(x: T, s: seq<T>, key: T -> real, j: nat)
    requires SortedDesc(s, key) && j <= |s|
    requires j > 0 ==> key(s[j - 1]) >= key(x)
    requires forall k :: j <= k < |s| ==> key(s[k]) < key(x)
    ensures Insert(x, s, key) == s[..j] + [x] + s[j..]
    decreases j
  {
    if j == 0 {
      assert s[..0] == [] && s[0..] == s;
    } else {
      assert key(s[0]) >= key(x);
      InsertAt(x, s[1..], key, j - 1);
      assert s[1..][..j - 1] == s[1..j] && s[1..][j - 1..] == s[j..];
      assert s[..j] == [s[0]] + s[1..j];
    }
  }

  lemma SortStep<T>(s: seq<T>, i: nat, key: T -> real)
    requires i < |s|
    ensures SortDesc(s[..i + 1], key) == Insert(s[i], SortDesc(s[..i], key), key)
  {
    assert s[..i + 1][..i] == s[..i];
  }

  /** Moves `a[i]` left past the elements of the sorted prefix `a[..i]` whose key is below its own. */
  method InsertInPlace<T>(a: array<T>, i: nat, key: T -> real)
    requires i < a.Length && SortedDesc(a[..i], key)
    modifies a
    ensures a[..i + 1] == Insert(old(a[i]), old(a[..i]), key)
    ensures a[i + 1..] == old(a[i + 1..])
  {
    var x := a[i];
    ghost var sorted := a[..i];
    ghost var rest := a[i + 1..];
    var j := i;
    while j > 0 && key(a[j - 1]) < key(x)
      invariant 0 <= j <= i
      invariant a[..j] == sorted[..j]
      invariant a[j + 1..i + 1] == sorted[j..i]
      invariant forall k :: j <= k < i ==> key(sorted[k]) < key(x)
      invariant a[i + 1..] == rest
    {
      ghost var before := a[..];
      a[j] := a[j - 1];
      assert a[..] == before[j := before[j - 1]];
      ShiftedRight(before, a[..], sorted, j, i);
      j := j - 1;
    }
    a[j] := x;
    InsertAt(x, sorted, key, j);
    Assembled(a[..], sorted, x, j, i);
  }

  /** Copying `b[j - 1]` into the hole at `j` moves the hole one place left. */
  lemma ShiftedRight<T>(b: seq<T>, c: seq<T>, sorted: seq<T>, j: nat, i: nat)
    requires 0 < j <= i < |b| && |sorted| == i && c == b[j := b[j - 1]]
    requires b[..j] == sorted[..j] && b[j + 1..i + 1] == sorted[j..i]
    ensures c[..j - 1] == sorted[..j - 1] && c[j..i + 1] == sorted[j - 1..i]
    ensures c[i + 1..] == b[i + 1..]
  {
    assert c[..j - 1] == b[..j - 1];
    assert c[j..i + 1] == [b[j - 1]] + b[j + 1..i + 1];
    assert sorted[j - 1..i] == [sorted[j - 1]] + sorted[j..i];
  }

  /** The prefix, the inserted element and the shifted block together make up the first `i + 1` slots. */
  lemma Assembled<T>(b: seq<T>, sorted: seq<T>, x: T, j: nat, i: nat)
    requires j <= i < |b| && |sorted| == i
    requires b[..j] == sorted[..j] && b[j] == x && b[j + 1..i + 1] == sorted[j..i]
    ensures b[..i + 1] == sorted[..j] + [x] + sorted[j..]
  {
    assert b[..i + 1] == b[..j] + [b[j]] + b[j + 1..i + 1];
  }

  /** `list.sort(key=key, reverse=True)` on the list held in `a`. */
  method SortInPlace<T>(a: array<T>, key: T -> real)
    modifies a
    ensures a[..] == SortDesc(old(a[..]), key)
  {
    ghost var orig := a[..];
    var i := 0;
    while i < a.Length
      invariant 0 <= i <= a.Length
      invariant a[..i] == SortDesc(orig[..i], key)
      invariant a[i..] == orig[i..]
    {
      SortDescSortedPermutation(orig[..i], key);
      assert a[i] == orig[i];
      InsertInPlace(a, i, key);
      SortStep(orig, i, key);
      assert a[i + 1..] == orig[i + 1..];
      i := i + 1;
    }
    assert orig[..a.Length] == orig;
  }
}
