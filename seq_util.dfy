/** Sequence helpers shared by the crawlers and the report scripts. */
module SeqUtil {
  import opened Wrappers

  /** The elements of `s`, as Python's `set(s)` gives them. */
  function ElemSet<T>(s: seq<T>): set<T> {
    set x | x in s
  }

  predicate NoDups<T(==)>(s: seq<T>) {
    forall i, j :: 0 <= i < j < |s| ==> s[i] != s[j]
  }

  /**
   * `list(set(s))`: every element once. Python leaves the order unspecified;
   * this model keeps first occurrences in order, and the contracts that use it
   * promise only the set and the absence of duplicates.
   */
  function Dedup<T(==)>(s: seq<T>): (r: seq<T>)
    ensures NoDups(r)
    ensures ElemSet(r) == ElemSet(s)
    ensures |r| <= |s|
  {
    if s == [] then []
    else
      var d := Dedup(s[..|s| - 1]);
      var x := s[|s| - 1];
      assert s == s[..|s| - 1] + [x];
      assert ElemSet(s) == ElemSet(s[..|s| - 1]) + {x};
      assert ElemSet(d + [x]) == ElemSet(d) + {x};
      if x in d then d else d + [x]
  }

  /** `s[:n]` for a non-negative `n`: the first `min(n, |s|)` elements. */
  function Take<T>(s: seq<T>, n: nat): (r: seq<T>)
    ensures |r| == if n < |s| then n else |s|
    ensures forall i :: 0 <= i < |r| ==> r[i] == s[i]
  {
    if n < |s| then s[..n] else s
  }

  lemma ElemSetAppend<T>(a: seq<T>, b: seq<T>)
    ensures ElemSet(a + b) == ElemSet(a) + ElemSet(b)
  {
    assert forall x :: x in a + b <==> x in a || x in b;
  }

  /** The values `f` gives for the elements of `s` that it maps to something, in order. */
  function FilterMap<A, B>(f: A -> Option<B>, s: seq<A>): (r: seq<B>)
    ensures |r| <= |s|
  {
    if s == [] then []
    else (match f(s[0]) case Some(b) => [b] case None => []) + FilterMap(f, s[1..])
  }

  /** A value is in the result exactly when `f` gives it for some element. */
  lemma {:induction false} FilterMapSpec<A, B>(f: A -> Option<B>, s: seq<A>, b: B)
    ensures b in FilterMap(f, s) <==> exists k :: 0 <= k < |s| && f(s[k]) == Some(b)
    decreases |s|
  {
    if s != [] {
      FilterMapSpec(f, s[1..], b);
      if exists k :: 1 <= k < |s| && f(s[k]) == Some(b) {
        var k :| 1 <= k < |s| && f(s[k]) == Some(b);
        assert s[1..][k - 1] == s[k];
      }
      if exists k :: 0 <= k < |s[1..]| && f(s[1..][k]) == Some(b) {
        var k :| 0 <= k < |s[1..]| && f(s[1..][k]) == Some(b);
        assert s[k + 1] == s[1..][k];
      }
    }
  }

  lemma FilterMapSnoc<A, B>(f: A -> Option<B>, s: seq<A>, i: nat)
    requires i < |s|
    ensures FilterMap(f, s[..i + 1]) == FilterMap(f, s[..i]) + (match f(s[i]) case Some(b) => [b] case None => [])
  {
    FilterMapAppend(f, s[..i], [s[i]]);
    assert s[..i + 1] == s[..i] + [s[i]];
    assert [s[i]][1..] == [];
  }

  lemma {:induction false} FilterMapAppend<A, B>(f: A -> Option<B>, a: seq<A>, b: seq<A>)
    ensures FilterMap(f, a + b) == FilterMap(f, a) + FilterMap(f, b)
    decreases |a|
  {
    if a == [] {
      assert a + b == b;
    } else {
      assert (a + b)[0] == a[0] && (a + b)[1..] == a[1..] + b;
      FilterMapAppend(f, a[1..], b);
      var h := match f(a[0]) case Some(x) => [x] case None => [];
      assert h + (FilterMap(f, a[1..]) + FilterMap(f, b)) == (h + FilterMap(f, a[1..])) + FilterMap(f, b);
    }
  }

  /** `[f(x) for x in s]` */
  function Map<A, B>(f: A -> B, s: seq<A>): (r: seq<B>)
    ensures |r| == |s|
    ensures forall i :: 0 <= i < |s| ==> r[i] == f(s[i])
  {
    seq(|s|, i requires 0 <= i < |s| => f(s[i]))
  }

  /** Updating element `i` of a list whose first `i` elements are mapped extends the mapped prefix by one. */
  lemma MapStep<A>(f: A -> A, orig: seq<A>, cur: seq<A>, i: nat)
    requires i < |orig| && cur == Map(f, orig[..i]) + orig[i..]
    ensures cur[i := f(cur[i])] == Map(f, orig[..i + 1]) + orig[i + 1..]
  {
    assert cur[i] == orig[i];
  }

  /** Mapping one more element through `f`, then `g`, appends its image. */
  lemma MapMapSnoc<A, B, C>(g: B -> C, f: A -> B, s: seq<A>, i: nat)
    requires i < |s|
    ensures Map(g, Map(f, s[..i + 1])) == Map(g, Map(f, s[..i])) + [g(f(s[i]))]
  {
  }

  /** Mapping one more element appends its image. */
  lemma MapSnoc<A, B>(f: A -> B, s: seq<A>, i: nat)
    requires i < |s|
    ensures Map(f, s[..i + 1]) == Map(f, s[..i]) + [f(s[i])]
  {
  }
}
