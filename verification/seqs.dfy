/** Generic sequence operations behind the array methods the source uses:
    `find`/`findIndex` by key, replacing the first element with a key,
    `filter`, and the insertion-ordered distinct values of `new Set(xs)`. */
module Seqs {
  import opened Wrappers

  /** `findIndex(x => key(x) === id)`, with `None` for JavaScript's -1. */
  function FindIndex<T, K(==)>(xs: seq<T>, key: T -> K, id: K): (r: Option<nat>)
    ensures r.Some? ==> r.value < |xs| && key(xs[r.value]) == id
    ensures r.Some? ==> forall j :: 0 <= j < r.value ==> key(xs[j]) != id
    ensures r.None? <==> forall j :: 0 <= j < |xs| ==> key(xs[j]) != id
  {
    if |xs| == 0 then None
    else if key(xs[0]) == id then Some(0)
    else
      match FindIndex(xs[1..], key, id)
      case None => None
      case Some(k) => Some(k + 1)
  }

  /** `find(x => key(x) === id)`: the first element with that key. */
  function Find<T, K(==)>(xs: seq<T>, key: T -> K, id: K): (r: Option<T>)
    ensures r.Some? ==> key(r.value) == id && r.value in xs
    ensures r.None? <==> forall j :: 0 <= j < |xs| ==> key(xs[j]) != id
  {
    match FindIndex(xs, key, id)
    case None => None
    case Some(k) => Some(xs[k])
  }

  /** Keys are pairwise distinct. */
  predicate DistinctKeys<T, K(==)>(xs: seq<T>, key: T -> K) {
    forall i, j :: 0 <= i < j < |xs| ==> key(xs[i]) != key(xs[j])
  }

  /** With distinct keys, the element found is the one holding that key. */
  lemma FindDistinct<T, K>(xs: seq<T>, key: T -> K, k: nat)
    requires DistinctKeys(xs, key)
    requires k < |xs|
    ensures FindIndex(xs, key, key(xs[k])) == Some(k)
    ensures Find(xs, key, key(xs[k])) == Some(xs[k])
  {
  }

  /** `xs[findIndex(...)] = x` when the index is not -1: the first element
      whose key equals `key(x)` is overwritten, everything else is kept. */
  function ReplaceFirst<T, K(==)>(xs: seq<T>, key: T -> K, x: T): (r: seq<T>)
    ensures |r| == |xs|
    ensures FindIndex(xs, key, key(x)).None? ==> r == xs
    ensures FindIndex(xs, key, key(x)).Some? ==>
      var k := FindIndex(xs, key, key(x)).value;
      r[k] == x && forall j :: 0 <= j < |xs| && j != k ==> r[j] == xs[j]
    ensures FindIndex(xs, key, key(x)).Some? ==> r == xs[FindIndex(xs, key, key(x)).value := x]
  {
    match FindIndex(xs, key, key(x))
    case None => xs
    case Some(k) => xs[k := x]
  }

  /** After a replacement the replaced key finds the new element. */
  lemma FindAfterReplace<T, K>(xs: seq<T>, key: T -> K, x: T)
    requires FindIndex(xs, key, key(x)).Some?
    ensures Find(ReplaceFirst(xs, key, x), key, key(x)) == Some(x)
  {
  }

  /** `a` is obtained from `b` by deleting elements, keeping order. */
  ghost predicate IsSubsequence<T>(a: seq<T>, b: seq<T>)
    decreases |b|
  {
    if |a| == 0 then true
    else if |b| == 0 then false
    else if a[0] == b[0] then IsSubsequence(a[1..], b[1..])
    else IsSubsequence(a, b[1..])
  }

  /** `xs.filter(p)`. */
  function Filter<T(!new)>(xs: seq<T>, p: T -> bool): (r: seq<T>)
    ensures |r| <= |xs|
    ensures forall j :: 0 <= j < |r| ==> r[j] in xs && p(r[j])
    ensures forall j :: 0 <= j < |xs| && p(xs[j]) ==> xs[j] in r
    ensures forall x :: multiset(r)[x] == if p(x) then multiset(xs)[x] else 0
    decreases |xs|
  {
    if |xs| == 0 then []
    else
      assert xs == [xs[0]] + xs[1..];
      if p(xs[0]) then [xs[0]] + Filter(xs[1..], p)
      else Filter(xs[1..], p)
  }

  /** The filtered sequence keeps the input order. */
  lemma {:induction false} FilterIsSubsequence<T(!new)>(xs: seq<T>, p: T -> bool)
    ensures IsSubsequence(Filter(xs, p), xs)
    decreases |xs|
  {
    if |xs| > 0 {
      FilterIsSubsequence(xs[1..], p);
      var r := Filter(xs, p);
      if p(xs[0]) {
        assert r[1..] == Filter(xs[1..], p);
      } else if |r| > 0 {
        assert p(r[0]);
      }
    }
  }

  /** A filter that every element passes is the identity. */
  lemma {:induction false} FilterAll<T(!new)>(xs: seq<T>, p: T -> bool)
    requires forall j :: 0 <= j < |xs| ==> p(xs[j])
    ensures Filter(xs, p) == xs
    decreases |xs|
  {
    if |xs| > 0 {
      FilterAll(xs[1..], p);
      assert [xs[0]] + xs[1..] == xs;
    }
  }

  /** No value occurs twice. */
  predicate NoDuplicates<T(==)>(xs: seq<T>) {
    forall i, j :: 0 <= i < j < |xs| ==> xs[i] != xs[j]
  }

  /** The reference meaning of `Array.from(new Set(xs))`: the elements of
      `xs` that do not occur earlier in `xs`, in order. */
  function FirstOccurrences<T(==)>(xs: seq<T>): seq<T>
  {
    if |xs| == 0 then []
    else
      var init := xs[..|xs| - 1];
      var last := xs[|xs| - 1];
      FirstOccurrences(init) + (if last in init then [] else [last])
  }

  /** The insertion-ordered set of `xs`, built the way `new Set(xs)` builds
      it: each value is added the first time it is met. */
  method Unique<T(==)>(xs: seq<T>) returns (r: seq<T>)
    ensures r == FirstOccurrences(xs)
    ensures NoDuplicates(r)
    ensures forall x :: x in r <==> x in xs
  {
    r := [];
    var i := 0;
    while i < |xs|
      invariant 0 <= i <= |xs|
      invariant r == FirstOccurrences(xs[..i])
      invariant NoDuplicates(r)
      invariant forall x :: x in r <==> x in xs[..i]
    {
      assert xs[..i + 1][..i] == xs[..i];
      if xs[i] !in r {
        r := r + [xs[i]];
      }
      i := i + 1;
    }
    assert xs[..|xs|] == xs;
  }
}
