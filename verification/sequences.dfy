/** Order-related notions over sequences that the pipeline's contracts use. */
module Sequences {

  function Min(a: int, b: int): int {
    if a <= b then a else b
  }

  function Max(a: int, b: int): int {
    if a >= b then a else b
  }

  /** `a` is `b` with some elements deleted, the rest in their order. */
  predicate IsSubsequence<T(==)>(a: seq<T>, b: seq<T>)
    decreases |b|
  {
    a == [] ||
    (b != [] &&
      ((a[|a| - 1] == b[|b| - 1] && IsSubsequence(a[..|a| - 1], b[..|b| - 1]))
       || IsSubsequence(a, b[..|b| - 1])))
  }

  predicate NoDuplicates<T(==)>(xs: seq<T>) {
    forall i, j :: 0 <= i < j < |xs| ==> xs[i] != xs[j]
  }

  /** The elements of `xs` at their first occurrence, in order. */
  function Distinct<T(==)>(xs: seq<T>): (r: seq<T>)
    ensures forall k :: 0 <= k < |r| ==> r[k] in xs
    ensures forall k :: 0 <= k < |xs| ==> xs[k] in r
  {
    if xs == [] then []
    else
      var init := xs[..|xs| - 1];
      var d := Distinct(init);
      if xs[|xs| - 1] in init then d else d + [xs[|xs| - 1]]
  }

  /** Each element appears in `Distinct(xs)` once. */
  lemma {:induction false} DistinctNoDuplicates<T>(xs: seq<T>)
    ensures NoDuplicates(Distinct(xs))
  {
    if xs != [] {
      var init := xs[..|xs| - 1];
      var last := xs[|xs| - 1];
      DistinctNoDuplicates(init);
      var d := Distinct(init);
      if last !in init {
        assert last !in d;
        var r := d + [last];
        forall i, j | 0 <= i < j < |r|
          ensures r[i] != r[j]
        {
          if j == |d| {
            assert r[i] == d[i];
          } else {
            assert r[i] == d[i] && r[j] == d[j];
          }
        }
      }
    }
  }

  /** Appending an element keeps the distinct elements and adds it at the
      end when it is new. */
  lemma DistinctSnoc<T>(xs: seq<T>, x: T)
    ensures Distinct(xs + [x]) == if x in Distinct(xs) then Distinct(xs) else Distinct(xs) + [x]
  {
    assert (xs + [x])[..|xs|] == xs;
    assert x in Distinct(xs) <==> x in xs;
  }

  /** A sequence without duplicates holds each of its elements once. */
  lemma {:induction false} NoDuplicatesCount<T>(xs: seq<T>, x: T)
    requires NoDuplicates(xs)
    ensures multiset(xs)[x] == if x in xs then 1 else 0
  {
    if xs != [] {
      var init := xs[..|xs| - 1];
      assert xs == init + [xs[|xs| - 1]];
      NoDuplicatesCount(init, x);
      if x == xs[|xs| - 1] {
        assert x !in init;
      }
    }
  }

  /** Deleting elements twice is deleting them once. */
  lemma {:induction false} SubsequenceTrans<T>(a: seq<T>, b: seq<T>, c: seq<T>)
    requires IsSubsequence(a, b) && IsSubsequence(b, c)
    ensures IsSubsequence(a, c)
    decreases |c|
  {
    if a != [] {
      var b', c' := b[..|b| - 1], c[..|c| - 1];
      if b[|b| - 1] == c[|c| - 1] && IsSubsequence(b', c') {
        if a[|a| - 1] == b[|b| - 1] && IsSubsequence(a[..|a| - 1], b') {
          SubsequenceTrans(a[..|a| - 1], b', c');
        } else {
          SubsequenceTrans(a, b', c');
        }
      } else {
        SubsequenceTrans(a, b, c');
      }
    }
  }

  /** Moving the head of a sequence onto the end of what precedes it. */
  lemma AppendRegroup<T>(seen: seq<T>, x: T, tail: seq<T>, t: seq<T>)
    requires t == [x] + tail
    ensures seen + t == (seen + [x]) + tail
  {
  }
}
