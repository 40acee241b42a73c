/** Sequence notions shared by the derived views: order-preserving subsequences and
    the distinct values of a list in first-occurrence order (`Array.from(new Set(xs))`). */
module Sequences {

  predicate NoDuplicates<T(==)>(s: seq<T>)
  {
    forall i, j :: 0 <= i < j < |s| ==> s[i] != s[j]
  }

  /** `a` is obtained from `b` by deleting elements, keeping the order of the rest. */
  predicate IsSubsequence<T(==)>(a: seq<T>, b: seq<T>)
    decreases |b|
  {
    if a == [] then true
    else if b == [] then false
    else if a[|a| - 1] == b[|b| - 1] then IsSubsequence(a[..|a| - 1], b[..|b| - 1])
    else IsSubsequence(a, b[..|b| - 1])
  }

  lemma {:induction false} SubsequenceExtend<T>(a: seq<T>, b: seq<T>, x: T)
    requires IsSubsequence(a, b)
    ensures IsSubsequence(a, b + [x])
    ensures IsSubsequence(a + [x], b + [x])
    decreases |b|, 1
  {
    assert (b + [x])[..|b|] == b;
    assert (a + [x])[..|a|] == a;
    if a != [] && a[|a| - 1] == x {
      SubsequenceDropLast(a, b);
    }
  }

  lemma {:induction false} SubsequenceDropLast<T>(a: seq<T>, b: seq<T>)
    requires IsSubsequence(a, b) && a != []
    ensures IsSubsequence(a[..|a| - 1], b)
    decreases |b|, 0
  {
    var b' := b[..|b| - 1];
    assert b == b' + [b[|b| - 1]];
    if a[|a| - 1] == b[|b| - 1] {
      SubsequenceExtend(a[..|a| - 1], b', b[|b| - 1]);
    } else {
      SubsequenceDropLast(a, b');
      SubsequenceExtend(a[..|a| - 1], b', b[|b| - 1]);
    }
  }

  lemma {:induction false} SubsequenceElements<T>(a: seq<T>, b: seq<T>)
    requires IsSubsequence(a, b)
    ensures forall x :: x in a ==> x in b
    decreases |b|
  {
    if a != [] && b != [] {
      if a[|a| - 1] == b[|b| - 1] {
        SubsequenceElements(a[..|a| - 1], b[..|b| - 1]);
        assert a == a[..|a| - 1] + [a[|a| - 1]];
        assert b == b[..|b| - 1] + [b[|b| - 1]];
      } else {
        SubsequenceElements(a, b[..|b| - 1]);
        assert b == b[..|b| - 1] + [b[|b| - 1]];
      }
    }
  }

  /** `Array.prototype.filter`: the elements of `s` that satisfy `keep`, in order,
      every copy of such an element kept and nothing else. */
  function Keep<T(==,!new)>(s: seq<T>, keep: T -> bool): (r: seq<T>)
    ensures |r| <= |s|
    ensures forall x :: x in r <==> x in s && keep(x)
    ensures forall x :: multiset(r)[x] == if keep(x) then multiset(s)[x] else 0
    ensures IsSubsequence(r, s)
  {
    if s == [] then []
    else
      var init, last := s[..|s| - 1], s[|s| - 1];
      var r := Keep(init, keep);
      assert s == init + [last];
      SubsequenceExtend(r, init, last);
      if keep(last) then r + [last] else r
  }

  /** Index of the first occurrence of `x` in `xs`. */
  function FirstIndex<T(==)>(xs: seq<T>, x: T): (k: nat)
    requires x in xs
    ensures k < |xs| && xs[k] == x
    ensures forall j :: 0 <= j < k ==> xs[j] != x
  {
    if xs[0] == x then 0 else 1 + FirstIndex(xs[1..], x)
  }

  lemma FirstIndexOfPrefix<T>(xs: seq<T>, n: nat, x: T)
    requires n <= |xs| && x in xs[..n]
    ensures x in xs && FirstIndex(xs[..n], x) == FirstIndex(xs, x)
  {
    var k := FirstIndex(xs[..n], x);
    var k' := FirstIndex(xs, x);
    assert xs[k] == x;
    assert k' <= k;
    assert xs[..n][k'] == x;
  }

  /** The distinct values of `xs` in the order they first occur: no duplicates and
      exactly the values of `xs`. */
  function Distinct<T(==)>(xs: seq<T>): (r: seq<T>)
    ensures NoDuplicates(r)
    ensures forall i :: 0 <= i < |r| ==> r[i] in xs
    ensures forall i :: 0 <= i < |xs| ==> xs[i] in r
    ensures |r| <= |xs|
  {
    if xs == [] then []
    else
      var init, last := xs[..|xs| - 1], xs[|xs| - 1];
      var d := Distinct(init);
      assert xs == init + [last];
      if last in d then d else d + [last]
  }

  /** The distinct values are ordered by where each first occurs in `xs`. */
  lemma {:induction false} DistinctOrder<T>(xs: seq<T>)
    ensures forall i, j :: 0 <= i < j < |Distinct(xs)| ==>
              FirstIndex(xs, Distinct(xs)[i]) < FirstIndex(xs, Distinct(xs)[j])
  {
    if xs != [] {
      var init, last := xs[..|xs| - 1], xs[|xs| - 1];
      var d := Distinct(init);
      DistinctOrder(init);
      assert xs == init + [last];
      forall x | x in d
        ensures FirstIndex(init, x) == FirstIndex(xs, x) && FirstIndex(xs, x) < |xs| - 1
      {
        FirstIndexOfPrefix(xs, |xs| - 1, x);
      }
      if last !in d {
        assert last !in init;
        assert FirstIndex(xs, last) == |xs| - 1;
        assert Distinct(xs) == d + [last];
      }
    }
  }
}
