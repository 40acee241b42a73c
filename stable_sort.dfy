/** A stable sort by a natural-number key, the ordering `Array.prototype.sort` gives
    with a comparator `(a, b) => key(a) - key(b)`: ascending keys, equal keys in their
    original order. `SortByKey` is the reference definition; `SortInPlace` is an
    in-place insertion sort proved to produce it. */
module StableSort {

  predicate SortedByKey<T>(s: seq<T>, key: T -> nat)
  {
    forall i, j :: 0 <= i < j < |s| ==> key(s[i]) <= key(s[j])
  }

  /** The elements of `s` whose key is `k`, in order. */
  function WithKey<T>(s: seq<T>, k: nat, key: T -> nat): seq<T>
  {
    if s == [] then []
    else WithKey(s[..|s| - 1], k, key) + (if key(s[|s| - 1]) == k then [s[|s| - 1]] else [])
  }

  /** Insert `x` into a sorted sequence right after the last element whose key is
      not larger. */
  function Insert<T>(s: seq<T>, x: T, key: T -> nat): seq<T>
  {
    if s == [] || key(s[|s| - 1]) <= key(x) then s + [x]
    else Insert(s[..|s| - 1], x, key) + [s[|s| - 1]]
  }

  function SortByKey<T>(s: seq<T>, key: T -> nat): seq<T>
  {
    if s == [] then [] else Insert(SortByKey(s[..|s| - 1], key), s[|s| - 1], key)
  }

  lemma WithKeyAppend<T>(s: seq<T>, x: T, k: nat, key: T -> nat)
    ensures WithKey(s + [x], k, key) == WithKey(s, k, key) + (if key(x) == k then [x] else [])
  {
    assert (s + [x])[..|s|] == s;
  }

  lemma LastHasLargestKey<T>(s: seq<T>, x: T, key: T -> nat)
    requires SortedByKey(s, key) && x in s
    ensures key(x) <= key(s[|s| - 1])
  {
    var m :| 0 <= m < |s| && s[m] == x;
  }

  lemma {:induction false} InsertPermutes<T>(s: seq<T>, x: T, key: T -> nat)
    ensures multiset(Insert(s, x, key)) == multiset(s) + multiset{x}
  {
    if !(s == [] || key(s[|s| - 1]) <= key(x)) {
      var init, last := s[..|s| - 1], s[|s| - 1];
      assert s == init + [last];
      InsertPermutes(init, x, key);
    }
  }

  lemma {:induction false} InsertSorted<T>(s: seq<T>, x: T, key: T -> nat)
    requires SortedByKey(s, key)
    ensures SortedByKey(Insert(s, x, key), key)
  {
    var r := Insert(s, x, key);
    if !(s == [] || key(s[|s| - 1]) <= key(x)) {
      var init, last := s[..|s| - 1], s[|s| - 1];
      assert s == init + [last];
      InsertSorted(init, x, key);
      InsertPermutes(init, x, key);
      var r' := Insert(init, x, key);
      assert r == r' + [last];
      forall i | 0 <= i < |r'|
        ensures key(r'[i]) <= key(last)
      {
        assert r'[i] in multiset(r');
        if r'[i] != x {
          assert r'[i] in init;
          LastHasLargestKey(s, r'[i], key);
        }
      }
    }
  }

  lemma {:induction false} InsertStable<T>(s: seq<T>, x: T, k: nat, key: T -> nat)
    ensures WithKey(Insert(s, x, key), k, key)
         == WithKey(s, k, key) + (if key(x) == k then [x] else [])
  {
    if s == [] || key(s[|s| - 1]) <= key(x) {
      WithKeyAppend(s, x, k, key);
    } else {
      var init, last := s[..|s| - 1], s[|s| - 1];
      assert s == init + [last];
      InsertStable(init, x, k, key);
      WithKeyAppend(Insert(init, x, key), last, k, key);
      WithKeyAppend(init, last, k, key);
    }
  }

  /** The reference sort orders by key, is a permutation, and is stable: the
      elements with any one key appear in the same order before and after. */
  lemma {:induction false} SortByKeyProperties<T>(s: seq<T>, key: T -> nat)
    ensures SortedByKey(SortByKey(s, key), key)
    ensures multiset(SortByKey(s, key)) == multiset(s)
    ensures forall k :: WithKey(SortByKey(s, key), k, key) == WithKey(s, k, key)
  {
    if s != [] {
      var init, last := s[..|s| - 1], s[|s| - 1];
      assert s == init + [last];
      SortByKeyProperties(init, key);
      InsertSorted(SortByKey(init, key), last, key);
      InsertPermutes(SortByKey(init, key), last, key);
      forall k
        ensures WithKey(SortByKey(s, key), k, key) == WithKey(s, k, key)
      {
        InsertStable(SortByKey(init, key), last, k, key);
      }
    }
  }

  lemma {:induction false} WithKeyElements<T>(s: seq<T>, k: nat, x: T, key: T -> nat)
    requires x in WithKey(s, k, key)
    ensures x in s && key(x) == k
  {
    if s != [] {
      var init := s[..|s| - 1];
      assert s == init + [s[|s| - 1]];
      if x in WithKey(init, k, key) {
        WithKeyElements(init, k, x, key);
      }
    }
  }

  lemma WithKeyOfLast<T>(s: seq<T>, key: T -> nat)
    requires s != []
    ensures WithKey(s, key(s[|s| - 1]), key) != []
  {
  }

  /** Two sequences sorted by key that agree on every key's elements end with
      elements of the same key. */
  lemma SameLastKey<T>(t: seq<T>, u: seq<T>, key: T -> nat)
    requires t != [] && u != []
    requires SortedByKey(t, key) && SortedByKey(u, key)
    requires forall k :: WithKey(t, k, key) == WithKey(u, k, key)
    ensures key(t[|t| - 1]) == key(u[|u| - 1])
  {
    var ka, kb := key(t[|t| - 1]), key(u[|u| - 1]);
    WithKeyOfLast(t, key);
    WithKeyOfLast(u, key);
    var xa := WithKey(u, ka, key)[0];
    WithKeyElements(u, ka, xa, key);
    LastHasLargestKey(u, xa, key);
    var xb := WithKey(t, kb, key)[0];
    WithKeyElements(t, kb, xb, key);
    LastHasLargestKey(t, xb, key);
  }

  /** A stable sort's result is determined: two sequences sorted by key that agree
      on the order of the elements of every key are equal. So any stable sort by
      this key, whatever its algorithm, produces `SortByKey`. */
  lemma {:induction false} StableSortIsUnique<T>(t: seq<T>, u: seq<T>, key: T -> nat)
    requires SortedByKey(t, key) && SortedByKey(u, key)
    requires forall k :: WithKey(t, k, key) == WithKey(u, k, key)
    ensures t == u
    decreases |t| + |u|
  {
    if t == [] && u == [] {
    } else if t == [] {
      WithKeyOfLast(u, key);
      assert false;
    } else if u == [] {
      WithKeyOfLast(t, key);
      assert false;
    } else {
      var a, b := t[|t| - 1], u[|u| - 1];
      var t', u' := t[..|t| - 1], u[..|u| - 1];
      assert t == t' + [a] && u == u' + [b];
      SameLastKey(t, u, key);
      var ka := key(a);
      forall k
        ensures WithKey(t', k, key) == WithKey(u', k, key) && (k == ka ==> a == b)
      {
        WithKeyAppend(t', a, k, key);
        WithKeyAppend(u', b, k, key);
        assert WithKey(t, k, key) == WithKey(u, k, key);
        assert key(b) == ka;
        if k == ka {
          var wt, wu := WithKey(t', k, key) + [a], WithKey(u', k, key) + [b];
          assert wt == WithKey(t, k, key) == WithKey(u, k, key) == wu;
          assert wt[..|wt| - 1] == WithKey(t', k, key);
          assert wu[..|wu| - 1] == WithKey(u', k, key);
          assert wt[|wt| - 1] == a && wu[|wu| - 1] == b;
          assert a == b;
        } else {
          assert WithKey(t, k, key) == WithKey(t', k, key);
          assert WithKey(u, k, key) == WithKey(u', k, key);
        }
      }
      assert a == b by {
        assert WithKey(t', ka, key) == WithKey(u', ka, key) && (ka == ka ==> a == b);
      }
      StableSortIsUnique(t', u', key);
    }
  }

  /** `Insert` places `x` right after the last element whose key is not larger. */
  lemma {:induction false} InsertSplit<T>(s: seq<T>, j: nat, x: T, key: T -> nat)
    requires j <= |s|
    requires j == 0 || key(s[j - 1]) <= key(x)
    requires forall k :: j <= k < |s| ==> key(s[k]) > key(x)
    ensures Insert(s, x, key) == s[..j] + [x] + s[j..]
  {
    if j < |s| {
      var init := s[..|s| - 1];
      assert init[..j] == s[..j];
      InsertSplit(init, j, x, key);
      assert s[j..] == init[j..] + [s[|s| - 1]];
    } else {
      assert s[..j] == s;
    }
  }

  /** One pass of the insertion sort: with `a[..i]` already sorted, shift every
      element with a larger key than `a[i]` one place right and drop `a[i]` into
      the gap. */
  method InsertInPlace<T>(a: array<T>, i: nat, key: T -> nat)
    requires i < a.Length
    modifies a
    ensures a[..i + 1] == Insert(old(a[..i]), old(a[i]), key)
    ensures a[i + 1..] == old(a[i + 1..])
  {
    ghost var sorted := a[..i];
    var x := a[i];
    var j := i;
    while j > 0 && key(a[j - 1]) > key(x)
      invariant 0 <= j <= i
      invariant forall k :: 0 <= k < j ==> a[k] == sorted[k]
      invariant forall k :: j < k <= i ==> a[k] == sorted[k - 1]
      invariant forall k :: i < k < a.Length ==> a[k] == old(a[k])
      invariant forall k :: j <= k < i ==> key(sorted[k]) > key(x)
    {
      a[j] := a[j - 1];
      j := j - 1;
    }
    a[j] := x;
    InsertSplit(sorted, j, x, key);
    assert a[..i + 1] == sorted[..j] + [x] + sorted[j..];
  }

  /** Sort the array in place; it ends up as the reference stable sort of its old
      contents. */
  method SortInPlace<T>(a: array<T>, key: T -> nat)
    modifies a
    ensures a[..] == SortByKey(old(a[..]), key)
  {
    ghost var input := a[..];
    for i := 0 to a.Length
      invariant a[..i] == SortByKey(input[..i], key)
      invariant a[i..] == input[i..]
    {
      assert a[i] == input[i];
      InsertInPlace(a, i, key);
      assert input[..i + 1] == input[..i] + [input[i]];
      assert a[i + 1..] == input[i + 1..];
    }
    assert input[..a.Length] == input;
  }
}
