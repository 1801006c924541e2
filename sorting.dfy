/** Stable sorting by an integer key in non-increasing order: the model of
    `Array.prototype.sort` with a comparator of the form
    `(a, b) => key(b) - key(a)`. Since ES2019 that sort is stable, so elements
    with equal keys keep their relative order. An ascending sort by `k` is the
    descending sort by `x => -k(x)`. */
module Sorting {
  import opened Seqs

  ghost predicate NonIncreasing<T>(s: seq<T>, key: T -> int) {
    forall i, j :: 0 <= i < j < |s| ==> key(s[i]) >= key(s[j])
  }

  /** Where `x` goes in `s`: in front of the first element whose key is not
      greater than its own, so behind every element with a greater key. */
  function Slot<T>(x: T, s: seq<T>, key: T -> int): (m: nat)
    ensures m <= |s|
    ensures forall k :: 0 <= k < m ==> key(s[k]) > key(x)
    ensures m < |s| ==> key(s[m]) <= key(x)
  {
    if s == [] || key(s[0]) <= key(x) then 0
    else 1 + Slot(x, s[1..], key)
  }

  /** The slot is the only position with the two properties above. */
  lemma SlotUnique<T>(x: T, s: seq<T>, key: T -> int, m: nat)
    requires m <= |s|
    requires forall k :: 0 <= k < m ==> key(s[k]) > key(x)
    requires m < |s| ==> key(s[m]) <= key(x)
    ensures Slot(x, s, key) == m
  {
  }

  /** `x` inserted at its slot; it precedes every element of `s` with an equal
      key, which is what makes the sort below stable. */
  function Insert<T>(x: T, s: seq<T>, key: T -> int): (r: seq<T>)
    ensures |r| == |s| + 1
  {
    var m := Slot(x, s, key);
    s[..m] + [x] + s[m..]
  }

  /** The stable sort of `s` by non-increasing key (insertion from the right). */
  function SortDesc<T>(s: seq<T>, key: T -> int): (r: seq<T>)
    ensures |r| == |s|
  {
    if s == [] then []
    else
      assert s == [s[0]] + s[1..];
      Insert(s[0], SortDesc(s[1..], key), key)
  }

  lemma InsertPermutes<T>(x: T, s: seq<T>, key: T -> int)
    ensures multiset(Insert(x, s, key)) == multiset(s) + multiset{x}
  {
    var m := Slot(x, s, key);
    assert s == s[..m] + s[m..];
  }

  /** The sort returns a permutation of its input. */
  lemma {:induction false} SortDescPermutes<T>(s: seq<T>, key: T -> int)
    ensures multiset(SortDesc(s, key)) == multiset(s)
  {
    if s != [] {
      SortDescPermutes(s[1..], key);
      InsertPermutes(s[0], SortDesc(s[1..], key), key);
      assert s == [s[0]] + s[1..];
    }
  }

  lemma InsertSorted<T>(x: T, s: seq<T>, key: T -> int)
    requires NonIncreasing(s, key)
    ensures NonIncreasing(Insert(x, s, key), key)
  {
    var m := Slot(x, s, key);
    var r := Insert(x, s, key);
    forall i, j | 0 <= i < j < |r| ensures key(r[i]) >= key(r[j]) {
      if j < m || i > m {
      } else if i == m {
        assert r[j] == s[j - 1];
        assert key(s[m]) >= key(s[j - 1]);
      } else {
        assert i < m && r[i] == s[i];
      }
    }
  }

  /** The result of the sort is ordered by non-increasing key. */
  lemma {:induction false} SortDescSorted<T>(s: seq<T>, key: T -> int)
    ensures NonIncreasing(SortDesc(s, key), key)
  {
    if s != [] {
      SortDescSorted(s[1..], key);
      InsertSorted(s[0], SortDesc(s[1..], key), key);
    }
  }

  /** Among the elements with key `k`, `x` keeps its place in front: everything
      it is inserted behind has a greater key. */
  lemma InsertStable<T>(x: T, s: seq<T>, key: T -> int, k: int, p: T -> bool)
    requires forall y :: p(y) <==> key(y) == k
    ensures Filter(Insert(x, s, key), p) == Filter([x] + s, p)
  {
    var m := Slot(x, s, key);
    assert s == s[..m] + s[m..];
    assert forall i :: 0 <= i < m ==> key(s[..m][i]) > key(x);
    FilterPassOver(s[..m], x, s[m..], p);
  }

  /** Moving `x` in front of a block changes nothing among the kept elements
      when `x` is kept only if nothing in the block is. */
  lemma FilterPassOver<T>(before: seq<T>, x: T, after: seq<T>, p: T -> bool)
    requires p(x) ==> forall i :: 0 <= i < |before| ==> !p(before[i])
    ensures Filter(before + [x] + after, p) == Filter([x] + (before + after), p)
  {
    FilterThree(before, x, after, p);
    FilterEmpty(before, p);
    SwapFront(Filter(before, p), Filter([x], p), Filter(after, p));
  }

  /** A block in front of an empty one, or an empty one in front of any, can
      trade places. */
  lemma SwapFront<T>(b: seq<T>, m: seq<T>, a: seq<T>)
    requires b == [] || m == []
    ensures b + m + a == m + (b + a)
  {
  }

  /** Filtering the two arrangements of the three pieces, piece by piece. */
  lemma FilterThree<T>(before: seq<T>, x: T, after: seq<T>, p: T -> bool)
    ensures Filter(before + [x] + after, p) == Filter(before, p) + Filter([x], p) + Filter(after, p)
    ensures Filter([x] + (before + after), p) == Filter([x], p) + (Filter(before, p) + Filter(after, p))
    ensures Filter([x], p) == if p(x) then [x] else []
  {
    FilterAppend(before + [x], after, p);
    FilterAppend(before, [x], p);
    FilterAppend(before, after, p);
    FilterAppend([x], before + after, p);
  }

  /** Stability: the elements sharing any one key appear in the sorted result
      in exactly the order they had in the input. */
  lemma {:induction false} SortDescStable<T>(s: seq<T>, key: T -> int, k: int, p: T -> bool)
    requires forall y :: p(y) <==> key(y) == k
    ensures Filter(SortDesc(s, key), p) == Filter(s, p)
  {
    if s != [] {
      var t := SortDesc(s[1..], key);
      SortDescStable(s[1..], key, k, p);
      InsertStable(s[0], t, key, k, p);
      FilterAppend([s[0]], t, p);
      assert s == [s[0]] + s[1..];
      FilterAppend([s[0]], s[1..], p);
    }
  }

  /** An element is in the sorted sequence exactly when it is in the input. */
  lemma SortDescMembers<T>(s: seq<T>, key: T -> int, x: T)
    ensures x in SortDesc(s, key) <==> x in s
  {
    SortDescPermutes(s, key);
    assert x in multiset(SortDesc(s, key)) <==> x in multiset(s);
  }

  /** If no two input elements share a key, the result is strictly decreasing. */
  lemma {:induction false} SortDescStrict<T>(s: seq<T>, key: T -> int)
    requires forall i, j :: 0 <= i < j < |s| ==> key(s[i]) != key(s[j])
    ensures forall i, j :: 0 <= i < j < |SortDesc(s, key)| ==>
              key(SortDesc(s, key)[i]) > key(SortDesc(s, key)[j])
  {
    var r := SortDesc(s, key);
    SortDescSorted(s, key);
    forall i, j | 0 <= i < j < |r| ensures key(r[i]) > key(r[j]) {
      if key(r[i]) == key(r[j]) {
        var k := key(r[i]);
        var p := (y: T) => key(y) == k;
        SortDescStable(s, key, k, p);
        TwoWithKey(r, p, i, j);
        AtMostOneWithKey(s, key, p, k);
        assert false;
      }
    }
  }

  lemma {:induction false} TwoWithKey<T>(s: seq<T>, p: T -> bool, i: int, j: int)
    requires 0 <= i < j < |s| && p(s[i]) && p(s[j])
    ensures |Filter(s, p)| >= 2
  {
    if i > 0 {
      TwoWithKey(s[1..], p, i - 1, j - 1);
    } else {
      assert s[1..][j - 1] == s[j];
      FilterMembers(s[1..], p, s[j]);
    }
  }

  lemma {:induction false} AtMostOneWithKey<T>(s: seq<T>, key: T -> int, p: T -> bool, k: int)
    requires forall i, j :: 0 <= i < j < |s| ==> key(s[i]) != key(s[j])
    requires forall y :: p(y) <==> key(y) == k
    ensures |Filter(s, p)| <= 1
  {
    if s != [] {
      AtMostOneWithKey(s[1..], key, p, k);
      if p(s[0]) {
        assert forall i :: 0 <= i < |s[1..]| ==> key(s[1..][i]) != k by {
          forall i | 0 <= i < |s[1..]| ensures key(s[1..][i]) != k {
            assert s[1..][i] == s[i + 1];
          }
        }
        FilterEmpty(s[1..], p);
      }
    }
  }

  /** Inserts `a[i]` into the already sorted `a[i + 1..]` by shifting the
      elements with a larger key one place to the left. */
  method InsertInPlace<T>(a: array<T>, i: int, key: T -> int)
    requires 0 <= i < a.Length
    modifies a
    ensures a[..i] == old(a[..i])
    ensures a[i..] == Insert(old(a[i]), old(a[i + 1..]), key)
  {
    var x := a[i];
    ghost var sorted := a[i + 1..];
    var j := i;
    while j + 1 < a.Length && key(a[j + 1]) > key(x)
      invariant i <= j < a.Length
      invariant forall k :: 0 <= k < i ==> a[k] == old(a[k])
      invariant forall k :: i <= k < j ==> a[k] == sorted[k - i]
      invariant forall k :: j < k < a.Length ==> a[k] == sorted[k - i - 1]
      invariant forall k :: 0 <= k < j - i ==> key(sorted[k]) > key(x)
    {
      a[j] := a[j + 1];
      j := j + 1;
    }
    SlotUnique(x, sorted, key, j - i);
    a[j] := x;
    Placed(a[..], i, j, x, sorted);
  }

  /** The layout the insertion loop leaves behind is `x` placed at `j`. */
  lemma Placed<T>(s: seq<T>, i: int, j: int, x: T, sorted: seq<T>)
    requires 0 <= i <= j < |s| && |sorted| == |s| - i - 1 && s[j] == x
    requires forall k :: i <= k < j ==> s[k] == sorted[k - i]
    requires forall k :: j < k < |s| ==> s[k] == sorted[k - i - 1]
    ensures s[i..] == sorted[..j - i] + [x] + sorted[j - i..]
  {
  }

  /** Sorts `a` in place, stably, by non-increasing key. It works from the
      right end: `a[i..]` is always the sorted image of the original suffix,
      and each step inserts `a[i - 1]` into it. */
  method SortByKeyDesc<T>(a: array<T>, key: T -> int)
    modifies a
    ensures a[..] == SortDesc(old(a[..]), key)
  {
    ghost var orig := a[..];
    var i := a.Length;
    while i > 0
      invariant 0 <= i <= a.Length
      invariant a[..i] == orig[..i]
      invariant a[i..] == SortDesc(orig[i..], key)
    {
      i := i - 1;
      assert orig[i..] == [orig[i]] + orig[i + 1..];
      assert a[i] == orig[i];
      InsertInPlace(a, i, key);
    }
    assert orig[0..] == orig;
  }

  /** A sorted copy of `s`: a new array filled from `s` and sorted in place. */
  method SortedCopy<T>(s: seq<T>, key: T -> int) returns (r: seq<T>)
    ensures r == SortDesc(s, key)
  {
    var a := new T[|s|](i requires 0 <= i < |s| => s[i]);
    assert a[..] == s;
    SortByKeyDesc(a, key);
    r := a[..];
  }
}
