/**
 * Generic sequence operations behind the JavaScript array expressions of
 * the client and the listing query: `filter`, `Array.from(new Set(..))`,
 * and the stable `sort` of ECMAScript 2019 and later.
 */
module Seqs {

  // ---------------------------------------------------------------- filter

  /** `s.filter(p)`: the elements satisfying `p`, in their original order. */
  function Filter<T>(p: T -> bool, s: seq<T>): (r: seq<T>)
    ensures |r| <= |s|
    ensures forall i :: 0 <= i < |r| ==> p(r[i])
    ensures forall i :: 0 <= i < |r| ==> r[i] in s
  {
    if s == [] then []
    else (if p(s[0]) then [s[0]] else []) + Filter(p, s[1..])
  }

  lemma {:induction false} FilterMembership<T>(p: T -> bool, s: seq<T>, x: T)
    ensures x in Filter(p, s) <==> x in s && p(x)
  {
    if s != [] {
      FilterMembership(p, s[1..], x);
      assert s == [s[0]] + s[1..];
    }
  }

  /** Two predicates that agree on every element of `s` filter it the same way. */
  lemma {:induction false} FilterAgree<T>(p: T -> bool, q: T -> bool, s: seq<T>)
    requires forall i :: 0 <= i < |s| ==> p(s[i]) == q(s[i])
    ensures Filter(p, s) == Filter(q, s)
  {
    if s != [] {
      FilterAgree(p, q, s[1..]);
    }
  }

  /** `a` is an order-preserving subsequence of `b`. */
  predicate IsSubseq<T(==)>(a: seq<T>, b: seq<T>)
    decreases |b|
  {
    if a == [] then true
    else if b == [] then false
    else (a[0] == b[0] && IsSubseq(a[1..], b[1..])) || IsSubseq(a, b[1..])
  }

  lemma {:induction false} FilterIsSubseq<T>(p: T -> bool, s: seq<T>)
    ensures IsSubseq(Filter(p, s), s)
  {
    if s != [] {
      FilterIsSubseq(p, s[1..]);
      var rest := Filter(p, s[1..]);
      if p(s[0]) {
        assert Filter(p, s) == [s[0]] + rest;
        assert (Filter(p, s))[1..] == rest;
      } else {
        assert Filter(p, s) == rest;
        if rest != [] {
          assert IsSubseq(rest, s[1..]);
        }
      }
    }
  }

  // -------------------------------------------------------------- distinct

  predicate NoDup<T(==)>(s: seq<T>)
  {
    forall i, j :: 0 <= i < j < |s| ==> s[i] != s[j]
  }

  /**
   * `Array.from(new Set(s))`: each value once, in the order of its first
   * occurrence (a `Set` iterates in insertion order).
   */
  function Distinct<T(==)>(s: seq<T>): (d: seq<T>)
    ensures NoDup(d)
    ensures forall i :: 0 <= i < |d| ==> d[i] in s
    ensures forall i :: 0 <= i < |s| ==> s[i] in d
    ensures |d| <= |s|
  {
    if s == [] then []
    else
      var init := Distinct(s[..|s| - 1]);
      assert forall i :: 0 <= i < |s| - 1 ==> s[i] == s[..|s| - 1][i];
      if s[|s| - 1] in init then init else init + [s[|s| - 1]]
  }

  /** Position of the first occurrence of `x` in `s`. */
  function FirstIndex<T(==)>(s: seq<T>, x: T): (i: nat)
    requires x in s
    ensures i < |s| && s[i] == x
    ensures forall k :: 0 <= k < i ==> s[k] != x
  {
    if s[0] == x then 0 else 1 + FirstIndex(s[1..], x)
  }

  lemma FirstIndexPrefix<T>(s: seq<T>, n: nat, x: T)
    requires n <= |s| && x in s[..n]
    ensures FirstIndex(s, x) == FirstIndex(s[..n], x)
  {
    assert forall k :: 0 <= k < n ==> s[..n][k] == s[k];
  }

  /** The values of `Distinct(s)` are listed in order of first occurrence in `s`. */
  lemma {:induction false} DistinctFirstOccurrenceOrder<T>(s: seq<T>)
    ensures forall i, j :: 0 <= i < j < |Distinct(s)| ==>
      FirstIndex(s, Distinct(s)[i]) < FirstIndex(s, Distinct(s)[j])
  {
    if s != [] {
      DistinctFirstOccurrenceOrder(s[..|s| - 1]);
      forall i, j | 0 <= i < j < |Distinct(s)|
        ensures FirstIndex(s, Distinct(s)[i]) < FirstIndex(s, Distinct(s)[j])
      {
        DistinctOrderStep(s, s[..|s| - 1], i, j);
      }
    }
  }

  /** One pair of the inductive step: the order on the prefix carries over, and a new last value comes last. */
  lemma DistinctOrderStep<T>(s: seq<T>, pre: seq<T>, i: nat, j: nat)
    requires s != [] && pre == s[..|s| - 1]
    requires forall a, b :: 0 <= a < b < |Distinct(pre)| ==>
      FirstIndex(pre, Distinct(pre)[a]) < FirstIndex(pre, Distinct(pre)[b])
    requires i < j < |Distinct(s)|
    ensures FirstIndex(s, Distinct(s)[i]) < FirstIndex(s, Distinct(s)[j])
  {
    var n := |s| - 1;
    var init := Distinct(pre);
    var d := Distinct(s);
    assert d[i] == init[i];
    FirstIndexPrefix(s, n, d[i]);
    if j < |init| {
      assert d[j] == init[j];
      FirstIndexPrefix(s, n, d[j]);
    } else {
      assert d[j] == s[n] && s[n] !in pre;
      FirstIndexOfNew(s);
    }
  }

  /** A last value that does not occur earlier first occurs at the end. */
  lemma FirstIndexOfNew<T>(s: seq<T>)
    requires s != [] && s[|s| - 1] !in s[..|s| - 1]
    ensures FirstIndex(s, s[|s| - 1]) == |s| - 1
  {
    assert forall k :: 0 <= k < |s| - 1 ==> s[..|s| - 1][k] == s[k];
  }

  // ------------------------------------------------------------------ sort

  ghost predicate TotalPreorder<T(!new)>(le: (T, T) -> bool)
  {
    && (forall x :: le(x, x))
    && (forall x, y, z :: le(x, y) && le(y, z) ==> le(x, z))
    && (forall x, y :: le(x, y) || le(y, x))
  }

  predicate Sorted<T>(le: (T, T) -> bool, s: seq<T>)
  {
    forall i, j :: 0 <= i < j < |s| ==> le(s[i], s[j])
  }

  /**
   * Stable insertion of `x` after a sorted prefix: `x` goes behind every
   * element that is not strictly greater than it.
   */
  function Insert<T>(le: (T, T) -> bool, s: seq<T>, x: T): (r: seq<T>)
    ensures |r| == |s| + 1
  {
    if s == [] then [x]
    else if le(s[|s| - 1], x) then s + [x]
    else Insert(le, s[..|s| - 1], x) + [s[|s| - 1]]
  }

  /**
   * The stable sort of `s` under the comparison `le`: insertion sort, from
   * the left. Any stable sort under a total preorder yields this sequence.
   */
  function Sort<T>(le: (T, T) -> bool, s: seq<T>): (r: seq<T>)
    ensures |r| == |s|
  {
    if s == [] then [] else Insert(le, Sort(le, s[..|s| - 1]), s[|s| - 1])
  }

  lemma {:induction false} InsertPermutes<T>(le: (T, T) -> bool, s: seq<T>, x: T)
    ensures multiset(Insert(le, s, x)) == multiset(s) + multiset{x}
  {
    if s != [] && !le(s[|s| - 1], x) {
      InsertPermutes(le, s[..|s| - 1], x);
      assert s == s[..|s| - 1] + [s[|s| - 1]];
    }
  }

  lemma {:induction false} SortPermutes<T>(le: (T, T) -> bool, s: seq<T>)
    ensures multiset(Sort(le, s)) == multiset(s)
  {
    if s != [] {
      SortPermutes(le, s[..|s| - 1]);
      InsertPermutes(le, Sort(le, s[..|s| - 1]), s[|s| - 1]);
      assert s == s[..|s| - 1] + [s[|s| - 1]];
    }
  }

  /** Where `Insert` puts `x`: behind the elements not greater than it. */
  lemma {:induction false} InsertSplits<T>(le: (T, T) -> bool, s: seq<T>, x: T)
    returns (k: nat)
    ensures k <= |s| && Insert(le, s, x) == s[..k] + [x] + s[k..]
    ensures k > 0 ==> le(s[k - 1], x)
    ensures k < |s| ==> !le(s[k], x)
  {
    if s == [] {
      k := 0;
    } else if le(s[|s| - 1], x) {
      k := |s|;
    } else {
      var init := s[..|s| - 1];
      k := InsertSplits(le, init, x);
      assert init[..k] == s[..k];
      assert init[k..] + [s[|s| - 1]] == s[k..];
    }
  }

  lemma InsertSorted<T(!new)>(le: (T, T) -> bool, s: seq<T>, x: T)
    requires TotalPreorder(le) && Sorted(le, s)
    ensures Sorted(le, Insert(le, s, x))
  {
    var k := InsertSplits(le, s, x);
    var r := Insert(le, s, x);
    assert |r| == |s| + 1;
    assert forall i :: 0 <= i < k ==> r[i] == s[i];
    assert r[k] == x;
    assert forall i :: k < i < |r| ==> r[i] == s[i - 1];
    if k < |s| {
      assert le(x, s[k]);
    }
    forall i, j | 0 <= i < j < |r| ensures le(r[i], r[j]) {
      if j < k {
      } else if j == k {
        assert le(s[i], s[k - 1]);
      } else if i < k {
        assert le(s[i], s[j - 1]);
      } else if i == k {
      } else {
      }
    }
  }

  lemma {:induction false} SortSorted<T(!new)>(le: (T, T) -> bool, s: seq<T>)
    requires TotalPreorder(le)
    ensures Sorted(le, Sort(le, s))
  {
    if s != [] {
      SortSorted(le, s[..|s| - 1]);
      InsertSorted(le, Sort(le, s[..|s| - 1]), s[|s| - 1]);
    }
  }

  /** Sorting a sequence that is already sorted leaves it as it is (stability). */
  lemma {:induction false} SortOfSorted<T>(le: (T, T) -> bool, s: seq<T>)
    requires Sorted(le, s)
    ensures Sort(le, s) == s
  {
    if s != [] {
      var init := s[..|s| - 1];
      assert Sorted(le, init);
      SortOfSorted(le, init);
      if |init| > 0 {
        assert le(init[|init| - 1], s[|s| - 1]);
      }
      assert init + [s[|s| - 1]] == s;
    }
  }

  lemma {:induction false} FilterKeepsSorted<T>(le: (T, T) -> bool, p: T -> bool, s: seq<T>)
    requires Sorted(le, s)
    ensures Sorted(le, Filter(p, s))
  {
    if s != [] {
      FilterKeepsSorted(le, p, s[1..]);
      var rest := Filter(p, s[1..]);
      if p(s[0]) {
        forall j | 0 <= j < |rest| ensures le(s[0], rest[j]) {
          assert rest[j] in s[1..];
        }
      }
    }
  }

  /**
   * Sorting in place, as `Array.prototype.sort` does: afterwards the array
   * holds the stable sort of what it held before.
   */
  method SortInPlace<T>(a: array<T>, le: (T, T) -> bool)
    modifies a
    ensures a[..] == Sort(le, old(a[..]))
  {
    ghost var orig := a[..];
    var i := 0;
    while i < a.Length
      invariant 0 <= i <= a.Length
      invariant a[..i] == Sort(le, orig[..i])
      invariant a[i..] == orig[i..]
    {
      assert orig[..i + 1][..i] == orig[..i];
      assert a[i] == orig[i];
      InsertInPlace(a, i, le);
      assert a[i + 1..] == orig[i + 1..];
      i := i + 1;
    }
    assert a[..] == a[..a.Length];
    assert orig == orig[..a.Length];
  }

  /** One step of the insertion sort: moves `a[i]` into the sorted `a[..i]`. */
  method InsertInPlace<T>(a: array<T>, i: nat, le: (T, T) -> bool)
    requires i < a.Length
    modifies a
    ensures a[..i + 1] == Insert(le, old(a[..i]), old(a[i]))
    ensures a[i + 1..] == old(a[i + 1..])
  {
    ghost var sorted := a[..i];
    var x := a[i];
    var j := i;
    assert sorted[..i] == sorted;
    while j > 0 && !le(a[j - 1], x)
      invariant 0 <= j <= i
      invariant forall k :: 0 <= k < j ==> a[k] == sorted[k]
      invariant forall k :: j < k <= i ==> a[k] == sorted[k - 1]
      invariant forall k :: i < k < a.Length ==> a[k] == old(a[k])
      invariant Insert(le, sorted, x) == Insert(le, sorted[..j], x) + sorted[j..]
    {
      InsertStepBack(le, sorted, j, x);
      a[j] := a[j - 1];
      j := j - 1;
    }
    InsertHere(le, sorted, j, x);
    a[j] := x;
    ghost var r := sorted[..j] + [x] + sorted[j..];
    assert forall k :: 0 <= k <= i ==> a[k] == r[k];
    assert a[..i + 1] == r;
  }

  /** Behind a value `le` the new one, or at the front, the insertion stops. */
  lemma InsertHere<T>(le: (T, T) -> bool, s: seq<T>, j: nat, x: T)
    requires j <= |s| && (j == 0 || le(s[j - 1], x))
    ensures Insert(le, s[..j], x) == s[..j] + [x]
  {
  }

  lemma InsertStepBack<T>(le: (T, T) -> bool, s: seq<T>, j: nat, x: T)
    requires 0 < j <= |s| && !le(s[j - 1], x)
    requires Insert(le, s, x) == Insert(le, s[..j], x) + s[j..]
    ensures Insert(le, s, x) == Insert(le, s[..j - 1], x) + s[j - 1..]
  {
    InsertPastLast(le, s, j, x);
    ShiftLast(Insert(le, s[..j], x), Insert(le, s[..j - 1], x), s, j);
  }

  /** Inserting behind `s[j - 1]` when it is not `le` the new value leaves `s[j - 1]` last. */
  lemma InsertPastLast<T>(le: (T, T) -> bool, s: seq<T>, j: nat, x: T)
    requires 0 < j <= |s| && !le(s[j - 1], x)
    ensures Insert(le, s[..j], x) == Insert(le, s[..j - 1], x) + [s[j - 1]]
  {
    assert s[..j][..j - 1] == s[..j - 1];
  }

  lemma ShiftLast<T>(a: seq<T>, b: seq<T>, s: seq<T>, j: nat)
    requires 0 < j <= |s| && a == b + [s[j - 1]]
    ensures a + s[j..] == b + s[j - 1..]
  {
    assert [s[j - 1]] + s[j..] == s[j - 1..];
  }
}
