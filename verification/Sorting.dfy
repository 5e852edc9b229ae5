/** Sorting by a comparison, with nothing promised about the order of elements that compare equal (qsort). */
module Sorting {

  ghost predicate TotalOrder<T(!new)>(leq: (T, T) -> bool) {
    && (forall a, b :: leq(a, b) || leq(b, a))
    && (forall a, b, c :: leq(a, b) && leq(b, c) ==> leq(a, c))
  }

  predicate SortedBy<T>(leq: (T, T) -> bool, s: seq<T>) {
    forall i, j :: 0 <= i < j < |s| ==> leq(s[i], s[j])
  }

  /** The first `n` elements are permuted and the rest is as before. */
  ghost predicate Rearranged<T>(n: nat, s: seq<T>, t: seq<T>) {
    n <= |s| == |t| && multiset(s[..n]) == multiset(t[..n]) && s[n..] == t[n..]
  }

  lemma RearrangedTwice<T>(n: nat, s: seq<T>, t: seq<T>, u: seq<T>)
    requires Rearranged(n, s, t) && Rearranged(n, t, u)
    ensures Rearranged(n, s, u)
  {
  }

  /** qsort of the first `n` elements: a sorted permutation; which one, where elements compare equal, is not said. */
  method Sort<T(!new)>(a: array<T>, n: nat, leq: (T, T) -> bool)
    requires TotalOrder(leq) && n <= a.Length
    modifies a
    ensures SortedBy(leq, a[..n]) && multiset(a[..n]) == multiset(old(a[..n])) && a[n..] == old(a[n..])
  {
    for i := 0 to n
      invariant SortedBy(leq, a[..i]) && Rearranged(n, old(a[..]), a[..])
    {
      ghost var before := a[..];
      Sink(a, n, leq, i);
      RearrangedTwice(n, old(a[..]), before, a[..]);
    }
    assert a[..n] == a[..][..n] && a[n..] == a[..][n..];
    assert old(a[..n]) == old(a[..])[..n] && old(a[n..]) == old(a[..])[n..];
  }

  method Swap<T>(a: array<T>, n: nat, at: nat)
    requires 0 < at < n <= a.Length
    modifies a
    ensures a[..] == old(a[..])[at - 1 := old(a[at])][at := old(a[at - 1])]
    ensures Rearranged(n, old(a[..]), a[..])
  {
    a[at - 1], a[at] := a[at], a[at - 1];
    assert a[..] == old(a[..])[at - 1 := old(a[at])][at := old(a[at - 1])];
    SwapRearranges(n, old(a[..]), at);
  }

  lemma SwapRearranges<T>(n: nat, s: seq<T>, at: nat)
    requires 0 < at < n <= |s|
    ensures Rearranged(n, s, s[at - 1 := s[at]][at := s[at - 1]])
  {
    var t := s[at - 1 := s[at]][at := s[at - 1]];
    assert t[..n] == s[..n][at - 1 := s[at]][at := s[at - 1]];
  }

  /** Sorted but for the element at `at`, which may belong further down. */
  ghost predicate AllBut<T>(leq: (T, T) -> bool, s: seq<T>, at: nat) {
    forall j, k :: 0 <= j < k < |s| && k != at ==> leq(s[j], s[k])
  }

  lemma SwapKeeps<T(!new)>(leq: (T, T) -> bool, s: seq<T>, t: seq<T>, at: nat)
    requires TotalOrder(leq) && 0 < at < |s| && AllBut(leq, s, at) && !leq(s[at - 1], s[at])
    requires t == s[at - 1 := s[at]][at := s[at - 1]]
    ensures AllBut(leq, t, at - 1)
  {
    Total(leq, s[at - 1], s[at]);
  }

  lemma AtHome<T(!new)>(leq: (T, T) -> bool, s: seq<T>, at: nat)
    requires TotalOrder(leq) && at < |s| && AllBut(leq, s, at) && (at > 0 ==> leq(s[at - 1], s[at]))
    ensures SortedBy(leq, s)
  {
    forall j | 0 <= j < at
      ensures leq(s[j], s[at])
    {
      if j < at - 1 {
        Transitive(leq, s[j], s[at - 1], s[at]);
      }
    }
  }

  method SwapDown<T(!new)>(a: array<T>, n: nat, leq: (T, T) -> bool, i: nat, at: nat)
    requires TotalOrder(leq) && 0 < at <= i < n <= a.Length
    requires AllBut(leq, a[..i + 1], at) && !leq(a[at - 1], a[at])
    modifies a
    ensures AllBut(leq, a[..i + 1], at - 1) && Rearranged(n, old(a[..]), a[..])
  {
    hide TotalOrder, AllBut, Rearranged;
    ghost var before := a[..i + 1];
    Swap(a, n, at);
    assert a[..i + 1] == before[at - 1 := before[at]][at := before[at - 1]];
    SwapKeeps(leq, before, a[..i + 1], at);
  }

  /** Moves element `i` down to its place in the sorted prefix before it. */
  method Sink<T(!new)>(a: array<T>, n: nat, leq: (T, T) -> bool, i: nat)
    requires TotalOrder(leq) && i < n <= a.Length && SortedBy(leq, a[..i])
    modifies a
    ensures SortedBy(leq, a[..i + 1]) && Rearranged(n, old(a[..]), a[..])
  {
    hide TotalOrder, AllBut, SortedBy, Rearranged;
    var at := i;
    NewElement(leq, a[..i], a[i]);
    assert a[..i + 1] == a[..i] + [a[i]];
    NotYet(n, a[..]);
    while at > 0 && !leq(a[at - 1], a[at])
      invariant 0 <= at <= i && Rearranged(n, old(a[..]), a[..])
      invariant AllBut(leq, a[..i + 1], at)
    {
      ghost var before := a[..];
      SwapDown(a, n, leq, i, at);
      RearrangedTwice(n, old(a[..]), before, a[..]);
      at := at - 1;
    }
    AtHome(leq, a[..i + 1], at);
  }

  lemma NotYet<T>(n: nat, s: seq<T>)
    requires n <= |s|
    ensures Rearranged(n, s, s)
  {
  }

  lemma NewElement<T>(leq: (T, T) -> bool, s: seq<T>, x: T)
    requires SortedBy(leq, s)
    ensures AllBut(leq, s + [x], |s|)
  {
  }

  lemma Total<T(!new)>(leq: (T, T) -> bool, a: T, b: T)
    requires TotalOrder(leq)
    ensures leq(a, b) || leq(b, a)
  {
  }

  lemma Transitive<T(!new)>(leq: (T, T) -> bool, a: T, b: T, c: T)
    requires TotalOrder(leq) && leq(a, b) && leq(b, c)
    ensures leq(a, c)
  {
  }

  // ---------- What a permutation keeps ----------

  function Without<T>(s: seq<T>, k: nat): (r: seq<T>)
    requires k < |s|
    ensures |r| == |s| - 1
    ensures multiset(r) == multiset(s) - multiset{s[k]}
  {
    assert s == s[..k] + [s[k]] + s[k + 1..];
    s[..k] + s[k + 1..]
  }

  lemma PermutationHolds<T>(s: seq<T>, t: seq<T>, x: T)
    requires multiset(s) == multiset(t) && x in s
    ensures x in t && |s| == |t|
  {
    assert x in multiset(t);
    assert |multiset(s)| == |s| && |multiset(t)| == |t|;
  }

  lemma PermutationInside<T>(s: seq<T>, t: seq<T>)
    requires multiset(s) == multiset(t)
    ensures forall x :: x in s ==> x in t
  {
    forall x | x in s
      ensures x in t
    {
      PermutationHolds(s, t, x);
    }
  }

  /** A symmetric relation that holds between any two positions. */
  ghost predicate Pairwise<T(!new)>(rel: (T, T) -> bool, s: seq<T>) {
    forall i, j :: 0 <= i < |s| && 0 <= j < |s| && i != j ==> rel(s[i], s[j])
  }

  lemma PairwiseWithout<T(!new)>(rel: (T, T) -> bool, s: seq<T>, k: nat)
    requires k < |s| && Pairwise(rel, s)
    ensures Pairwise(rel, Without(s, k))
    ensures forall y :: y in Without(s, k) ==> rel(y, s[k]) && rel(s[k], y)
  {
    var rest := Without(s, k);
    assert forall i :: 0 <= i < |rest| ==> rest[i] == s[if i < k then i else i + 1];
  }

  lemma PairwiseAppend<T(!new)>(rel: (T, T) -> bool, s: seq<T>, x: T)
    requires Pairwise(rel, s) && forall y :: y in s ==> rel(y, x) && rel(x, y)
    ensures Pairwise(rel, s + [x])
  {
  }

  /** A pairwise relation does not depend on the order. */
  lemma {:induction false} PairwisePermutes<T(!new)>(rel: (T, T) -> bool, s: seq<T>, t: seq<T>)
    requires multiset(s) == multiset(t) && Pairwise(rel, s)
    ensures Pairwise(rel, t)
    decreases |t|
  {
    hide Pairwise, Without;
    if t == [] {
      assert |multiset(s)| == |s|;
      assert s == t;
    } else {
      var n := |t| - 1;
      var x := t[n];
      assert t == t[..n] + [x];
      PermutationHolds(t, s, x);
      var k :| 0 <= k < |s| && s[k] == x;
      PairwiseWithout(rel, s, k);
      PairwisePermutes(rel, Without(s, k), t[..n]);
      PermutationInside(t[..n], Without(s, k));
      PairwiseAppend(rel, t[..n], x);
    }
  }

  // ---------- A sorted order exists ----------

  ghost function Place<T(!new)>(leq: (T, T) -> bool, s: seq<T>, x: T): (k: nat)
    requires TotalOrder(leq) && SortedBy(leq, s)
    ensures k <= |s| && (k > 0 ==> leq(s[k - 1], x)) && (k < |s| ==> leq(x, s[k]))
  {
    if s == [] || leq(s[|s| - 1], x) then |s|
    else
      var k := Place(leq, s[..|s| - 1], x);
      assert k < |s| - 1 ==> s[..|s| - 1][k] == s[k];
      k
  }

  ghost function Insert<T(!new)>(leq: (T, T) -> bool, s: seq<T>, x: T): (r: seq<T>)
    requires TotalOrder(leq) && SortedBy(leq, s)
    ensures SortedBy(leq, r) && multiset(r) == multiset(s) + multiset{x}
  {
    var k := Place(leq, s, x);
    assert s == s[..k] + s[k..];
    InsertSorted(leq, s, x, k);
    s[..k] + [x] + s[k..]
  }

  lemma InsertSorted<T(!new)>(leq: (T, T) -> bool, s: seq<T>, x: T, k: nat)
    requires TotalOrder(leq) && SortedBy(leq, s)
    requires k <= |s| && (k > 0 ==> leq(s[k - 1], x)) && (k < |s| ==> leq(x, s[k]))
    ensures SortedBy(leq, s[..k] + [x] + s[k..])
  {
    hide TotalOrder;
    forall i | 0 <= i < |s|
      ensures if i < k then leq(s[i], x) else leq(x, s[i])
    {
      if i < k - 1 {
        Transitive(leq, s[i], s[k - 1], x);
      } else if i > k {
        Transitive(leq, x, s[k], s[i]);
      }
    }
    var r := s[..k] + [x] + s[k..];
    assert forall i :: 0 <= i < |r| ==> r[i] == if i < k then s[i] else if i == k then x else s[i - 1];
  }

  ghost function Arranged<T(!new)>(leq: (T, T) -> bool, s: seq<T>): (r: seq<T>)
    requires TotalOrder(leq)
    ensures SortedBy(leq, r) && multiset(r) == multiset(s)
  {
    if s == [] then []
    else
      assert s == s[..|s| - 1] + [s[|s| - 1]];
      Insert(leq, Arranged(leq, s[..|s| - 1]), s[|s| - 1])
  }
}
