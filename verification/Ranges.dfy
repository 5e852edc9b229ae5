/** Byte ranges of shards, kept in arrays that are sorted once and checked for overlap between neighbours.

    Two places do this: the extracted blobs (load_manifest in inkling_bind.c) and the packed trunk
    (inkling_packed_open).  The comparison looks at shard and start only, so it does not order an empty range
    against another range with the same start; `VerdictExactly` says when that matters.
*/
module Ranges {
  import Sorting

  /** InklingRange. */
  datatype Range = Range(shard: nat, start: nat, bytes: nat) {
    function End(): nat {
      start + bytes
    }

    predicate Covers(s: nat, b: nat) {
      shard == s && start <= b < start + bytes
    }
  }

  /** A range with what is stored about it: the file of a blob, or the place of the bytes in the packed file. */
  datatype Placed<T> = Placed(range: Range, data: T)

  /** compare_blobs and compare_ranges. */
  predicate InOrder<T>(a: Placed<T>, b: Placed<T>) {
    a.range.shard < b.range.shard || (a.range.shard == b.range.shard && a.range.start <= b.range.start)
  }

  predicate Apart(a: Range, b: Range) {
    a.shard != b.shard || a.End() <= b.start || b.End() <= a.start
  }

  predicate ApartPlaced<T>(a: Placed<T>, b: Placed<T>) {
    Apart(a.range, b.range)
  }

  predicate Sorted<T>(s: seq<Placed<T>>) {
    Sorting.SortedBy(InOrder<T>, s)
  }

  /** No neighbour starts inside the range before it. */
  predicate NeighboursApart<T>(s: seq<Placed<T>>) {
    forall i :: 0 < i < |s| ==> Follows(s[i - 1].range, s[i].range)
  }

  predicate Follows(a: Range, b: Range) {
    a.shard == b.shard ==> a.End() <= b.start
  }

  /** In a sorted array the check of neighbours reaches every later element. */
  lemma {:induction false} NeighboursSuffice<T>(s: seq<Placed<T>>, i: nat, j: nat)
    requires Sorted(s) && NeighboursApart(s) && i < j < |s|
    ensures Follows(s[i].range, s[j].range)
  {
    assert Follows(s[j - 1].range, s[j].range);
    if i < j - 1 {
      NeighboursSuffice(s, i, j - 1);
      assert InOrder(s[i], s[j - 1]) && InOrder(s[j - 1], s[j]);
    }
  }

  /** At most one range covers a byte, and nothing after it starts at or before the byte. */
  lemma CoverIsLast<T>(s: seq<Placed<T>>, i: nat, j: nat, shard: nat, b: nat)
    requires Sorted(s) && NeighboursApart(s) && i < |s| && j < |s| && s[i].range.Covers(shard, b)
    ensures j > i && s[j].range.shard == shard ==> s[j].range.start > b
    ensures s[j].range.Covers(shard, b) ==> i == j
  {
    if i < j {
      NeighboursSuffice(s, i, j);
    } else if j < i {
      NeighboursSuffice(s, j, i);
    }
  }

  // ---------- What the check decides ----------

  /** An empty range starts where another range that is not empty starts. */
  ghost predicate EmptyTie<T>(s: seq<Placed<T>>) {
    exists i, j :: 0 <= i < |s| && 0 <= j < |s| && Tied(s[i].range, s[j].range)
  }

  predicate Tied(a: Range, b: Range) {
    a.shard == b.shard && a.start == b.start && a.bytes == 0 && b.bytes > 0
  }

  lemma TiesPermute<T(!new)>(s: seq<Placed<T>>, t: seq<Placed<T>>)
    requires multiset(s) == multiset(t) && EmptyTie(s)
    ensures EmptyTie(t)
  {
    var i, j :| 0 <= i < |s| && 0 <= j < |s| && Tied(s[i].range, s[j].range);
    Sorting.PermutationHolds(s, t, s[i]);
    Sorting.PermutationHolds(s, t, s[j]);
    var k :| 0 <= k < |t| && t[k] == s[i];
    var l :| 0 <= l < |t| && t[l] == s[j];
    assert Tied(t[k].range, t[l].range);
  }

  /** The check is sound: it accepts only ranges that are pairwise apart. */
  lemma NeighboursSound<T(!new)>(s: seq<Placed<T>>, sorted: seq<Placed<T>>)
    requires multiset(s) == multiset(sorted) && Sorted(sorted) && NeighboursApart(sorted)
    ensures Sorting.Pairwise(ApartPlaced, s)
  {
    forall i, j | 0 <= i < |sorted| && 0 <= j < |sorted| && i != j
      ensures ApartPlaced(sorted[i], sorted[j])
    {
      if i < j {
        NeighboursSuffice(sorted, i, j);
      } else {
        NeighboursSuffice(sorted, j, i);
      }
    }
    Sorting.PairwisePermutes(ApartPlaced, sorted, s);
  }

  /** Without such a tie the check is also complete, whichever sorted order the library sort produced. */
  lemma NeighboursComplete<T(!new)>(s: seq<Placed<T>>, sorted: seq<Placed<T>>)
    requires multiset(s) == multiset(sorted) && Sorted(sorted)
    requires Sorting.Pairwise(ApartPlaced, s) && !EmptyTie(s)
    ensures NeighboursApart(sorted)
  {
    Sorting.PairwisePermutes(ApartPlaced, s, sorted);
    if EmptyTie(sorted) {
      TiesPermute(sorted, s);
    }
    forall i | 0 < i < |sorted|
      ensures Follows(sorted[i - 1].range, sorted[i].range)
    {
      assert ApartPlaced(sorted[i - 1], sorted[i]) && InOrder(sorted[i - 1], sorted[i]);
      assert !Tied(sorted[i].range, sorted[i - 1].range);
    }
  }

  predicate SmallFirst<T>(a: Placed<T>, b: Placed<T>) {
    InOrder(a, b) && (InOrder(b, a) ==> a.range.bytes <= b.range.bytes)
  }

  predicate LargeFirst<T>(a: Placed<T>, b: Placed<T>) {
    InOrder(a, b) && (InOrder(b, a) ==> a.range.bytes >= b.range.bytes)
  }

  /** With such a tie the verdict is up to the library sort: one sorted order passes the check and another fails. */
  lemma TieLeavesItOpen<T(!new)>(s: seq<Placed<T>>)
    requires Sorting.Pairwise(ApartPlaced, s) && EmptyTie(s)
    ensures exists t :: multiset(t) == multiset(s) && Sorted(t) && NeighboursApart(t)
    ensures exists t :: multiset(t) == multiset(s) && Sorted(t) && !NeighboursApart(t)
  {
    var passes, fails := Sorting.Arranged(SmallFirst<T>, s), Sorting.Arranged(LargeFirst<T>, s);
    assert Sorted(passes) && NeighboursApart(passes) by {
      Sorting.PairwisePermutes(ApartPlaced, s, passes);
      SmallFirstPasses(passes);
    }
    assert Sorted(fails) && !NeighboursApart(fails) by {
      TiesPermute(s, fails);
      LargeFirstFails(fails);
    }
  }

  /** The check passes whichever sorted order the library sort produces. */
  ghost predicate AnyOrderPasses<T(!new)>(s: seq<Placed<T>>) {
    forall t: seq<Placed<T>> :: multiset(t) == multiset(s) && Sorted(t) ==> NeighboursApart(t)
  }

  /** For ranges that lie apart: the check is certain to pass exactly when no empty range ties with another. */
  lemma VerdictExactly<T(!new)>(s: seq<Placed<T>>)
    requires Sorting.Pairwise(ApartPlaced, s)
    ensures AnyOrderPasses(s) <==> !EmptyTie(s)
  {
    if EmptyTie(s) {
      TieLeavesItOpen(s);
    } else {
      forall t: seq<Placed<T>> | multiset(t) == multiset(s) && Sorted(t)
        ensures NeighboursApart(t)
      {
        NeighboursComplete(s, t);
      }
    }
  }

  lemma SmallFirstPasses<T(!new)>(s: seq<Placed<T>>)
    requires Sorting.Pairwise(ApartPlaced, s) && Sorting.SortedBy(SmallFirst<T>, s)
    ensures Sorted(s) && NeighboursApart(s)
  {
    assert forall i, j :: 0 <= i < j < |s| ==> SmallFirst(s[i], s[j]) && ApartPlaced(s[i], s[j]);
  }

  lemma LargeFirstFails<T(!new)>(s: seq<Placed<T>>)
    requires EmptyTie(s) && Sorting.SortedBy(LargeFirst<T>, s)
    ensures Sorted(s) && !NeighboursApart(s)
  {
    var i, j :| 0 <= i < |s| && 0 <= j < |s| && Tied(s[i].range, s[j].range);
    assert j < i by {
      assert i < j ==> LargeFirst(s[i], s[j]);
    }
    assert LargeFirst(s[j], s[j + 1]) && (j + 1 < i ==> LargeFirst(s[j + 1], s[i]));
    assert !Follows(s[j].range, s[j + 1].range);
    assert forall a, b :: 0 <= a < b < |s| ==> LargeFirst(s[a], s[b]);
  }

  /** qsort and the loop over neighbours. */
  method SortAndCheck<T(!new)>(a: array<Placed<T>>) returns (ok: bool)
    modifies a
    ensures Sorted(a[..]) && multiset(a[..]) == multiset(old(a[..]))
    ensures ok <==> NeighboursApart(a[..])
  {
    assert a[..a.Length] == a[..];
    Sorting.Sort(a, a.Length, InOrder);
    assert a[..a.Length] == a[..];
    ok := CheckNeighbours(a);
  }

  /** The loop over neighbours. */
  method CheckNeighbours<T(!new)>(a: array<Placed<T>>) returns (ok: bool)
    requires Sorted(a[..])
    ensures ok <==> NeighboursApart(a[..])
  {
    ghost var s := a[..];
    var i := 1;
    while i < a.Length
      invariant i >= 1 && forall k :: 0 < k < i && k < a.Length ==> Follows(s[k - 1].range, s[k].range)
    {
      var previous, current := a[i - 1].range, a[i].range;
      assert InOrder(s[i - 1], s[i]);
      if previous.shard == current.shard && current.start - previous.start < previous.bytes {
        assert !Follows(s[i - 1].range, s[i].range);
        return false;
      }
      i := i + 1;
    }
    ok := true;
  }
}
