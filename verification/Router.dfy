/** Choosing experts: top-k by insertion (inkling_topk) and the reordering of the chosen experts by id. */
module Router {
  import opened Carrier
  import Pigeonhole

  // ---------- The order of a stable descending sort ----------

  /** Index `i` comes before index `j` in the stable descending sort of `x`. */
  predicate Before(x: Row, i: nat, j: nat)
    requires i < |x| && j < |x|
  {
    Less(x[j], x[i]) || (x[i] == x[j] && i < j)
  }

  predicate NoNaN(x: Row) {
    forall i :: 0 <= i < |x| ==> !x[i].NaN?
  }

  predicate Indices(s: seq<nat>, n: nat) {
    forall p :: 0 <= p < |s| ==> s[p] < n
  }

  /** Strictly sorted in that order. */
  predicate Ranked(x: Row, s: seq<nat>)
    requires Indices(s, |x|)
  {
    forall p, q :: 0 <= p < q < |s| ==> Before(x, s[p], s[q])
  }

  /** `s` is the best `k` of the first `n` indices, or all of them when there are fewer. */
  ghost predicate Best(x: Row, s: seq<nat>, n: nat, k: nat)
    requires n <= |x|
  {
    && |s| == (if n < k then n else k) && Indices(s, n) && Ranked(x, s)
    && forall i :: 0 <= i < n && i !in s ==> |s| == k && forall p :: 0 <= p < k ==> Before(x, s[p], i)
  }

  lemma BeforeTotal(x: Row, i: nat, j: nat)
    requires i < |x| && j < |x| && !x[i].NaN? && !x[j].NaN? && i != j
    ensures Before(x, i, j) <==> !Before(x, j, i)
  {
  }

  lemma BeforeTransitive(x: Row, i: nat, j: nat, k: nat)
    requires i < |x| && j < |x| && k < |x| && Before(x, i, j) && Before(x, j, k)
    ensures Before(x, i, k)
  {
  }

  /** A full stable descending sort of the indices of `x`. */
  ghost predicate StableSort(x: Row, order: seq<nat>) {
    |order| == |x| && Indices(order, |x|) && Ranked(x, order)
  }

  /** The result of inkling_topk is the first `k` indices of the stable descending sort. */
  lemma {:induction false} BestIsSortedPrefix(x: Row, s: seq<nat>, k: nat, order: seq<nat>, p: nat)
    requires NoNaN(x) && k <= |x| && Best(x, s, |x|, k) && StableSort(x, order) && p <= k
    ensures s[..p] == order[..p]
  {
    if p == 0 {
    } else {
      BestIsSortedPrefix(x, s, k, order, p - 1);
      var q := p - 1;
      assert s[..p] == s[..q] + [s[q]] && order[..p] == order[..q] + [order[q]];
      SortedCoversAll(x, order, s[q]);
      var at :| 0 <= at < |order| && order[at] == s[q];
      SameRank(x, s, order, q, at);
      if s[q] != order[q] {
        if order[q] in s {
          var b :| 0 <= b < |s| && s[b] == order[q];
          SameRank(x, order, s, q, b);
          BeforeTotal(x, s[q], order[q]);
        } else {
          BeforeTotal(x, s[q], order[q]);
        }
      }
    }
  }

  /** No score left out is greater than one chosen, and the chosen scores descend. */
  lemma BestAreGreatest(x: Row, s: seq<nat>, k: nat, p: nat, i: nat)
    requires NoNaN(x) && k <= |x| && Best(x, s, |x|, k) && p < k && i < |x|
    requires i !in s || exists q :: p <= q < k && s[q] == i
    ensures x[i] == x[s[p]] || x[i].NegInf? || x[s[p]].PosInf? || (x[i].Fin? && x[s[p]].Fin? && x[i].v < x[s[p]].v)
  {
    if i in s {
      var q :| p <= q < k && s[q] == i;
    }
  }

  /** An element that agrees with nothing among the first `q` can only be at `q` or later. */
  lemma SameRank(x: Row, s: seq<nat>, order: seq<nat>, q: nat, at: nat)
    requires Indices(s, |x|) && Indices(order, |x|) && Ranked(x, s) && q < |s| && at < |order|
    requires q <= |order| && s[..q] == order[..q] && order[at] == s[q]
    ensures at >= q
  {
    assert forall p :: 0 <= p < q ==> s[..q][p] == s[p] && order[..q][p] == order[p] && Before(x, s[p], s[q]);
  }

  /** A strictly ranked list of |x| indices contains every index. */
  lemma SortedCoversAll(x: Row, order: seq<nat>, i: nat)
    requires NoNaN(x) && StableSort(x, order) && i < |x|
    ensures i in order
  {
    var all := Pigeonhole.Below(|x|);
    assert Pigeonhole.NoRepeats(order);
    Pigeonhole.Covers(order, all);
    assert i in all;
  }

  // ---------- Insertion ----------

  /** `i` inserted at `position`, keeping at most `k` entries. */
  function Inserted(s: seq<nat>, position: nat, i: nat, k: nat): seq<nat>
    requires position <= |s|
  {
    var longer := s[..position] + [i] + s[position..];
    if |longer| > k then longer[..k] else longer
  }

  /** One round of the selection loop. */
  lemma InsertKeepsBest(x: Row, s: seq<nat>, i: nat, position: nat, k: nat)
    requires NoNaN(x) && i < |x| && k > 0 && Best(x, s, i, k) && position <= |s|
    requires forall p :: 0 <= p < position ==> Before(x, s[p], i)
    requires position < |s| ==> Before(x, i, s[position])
    ensures Best(x, Inserted(s, position, i, k), i + 1, k)
  {
    var longer, r := s[..position] + [i] + s[position..], Inserted(s, position, i, k);
    LongerRanked(x, s, i, position);
    forall j | 0 <= j < i + 1 && j !in r
      ensures |r| == k && forall p :: 0 <= p < k ==> Before(x, r[p], j)
    {
      LeftOut(x, s, longer, i, position, k, j);
    }
  }

  lemma LongerRanked(x: Row, s: seq<nat>, i: nat, position: nat)
    requires i < |x| && Indices(s, i) && Ranked(x, s) && position <= |s|
    requires forall p :: 0 <= p < position ==> Before(x, s[p], i)
    requires position < |s| ==> Before(x, i, s[position])
    ensures Indices(s[..position] + [i] + s[position..], i + 1)
    ensures Ranked(x, s[..position] + [i] + s[position..])
  {
    hide Before;
    var longer := s[..position] + [i] + s[position..];
    forall p, q | 0 <= p < q < |longer|
      ensures Before(x, longer[p], longer[q])
    {
      if p == position {
        if q - 1 > position {
          BeforeTransitive(x, i, s[position], s[q - 1]);
        }
      } else if q == position {
      } else {
        assert longer[p] == s[if p < position then p else p - 1];
        assert longer[q] == s[if q < position then q else q - 1];
      }
    }
  }

  lemma LeftOut(x: Row, s: seq<nat>, longer: seq<nat>, i: nat, position: nat, k: nat, j: nat)
    requires NoNaN(x) && i < |x| && k > 0 && Best(x, s, i, k) && position <= |s| && j <= i
    requires longer == s[..position] + [i] + s[position..] && Indices(longer, |x|) && Ranked(x, longer)
    requires j !in Inserted(s, position, i, k)
    ensures var r := Inserted(s, position, i, k); |r| == k && forall p :: 0 <= p < k ==> Before(x, r[p], j)
  {
    var r := Inserted(s, position, i, k);
    if j in longer {
      assert forall at :: 0 <= at < |longer| && at < k ==> r[at] == longer[at];
      var at :| 0 <= at < |longer| && longer[at] == j;
    } else {
      assert longer[position] == i;
      forall b | 0 <= b < |s|
        ensures s[b] in longer
      {
        assert longer[if b < position then b else b + 1] == s[b];
      }
      assert j !in s;
      forall p | 0 <= p < k
        ensures Before(x, r[p], j)
      {
        assert j < i;
        if p == position {
          assert longer[position + 1] == s[position];
          assert Before(x, s[position], j);
          BeforeTransitive(x, i, s[position], j);
        } else {
          assert r[p] == s[if p < position then p else p - 1];
        }
      }
    }
  }

  /** inkling_topk. */
  method TopK(x: Row, k: nat, indices: array<nat>) returns (ok: bool)
    modifies indices
    ensures ok <==> 0 < |x| && 0 < k <= |x| && k <= indices.Length && NoNaN(x)
    ensures ok ==> Best(x, indices[..k], |x|, k)
    ensures forall j :: k <= j < indices.Length ==> indices[j] == old(indices[j])
    ensures !ok ==> indices[..] == old(indices[..])
  {
    if |x| == 0 || k == 0 || k > |x| || indices.Length < k {
      return false;
    }
    for i := 0 to |x|
      invariant forall j :: 0 <= j < i ==> !x[j].NaN?
    {
      if x[i].NaN? {
        return false;
      }
    }
    var used := 0;
    for i := 0 to |x|
      invariant used == (if i < k then i else k) && Best(x, indices[..used], i, k)
      invariant forall j :: k <= j < indices.Length ==> indices[j] == old(indices[j])
    {
      used := Select(x, i, k, indices, used);
    }
    assert used == k;
    ok := true;
  }

  /** One round of inkling_topk. */
  method Select(x: Row, i: nat, k: nat, indices: array<nat>, used: nat) returns (more: nat)
    requires NoNaN(x) && i < |x| && 0 < k <= indices.Length && used <= k && Best(x, indices[..used], i, k)
    modifies indices
    ensures more == (if i + 1 < k then i + 1 else k) && Best(x, indices[..more], i + 1, k)
    ensures forall j :: k <= j < indices.Length ==> indices[j] == old(indices[j])
  {
    ghost var s := indices[..used];
    var position := 0;
    while position < used && !Less(x[indices[position]], x[i])
      invariant position <= used
      invariant forall p :: 0 <= p < position ==> Before(x, s[p], i)
    {
      assert s[position] == indices[position];
      position := position + 1;
    }
    if position < used {
      assert s[position] == indices[position];
    }
    InsertKeepsBest(x, s, i, position, k);
    if position == k {
      assert Inserted(s, position, i, k) == s;
      return used;
    }
    more := if used < k then used + 1 else used;
    assert indices[..position] == s[..position] && indices[position..used] == s[position..];
    InsertAt(indices, position, i, used, more);
    ghost var longer := s[..position] + [i] + s[position..];
    assert longer[..more] == Inserted(s, position, i, k) by {
      assert |longer| == more ==> longer[..more] == longer;
    }
  }

  /** Shift the entries from `position` on by one and store `i` there. */
  method InsertAt(indices: array<nat>, position: nat, i: nat, used: nat, more: nat)
    requires position < more <= indices.Length && used <= more <= used + 1 && position <= used
    modifies indices
    ensures indices[..more] == (old(indices[..position]) + [i] + old(indices[position..used]))[..more]
    ensures forall p :: more <= p < indices.Length ==> indices[p] == old(indices[p])
  {
    ghost var before := indices[..];
    var j := more - 1;
    while j > position
      invariant position <= j < more
      invariant forall p :: 0 <= p <= j && p < used ==> indices[p] == before[p]
      invariant forall p :: j < p < more ==> indices[p] == before[p - 1]
      invariant forall p :: more <= p < indices.Length ==> indices[p] == before[p]
    {
      indices[j] := indices[j - 1];
      j := j - 1;
    }
    indices[position] := i;
    ShiftedOn(before, indices[..], position, i, used, more);
    assert before[..position] == old(indices[..position]) && before[position..used] == old(indices[position..used]);
    assert indices[..][..more] == indices[..more];
  }

  lemma ShiftedOn(before: seq<nat>, after: seq<nat>, position: nat, i: nat, used: nat, more: nat)
    requires position < more <= |before| == |after| && used <= more <= used + 1 && position <= used
    requires (forall p :: 0 <= p < position ==> after[p] == before[p]) && after[position] == i
    requires forall p :: position < p < more ==> after[p] == before[p - 1]
    ensures after[..more] == (before[..position] + [i] + before[position..used])[..more]
  {
    var longer := before[..position] + [i] + before[position..used];
    assert forall p :: 0 <= p < more ==> after[p] == longer[p];
  }

  // ---------- Reordering the chosen experts ----------

  /** The chosen ids with their weights. */
  function Pairs(ids: seq<nat>, weights: Row): (r: seq<(nat, Float)>)
    requires |ids| <= |weights|
    ensures |r| == |ids|
  {
    seq(|ids|, i requires 0 <= i < |ids| => (ids[i], weights[i]))
  }

  /** Insert a pair into a list sorted by id, from the back. */
  function InsertPair(front: seq<(nat, Float)>, x: (nat, Float)): (r: seq<(nat, Float)>)
    ensures |r| == |front| + 1
  {
    if front == [] || front[|front| - 1].0 <= x.0 then front + [x]
    else InsertPair(front[..|front| - 1], x) + [front[|front| - 1]]
  }

  function SortPairs(s: seq<(nat, Float)>): (r: seq<(nat, Float)>)
    ensures |r| == |s|
  {
    if s == [] then [] else InsertPair(SortPairs(s[..|s| - 1]), s[|s| - 1])
  }

  predicate AscendingIds(s: seq<(nat, Float)>) {
    forall i, j :: 0 <= i < j < |s| ==> s[i].0 < s[j].0
  }

  predicate DistinctIds(s: seq<(nat, Float)>) {
    forall i, j :: 0 <= i < j < |s| ==> s[i].0 != s[j].0
  }

  lemma SameElements<T>(a: seq<T>, b: seq<T>, i: nat)
    requires multiset(a) == multiset(b) && i < |a|
    ensures exists j :: 0 <= j < |b| && b[j] == a[i]
  {
    assert a[i] in multiset(b);
    assert a[i] in b;
  }

  lemma {:induction false} InsertPairMultiset(front: seq<(nat, Float)>, x: (nat, Float))
    ensures multiset(InsertPair(front, x)) == multiset(front + [x])
  {
    if front != [] && front[|front| - 1].0 > x.0 {
      var n := |front| - 1;
      InsertPairMultiset(front[..n], x);
      assert front + [x] == front[..n] + [front[n]] + [x];
    }
  }

  lemma {:induction false} InsertPairKeeps(front: seq<(nat, Float)>, x: (nat, Float))
    requires AscendingIds(front) && (forall i :: 0 <= i < |front| ==> front[i].0 != x.0)
    ensures AscendingIds(InsertPair(front, x))
  {
    if front != [] && front[|front| - 1].0 > x.0 {
      var n := |front| - 1;
      InsertPairKeeps(front[..n], x);
      InsertPairMultiset(front[..n], x);
      AllSmaller(front, x, InsertPair(front[..n], x));
      hide AscendingIds;
      AscendingSnoc(InsertPair(front[..n], x), front[n]);
    } else {
      AscendingSnoc(front, x);
    }
  }

  lemma AscendingSnoc(s: seq<(nat, Float)>, x: (nat, Float))
    requires AscendingIds(s) && (s == [] || s[|s| - 1].0 <= x.0) && forall i :: 0 <= i < |s| ==> s[i].0 != x.0
    ensures AscendingIds(s + [x])
  {
  }

  lemma AllSmaller(front: seq<(nat, Float)>, x: (nat, Float), shorter: seq<(nat, Float)>)
    requires front != [] && AscendingIds(front) && front[|front| - 1].0 > x.0
    requires multiset(shorter) == multiset(front[..|front| - 1] + [x])
    ensures forall i :: 0 <= i < |shorter| ==> shorter[i].0 < front[|front| - 1].0
  {
    var source := front[..|front| - 1] + [x];
    forall i | 0 <= i < |shorter|
      ensures shorter[i].0 < front[|front| - 1].0
    {
      SameElements(shorter, source, i);
      var j :| 0 <= j < |source| && source[j] == shorter[i];
    }
  }

  lemma NothingAscends()
    ensures AscendingIds([])
  {
  }

  /** The reordering keeps every (id, weight) pair together and yields strictly ascending ids. */
  lemma {:induction false} SortPairsSorts(s: seq<(nat, Float)>)
    requires DistinctIds(s)
    ensures AscendingIds(SortPairs(s)) && multiset(SortPairs(s)) == multiset(s)
  {
    hide InsertPair, AscendingIds;
    if s == [] {
      NothingAscends();
    } else {
      var n := |s| - 1;
      SortPairsSorts(s[..n]);
      var front := SortPairs(s[..n]);
      forall i | 0 <= i < n
        ensures front[i].0 != s[n].0
      {
        SameElements(front, s[..n], i);
      }
      InsertPairKeeps(front, s[n]);
      InsertPairMultiset(front, s[n]);
      assert s == s[..n] + [s[n]];
    }
  }

  /** The first entries of the two buffers are these pairs. */
  ghost predicate HoldsPairs(selected: array<nat>, mixture: array<Float>, pairs: seq<(nat, Float)>)
    reads selected, mixture
  {
    && |pairs| <= selected.Length && |pairs| <= mixture.Length
    && forall p :: 0 <= p < |pairs| ==> selected[p] == pairs[p].0 && mixture[p] == pairs[p].1
  }

  /** The inner loop: entries with larger ids move up by one; the hole ends at `j`. */
  method MoveHole(selected: array<nat>, mixture: array<Float>, i: nat, id: nat, ghost front: seq<(nat, Float)>,
                  ghost weight: Float)
    returns (j: nat)
    requires |front| == i < selected.Length && i < mixture.Length && HoldsPairs(selected, mixture, front)
    modifies selected, mixture
    ensures j <= i && InsertPair(front, (id, weight)) == front[..j] + [(id, weight)] + front[j..]
    ensures forall p :: 0 <= p < j ==> selected[p] == front[p].0 && mixture[p] == front[p].1
    ensures forall p :: j < p <= i ==> selected[p] == front[p - 1].0 && mixture[p] == front[p - 1].1
    ensures forall p :: i < p < selected.Length ==> selected[p] == old(selected[p])
    ensures forall p :: i < p < mixture.Length ==> mixture[p] == old(mixture[p])
  {
    hide InsertPair;
    j := i;
    assert front[..i] == front && front[i..] == [];
    while j != 0 && selected[j - 1] > id
      invariant 0 <= j <= i
      invariant forall p :: 0 <= p < j ==> selected[p] == front[p].0 && mixture[p] == front[p].1
      invariant forall p :: j < p <= i ==> selected[p] == front[p - 1].0 && mixture[p] == front[p - 1].1
      invariant forall p :: i < p < selected.Length ==> selected[p] == old(selected[p])
      invariant forall p :: i < p < mixture.Length ==> mixture[p] == old(mixture[p])
      invariant InsertPair(front, (id, weight)) == InsertPair(front[..j], (id, weight)) + front[j..]
    {
      InsertBefore(front, j, (id, weight));
      selected[j] := selected[j - 1];
      mixture[j] := mixture[j - 1];
      j := j - 1;
    }
    InsertHere(front, j, (id, weight));
  }

  /** The insertion of the entry behind `front`. */
  method InsertExpert(selected: array<nat>, mixture: array<Float>, i: nat, ghost front: seq<(nat, Float)>)
    requires |front| == i < selected.Length && i < mixture.Length && HoldsPairs(selected, mixture, front)
    modifies selected, mixture
    ensures HoldsPairs(selected, mixture, InsertPair(front, old((selected[i], mixture[i]))))
    ensures forall j :: i < j < selected.Length ==> selected[j] == old(selected[j])
    ensures forall j :: i < j < mixture.Length ==> mixture[j] == old(mixture[j])
  {
    hide InsertPair;
    var id, weight := selected[i], mixture[i];
    var j := MoveHole(selected, mixture, i, id, front, weight);
    selected[j] := id;
    mixture[j] := weight;
    ghost var result := front[..j] + [(id, weight)] + front[j..];
    forall p | 0 <= p < |result|
      ensures selected[p] == result[p].0 && mixture[p] == result[p].1
    {
      WithHole(front, j, (id, weight), p);
    }
  }

  lemma WithHole<T>(front: seq<T>, j: nat, x: T, p: nat)
    requires j <= |front| && p <= |front|
    ensures (front[..j] + [x] + front[j..])[p] == (if p < j then front[p] else if p == j then x else front[p - 1])
  {
  }

  /** A larger id moves up by one. */
  lemma InsertBefore(front: seq<(nat, Float)>, j: nat, x: (nat, Float))
    requires 0 < j <= |front| && front[j - 1].0 > x.0
    requires InsertPair(front, x) == InsertPair(front[..j], x) + front[j..]
    ensures InsertPair(front, x) == InsertPair(front[..j - 1], x) + front[j - 1..]
  {
    assert front[..j][..j - 1] == front[..j - 1];
    assert [front[j - 1]] + front[j..] == front[j - 1..];
    assert InsertPair(front[..j], x) == InsertPair(front[..j - 1], x) + [front[j - 1]];
  }

  /** Where the hole stops, the pair goes. */
  lemma InsertHere(front: seq<(nat, Float)>, j: nat, x: (nat, Float))
    requires j <= |front| && (j > 0 ==> front[j - 1].0 <= x.0)
    requires InsertPair(front, x) == InsertPair(front[..j], x) + front[j..]
    ensures InsertPair(front, x) == front[..j] + [x] + front[j..]
  {
  }

  /** The reordering loop of inkling_mlp_forward: the routed experts run in ascending id order, each with its
      own weight; the shared weights behind them stay where they are. */
  method ReorderExperts(selected: array<nat>, mixture: array<Float>, n: nat)
    requires n <= selected.Length && n <= mixture.Length
    modifies selected, mixture
    ensures HoldsPairs(selected, mixture, SortPairs(old(Pairs(selected[..n], mixture[..n]))))
    ensures forall j :: n <= j < selected.Length ==> selected[j] == old(selected[j])
    ensures forall j :: n <= j < mixture.Length ==> mixture[j] == old(mixture[j])
  {
    hide InsertPair, SortPairs, HoldsPairs;
    if n == 0 {
      NoPairs(selected, mixture);
      return;
    }
    ghost var before := Pairs(selected[..n], mixture[..n]);
    SortOne(before);
    HoldsFirst(selected, mixture, before[..1]);
    for i := 1 to n
      invariant HoldsPairs(selected, mixture, SortPairs(before[..i]))
      invariant forall j :: i <= j < n ==> selected[j] == before[j].0 && mixture[j] == before[j].1
      invariant forall j :: n <= j < selected.Length ==> selected[j] == old(selected[j])
      invariant forall j :: n <= j < mixture.Length ==> mixture[j] == old(mixture[j])
    {
      SortNext(before, i);
      InsertExpert(selected, mixture, i, SortPairs(before[..i]));
    }
    assert before[..n] == before;
  }

  lemma NoPairs(selected: array<nat>, mixture: array<Float>)
    ensures HoldsPairs(selected, mixture, SortPairs(Pairs(selected[..0], mixture[..0])))
  {
  }

  lemma HoldsFirst(selected: array<nat>, mixture: array<Float>, first: seq<(nat, Float)>)
    requires |first| == 1 && 0 < selected.Length && 0 < mixture.Length
    requires first[0] == (selected[0], mixture[0])
    ensures HoldsPairs(selected, mixture, first)
  {
  }

  lemma SortNext(s: seq<(nat, Float)>, i: nat)
    requires i < |s|
    ensures SortPairs(s[..i + 1]) == InsertPair(SortPairs(s[..i]), s[i])
  {
    assert s[..i + 1][..i] == s[..i];
  }

  lemma SortOne(s: seq<(nat, Float)>)
    requires s != []
    ensures SortPairs(s[..1]) == s[..1]
  {
    assert s[..1][..0] == [];
    assert SortPairs(s[..1][..0]) == [];
  }

  /** The distinct indices inkling_topk returns make the reordering strict. */
  lemma BestGivesDistinctPairs(x: Row, s: seq<nat>, k: nat, weights: Row)
    requires NoNaN(x) && Best(x, s, |x|, k) && |s| <= |weights|
    ensures DistinctIds(Pairs(s, weights))
  {
    assert forall p, q :: 0 <= p < q < |s| ==> Before(x, s[p], s[q]);
  }
}
