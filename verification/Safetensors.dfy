/** The checks that inkling_safetensors.c makes on a shard header: tensor sizes and the tiling of the payload.

    `Partition` says without any order what an acceptable set of byte ranges is; the program sorts the ranges and
    scans them once.  `ParseHeader` is proved to accept exactly the partitions.
*/
module Safetensors {
  import opened Wrappers
  import opened Counters
  import opened Tensors
  import Sorting

  // ---------- Sizes ----------

  const MAX_RANK: nat := 8

  function ProductOf(shape: seq<nat>): nat {
    if shape == [] then 1 else ProductOf(shape[..|shape| - 1]) * shape[|shape| - 1]
  }

  /** The dimensions before the first zero. */
  function Leading(shape: seq<nat>): (r: seq<nat>)
    ensures r <= shape
  {
    if shape == [] || shape[0] == 0 then [] else [shape[0]] + Leading(shape[1..])
  }

  /** The size that the format prescribes, with no bound on the intermediate products. */
  predicate SizeMatches(t: Info) {
    t.dtype.Width() > 0 && |t.shape| <= MAX_RANK && t.start <= t.end
    && ProductOf(t.shape) * t.dtype.Width() == t.end - t.start
  }

  /** InklingTensorInfo. */
  datatype Info = Info(dtype: Dtype, shape: seq<nat>, start: nat, end: nat)

  lemma {:induction false} PrefixNonZero(shape: seq<nat>)
    requires 0 !in shape
    ensures ProductOf(shape) >= 1
    ensures forall d :: 0 <= d <= |shape| ==> ProductOf(shape[..d]) <= ProductOf(shape)
  {
    if shape == [] {
    } else {
      var n := |shape| - 1;
      PrefixNonZero(shape[..n]);
      assert ProductOf(shape[..n]) * shape[n] >= ProductOf(shape[..n]) by {
        Grows(ProductOf(shape[..n]), shape[n]);
      }
      forall d | 0 <= d <= |shape|
        ensures ProductOf(shape[..d]) <= ProductOf(shape)
      {
        if d <= n {
          assert shape[..n][..d] == shape[..d];
        } else {
          assert shape[..d] == shape;
        }
      }
    }
  }

  lemma Grows(a: nat, b: nat)
    requires b >= 1
    ensures a * b >= a
  {
    assert a * b == a * (b - 1) + a;
  }

  ghost predicate PrefixesFit(shape: seq<nat>, n: nat) {
    forall d :: 0 <= d <= n && d <= |shape| ==> ProductOf(shape[..d]) <= UINT64_MAX
  }

  /** After a zero dimension every product is zero, so only the dimensions before it matter. */
  lemma {:induction false} LeadingDecides(shape: seq<nat>)
    ensures PrefixesFit(shape, |shape|) <==> ProductOf(Leading(shape)) <= UINT64_MAX
  {
    var lead := Leading(shape);
    LeadingIsPrefix(shape);
    PrefixNonZero(lead);
    assert shape[..|lead|] == lead;
    forall d | 0 <= d <= |shape|
      ensures if d <= |lead| then ProductOf(shape[..d]) <= ProductOf(lead) else ProductOf(shape[..d]) == 0
    {
      if d <= |lead| {
        assert shape[..d] == lead[..d];
      } else {
        ZeroStays(shape, |lead|, d);
      }
    }
  }

  lemma {:induction false} LeadingIsPrefix(shape: seq<nat>)
    ensures 0 !in Leading(shape)
    ensures |Leading(shape)| < |shape| ==> shape[|Leading(shape)|] == 0
  {
    if shape != [] && shape[0] != 0 {
      LeadingIsPrefix(shape[1..]);
    }
  }

  lemma {:induction false} ZeroStays(shape: seq<nat>, z: nat, d: nat)
    requires z < d <= |shape| && shape[z] == 0
    ensures ProductOf(shape[..d]) == 0
  {
    assert shape[..d][..d - 1] == shape[..d - 1];
    if d > z + 1 {
      ZeroStays(shape, z, d - 1);
    }
  }

  /** The length of `n` elements: 4 bytes each for F32, 2 for BF16, 8 for I64, 1 for F8_E4M3 and U8; no length is right
      for an unknown type, and none for more than eight dimensions. */
  lemma ElementSizes(n: nat, start: nat, end: nat)
    ensures SizeMatches(Info(F32, [n], start, end)) <==> end == start + 4 * n
    ensures SizeMatches(Info(BF16, [n], start, end)) <==> end == start + 2 * n
    ensures SizeMatches(Info(I64, [n], start, end)) <==> end == start + 8 * n
    ensures SizeMatches(Info(F8E4M3, [n], start, end)) <==> end == start + n
    ensures SizeMatches(Info(U8, [n], start, end)) <==> end == start + n
    ensures !SizeMatches(Info(Unknown, [n], start, end))
    ensures !SizeMatches(Info(U8, [n, 1, 1, 1, 1, 1, 1, 1, 1], start, end))
  {
    assert [n][..0] == [] && ProductOf([n][..0]) == 1;
    assert ProductOf([n]) == n;
  }

  lemma DivisionGuard(a: nat, b: nat, m: nat)
    requires b > 0
    ensures a > m / b <==> a * b > m
  {
    assert m == b * (m / b) + m % b;
    if a > m / b {
      assert (a - m / b - 1) * b >= 0;
    } else {
      assert (m / b - a) * b >= 0;
    }
  }

  /** With no zero dimension the bound adds nothing: the size already fits 64 bits. */
  lemma NonZeroShapesFit(t: Info)
    requires SizeMatches(t) && 0 !in t.shape && t.end <= UINT64_MAX
    ensures ProductOf(Leading(t.shape)) <= UINT64_MAX
  {
    LeadingIsPrefix(t.shape);
    assert Leading(t.shape) == t.shape;
    Grows(ProductOf(t.shape), t.dtype.Width());
  }

  /** With a zero dimension the answer depends on the order of the dimensions. */
  lemma ZeroShapesDependOnOrder()
    ensures var a := Info(U8, [0x100_0000_0000, 0x100_0000_0000, 0], 0, 0);
            var b := Info(U8, [0, 0x100_0000_0000, 0x100_0000_0000], 0, 0);
            && SizeMatches(a) && SizeMatches(b)
            && ProductOf(Leading(a.shape)) > UINT64_MAX && ProductOf(Leading(b.shape)) <= UINT64_MAX
  {
    var big := 0x100_0000_0000;
    assert [big, big, 0][1..] == [big, 0] && [big, 0][1..] == [0] && Leading([0]) == [];
    assert Leading([big, 0]) == [big];
    assert Leading([big, big, 0]) == [big, big];
    assert [big, big][..1] == [big] && [big][..0] == [] && ProductOf([big]) == big;
    ZeroStays([big, big, 0], 2, 3);
    ZeroStays([0, big, big], 0, 3);
    assert [big, big, 0][..3] == [big, big, 0] && [0, big, big][..3] == [0, big, big];
  }

  /** tensor_size_is_valid: the multiplication stops at the first product that does not fit 64 bits. */
  method SizeIsValid(t: Info) returns (ok: bool)
    requires t.end <= UINT64_MAX && forall d :: 0 <= d < |t.shape| ==> t.shape[d] <= UINT64_MAX
    ensures ok <==> SizeMatches(t) && ProductOf(Leading(t.shape)) <= UINT64_MAX
  {
    hide ProductOf, PrefixesFit, Leading, SizeMatches;
    LeadingDecides(t.shape);
    var width := t.dtype.Width();
    if width == 0 || |t.shape| > MAX_RANK || t.end < t.start {
      SizeNeeds(t);
      return false;
    }
    var elements := 1;
    EmptyProduct(t.shape);
    for dimension := 0 to |t.shape|
      invariant elements == ProductOf(t.shape[..dimension]) && PrefixesFit(t.shape, dimension)
    {
      var size := t.shape[dimension];
      NextProduct(t.shape, dimension);
      if size != 0 {
        DivisionGuard(elements, size, UINT64_MAX);
        if elements > UINT64_MAX / size {
          return false;
        }
      }
      elements := elements * size;
    }
    WholeProduct(t, elements);
    ok := elements <= UINT64_MAX / width && elements * width == t.end - t.start;
  }

  lemma SizeNeeds(t: Info)
    ensures SizeMatches(t) ==> t.dtype.Width() > 0 && |t.shape| <= MAX_RANK && t.start <= t.end
  {
  }

  lemma EmptyProduct(shape: seq<nat>)
    ensures ProductOf(shape[..0]) == 1 && PrefixesFit(shape, 0)
  {
    assert shape[..0] == [];
  }

  lemma NextProduct(shape: seq<nat>, d: nat)
    requires d < |shape| && PrefixesFit(shape, d)
    ensures ProductOf(shape[..d + 1]) == ProductOf(shape[..d]) * shape[d]
    ensures PrefixesFit(shape, d + 1) <==> ProductOf(shape[..d + 1]) <= UINT64_MAX
    ensures shape[d] == 0 ==> PrefixesFit(shape, d + 1)
    ensures !PrefixesFit(shape, d + 1) ==> !PrefixesFit(shape, |shape|)
  {
    assert shape[..d + 1][..d] == shape[..d];
  }

  lemma WholeProduct(t: Info, elements: nat)
    requires t.dtype.Width() > 0 && |t.shape| <= MAX_RANK && t.start <= t.end <= UINT64_MAX
    requires elements == ProductOf(t.shape[..|t.shape|])
    ensures (elements <= UINT64_MAX / t.dtype.Width() && elements * t.dtype.Width() == t.end - t.start)
            <==> SizeMatches(t)
  {
    assert t.shape[..|t.shape|] == t.shape;
    DivisionGuard(elements, t.dtype.Width(), UINT64_MAX);
  }

  // ---------- The tiling of the payload ----------

  /** A stretch of the payload. */
  datatype Range = Range(start: nat, bytes: nat) {
    function End(): nat {
      start + bytes
    }

    predicate Covers(b: nat) {
      start <= b < start + bytes
    }
  }

  /** Neither range reaches into the other; an empty range may lie at a boundary but not strictly inside. */
  predicate Apart(a: Range, b: Range) {
    a.End() <= b.start || b.End() <= a.start
  }

  /** The ranges lie in [0, payload), pairwise apart, and every byte is in one of them. */
  ghost predicate Partition(s: seq<Range>, payload: nat) {
    && (forall i :: 0 <= i < |s| ==> s[i].End() <= payload)
    && Sorting.Pairwise(Apart, s)
    && (forall b :: 0 <= b < payload ==> Covered(s, b))
  }

  ghost predicate Covered(s: seq<Range>, b: nat) {
    exists i :: 0 <= i < |s| && s[i].Covers(b)
  }

  /** One after another from `first` to `last`. */
  predicate Chained(s: seq<Range>, first: nat, last: nat) {
    if s == [] then first == last
    else s[|s| - 1].End() == last && Chained(s[..|s| - 1], first, s[|s| - 1].start)
  }

  /** compare_offsets: by start, then by length. */
  predicate Earlier(a: Range, b: Range) {
    a.start < b.start || (a.start == b.start && a.bytes <= b.bytes)
  }

  lemma {:induction false} ChainedOrder(s: seq<Range>, first: nat, last: nat)
    requires Chained(s, first, last)
    ensures first <= last && forall i :: 0 <= i < |s| ==> first <= s[i].start && s[i].End() <= last
    ensures forall i, j :: 0 <= i < j < |s| ==> s[i].End() <= s[j].start
    ensures forall b :: first <= b < last ==> Covered(s, b)
  {
    if s == [] {
    } else {
      var n := |s| - 1;
      ChainedOrder(s[..n], first, s[n].start);
      assert forall i :: 0 <= i < n ==> s[..n][i] == s[i];
      forall b | first <= b < last
        ensures Covered(s, b)
      {
        if b >= s[n].start {
          assert s[n].Covers(b);
        } else {
          assert Covered(s[..n], b);
          var i :| 0 <= i < n && s[..n][i].Covers(b);
          assert s[i].Covers(b);
        }
      }
    }
  }

  lemma ChainIsPartition(s: seq<Range>, payload: nat)
    requires Chained(s, 0, payload)
    ensures Partition(s, payload)
  {
    ChainedOrder(s, 0, payload);
  }

  /** In a sorted partition each range starts where the one before ends. */
  lemma {:induction false} SortedPartitionIsChain(s: seq<Range>, payload: nat)
    requires Partition(s, payload) && Sorting.SortedBy(Earlier, s)
    ensures Chained(s, 0, payload)
  {
    SortedApart(s);
    if s == [] {
      assert !Covered(s, 0);
    } else {
      LastEnds(s, payload);
      FrontIsPartition(s, payload);
      SortedPartitionIsChain(s[..|s| - 1], s[|s| - 1].start);
    }
  }

  lemma SortedApart(s: seq<Range>)
    requires Sorting.Pairwise(Apart, s) && Sorting.SortedBy(Earlier, s)
    ensures forall i, j :: 0 <= i < j < |s| ==> s[i].End() <= s[j].start
  {
    forall i, j | 0 <= i < j < |s|
      ensures s[i].End() <= s[j].start
    {
      assert Apart(s[i], s[j]) && Earlier(s[i], s[j]);
    }
  }

  lemma LastEnds(s: seq<Range>, payload: nat)
    requires s != [] && Partition(s, payload)
    requires forall i, j :: 0 <= i < j < |s| ==> s[i].End() <= s[j].start
    ensures s[|s| - 1].End() == payload
  {
    var n := |s| - 1;
    assert !Covered(s, s[n].End());
  }

  lemma FrontIsPartition(s: seq<Range>, payload: nat)
    requires s != [] && Partition(s, payload)
    requires forall i, j :: 0 <= i < j < |s| ==> s[i].End() <= s[j].start
    ensures Partition(s[..|s| - 1], s[|s| - 1].start)
  {
    var n := |s| - 1;
    forall b | 0 <= b < s[n].start
      ensures Covered(s[..n], b)
    {
      assert Covered(s, b);
      var i :| 0 <= i < |s| && s[i].Covers(b);
      assert s[..n][i].Covers(b);
    }
  }

  lemma {:induction false} ChainFront(s: seq<Range>, first: nat, last: nat, i: nat)
    requires i < |s|
    ensures Chained(s, first, last) ==> Chained(s[..i], first, s[i].start)
  {
    var n := |s| - 1;
    if i < n {
      ChainFront(s[..n], first, s[n].start, i);
      assert s[..n][..i] == s[..i];
    }
  }

  /** A chain has one end. */
  lemma ChainEnds(s: seq<Range>, first: nat, a: nat, b: nat)
    ensures Chained(s, first, a) && Chained(s, first, b) ==> a == b
  {
  }

  function Total(s: seq<Range>): nat {
    if s == [] then 0 else Total(s[..|s| - 1]) + s[|s| - 1].bytes
  }

  lemma {:induction false} ChainTotal(s: seq<Range>, first: nat, last: nat)
    requires Chained(s, first, last)
    ensures first + Total(s) == last
  {
    if s == [] {
    } else {
      ChainTotal(s[..|s| - 1], first, s[|s| - 1].start);
    }
  }

  // ---------- The header ----------

  const METADATA_NAME: string := "__metadata__"

  /** A member of the header object: `info` is absent when the value has not the form of a tensor; `strings` says
      that the value is an object of strings only. */
  datatype Member = Member(name: string, info: Option<Info>, strings: bool)

  predicate Word(t: Info) {
    t.end <= UINT64_MAX && forall d :: 0 <= d < |t.shape| ==> t.shape[d] <= UINT64_MAX
  }

  predicate WellFormed(m: Member, payload: nat) {
    if m.name == METADATA_NAME then m.strings
    else 0 < |m.name| < NAME_LIMIT && '\0' !in m.name && m.info.Some?
         && SizeMatches(m.info.value) && ProductOf(Leading(m.info.value.shape)) <= UINT64_MAX
         && m.info.value.end <= payload
  }

  function Described1(m: Member): (r: Described)
    requires m.info.Some? && m.info.value.start <= m.info.value.end
  {
    var t := m.info.value;
    Described(m.name, Meta(t.dtype, t.shape, t.start, t.end - t.start))
  }

  /** Metadata contributes no tensor. */
  function One(m: Member, payload: nat): (r: seq<Described>)
    requires WellFormed(m, payload)
    ensures |r| <= 1
  {
    if m.name == METADATA_NAME then [] else [Described1(m)]
  }

  /** The tensors among the first members, in member order. */
  function TensorsOf(s: seq<Member>, payload: nat): (r: seq<Described>)
    requires forall i :: 0 <= i < |s| ==> WellFormed(s[i], payload)
    ensures |r| <= |s|
  {
    if s == [] then []
    else
      assert WellFormed(s[|s| - 1], payload);
      TensorsOf(s[..|s| - 1], payload) + One(s[|s| - 1], payload)
  }

  function RangeOf(t: Described): Range {
    Range(t.meta.offset, t.meta.bytes)
  }

  function RangesOf(s: seq<Described>): (r: seq<Range>)
    ensures |r| == |s| && forall i :: 0 <= i < |s| ==> r[i] == RangeOf(s[i])
  {
    seq(|s|, i requires 0 <= i < |s| => RangeOf(s[i]))
  }

  predicate EarlierTensor(a: Described, b: Described) {
    Earlier(RangeOf(a), RangeOf(b))
  }

  predicate ApartTensor(a: Described, b: Described) {
    Apart(RangeOf(a), RangeOf(b))
  }

  ghost predicate Acceptable(members: seq<Member>, payload: nat) {
    && (forall i :: 0 <= i < |members| ==> WellFormed(members[i], payload))
    && Partition(RangesOf(TensorsOf(members, payload)), payload)
  }

  lemma ApartPermutes(s: seq<Described>, t: seq<Described>)
    requires multiset(s) == multiset(t) && Sorting.Pairwise(Apart, RangesOf(s))
    ensures Sorting.Pairwise(Apart, RangesOf(t))
  {
    var before, after := RangesOf(s), RangesOf(t);
    forall i, j | 0 <= i < |s| && 0 <= j < |s| && i != j
      ensures ApartTensor(s[i], s[j])
    {
      assert Apart(before[i], before[j]);
    }
    Sorting.PairwisePermutes(ApartTensor, s, t);
    forall i, j | 0 <= i < |t| && 0 <= j < |t| && i != j
      ensures Apart(after[i], after[j])
    {
      assert ApartTensor(t[i], t[j]);
    }
  }

  lemma SameRange(s: seq<Described>, t: seq<Described>, i: nat) returns (j: nat)
    requires multiset(s) == multiset(t) && i < |s|
    ensures j < |t| && RangesOf(t)[j] == RangesOf(s)[i]
  {
    Sorting.PermutationHolds(s, t, s[i]);
    j :| 0 <= j < |t| && t[j] == s[i];
  }

  /** Rearranging tensors keeps a partition. */
  lemma PartitionPermutes(s: seq<Described>, t: seq<Described>, payload: nat)
    requires multiset(s) == multiset(t) && Partition(RangesOf(s), payload)
    ensures Partition(RangesOf(t), payload)
  {
    hide RangesOf, Sorting.Pairwise;
    var before, after := RangesOf(s), RangesOf(t);
    ApartPermutes(s, t);
    forall i | 0 <= i < |t|
      ensures after[i].End() <= payload
    {
      var j := SameRange(t, s, i);
    }
    forall b | 0 <= b < payload
      ensures Covered(after, b)
    {
      assert Covered(before, b);
      var j :| 0 <= j < |before| && before[j].Covers(b);
      var i := SameRange(s, t, j);
      assert after[i].Covers(b);
    }
  }

  /** The sorted scan accepts exactly the partitions, in whatever order the members came. */
  lemma ScanDecides(members: seq<Described>, sorted: seq<Described>, payload: nat)
    requires multiset(members) == multiset(sorted) && Sorting.SortedBy(EarlierTensor, sorted)
    ensures Chained(RangesOf(sorted), 0, payload) <==> Partition(RangesOf(members), payload)
  {
    if Chained(RangesOf(sorted), 0, payload) {
      ChainIsPartition(RangesOf(sorted), payload);
      PartitionPermutes(sorted, members, payload);
    }
    if Partition(RangesOf(members), payload) {
      PartitionPermutes(members, sorted, payload);
      assert Sorting.SortedBy(Earlier, RangesOf(sorted)) by {
        assert forall i, j :: 0 <= i < j < |sorted| ==> EarlierTensor(sorted[i], sorted[j]);
      }
      SortedPartitionIsChain(RangesOf(sorted), payload);
    }
  }

  lemma TensorsSnoc(s: seq<Member>, m: Member, payload: nat)
    requires WellFormed(m, payload) && forall i :: 0 <= i < |s| ==> WellFormed(s[i], payload)
    ensures TensorsOf(s + [m], payload) == TensorsOf(s, payload) + One(m, payload)
  {
    hide WellFormed, One;
    var all := s + [m];
    assert all[..|all| - 1] == s;
  }

  lemma WithoutSnoc<T>(s: seq<T>, k: nat)
    requires k < |s| - 1
    ensures Sorting.Without(s, k) == Sorting.Without(s[..|s| - 1], k) + [s[|s| - 1]]
  {
  }

  lemma WithoutLast<T>(s: seq<T>)
    requires s != []
    ensures Sorting.Without(s, |s| - 1) == s[..|s| - 1]
  {
  }

  lemma {:induction false} TensorsWithout(s: seq<Member>, k: nat, payload: nat)
    requires k < |s| && forall i :: 0 <= i < |s| ==> WellFormed(s[i], payload)
    ensures forall i :: 0 <= i < |s| - 1 ==> WellFormed(Sorting.Without(s, k)[i], payload)
    ensures multiset(TensorsOf(s, payload))
         == multiset(TensorsOf(Sorting.Without(s, k), payload)) + multiset(One(s[k], payload))
  {
    hide WellFormed, One, TensorsOf, Sorting.Without;
    var n := |s| - 1;
    var last := s[n];
    assert s == s[..n] + [last];
    TensorsSnoc(s[..n], last, payload);
    if k < n {
      TensorsWithout(s[..n], k, payload);
      WithoutSnoc(s, k);
      TensorsSnoc(Sorting.Without(s[..n], k), last, payload);
    } else {
      WithoutLast(s);
    }
  }

  lemma WellFormedPermutes(s: seq<Member>, t: seq<Member>, payload: nat)
    requires multiset(s) == multiset(t) && forall i :: 0 <= i < |s| ==> WellFormed(s[i], payload)
    ensures forall i :: 0 <= i < |t| ==> WellFormed(t[i], payload)
  {
    Sorting.PermutationInside(t, s);
    forall i | 0 <= i < |t|
      ensures WellFormed(t[i], payload)
    {
      assert t[i] in s;
    }
  }

  lemma {:induction false} TensorsPermute(s: seq<Member>, t: seq<Member>, payload: nat)
    requires multiset(s) == multiset(t)
    requires forall i :: 0 <= i < |s| ==> WellFormed(s[i], payload)
    requires forall i :: 0 <= i < |t| ==> WellFormed(t[i], payload)
    ensures multiset(TensorsOf(s, payload)) == multiset(TensorsOf(t, payload))
    decreases |t|
  {
    hide WellFormed, One, Sorting.Without;
    if t == [] {
      assert |multiset(s)| == |s|;
      assert s == t;
    } else {
      var n := |t| - 1;
      assert t == t[..n] + [t[n]];
      Sorting.PermutationHolds(t, s, t[n]);
      var k :| 0 <= k < |s| && s[k] == t[n];
      TensorsWithout(s, k, payload);
      TensorsPermute(Sorting.Without(s, k), t[..n], payload);
    }
  }

  lemma AcceptableElsewhere(s: seq<Member>, t: seq<Member>, payload: nat)
    requires multiset(s) == multiset(t) && Acceptable(s, payload)
    ensures Acceptable(t, payload)
  {
    hide WellFormed, Partition, TensorsOf;
    WellFormedPermutes(s, t, payload);
    TensorsPermute(s, t, payload);
    PartitionPermutes(TensorsOf(s, payload), TensorsOf(t, payload), payload);
  }

  /** The verdict does not depend on the order of the members. */
  lemma MemberOrderIrrelevant(s: seq<Member>, t: seq<Member>, payload: nat)
    requires multiset(s) == multiset(t)
    ensures Acceptable(s, payload) <==> Acceptable(t, payload)
  {
    hide Acceptable;
    if Acceptable(s, payload) {
      AcceptableElsewhere(s, t, payload);
    } else if Acceptable(t, payload) {
      AcceptableElsewhere(t, s, payload);
    }
  }

  /** The scan after the sort. */
  method Scan(parsed: array<Described>, used: nat, payload: nat) returns (ok: bool)
    requires used <= parsed.Length
    ensures ok <==> Chained(RangesOf(parsed[..used]), 0, payload)
  {
    ghost var all := RangesOf(parsed[..used]);
    var end := 0;
    for position := 0 to used
      invariant Chained(all[..position], 0, end)
    {
      var range := RangeOf(parsed[position]);
      assert range == all[position];
      if range.start != end {
        ChainFront(all, 0, payload, position);
        ChainEnds(all[..position], 0, end, range.start);
        return false;
      }
      assert all[..position + 1][..position] == all[..position];
      end := range.End();
    }
    assert all[..used] == all;
    ok := end == payload;
    ChainEnds(all, 0, end, payload);
  }

  /** inkling_safetensors_parse_header after the JSON is parsed. */
  method ParseHeader(members: seq<Member>, payload: nat) returns (ok: bool, tensors: seq<Described>)
    requires forall i :: 0 <= i < |members| && members[i].info.Some? ==> Word(members[i].info.value)
    ensures ok <==> Acceptable(members, payload)
    ensures ok ==> multiset(tensors) == multiset(TensorsOf(members, payload))
    ensures ok ==> Chained(RangesOf(tensors), 0, payload)
  {
    hide Partition, RangesOf, Chained, WellFormed;
    var read, parsed, used := ReadMembers(members, payload);
    if !read {
      return false, [];
    }
    ghost var all := parsed[..used];
    Sorting.Sort(parsed, used, EarlierTensor);
    ScanDecides(all, parsed[..used], payload);
    ok := Scan(parsed, used, payload);
    tensors := parsed[..used];
  }

  /** The loop over the members; metadata is checked and skipped. */
  method ReadMembers(members: seq<Member>, payload: nat) returns (ok: bool, parsed: array<Described>, used: nat)
    requires forall i :: 0 <= i < |members| && members[i].info.Some? ==> Word(members[i].info.value)
    ensures fresh(parsed) && used <= parsed.Length
    ensures ok <==> forall i :: 0 <= i < |members| ==> WellFormed(members[i], payload)
    ensures ok ==> parsed[..used] == TensorsOf(members, payload)
  {
    hide WellFormed, Word, TensorsOf;
    parsed := new Described[|members|](_ => Described("", UNBOUND));
    used := 0;
    NoTensors(payload);
    assert members[..0] == [];
    for member := 0 to |members|
      invariant used <= member && forall i :: 0 <= i < member ==> WellFormed(members[i], payload)
      invariant parsed[..used] == TensorsOf(members[..member], payload)
    {
      var m := members[member];
      var valid := Check(m, payload);
      if !valid {
        return false, parsed, 0;
      }
      assert members[..member + 1] == members[..member] + [m];
      TensorsSnoc(members[..member], m, payload);
      if m.name != METADATA_NAME {
        WellFormedTensor(m, payload);
        parsed[used] := Described1(m);
        used := used + 1;
      }
    }
    assert members[..|members|] == members;
    ok := true;
  }

  lemma NoTensors(payload: nat)
    ensures TensorsOf([], payload) == []
  {
  }

  lemma WellFormedTensor(m: Member, payload: nat)
    requires WellFormed(m, payload) && m.name != METADATA_NAME
    ensures m.info.Some? && m.info.value.start <= m.info.value.end
  {
  }

  method Check(m: Member, payload: nat) returns (ok: bool)
    requires m.info.Some? ==> Word(m.info.value)
    ensures ok <==> WellFormed(m, payload)
  {
    if m.name == METADATA_NAME {
      return m.strings;
    }
    if |m.name| == 0 || |m.name| >= NAME_LIMIT || '\0' in m.name || m.info.None? {
      return false;
    }
    ok := SizeIsValid(m.info.value);
    ok := ok && m.info.value.end <= payload;
  }
}
