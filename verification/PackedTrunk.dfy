/** The packed trunk in the runtime (inkling_packed.c): building the redirect table and the binary search in it. */
module PackedTrunk {
  import opened Octets
  import opened Wrappers
  import opened Tensors
  import opened Ranges
  import opened Packing
  import I = Index
  import P = Pigeonhole
  import Sorting

  // ---------- Opening ----------

  /** How many index entries belong to the trunk. */
  function TrunkCount(s: seq<Tensor>): nat {
    if s == [] then 0 else TrunkCount(s[..|s| - 1]) + (if Trunk(s[|s| - 1].name) then 1 else 0)
  }

  /** The packed tensor is the trunk tensor `e` of the index, and the recorded place is where `e` lies. */
  predicate Matches(e: Tensor, t: Described, places: map<string, Place>) {
    && t.name == e.name && Trunk(t.name)
    && t.meta.dtype == e.meta.dtype && t.meta.shape == e.meta.shape && t.meta.bytes == e.meta.bytes
    && t.name in places && places[t.name] == Place(e.shard, e.meta.offset, e.meta.bytes)
  }

  /** The number of the index entry with the name. */
  ghost function Lookup(s: seq<Tensor>, name: string): (r: Option<nat>)
    ensures r.Some? ==> r.value < |s| && s[r.value].name == name
    ensures r.None? ==> forall e :: 0 <= e < |s| ==> s[e].name != name
  {
    if s == [] then None
    else if s[|s| - 1].name == name then Some(|s| - 1)
    else Lookup(s[..|s| - 1], name)
  }

  ghost predicate MatchesIndex(s: seq<Tensor>, t: Described, places: map<string, Place>) {
    Lookup(s, t.name).Some? && Matches(s[Lookup(s, t.name).value], t, places)
  }

  /** Everything inkling_packed_open checks before it sorts. */
  ghost predicate Opens(s: seq<Tensor>, tensors: seq<Described>, places: map<string, Place>) {
    && tensors != [] && |places| == |tensors| && TrunkCount(s) == |tensors|
    && forall i :: 0 <= i < |tensors| ==> MatchesIndex(s, tensors[i], places)
  }

  /** Opening is refused when a packed tensor is not in the index or not of the trunk, when its type, shape or length is
      not that of the index, or when its recorded place is missing or is not where the index entry lies. */
  lemma RefusedTensor(s: seq<Tensor>, tensors: seq<Described>, places: map<string, Place>, i: nat)
    requires i < |tensors|
    requires var t := tensors[i];
             || Lookup(s, t.name).None? || !Trunk(t.name) || t.name !in places
             || var e := s[Lookup(s, t.name).value];
                || t.meta.dtype != e.meta.dtype || t.meta.shape != e.meta.shape || t.meta.bytes != e.meta.bytes
                || places[t.name].shard != e.shard || places[t.name].start != e.meta.offset
                || places[t.name].bytes != e.meta.bytes
    ensures !Opens(s, tensors, places)
  {
    hide Trunk, Lookup, TrunkCount;
    assert !MatchesIndex(s, tensors[i], places);
  }

  /** A row of the redirect table: the source range, and where its bytes are in the packed file. */
  function Row(e: Tensor, t: Described, base: nat): Placed<nat> {
    Placed(Range(e.shardId, e.meta.offset, e.meta.bytes), base + t.meta.offset)
  }

  /** The table before it is sorted. */
  ghost predicate Rows(s: seq<Tensor>, tensors: seq<Described>, base: nat, rows: seq<Placed<nat>>) {
    |rows| == |tensors| && forall i :: 0 <= i < |rows| ==> IsRow(s, tensors[i], base, rows[i])
  }

  ghost predicate IsRow(s: seq<Tensor>, t: Described, base: nat, row: Placed<nat>) {
    Lookup(s, t.name).Some? && row == Row(s[Lookup(s, t.name).value], t, base)
  }

  method CountTrunk(index: I.Index) returns (expected: nat)
    requires index.count <= index.entries.Length
    ensures expected == TrunkCount(index.entries[..index.count])
  {
    expected := 0;
    ghost var s := index.entries[..index.count];
    for i := 0 to index.count
      invariant expected == TrunkCount(s[..i])
    {
      assert s[..i + 1][..i] == s[..i];
      expected := expected + (if IsTrunk(index.entries[i].name) then 1 else 0);
    }
    assert s[..index.count] == s;
  }

  /** trunk_name as a program: a prefix test and a search. */
  predicate IsTrunk(name: string)
    ensures IsTrunk(name) <==> Trunk(name)
  {
    TRUNK_PREFIX <= name && !exists i :: 0 <= i <= |name| && EXPERTS <= name[i..]
  }

  /** The index lookup finds the entry of `Lookup`. */
  method FindEntry(index: I.Index, name: string) returns (e: Option<nat>)
    requires index.Valid()
    ensures e == Lookup(index.entries[..index.count], name)
  {
    hide I.Numbered, I.Table;
    ghost var s := index.entries[..index.count];
    assert forall e :: 0 <= e < |s| ==> index.Names()[e] == s[e].name;
    e := index.FindTensor(name);
  }

  /** The loop over the packed tensors: checks each against the index and fills its row. */
  method FillRows(index: I.Index, tensors: seq<Described>, places: map<string, Place>, base: nat)
    returns (ok: bool, rows: array<Placed<nat>>)
    requires index.Valid()
    ensures fresh(rows) && rows.Length == |tensors|
    ensures ok <==> forall i :: 0 <= i < |tensors| ==> MatchesIndex(index.entries[..index.count], tensors[i], places)
    ensures ok ==> Rows(index.entries[..index.count], tensors, base, rows[..])
  {
    hide I.Numbered, I.Table, Matches, Lookup;
    hide I.Index.Valid;
    rows := new Placed<nat>[|tensors|](_ => Placed(Range(0, 0, 0), 0));
    index.InBounds();
    ghost var s := index.entries[..index.count];
    for i := 0 to |tensors|
      invariant forall k :: 0 <= k < i ==> MatchesIndex(s, tensors[k], places)
      invariant forall k :: 0 <= k < i ==> IsRow(s, tensors[k], base, rows[k])
    {
      var entry := FindEntry(index, tensors[i].name);
      if entry.None? || !Matches(index.entries[entry.value], tensors[i], places) {
        assert !MatchesIndex(s, tensors[i], places);
        return false, rows;
      }
      assert s[entry.value] == index.entries[entry.value];
      rows[i] := Row(index.entries[entry.value], tensors[i], base);
    }
    ok := true;
  }

  /** inkling_packed_open once headers, identities and digests are read and compared. */
  method Open(index: I.Index, tensors: seq<Described>, places: map<string, Place>, base: nat)
    returns (ok: bool, rows: array<Placed<nat>>)
    requires index.Valid()
    ensures ok ==> Opens(index.entries[..index.count], tensors, places)
    ensures Opens(index.entries[..index.count], tensors, places)
            ==> Sorted(rows[..]) && (ok <==> NeighboursApart(rows[..]))
                && exists before :: Rows(index.entries[..index.count], tensors, base, before)
                                    && multiset(before) == multiset(rows[..])
  {
    hide MatchesIndex, Rows, TrunkCount, Sorted, NeighboursApart;
    hide I.Index.Valid;
    rows := new Placed<nat>[0];
    if |tensors| == 0 || |places| != |tensors| {
      return false, rows;
    }
    index.InBounds();
    var expected := CountTrunk(index);
    if expected != |tensors| {
      return false, rows;
    }
    var filled;
    filled, rows := FillRows(index, tensors, places, base);
    if !filled {
      return false, rows;
    }
    ghost var before := rows[..];
    ok := SortAndCheck(rows);
    assert Rows(index.entries[..index.count], tensors, base, before);
  }

  // ---------- What an opened table covers ----------

  function Span(e: Tensor): Range {
    Range(e.shardId, e.meta.offset, e.meta.bytes)
  }

  ghost predicate Redirects(rows: seq<Placed<nat>>, e: Tensor) {
    exists i :: 0 <= i < |rows| && rows[i].range == Span(e)
  }

  ghost predicate DistinctEntries(s: seq<Tensor>) {
    forall i, j :: 0 <= i < j < |s| ==> s[i].name != s[j].name
  }

  predicate DistinctTensors(t: seq<Described>) {
    forall i, j :: 0 <= i < j < |t| ==> t[i].name != t[j].name
  }

  function TrunkNames(s: seq<Tensor>): (r: set<string>)
  {
    set i | 0 <= i < |s| && Trunk(s[i].name) :: s[i].name
  }

  lemma {:induction false} TrunkNamesCount(s: seq<Tensor>)
    requires DistinctEntries(s)
    ensures |TrunkNames(s)| == TrunkCount(s)
  {
    hide Trunk, TrunkNames;
    if s == [] {
      NoTrunkNames();
    } else {
      var n := |s| - 1;
      TrunkNamesCount(s[..n]);
      TrunkNamesSnoc(s[..n], s[n]);
      assert s == s[..n] + [s[n]];
      LastIsNew(s);
    }
  }

  lemma NoTrunkNames()
    ensures TrunkNames([]) == {}
  {
  }

  lemma LastIsNew(s: seq<Tensor>)
    requires DistinctEntries(s) && s != []
    ensures s[|s| - 1].name !in TrunkNames(s[..|s| - 1])
  {
    hide Trunk;
  }

  lemma TrunkNamesSnoc(s: seq<Tensor>, t: Tensor)
    ensures TrunkNames(s + [t]) == TrunkNames(s) + (if Trunk(t.name) then {t.name} else {})
  {
    hide Trunk;
    var all := s + [t];
    forall x | x in TrunkNames(s)
      ensures x in TrunkNames(all)
    {
      var i :| 0 <= i < |s| && Trunk(s[i].name) && s[i].name == x;
      assert all[i] == s[i];
    }
    if Trunk(t.name) {
      assert all[|s|].name == t.name;
    }
  }

  /** Equal counts and distinct names: every trunk tensor of the index is among the packed tensors. */
  lemma EveryTrunkTensor(s: seq<Tensor>, tensors: seq<Described>, places: map<string, Place>, e: nat)
    requires Opens(s, tensors, places) && DistinctEntries(s) && DistinctTensors(tensors)
    requires e < |s| && Trunk(s[e].name)
    ensures exists i :: 0 <= i < |tensors| && tensors[i].name == s[e].name
  {
    hide Trunk, TrunkCount;
    TrunkNamesCount(s);
    var names := I.HeaderNames(tensors);
    forall x | x in names
      ensures x in TrunkNames(s)
    {
      var i :| 0 <= i < |names| && names[i] == x;
      assert MatchesIndex(s, tensors[i], places);
    }
    assert P.NoRepeats(names);
    P.Covers(names, TrunkNames(s));
    assert s[e].name in TrunkNames(s);
    var i :| 0 <= i < |names| && names[i] == s[e].name;
    assert tensors[i].name == s[e].name;
  }

  lemma LookupUnique(s: seq<Tensor>, e: nat)
    requires DistinctEntries(s) && e < |s|
    ensures Lookup(s, s[e].name) == Some(e)
  {
  }

  /** An opened table redirects exactly the trunk. */
  lemma RedirectsTrunk(s: seq<Tensor>, tensors: seq<Described>, places: map<string, Place>, base: nat,
                       before: seq<Placed<nat>>, rows: seq<Placed<nat>>, e: nat)
    requires Opens(s, tensors, places) && DistinctEntries(s) && DistinctTensors(tensors)
    requires Rows(s, tensors, base, before) && multiset(before) == multiset(rows)
    requires e < |s| && Trunk(s[e].name)
    ensures Redirects(rows, s[e])
  {
    hide Trunk, Lookup, Opens;
    EveryTrunkTensor(s, tensors, places, e);
    var i :| 0 <= i < |tensors| && tensors[i].name == s[e].name;
    LookupUnique(s, e);
    assert IsRow(s, tensors[i], base, before[i]);
    Sorting.PermutationHolds(before, rows, before[i]);
    var j :| 0 <= j < |rows| && rows[j] == before[i];
    assert rows[j].range == Span(s[e]);
  }

  /** Every row stands for a trunk tensor of the index. */
  lemma RowIsTrunk(s: seq<Tensor>, tensors: seq<Described>, places: map<string, Place>, base: nat,
                   before: seq<Placed<nat>>, rows: seq<Placed<nat>>, j: nat)
    requires Opens(s, tensors, places) && Rows(s, tensors, base, before) && multiset(before) == multiset(rows)
    requires j < |rows|
    ensures exists e, i :: 0 <= e < |s| && 0 <= i < |tensors| && Matches(s[e], tensors[i], places)
                           && rows[j] == Row(s[e], tensors[i], base)
  {
    hide Trunk, Lookup, Matches;
    Sorting.PermutationHolds(rows, before, rows[j]);
    var i :| 0 <= i < |before| && before[i] == rows[j];
    assert IsRow(s, tensors[i], base, before[i]) && MatchesIndex(s, tensors[i], places);
    var e := Lookup(s, tensors[i].name).value;
    assert Matches(s[e], tensors[i], places);
  }

  // ---------- Reading ----------

  /** Some row covers the byte. */
  ghost predicate Redirected(rows: seq<Placed<nat>>, shard: nat, b: nat) {
    exists i :: 0 <= i < |rows| && rows[i].range.Covers(shard, b)
  }

  /** The binary search: how many rows start at or before the byte, in shard order. */
  method Search(rows: seq<Placed<nat>>, shard: nat, start: nat) returns (low: nat)
    requires Sorted(rows)
    ensures low <= |rows|
    ensures forall i :: 0 <= i < low ==> AtOrBefore(rows[i].range, shard, start)
    ensures forall i :: low <= i < |rows| ==> !AtOrBefore(rows[i].range, shard, start)
  {
    low := 0;
    var high := |rows|;
    while low < high
      invariant low <= high <= |rows|
      invariant forall i :: 0 <= i < low ==> AtOrBefore(rows[i].range, shard, start)
      invariant forall i :: high <= i < |rows| ==> !AtOrBefore(rows[i].range, shard, start)
    {
      var middle := low + (high - low) / 2;
      assert forall i :: 0 <= i < middle ==> InOrder(rows[i], rows[middle]);
      assert forall i :: middle < i < |rows| ==> InOrder(rows[middle], rows[i]);
      if AtOrBefore(rows[middle].range, shard, start) {
        low := middle + 1;
      } else {
        high := middle;
      }
    }
  }

  predicate AtOrBefore(r: Range, shard: nat, start: nat) {
    r.shard < shard || (r.shard == shard && r.start <= start)
  }

  /** inkling_packed_read: handles the read exactly when a row covers its first byte; then it must end in that row. */
  method Read(rows: seq<Placed<nat>>, file: Bytes, shard: nat, start: nat, bytes: nat, destination: array<Byte>)
    returns (ok: bool, handled: bool)
    requires Sorted(rows) && NeighboursApart(rows) && bytes <= destination.Length
    modifies destination
    ensures handled <==> Redirected(rows, shard, start)
    ensures !handled ==> ok && destination[..] == old(destination[..])
    ensures forall i :: 0 <= i < |rows| && rows[i].range.Covers(shard, start)
                        ==> (ok <==> start + bytes <= rows[i].range.End()
                                     && rows[i].data + (start - rows[i].range.start) + bytes <= |file|)
    ensures forall i :: 0 <= i < |rows| && rows[i].range.Covers(shard, start) && ok
                        ==> var at := rows[i].data + (start - rows[i].range.start);
                            destination[..bytes] == file[at..at + bytes]
    ensures destination[bytes..] == old(destination[bytes..])
  {
    hide Sorted, NeighboursApart;
    var low := Search(rows, shard, start);
    OnlyTheLast(rows, shard, start, low);
    if low == 0 || !rows[low - 1].range.Covers(shard, start) {
      return true, false;
    }
    handled := true;
    var entry := rows[low - 1];
    var within := start - entry.range.start;
    if bytes > entry.range.bytes - within || entry.data + within + bytes > |file| {
      return false, true;
    }
    CopyOut(file, entry.data + within, bytes, destination);
    ok := true;
  }

  lemma OnlyTheLast(rows: seq<Placed<nat>>, shard: nat, start: nat, low: nat)
    requires Sorted(rows) && NeighboursApart(rows) && low <= |rows|
    requires forall i :: 0 <= i < low ==> AtOrBefore(rows[i].range, shard, start)
    requires forall i :: low <= i < |rows| ==> !AtOrBefore(rows[i].range, shard, start)
    ensures forall i :: 0 <= i < |rows| && rows[i].range.Covers(shard, start) ==> low > 0 && i == low - 1
  {
    forall i | 0 <= i < |rows| && rows[i].range.Covers(shard, start)
      ensures low > 0 && i == low - 1
    {
      assert i < low;
      CoverIsLast(rows, i, low - 1, shard, start);
      assert InOrder(rows[i], rows[low - 1]) || i == low - 1;
    }
  }

  method CopyOut(file: Bytes, at: nat, bytes: nat, destination: array<Byte>)
    requires at + bytes <= |file| && bytes <= destination.Length
    modifies destination
    ensures destination[..bytes] == file[at..at + bytes] && destination[bytes..] == old(destination[bytes..])
  {
    for n := 0 to bytes
      invariant forall k :: 0 <= k < n ==> destination[k] == file[at + k]
      invariant forall k :: bytes <= k < destination.Length ==> destination[k] == old(destination[k])
    {
      destination[n] := file[at + n];
    }
  }
}
