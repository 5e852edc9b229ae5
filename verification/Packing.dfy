/** The packer (tools/pack_trunk.py): which tensors are copied, where they go in the packed payload, and the copy.

    The execution order only decides the layout, so it is a parameter: any total order will do.
*/
module Packing {
  import opened Octets
  import opened Tensors
  import opened Wrappers
  import S = Safetensors
  import Sorting

  // ---------- Names ----------

  const TRUNK_PREFIX: string := "model.llm."
  const EXPERTS: string := ".mlp.experts."

  predicate Occurs(part: string, s: string) {
    exists i :: 0 <= i <= |s| && part <= s[i..]
  }

  /** is_trunk, and trunk_name in inkling_packed.c. */
  predicate Trunk(name: string) {
    TRUNK_PREFIX <= name && !Occurs(EXPERTS, name)
  }

  /** A part that occurs brings its letters along. */
  lemma OccursLetter(part: string, s: string, letter: char)
    requires Occurs(part, s) && letter in part
    ensures letter in s
  {
    var i :| 0 <= i <= |s| && part <= s[i..];
    var k :| 0 <= k < |part| && part[k] == letter;
    assert s[i + k] == s[i..][k] == letter;
  }

  /** The experts of a layer stay out; other names of the text model belong, for instance all that have no x. */
  lemma TrunkNames(front: string, back: string)
    ensures !Trunk(front + ".mlp.experts." + back)
    ensures 'x' !in back ==> Trunk("model.llm." + back)
    ensures front != "" && front[0] != 'm' ==> !Trunk(front)
  {
    var name := front + ".mlp.experts." + back;
    assert name[|front|..] == ".mlp.experts." + back;
    assert Occurs(EXPERTS, name);
    var text := "model.llm." + back;
    assert 'x' !in "model.llm." && EXPERTS[6] == 'x';
    if Occurs(EXPERTS, text) {
      OccursLetter(EXPERTS, text, 'x');
    }
  }

  // ---------- Data ----------

  /** A shard file: eight bytes, the header, the payload. */
  datatype Shard = Shard(headerSize: nat, file: Bytes) {
    predicate Valid() {
      |file| >= 8 + headerSize
    }

    function Payload(): Bytes
      requires Valid()
    {
      file[8 + headerSize..]
    }
  }

  /** A catalogue entry of the packer. */
  datatype Source = Source(name: string, shard: string, meta: Meta)

  /** A value of the source_ranges object. */
  datatype Place = Place(shard: string, start: nat, bytes: nat)

  datatype Packed = Packed(entries: seq<Described>, places: map<string, Place>, payload: Bytes)

  /** What read_catalogue has checked of one entry: its bytes lie in its shard. */
  predicate Present(s: Source, shards: map<string, Shard>) {
    s.shard in shards && shards[s.shard].Valid() && s.meta.offset + s.meta.bytes <= |shards[s.shard].Payload()|
  }

  function Content(s: Source, shards: map<string, Shard>): (r: Bytes)
    requires Present(s, shards)
    ensures |r| == s.meta.bytes
  {
    shards[s.shard].Payload()[s.meta.offset..s.meta.offset + s.meta.bytes]
  }

  predicate AllPresent(s: seq<Source>, shards: map<string, Shard>) {
    forall i :: 0 <= i < |s| ==> Present(s[i], shards)
  }

  predicate DistinctNames(s: seq<Source>) {
    forall i, j :: 0 <= i < j < |s| ==> s[i].name != s[j].name
  }

  /** The packed tensor is the source tensor at another offset. */
  predicate Moved(from: Source, to: Described) {
    to.name == from.name && to.meta == from.meta.(offset := to.meta.offset)
  }

  predicate Stored(to: Described, payload: Bytes, content: Bytes) {
    to.meta.offset + to.meta.bytes <= |payload| && payload[to.meta.offset..to.meta.offset + to.meta.bytes] == content
  }

  /** The result of packing `names`: every tensor moved, the offsets tile the payload, the bytes copied. */
  ghost predicate PackedFrom(names: seq<Source>, shards: map<string, Shard>, r: Packed) {
    && AllPresent(names, shards) && AllMoved(names, r.entries)
    && (forall i :: 0 <= i < |names| ==> Stored(r.entries[i], r.payload, Content(names[i], shards)))
    && S.Chained(S.RangesOf(r.entries), 0, |r.payload|)
    && PlacesOf(names, r.places)
  }

  predicate AllMoved(names: seq<Source>, entries: seq<Described>) {
    |entries| == |names| && forall i :: 0 <= i < |names| ==> Moved(names[i], entries[i])
  }

  /** The places recorded, one for each name. */
  ghost predicate PlacesOf(names: seq<Source>, places: map<string, Place>) {
    && (forall x :: x in places ==> exists i :: 0 <= i < |names| && names[i].name == x)
    && (forall i :: 0 <= i < |names|
                    ==> names[i].name in places
                        && places[names[i].name] == Place(names[i].shard, names[i].meta.offset, names[i].meta.bytes))
    && |places| == |names|
  }

  // ---------- Steps ----------

  const CHUNK_BYTES: nat := 1048576

  /** copy_bytes: the file is read in pieces and appended to the target. */
  method CopyBytes(file: Bytes, from: nat, count: nat, target: Bytes) returns (r: Bytes)
    requires from + count <= |file|
    ensures r == target + file[from..from + count]
  {
    r := target;
    var at, left := from, count;
    while left > 0
      invariant 0 <= left <= count && at == from + (count - left)
      invariant r == target + file[from..at]
    {
      var size := if left < CHUNK_BYTES then left else CHUNK_BYTES;
      assert file[from..at] + file[at..at + size] == file[from..at + size];
      r := r + file[at..at + size];
      at, left := at + size, left - size;
    }
  }

  function Lengths(names: seq<Source>): nat {
    if names == [] then 0 else Lengths(names[..|names| - 1]) + names[|names| - 1].meta.bytes
  }

  /** The first loop of pack: offsets accumulate. */
  method Layout(names: seq<Source>) returns (entries: seq<Described>, places: map<string, Place>)
    requires DistinctNames(names)
    ensures AllMoved(names, entries) && S.Chained(S.RangesOf(entries), 0, Lengths(names)) && PlacesOf(names, places)
  {
    hide PlacesOf, S.RangesOf, S.Chained, Lengths;
    entries, places := [], map[];
    var offset := 0;
    NothingYet();
    assert names[..0] == [];
    for i := 0 to |names|
      invariant AllMoved(names[..i], entries) && PlacesOf(names[..i], places)
      invariant offset == Lengths(names[..i]) && S.Chained(S.RangesOf(entries), 0, offset)
    {
      var s := names[i];
      var entry := Described(s.name, s.meta.(offset := offset));
      assert names[..i + 1] == names[..i] + [s];
      ChainGrows(entries, entry, offset);
      PlacesGrow(names[..i], places, s);
      LengthsSnoc(names[..i], s);
      entries := entries + [entry];
      places := places[s.name := Place(s.shard, s.meta.offset, s.meta.bytes)];
      offset := offset + s.meta.bytes;
    }
    assert names[..|names|] == names;
  }

  lemma NothingYet()
    ensures PlacesOf([], map[]) && Lengths([]) == 0 && S.Chained(S.RangesOf([]), 0, 0)
  {
  }

  lemma LengthsSnoc(names: seq<Source>, s: Source)
    ensures Lengths(names + [s]) == Lengths(names) + s.meta.bytes
  {
    assert (names + [s])[..|names|] == names;
  }

  lemma PlacesGrow(names: seq<Source>, places: map<string, Place>, s: Source)
    requires PlacesOf(names, places) && forall i :: 0 <= i < |names| ==> names[i].name != s.name
    ensures PlacesOf(names + [s], places[s.name := Place(s.shard, s.meta.offset, s.meta.bytes)])
  {
    var all := names + [s];
    var now := places[s.name := Place(s.shard, s.meta.offset, s.meta.bytes)];
    assert s.name !in places;
    forall x | x in now
      ensures exists i :: 0 <= i < |all| && all[i].name == x
    {
      if x == s.name {
        assert all[|names|].name == x;
      } else {
        var i :| 0 <= i < |names| && names[i].name == x;
        assert all[i].name == x;
      }
    }
  }

  lemma ChainGrows(entries: seq<Described>, entry: Described, end: nat)
    requires S.Chained(S.RangesOf(entries), 0, end) && entry.meta.offset == end
    ensures S.Chained(S.RangesOf(entries + [entry]), 0, end + entry.meta.bytes)
  {
    var all := S.RangesOf(entries + [entry]);
    assert all[..|all| - 1] == S.RangesOf(entries);
  }

  predicate At(payload: Bytes, at: nat, content: Bytes) {
    at + |content| <= |payload| && payload[at..at + |content|] == content
  }

  /** The contents lie one after another. */
  predicate Laid(names: seq<Source>, shards: map<string, Shard>, payload: Bytes)
    requires AllPresent(names, shards)
  {
    |payload| == Lengths(names)
    && forall i :: 0 <= i < |names| ==> At(payload, Lengths(names[..i]), Content(names[i], shards))
  }

  lemma LaidGrows(names: seq<Source>, shards: map<string, Shard>, payload: Bytes, s: Source)
    requires AllPresent(names, shards) && Present(s, shards) && Laid(names, shards, payload)
    ensures AllPresent(names + [s], shards) && Laid(names + [s], shards, payload + Content(s, shards))
  {
    hide Lengths, Content, Present;
    LengthsSnoc(names, s);
    var all, longer := names + [s], payload + Content(s, shards);
    assert forall i :: 0 <= i < |all| ==> all[i] == if i < |names| then names[i] else s;
    forall i | 0 <= i < |all|
      ensures At(longer, Lengths(all[..i]), Content(all[i], shards))
    {
      assert all[..i] == names[..i];
      if i == |names| {
        assert names[..i] == names;
      } else {
        StillAt(payload, Lengths(names[..i]), Content(names[i], shards), Content(s, shards));
      }
    }
  }

  lemma StillAt(payload: Bytes, at: nat, content: Bytes, more: Bytes)
    requires At(payload, at, content)
    ensures At(payload + more, at, content)
  {
    assert (payload + more)[at..at + |content|] == payload[at..at + |content|];
  }

  /** The second loop of pack: the bytes, in the same order. */
  method CopyAll(names: seq<Source>, shards: map<string, Shard>) returns (payload: Bytes)
    requires AllPresent(names, shards)
    ensures Laid(names, shards, payload)
  {
    hide Content, Laid, Lengths;
    payload := [];
    assert Laid([], shards, []) by {
      NothingLaid(shards);
    }
    assert names[..0] == [];
    for i := 0 to |names|
      invariant AllPresent(names[..i], shards) && Laid(names[..i], shards, payload)
    {
      var s := names[i];
      var from := 8 + shards[s.shard].headerSize + s.meta.offset;
      assert names[..i + 1] == names[..i] + [s];
      LaidGrows(names[..i], shards, payload, s);
      ContentInFile(s, shards);
      payload := CopyBytes(shards[s.shard].file, from, s.meta.bytes, payload);
    }
    assert names[..|names|] == names;
  }

  lemma NothingLaid(shards: map<string, Shard>)
    ensures Laid([], shards, [])
  {
  }

  /** Where the packer seeks to is where the content is. */
  lemma ContentInFile(s: Source, shards: map<string, Shard>)
    requires Present(s, shards)
    ensures var from := 8 + shards[s.shard].headerSize + s.meta.offset;
            from + s.meta.bytes <= |shards[s.shard].file|
            && shards[s.shard].file[from..from + s.meta.bytes] == Content(s, shards)
  {
  }

  lemma {:induction false} ChainStarts(names: seq<Source>, entries: seq<Described>, last: nat, i: nat)
    requires AllMoved(names, entries) && i < |names|
    requires S.Chained(S.RangesOf(entries), 0, last) && last == Lengths(names)
    ensures entries[i].meta.offset == Lengths(names[..i])
  {
    var n := |names| - 1;
    var all := S.RangesOf(entries);
    assert all[..n] == S.RangesOf(entries[..n]);
    if i < n {
      ChainStarts(names[..n], entries[..n], all[n].start, i);
      assert names[..n][..i] == names[..i];
    }
  }

  // ---------- Pack ----------

  /** The trunk tensors of the catalogue. */
  function TrunkOf(catalogue: seq<Source>): (r: seq<Source>)
    ensures |r| <= |catalogue|
  {
    if catalogue == [] then []
    else
      var s := catalogue[|catalogue| - 1];
      TrunkOf(catalogue[..|catalogue| - 1]) + (if Trunk(s.name) then [s] else [])
  }

  lemma {:induction false} TrunkOfMembers(catalogue: seq<Source>)
    ensures forall x :: x in TrunkOf(catalogue) <==> x in catalogue && Trunk(x.name)
    ensures DistinctNames(catalogue) ==> DistinctNames(TrunkOf(catalogue))
  {
    if catalogue == [] {
    } else {
      var n := |catalogue| - 1;
      TrunkOfMembers(catalogue[..n]);
      assert catalogue == catalogue[..n] + [catalogue[n]];
      if DistinctNames(catalogue) {
        forall i | 0 <= i < |TrunkOf(catalogue[..n])|
          ensures TrunkOf(catalogue[..n])[i].name != catalogue[n].name
        {
          assert TrunkOf(catalogue[..n])[i] in catalogue[..n];
        }
      }
    }
  }

  /** pack: fails without a trunk; otherwise the trunk, in some order, is moved into one payload. */
  method Pack(catalogue: seq<Source>, shards: map<string, Shard>, order: (Source, Source) -> bool)
    returns (r: Option<Packed>, ghost names: seq<Source>)
    requires AllPresent(catalogue, shards) && DistinctNames(catalogue) && Sorting.TotalOrder(order)
    ensures r.None? <==> TrunkOf(catalogue) == []
    ensures r.Some? ==> multiset(names) == multiset(TrunkOf(catalogue)) && Sorting.SortedBy(order, names)
    ensures r.Some? ==> PackedFrom(names, shards, r.value)
  {
    hide PlacesOf, S.RangesOf, S.Chained, Lengths, TrunkOf, AllPresent, DistinctNames, Sorting.TotalOrder;
    var trunk := TrunkOf(catalogue);
    names := [];
    if |trunk| == 0 {
      return None, names;
    }
    var sorted := SortNames(trunk, order);
    names := sorted;
    SortedNames(catalogue, shards, names);
    var entries, places := Layout(sorted);
    var payload := CopyAll(sorted, shards);
    AllStored(names, shards, entries, payload);
    r := Some(Packed(entries, places, payload));
  }

  method SortNames(trunk: seq<Source>, order: (Source, Source) -> bool) returns (names: seq<Source>)
    requires Sorting.TotalOrder(order)
    ensures multiset(names) == multiset(trunk) && Sorting.SortedBy(order, names)
  {
    var sorted := new Source[|trunk|](i requires 0 <= i < |trunk| => trunk[i]);
    assert sorted[..sorted.Length] == trunk;
    Sorting.Sort(sorted, sorted.Length, order);
    names := sorted[..sorted.Length];
  }

  lemma {:induction false} AllStored(names: seq<Source>, shards: map<string, Shard>, entries: seq<Described>,
                                     payload: Bytes)
    requires AllPresent(names, shards) && AllMoved(names, entries) && Laid(names, shards, payload)
    requires S.Chained(S.RangesOf(entries), 0, Lengths(names))
    ensures forall i :: 0 <= i < |names| ==> Stored(entries[i], payload, Content(names[i], shards))
  {
    hide S.RangesOf, S.Chained, Lengths, Content;
    forall i | 0 <= i < |names|
      ensures Stored(entries[i], payload, Content(names[i], shards))
    {
      assert At(payload, Lengths(names[..i]), Content(names[i], shards)) && Moved(names[i], entries[i]);
      ChainStarts(names, entries, Lengths(names), i);
    }
  }

  lemma SortedNames(catalogue: seq<Source>, shards: map<string, Shard>, names: seq<Source>)
    requires AllPresent(catalogue, shards) && DistinctNames(catalogue)
    requires multiset(names) == multiset(TrunkOf(catalogue))
    ensures AllPresent(names, shards) && DistinctNames(names)
  {
    TrunkOfMembers(catalogue);
    Sorting.PermutationInside(names, TrunkOf(catalogue));
    forall i | 0 <= i < |names|
      ensures Present(names[i], shards)
    {
      assert names[i] in TrunkOf(catalogue);
    }
    DistinctPermutes(TrunkOf(catalogue), names);
  }

  predicate OtherName(a: Source, b: Source) {
    a.name != b.name
  }

  lemma DistinctPermutes(s: seq<Source>, t: seq<Source>)
    requires multiset(s) == multiset(t) && DistinctNames(s)
    ensures DistinctNames(t)
  {
    Sorting.PairwisePermutes(OtherName, s, t);
    assert forall i, j :: 0 <= i < j < |t| ==> OtherName(t[i], t[j]);
  }
}
