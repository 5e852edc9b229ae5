/** From a checkpoint that the runtime loads to a packed trunk that it opens.

    `PackAndOpen` makes the calls of the runtime and of the packer one after another.  It is proved that the packer
    accepts whatever the runtime loads, that the file it writes is opened under the conditions of `Checkpoint`, and that
    every read inside a tensor then succeeds and gives the same bytes with and without the packed trunk.
*/
module RoundTrip {
  import opened Octets
  import opened Wrappers
  import opened Counters
  import opened Tensors
  import opened Catalogue
  import opened Ranges
  import opened Shards
  import B = Blobs
  import C = Checkpoint
  import I = Index
  import P = Packing
  import Pigeonhole
  import S = Safetensors
  import Sorting
  import Storage
  import T = PackedTrunk

  // ---------- The runtime's own files ----------

  function PayloadOf(shard: Storage.ShardFile): Bytes
    requires FileOpen(shard)
  {
    if shard.file.Some? then shard.file.value[8 + shard.headerSize..] else []
  }

  /** The payload of every shard that is open. */
  function Payloads(shards: seq<Storage.ShardFile>): (r: seq<Bytes>)
    requires forall id :: 0 <= id < |shards| ==> FileOpen(shards[id])
    ensures |r| == |shards| && forall id :: 0 <= id < |shards| ==> r[id] == PayloadOf(shards[id])
  {
    seq(|shards|, id requires 0 <= id < |shards| && FileOpen(shards[id]) => PayloadOf(shards[id]))
  }

  /** The read of `bytes` bytes at `relative` in the tensor succeeds. */
  ghost predicate Served(model: Storage.Model, t: Tensor, relative: nat, bytes: nat) {
    model.InBounds(T.Span(t), relative, bytes) && model.Available(t.shardId, t.meta.offset + relative, bytes)
  }

  /** Every read inside a tensor succeeds. */
  ghost predicate AllServed(model: Storage.Model, s: seq<Tensor>) {
    forall e, relative: nat, bytes: nat ::
      0 <= e < |s| && bytes > 0 && relative + bytes <= s[e].meta.bytes ==> Served(model, s[e], relative, bytes)
  }

  function Native(shards: seq<Storage.ShardFile>): Storage.Model {
    Storage.Model(shards, None, false, [])
  }

  lemma LoadedPlace(s: seq<Tensor>, shards: seq<Storage.ShardFile>, files: Files, e: nat)
    requires Directory(files) && Loaded(s, shards, files) && e < |s| && s[e].shard != MTP_SHARD
    ensures ShardLoads(s, s[e].shard, files) && InHeader(files, s[e].shard, Described(s[e].name, s[e].meta))
    ensures s[e].shard in files && files[s[e].shard].shard.Valid()
    ensures s[e].shardId < |shards| && shards[s[e].shardId] == OpenedFile(files[s[e].shard])
    ensures s[e].meta.offset + s[e].meta.bytes <= |files[s[e].shard].shard.Payload()|
    ensures |files[s[e].shard].shard.file| <= INT64_MAX && !s[e].meta.dtype.Unknown?
  {
    hide TensorsIn, ShardLoads, Storage.CatalogueApart, S.SizeMatches;
    assert EntryLoaded(s[e], shards, files);
    var m := HeaderTensor(s, s[e].shard, files, Described(s[e].name, s[e].meta));
    SizedTensor(m.info.value);
  }

  lemma SizedTensor(t: S.Info)
    requires S.SizeMatches(t)
    ensures !t.dtype.Unknown? && t.start <= t.end
  {
  }

  /** The loaded model is ready, its files are faithful, and every read inside a tensor succeeds. */
  lemma LoadedServes(s: seq<Tensor>, shards: seq<Storage.ShardFile>, files: Files)
    requires Directory(files) && Loaded(s, shards, files)
    ensures forall id :: 0 <= id < |shards| ==> FileOpen(shards[id])
    ensures Native(shards).Ready() && Native(shards).Faithful(Payloads(shards))
    ensures AllServed(Native(shards), s)
  {
    hide EntryLoaded, Storage.CatalogueApart, AllLoad;
    var original := Payloads(shards);
    forall id | 0 <= id < |shards|
      ensures Storage.SameShard(shards[id], original[id])
    {
      assert FileOpen(shards[id]);
    }
    forall e, relative: nat, bytes: nat | 0 <= e < |s| && bytes > 0 && relative + bytes <= s[e].meta.bytes
      ensures Served(Native(shards), s[e], relative, bytes)
    {
      if s[e].shard == MTP_SHARD {
        Unbound(s[e], shards, files, s);
      } else {
        LoadedPlace(s, shards, files, e);
      }
    }
  }

  lemma Unbound(t: Tensor, shards: seq<Storage.ShardFile>, files: Files, s: seq<Tensor>)
    requires Loaded(s, shards, files) && t in s && t.shard == MTP_SHARD
    ensures t.meta == UNBOUND
  {
    var e :| 0 <= e < |s| && s[e] == t;
    assert EntryLoaded(s[e], shards, files);
  }

  // ---------- The packer accepts what the runtime loads ----------

  /** The index entries are the pairs of the weight map. */
  predicate FromPairs(s: seq<Tensor>, pairs: seq<I.Mapping>) {
    |s| == |pairs| && forall e :: 0 <= e < |s| ==> pairs[e] == I.Mapping(s[e].name, Some(s[e].shard))
  }

  lemma ShardAccepts(s: seq<Tensor>, pairs: seq<I.Mapping>, shard: string, files: Files)
    requires FromPairs(s, pairs) && ShardLoads(s, shard, files)
    ensures ShardAccepted(pairs, shard, files)
  {
    hide TensorsIn, S.SizeMatches, S.Partition, S.RangesOf, I.Expected, S.ProductOf;
    var f := files[shard];
    var members, payload := f.members, |f.shard.Payload()|;
    Parsed(members, payload);
    forall i | 0 <= i < |members|
      ensures MemberAccepted(pairs, shard, members[i])
    {
      var m := members[i];
      assert S.WellFormed(Narrowed(members)[i], payload);
      if m.name != S.METADATA_NAME {
        SizedTensor(m.info.value);
        TensorsAreMembers(members);
        assert S.Described1(m) in TensorsIn(members);
        var p :| 0 <= p < |TensorsIn(members)| && TensorsIn(members)[p] == S.Described1(m);
        assert I.Resolves(s, shard, TensorsIn(members)[p].name);
        var e :| 0 <= e < |s| && s[e].name == m.name && s[e].shard == shard;
        assert pairs[e] == I.Mapping(m.name, Some(shard));
      }
    }
  }

  function EntrySources(s: seq<Tensor>): (r: seq<P.Source>)
    ensures |r| == |s| && forall e :: 0 <= e < |s| ==> r[e] == P.Source(s[e].name, s[e].shard, s[e].meta)
  {
    seq(|s|, e requires 0 <= e < |s| => P.Source(s[e].name, s[e].shard, s[e].meta))
  }

  lemma {:induction false} TotalIsLengths(s: seq<Tensor>)
    ensures TotalBytes(s) == P.Lengths(EntrySources(s))
  {
    if s == [] {
    } else {
      var n := |s| - 1;
      TotalIsLengths(s[..n]);
      assert EntrySources(s)[..n] == EntrySources(s[..n]);
    }
  }

  /** Rearranging tensors does not change their total length. */
  lemma {:induction false} LengthsPermute(a: seq<P.Source>, b: seq<P.Source>)
    requires multiset(a) == multiset(b)
    ensures P.Lengths(a) == P.Lengths(b)
    decreases |b|
  {
    hide Sorting.Without;
    if b == [] {
      assert |multiset(a)| == |a|;
      assert a == b;
    } else {
      var n := |b| - 1;
      assert b == b[..n] + [b[n]];
      Sorting.PermutationHolds(b, a, b[n]);
      var k :| 0 <= k < |a| && a[k] == b[n];
      LengthsWithout(a, k);
      LengthsPermute(Sorting.Without(a, k), b[..n]);
    }
  }

  lemma LengthsWithout(a: seq<P.Source>, k: nat)
    requires k < |a|
    ensures P.Lengths(a) == P.Lengths(Sorting.Without(a, k)) + a[k].meta.bytes
  {
    hide P.Lengths;
    LengthsMiddle(a[..k], a[k], a[k + 1..]);
    assert a == a[..k] + [a[k]] + a[k + 1..];
  }

  lemma LengthsMiddle(front: seq<P.Source>, x: P.Source, back: seq<P.Source>)
    ensures P.Lengths(front + [x] + back) == P.Lengths(front + back) + x.meta.bytes
  {
    hide P.Lengths;
    LengthsAppend(front, back);
    P.LengthsSnoc(front, x);
    LengthsAppend(front + [x], back);
  }

  lemma {:induction false} AtMostOnce<T>(s: seq<T>, x: T)
    requires Pigeonhole.NoRepeats(s)
    ensures multiset(s)[x] == if x in s then 1 else 0
  {
    if s == [] {
    } else {
      var n := |s| - 1;
      assert s == s[..n] + [s[n]];
      AtMostOnce(s[..n], x);
    }
  }

  /** Two lists without repetitions that have the same elements are rearrangements of each other. */
  lemma SameElements<T(!new)>(a: seq<T>, b: seq<T>)
    requires Pigeonhole.NoRepeats(a) && Pigeonhole.NoRepeats(b) && forall x :: x in a <==> x in b
    ensures multiset(a) == multiset(b)
  {
    forall x: T
      ensures multiset(a)[x] == multiset(b)[x]
    {
      AtMostOnce(a, x);
      AtMostOnce(b, x);
    }
  }

  /** The catalogue entries are the loaded index entries outside the shard that is left out. */
  lemma ListedAreEntries(s: seq<Tensor>, shards: seq<Storage.ShardFile>, files: Files, pairs: seq<I.Mapping>,
                         x: P.Source)
    requires Directory(files) && Loaded(s, shards, files) && FromPairs(s, pairs)
    ensures Listed(pairs, files, x) <==> C.HasEntry(s, x)
  {
    hide InHeader, Storage.CatalogueApart, ShardLoads, Directory;
    if Listed(pairs, files, x) {
      var e :| 0 <= e < |pairs| && pairs[e] == I.Mapping(x.name, Some(x.shard));
      assert pairs[e] == I.Mapping(s[e].name, Some(s[e].shard));
      LoadedPlace(s, shards, files, e);
      OneInHeader(files, x.shard, Described(x.name, x.meta), Described(s[e].name, s[e].meta));
      assert C.IsEntry(s[e], x);
    }
    if e :| 0 <= e < |s| && C.IsEntry(s[e], x) {
      LoadedPlace(s, shards, files, e);
      assert pairs[e] == I.Mapping(x.name, Some(x.shard));
    }
  }

  lemma TotalAgrees(s: seq<Tensor>, shards: seq<Storage.ShardFile>, files: Files, pairs: seq<I.Mapping>,
                    catalogue: seq<P.Source>)
    requires Directory(files) && Loaded(s, shards, files) && FromPairs(s, pairs) && P.DistinctNames(catalogue)
    requires forall x :: x in catalogue <==> Listed(pairs, files, x)
    requires forall e :: 0 <= e < |s| ==> s[e].shard != MTP_SHARD
    ensures P.Lengths(catalogue) == TotalBytes(s)
  {
    hide Listed, Loaded, Directory, P.Lengths, TotalBytes;
    var sources := EntrySources(s);
    LoadedDistinct(s, shards, files);
    forall x: P.Source
      ensures x in catalogue <==> x in sources
    {
      ListedAreEntries(s, shards, files, pairs, x);
      if e :| 0 <= e < |s| && C.IsEntry(s[e], x) {
        assert sources[e] == x;
      }
    }
    SameElements(catalogue, sources);
    LengthsPermute(catalogue, sources);
    TotalIsLengths(s);
  }

  lemma LoadedDistinct(s: seq<Tensor>, shards: seq<Storage.ShardFile>, files: Files)
    requires Loaded(s, shards, files)
    ensures T.DistinctEntries(s)
  {
  }

  /** The packer accepts every checkpoint that the runtime loads. */
  lemma PackerAccepts(s: seq<Tensor>, shards: seq<Storage.ShardFile>, files: Files, pairs: seq<I.Mapping>, total: nat)
    requires Directory(files) && I.Loadable(pairs) && FromPairs(s, pairs)
    requires Loaded(s, shards, files) && TotalMatches(s, total)
    ensures Accepted(pairs, files, total)
  {
    hide ShardLoads, InHeader, Storage.CatalogueApart, ShardAccepted, ShardList, P.Lengths, TotalBytes, Entries;
    hide Directory;
    forall i | 0 <= i < |pairs|
      ensures PlainName(pairs[i].shard) && pairs[i].shard == Some(s[i].shard)
      ensures s[i].shard != MTP_SHARD ==> Has(files, s[i].shard, s[i].name) && ShardAccepted(pairs, s[i].shard, files)
    {
      assert I.WellFormed(pairs[i]) && pairs[i] == I.Mapping(s[i].name, Some(s[i].shard));
      if s[i].shard != MTP_SHARD {
        LoadedPlace(s, shards, files, i);
        ShardAccepts(s, pairs, s[i].shard, files);
        assert InHeader(files, s[i].shard, Described(s[i].name, s[i].meta));
      }
    }
    ShardListMembers(pairs);
    if forall i :: 0 <= i < |pairs| ==> pairs[i].shard != Some(MTP_SHARD) {
      AcceptedButTotal(s, shards, files, pairs, total);
    }
  }

  /** When nothing is left out the totals agree. */
  lemma AcceptedButTotal(s: seq<Tensor>, shards: seq<Storage.ShardFile>, files: Files, pairs: seq<I.Mapping>,
                         total: nat)
    requires Directory(files) && I.Loadable(pairs) && FromPairs(s, pairs)
    requires Loaded(s, shards, files) && TotalMatches(s, total)
    requires forall i :: 0 <= i < |pairs| ==> PlainName(pairs[i].shard) && pairs[i].shard != Some(MTP_SHARD)
    requires forall shard :: shard in ShardList(pairs) ==> ShardAccepted(pairs, shard, files)
    requires Complete(pairs, files)
    ensures total == P.Lengths(Entries(ShardList(pairs), files))
  {
    hide ShardLoads, InHeader, Storage.CatalogueApart, ShardAccepted, ShardList, P.Lengths, TotalBytes, Entries, Listed;
    hide Directory, Loaded, Has;
    var catalogue := Entries(ShardList(pairs), files);
    assert Accepted(pairs, files, P.Lengths(catalogue));
    AcceptedCatalogue(pairs, files, P.Lengths(catalogue));
    forall e | 0 <= e < |s|
      ensures s[e].shard != MTP_SHARD && !s[e].meta.dtype.Unknown?
    {
      assert pairs[e] == I.Mapping(s[e].name, Some(s[e].shard));
      LoadedPlace(s, shards, files, e);
    }
    TotalAgrees(s, shards, files, pairs, catalogue);
  }

  // ---------- The catalogue against the index ----------

  /** What the packer reads is the index without the shard that is left out, and comes from the same payloads. */
  lemma CatalogueIsIndex(s: seq<Tensor>, shards: seq<Storage.ShardFile>, files: Files, pairs: seq<I.Mapping>,
                         catalogue: seq<P.Source>)
    requires Directory(files) && Loaded(s, shards, files) && FromPairs(s, pairs) && P.DistinctNames(catalogue)
    requires forall x :: x in catalogue <==> Listed(pairs, files, x)
    ensures C.CatalogueOf(s, catalogue)
  {
    hide Listed, Loaded, Directory;
    forall i | 0 <= i < |catalogue|
      ensures C.HasEntry(s, catalogue[i])
    {
      ListedAreEntries(s, shards, files, pairs, catalogue[i]);
    }
    forall e | 0 <= e < |s| && s[e].shard != MTP_SHARD
      ensures P.Source(s[e].name, s[e].shard, s[e].meta) in catalogue
    {
      var x := P.Source(s[e].name, s[e].shard, s[e].meta);
      assert C.IsEntry(s[e], x);
      ListedAreEntries(s, shards, files, pairs, x);
    }
  }

  lemma EntryIsSource(s: seq<Tensor>, shards: seq<Storage.ShardFile>, files: Files, e: nat, x: P.Source)
    requires Directory(files) && Loaded(s, shards, files) && e < |s| && C.IsEntry(s[e], x)
    ensures forall id :: 0 <= id < |shards| ==> FileOpen(shards[id])
    ensures Storage.IsSource(x, s[e], Catalogue.Shards(files), Payloads(shards))
  {
    hide EntryLoaded, Storage.CatalogueApart, AllLoad, InHeader, ShardLoads;
    LoadedPlace(s, shards, files, e);
  }

  /** Every name that is packed is a trunk name and stands for an index entry with the same bytes. */
  lemma NamesAreSources(s: seq<Tensor>, shards: seq<Storage.ShardFile>, files: Files, catalogue: seq<P.Source>,
                        names: seq<P.Source>)
    requires Directory(files) && Loaded(s, shards, files) && C.CatalogueOf(s, catalogue)
    requires multiset(names) == multiset(P.TrunkOf(catalogue))
    ensures forall id :: 0 <= id < |shards| ==> FileOpen(shards[id])
    ensures Storage.AllSources(names, s, Catalogue.Shards(files), Payloads(shards))
  {
    hide EntryLoaded, Storage.CatalogueApart, AllLoad, C.CatalogueOf, P.TrunkOf, Directory, P.Trunk, Storage.IsSource;
    forall i | 0 <= i < |names|
      ensures Storage.HasSource(names[i], s, Catalogue.Shards(files), Payloads(shards))
    {
      C.PackedNamesAreTrunk(s, catalogue, names, i);
      var e :| 0 <= e < |s| && C.IsEntry(s[e], names[i]);
      EntryIsSource(s, shards, files, e, names[i]);
    }
  }

  // ---------- The header that the packer writes ----------

  function MemberOf(t: Described): S.Member {
    S.Member(t.name, Some(S.Info(t.meta.dtype, t.meta.shape, t.meta.offset, t.meta.offset + t.meta.bytes)), false)
  }

  /** The packed header: the tensors in their order, then the metadata, which holds strings only. */
  function PackedHeader(entries: seq<Described>): (r: seq<S.Member>)
    ensures |r| == |entries| + 1 && r[|entries|] == S.Member(S.METADATA_NAME, None, true)
    ensures forall i :: 0 <= i < |entries| ==> r[i] == MemberOf(entries[i])
  {
    seq(|entries|, i requires 0 <= i < |entries| => MemberOf(entries[i])) + [S.Member(S.METADATA_NAME, None, true)]
  }

  /** A tensor that was accepted in its shard is accepted in the packed file. */
  lemma MovedIsWellFormed(s: seq<Tensor>, shards: seq<Storage.ShardFile>, files: Files, x: P.Source, t: Described,
                          payload: nat)
    requires Directory(files) && Loaded(s, shards, files) && C.HasEntry(s, x) && P.Trunk(x.name)
    requires P.Moved(x, t) && t.meta.offset + t.meta.bytes <= payload <= UINT64_MAX
    ensures t.name != S.METADATA_NAME && S.WellFormed(MemberOf(t), payload)
    ensures S.Word(MemberOf(t).info.value) && S.Described1(MemberOf(t)) == t
  {
    hide Loaded, ShardLoads, Directory, TensorsIn, S.ProductOf, S.Leading;
    var e :| 0 <= e < |s| && C.IsEntry(s[e], x);
    LoadedPlace(s, shards, files, e);
    var m := HeaderTensor(s, s[e].shard, files, Described(s[e].name, s[e].meta));
    assert P.TRUNK_PREFIX[0] != S.METADATA_NAME[0];
  }

  lemma HeaderTensors(entries: seq<Described>, payload: nat)
    requires forall i :: 0 <= i < |entries| ==> HeaderFits(entries[i], payload)
    ensures forall i :: 0 <= i < |PackedHeader(entries)| ==> S.WellFormed(PackedHeader(entries)[i], payload)
    ensures S.TensorsOf(PackedHeader(entries), payload) == entries
  {
    hide S.WellFormed;
    MetadataFits(payload);
    var members := PackedHeader(entries);
    var front := members[..|entries|];
    forall i | 0 <= i < |members|
      ensures S.WellFormed(members[i], payload)
    {
      assert i < |entries| ==> HeaderFits(entries[i], payload);
    }
    assert members == front + [members[|entries|]];
    FrontTensors(entries, front, payload);
    S.TensorsSnoc(front, members[|entries|], payload);
  }

  predicate HeaderFits(t: Described, payload: nat) {
    t.name != S.METADATA_NAME && S.WellFormed(MemberOf(t), payload) && S.Described1(MemberOf(t)) == t
  }

  lemma MetadataFits(payload: nat)
    ensures S.WellFormed(S.Member(S.METADATA_NAME, None, true), payload)
  {
  }

  lemma {:induction false} FrontTensors(entries: seq<Described>, members: seq<S.Member>, payload: nat)
    requires |members| == |entries| && forall i :: 0 <= i < |entries| ==> members[i] == MemberOf(entries[i])
    requires forall i :: 0 <= i < |entries| ==> HeaderFits(entries[i], payload)
    requires forall i :: 0 <= i < |members| ==> S.WellFormed(members[i], payload)
    ensures S.TensorsOf(members, payload) == entries
  {
    hide S.WellFormed;
    if entries == [] {
    } else {
      var n := |entries| - 1;
      FrontTensors(entries[..n], members[..n], payload);
      assert HeaderFits(entries[n], payload);
    }
  }

  /** The runtime's header check accepts the packed header and gives back the packed tensors. */
  lemma PackedHeaderAccepted(s: seq<Tensor>, shards: seq<Storage.ShardFile>, files: Files, catalogue: seq<P.Source>,
                             names: seq<P.Source>, r: P.Packed)
    requires Directory(files) && Loaded(s, shards, files) && C.CatalogueOf(s, catalogue)
    requires multiset(names) == multiset(P.TrunkOf(catalogue)) && P.PackedFrom(names, Catalogue.Shards(files), r)
    requires |r.payload| <= UINT64_MAX
    ensures S.Acceptable(PackedHeader(r.entries), |r.payload|)
    ensures S.TensorsOf(PackedHeader(r.entries), |r.payload|) == r.entries
    ensures forall i :: 0 <= i < |PackedHeader(r.entries)| && PackedHeader(r.entries)[i].info.Some?
                        ==> S.Word(PackedHeader(r.entries)[i].info.value)
  {
    hide Loaded, Directory, C.CatalogueOf, P.TrunkOf, P.Trunk, P.AllPresent, P.PlacesOf, P.Content, S.WellFormed,
      S.Word, S.Partition, S.Chained, S.TensorsOf;
    LoadedDistinct(s, shards, files);
    forall i | 0 <= i < |r.entries|
      ensures HeaderFits(r.entries[i], |r.payload|) && S.Word(MemberOf(r.entries[i]).info.value)
    {
      C.PackedNamesAreTrunk(s, catalogue, names, i);
      PackedInside(names, Catalogue.Shards(files), r, i);
      MovedIsWellFormed(s, shards, files, names[i], r.entries[i], |r.payload|);
    }
    HeaderTensors(r.entries, |r.payload|);
    S.ChainIsPartition(S.RangesOf(r.entries), |r.payload|);
  }

  lemma PackedInside(names: seq<P.Source>, shards: map<string, P.Shard>, r: P.Packed, i: nat)
    requires P.PackedFrom(names, shards, r) && i < |r.entries|
    ensures |names| == |r.entries| && P.Moved(names[i], r.entries[i])
    ensures r.entries[i].meta.offset + r.entries[i].meta.bytes <= |r.payload|
  {
    assert P.Present(names[i], shards);
    assert P.Moved(names[i], r.entries[i]) && P.Stored(r.entries[i], r.payload, P.Content(names[i], shards));
  }

  lemma {:induction false} RangesTotal(names: seq<P.Source>, entries: seq<Described>)
    requires P.AllMoved(names, entries)
    ensures S.Total(S.RangesOf(entries)) == P.Lengths(names)
  {
    if names == [] {
    } else {
      var n := |names| - 1;
      assert P.Moved(names[n], entries[n]);
      assert S.RangesOf(entries)[..n] == S.RangesOf(entries[..n]);
      RangesTotal(names[..n], entries[..n]);
    }
  }

  /** The packed payload is as long as the trunk. */
  lemma PayloadLength(names: seq<P.Source>, shards: map<string, P.Shard>, r: P.Packed, trunk: seq<P.Source>)
    requires P.PackedFrom(names, shards, r) && multiset(names) == multiset(trunk)
    ensures |r.payload| == P.Lengths(trunk)
  {
    hide P.AllPresent, P.Content, P.PlacesOf, P.Lengths, S.RangesOf, S.Chained;
    S.ChainTotal(S.RangesOf(r.entries), 0, |r.payload|);
    RangesTotal(names, r.entries);
    LengthsPermute(names, trunk);
  }

  // ---------- The whole way ----------

  /** A tensor that the packer copies. */
  ghost predicate HasTrunk(s: seq<Tensor>) {
    exists e :: 0 <= e < |s| && P.Trunk(s[e].name) && s[e].shard != MTP_SHARD
  }

  lemma TrunkToPack(s: seq<Tensor>, catalogue: seq<P.Source>)
    requires C.CatalogueOf(s, catalogue)
    ensures P.TrunkOf(catalogue) != [] <==> HasTrunk(s)
  {
    hide P.Trunk, P.TrunkOf;
    P.TrunkOfMembers(catalogue);
    if P.TrunkOf(catalogue) != [] {
      var x := P.TrunkOf(catalogue)[0];
      assert x in P.TrunkOf(catalogue);
      var i :| 0 <= i < |catalogue| && catalogue[i] == x;
      var e :| 0 <= e < |s| && C.IsEntry(s[e], catalogue[i]);
    }
    if e :| 0 <= e < |s| && P.Trunk(s[e].name) && s[e].shard != MTP_SHARD {
      assert P.Source(s[e].name, s[e].shard, s[e].meta) in P.TrunkOf(catalogue);
    }
  }

  /** The model with the packed trunk attached: ready, its files faithful, and every read inside a tensor served. */
  ghost predicate Attached(native: Storage.Model, packed: Storage.Model, s: seq<Tensor>, original: seq<Bytes>) {
    && packed.packed.Some? && packed == native.(packed := packed.packed)
    && packed.Ready() && packed.Faithful(original) && AllServed(packed, s)
  }

  /** The table of the packed file passes the overlap check when no empty trunk tensor shares its start. */
  lemma OpenPasses(s: seq<Tensor>, tensors: seq<Described>, places: map<string, P.Place>, base: nat,
                   before: seq<Placed<nat>>, rows: seq<Placed<nat>>)
    requires T.Opens(s, tensors, places) && T.DistinctTensors(tensors) && T.DistinctEntries(s)
    requires Storage.CatalogueApart(s) && !C.TrunkTie(s)
    requires T.Rows(s, tensors, base, before) && multiset(before) == multiset(rows) && Sorted(rows)
    ensures NeighboursApart(rows)
  {
    hide T.Opens, T.DistinctTensors, T.DistinctEntries, Storage.CatalogueApart, C.TrunkTie, T.Rows, Sorted,
      NeighboursApart;
    C.OverlapVerdict(s, tensors, places, base, before);
  }

  lemma PackedServes(s: seq<Tensor>, names: seq<P.Source>, shards: map<string, P.Shard>, original: seq<Bytes>,
                     r: P.Packed, tensors: seq<Described>, prefix: Bytes, rows: seq<Placed<nat>>,
                     native: Storage.Model)
    requires P.PackedFrom(names, shards, r) && T.DistinctEntries(s) && Storage.CatalogueApart(s)
    requires Storage.AllSources(names, s, shards, original)
    requires Storage.Opened(s, r, tensors, |prefix|, rows) && Sorted(rows) && NeighboursApart(rows)
    requires native.packed.None? && native.Ready() && native.Faithful(original) && !native.extracted
    requires AllServed(native, s)
    ensures Attached(native, native.(packed := Some(Storage.PackedFile(rows, prefix + r.payload))), s, original)
  {
    hide P.PackedFrom, T.DistinctEntries, Storage.CatalogueApart, Storage.AllSources, Storage.Opened, Sorted,
      NeighboursApart, Storage.Model.Ready, Storage.Model.Faithful;
    var packed := native.(packed := Some(Storage.PackedFile(rows, prefix + r.payload)));
    Storage.PackedStaysFaithful(s, names, shards, original, r, tensors, prefix, rows, native);
    forall e, relative: nat, bytes: nat | 0 <= e < |s| && bytes > 0 && relative + bytes <= s[e].meta.bytes
      ensures Served(packed, s[e], relative, bytes)
    {
      assert Served(native, s[e], relative, bytes);
      Storage.PackedTrunkIsTransparent(s, names, shards, original, r, tensors, prefix, rows, native, e, relative,
                                        bytes);
    }
  }

  /** The runtime without a packed trunk: the index, then the shards. */
  method LoadNative(hash: string -> nat, pairs: seq<I.Mapping>, files: Files, total: nat)
    returns (index: I.Index?, native: Storage.Model)
    requires Directory(files) && |pairs| <= I.INDEX_MAX_BYTES
    ensures index != null ==> fresh(index) && index.Valid() && index.count <= index.entries.Length && I.Loadable(pairs)
    ensures index != null ==> var s := index.entries[..index.count];
                              && native == Native(native.shards) && Loaded(s, native.shards, files)
                              && FromPairs(s, pairs) && TotalMatches(s, total)
  {
    hide Loaded, Directory, TotalMatches, AllLoad;
    hide I.Index.Valid;
    native := Native([]);
    index := I.Load(hash, pairs);
    if index == null {
      return;
    }
    index.InBounds();
    ghost var start := index.entries[..index.count];
    assert FromPairs(start, pairs);
    var ok, shards := LoadShards(index, files, total);
    if !ok {
      return null, native;
    }
    native := Native(shards);
    StillFromPairs(start, index.entries[..index.count], pairs);
  }

  lemma StillFromPairs(start: seq<Tensor>, s: seq<Tensor>, pairs: seq<I.Mapping>)
    requires FromPairs(start, pairs) && SameEntries(start, s)
    ensures FromPairs(s, pairs)
  {
  }

  /** The packer on the same files, and the runtime opening what it wrote.  `prefix` is the length and the header
      text. */
  method PackAndOpen(index: I.Index, native: Storage.Model, pairs: seq<I.Mapping>, files: Files, total: nat,
                     order: (P.Source, P.Source) -> bool, prefix: Bytes)
    returns (packed: Option<Storage.Model>)
    requires index.Valid() && index.count <= index.entries.Length && Directory(files) && I.Loadable(pairs)
    requires Sorting.TotalOrder(order)
    requires var s := index.entries[..index.count];
             && native == Native(native.shards) && Loaded(s, native.shards, files)
             && FromPairs(s, pairs) && TotalMatches(s, total)
    ensures Accepted(pairs, files, total)
    ensures var s, trunk := index.entries[..index.count], P.TrunkOf(Entries(ShardList(pairs), files));
            && (packed.Some? ==> HasTrunk(s) && C.TrunkIsComplete(s) && |prefix| + P.Lengths(trunk) <= INT64_MAX)
            && (HasTrunk(s) && C.TrunkIsComplete(s) && |prefix| + P.Lengths(trunk) <= INT64_MAX && !C.TrunkTie(s)
                ==> packed.Some?)
    ensures forall id :: 0 <= id < |native.shards| ==> FileOpen(native.shards[id])
    ensures packed.Some? ==> Attached(native, packed.value, index.entries[..index.count], Payloads(native.shards))
  {
    hide Loaded, Directory, TotalMatches, Accepted, Listed, Entries, ShardList, P.Lengths, P.TrunkOf, P.PackedFrom,
      C.CatalogueOf, HasTrunk, C.TrunkIsComplete, C.TrunkTie, P.AllPresent, P.DistinctNames, Sorting.TotalOrder,
      S.Acceptable, S.TensorsOf, S.Word, PackedHeader, T.Opens, T.Rows, Sorted, NeighboursApart, FromPairs;
    hide I.Index.Valid;
    ghost var s := index.entries[..index.count];
    LoadedServes(s, native.shards, files);
    PackerAccepts(s, native.shards, files, pairs, total);
    var catalogue := ReadCatalogue(pairs, files, total);
    CatalogueIsIndex(s, native.shards, files, pairs, catalogue.value);
    TrunkToPack(s, catalogue.value);
    var r;
    ghost var names;
    r, names := P.Pack(catalogue.value, Catalogue.Shards(files), order);
    if r.None? {
      return None;
    }
    PayloadLength(names, Catalogue.Shards(files), r.value, P.TrunkOf(catalogue.value));
    if |prefix| + |r.value.payload| > INT64_MAX {
      return None;
    }
    packed := OpenPacked(index, native, files, catalogue.value, r.value, names, prefix);
  }

  /** For every checkpoint: when the runtime loads it, the packer accepts it; when the packed trunk opens, which it does
      whenever the trunk is there, complete, not too long and without a tie, it serves every read inside a tensor. */
  method PackedCheckpoint(hash: string -> nat, pairs: seq<I.Mapping>, files: Files, total: nat,
                          order: (P.Source, P.Source) -> bool, prefix: Bytes)
    returns (index: I.Index?, native: Storage.Model, packed: Option<Storage.Model>)
    requires Directory(files) && |pairs| <= I.INDEX_MAX_BYTES && Sorting.TotalOrder(order)
    ensures index != null ==> index.Valid() && index.count <= index.entries.Length && Accepted(pairs, files, total)
    ensures index != null ==>
              var s, trunk := index.entries[..index.count], P.TrunkOf(Entries(ShardList(pairs), files));
              && (packed.Some? ==> HasTrunk(s) && C.TrunkIsComplete(s) && |prefix| + P.Lengths(trunk) <= INT64_MAX)
              && (HasTrunk(s) && C.TrunkIsComplete(s) && |prefix| + P.Lengths(trunk) <= INT64_MAX && !C.TrunkTie(s)
                  ==> packed.Some?)
    ensures index != null ==>
              && (forall id :: 0 <= id < |native.shards| ==> FileOpen(native.shards[id]))
              && native.Ready() && native.Faithful(Payloads(native.shards))
              && AllServed(native, index.entries[..index.count])
              && (packed.Some?
                  ==> Attached(native, packed.value, index.entries[..index.count], Payloads(native.shards)))
  {
    hide Loaded, Directory, TotalMatches, Accepted, Entries, ShardList, P.Lengths, P.TrunkOf, HasTrunk,
      C.TrunkIsComplete, C.TrunkTie, AllServed, Attached, Payloads, Sorting.TotalOrder;
    hide I.Index.Valid;
    hide Storage.Model.Ready;
    hide Storage.Model.Faithful;
    packed := None;
    index, native := LoadNative(hash, pairs, files, total);
    if index != null {
      LoadedServes(index.entries[..index.count], native.shards, files);
      packed := PackAndOpen(index, native, pairs, files, total, order, prefix);
    }
  }

  /** The packed header goes through the runtime's header check, then the table is built and checked. */
  method OpenPacked(index: I.Index, native: Storage.Model, files: Files, ghost catalogue: seq<P.Source>, r: P.Packed,
                    ghost names: seq<P.Source>, prefix: Bytes)
    returns (packed: Option<Storage.Model>)
    requires index.Valid() && index.count <= index.entries.Length && Directory(files)
    requires var s := index.entries[..index.count];
             && native == Native(native.shards) && Loaded(s, native.shards, files) && C.CatalogueOf(s, catalogue)
    requires multiset(names) == multiset(P.TrunkOf(catalogue)) && P.TrunkOf(catalogue) != []
    requires P.PackedFrom(names, Catalogue.Shards(files), r) && |r.payload| <= UINT64_MAX
    ensures var s := index.entries[..index.count];
            && (packed.Some? ==> C.TrunkIsComplete(s)) && (C.TrunkIsComplete(s) && !C.TrunkTie(s) ==> packed.Some?)
    ensures forall id :: 0 <= id < |native.shards| ==> FileOpen(native.shards[id])
    ensures packed.Some? ==> Attached(native, packed.value, index.entries[..index.count], Payloads(native.shards))
  {
    hide Loaded, Directory, P.TrunkOf, P.PackedFrom, C.CatalogueOf, C.TrunkIsComplete, C.TrunkTie, S.Acceptable,
      S.TensorsOf, S.Word, PackedHeader, T.Opens, T.Rows, Sorted, NeighboursApart, S.Chained, T.DistinctTensors,
      Attached, Storage.AllSources, T.DistinctEntries, Storage.CatalogueApart, AllServed, Payloads;
    hide I.Index.Valid;
    hide Storage.Model.Ready;
    hide Storage.Model.Faithful;
    ghost var s := index.entries[..index.count];
    LoadedServes(s, native.shards, files);
    LoadedApart(s, native.shards, files);
    NamesAreSources(s, native.shards, files, catalogue, names);
    PackedHeaderAccepted(s, native.shards, files, catalogue, names, r);
    var read, tensors := S.ParseHeader(PackedHeader(r.entries), |r.payload|);
    C.PackedFileOpens(s, catalogue, names, Catalogue.Shards(files), r, tensors);
    var ok, rows := T.Open(index, tensors, r.places, |prefix|);
    if T.Opens(s, tensors, r.places) {
      ghost var before :| T.Rows(s, tensors, |prefix|, before) && multiset(before) == multiset(rows[..]);
      if !C.TrunkTie(s) {
        OpenPasses(s, tensors, r.places, |prefix|, before, rows[..]);
      }
    }
    if !ok {
      return None;
    }
    PackedServes(s, names, Catalogue.Shards(files), Payloads(native.shards), r, tensors, prefix, rows[..], native);
    packed := Some(native.(packed := Some(Storage.PackedFile(rows[..], prefix + r.payload))));
  }

  lemma LoadedApart(s: seq<Tensor>, shards: seq<Storage.ShardFile>, files: Files)
    requires Loaded(s, shards, files)
    ensures T.DistinctEntries(s) && Storage.CatalogueApart(s)
  {
  }

  /** The same read through both models: it succeeds and gives the bytes of the original shard twice. */
  method ReadBoth(native: Storage.Model, packed: Storage.Model, ghost s: seq<Tensor>, ghost original: seq<Bytes>,
                  t: Tensor, relative: nat, bytes: nat, a: array<Byte>, b: array<Byte>)
    requires native.Ready() && native.Faithful(original) && AllServed(native, s) &&
             Attached(native, packed, s, original)
    requires t in s && bytes > 0 && relative + bytes <= t.meta.bytes && bytes <= a.Length && bytes <= b.Length && a != b
    modifies a, b
    ensures t.shardId < |original| && t.meta.offset + t.meta.bytes <= |original[t.shardId]|
    ensures var start := t.meta.offset + relative;
            a[..bytes] == b[..bytes] == original[t.shardId][start..start + bytes]
  {
    hide Storage.Model.Ready;
    hide Storage.Model.Faithful;
    ghost var e :| 0 <= e < |s| && s[e] == t;
    assert Served(native, s[e], relative, bytes) && Served(packed, s[e], relative, bytes);
    var first := Storage.ModelRead(native, T.Span(t), relative, bytes, a, original);
    var second := Storage.ModelRead(packed, T.Span(t), relative, bytes, b, original);
  }
}
