/** Loading the headers of the shards of a checkpoint with native files (load_shards in inkling_bind.c).

    `LoadShards` is proved to succeed exactly when every shard file but the one left out has an accepted header with
    exactly the names of the index, and to leave a catalogue whose tensors lie apart (`Loaded`).
*/
module Shards {
  import opened Octets
  import opened Wrappers
  import opened Counters
  import opened Tensors
  import opened Catalogue
  import opened Ranges
  import C = Checkpoint
  import I = Index
  import P = Packing
  import Pigeonhole
  import S = Safetensors
  import Sorting
  import Storage
  import T = PackedTrunk

  // ---------- One header ----------

  /** A number that does not fit 64 bits is refused as if it were none. */
  function Narrow(m: S.Member): S.Member {
    if m.info.Some? && !S.Word(m.info.value) then m.(info := None) else m
  }

  function Narrowed(members: seq<S.Member>): (r: seq<S.Member>)
    ensures |r| == |members| && forall i :: 0 <= i < |members| ==> r[i] == Narrow(members[i])
  {
    seq(|members|, i requires 0 <= i < |members| => Narrow(members[i]))
  }

  /** Of an accepted header nothing was narrowed away. */
  lemma {:induction false} NarrowedTensors(members: seq<S.Member>, payload: nat)
    requires forall i :: 0 <= i < |members| ==> S.WellFormed(Narrowed(members)[i], payload)
    ensures S.TensorsOf(Narrowed(members), payload) == TensorsIn(members)
  {
    hide S.SizeMatches;
    if members == [] {
    } else {
      var n := |members| - 1;
      assert Narrowed(members)[..n] == Narrowed(members[..n]);
      assert forall i :: 0 <= i < n ==> Narrowed(members[..n])[i] == Narrowed(members)[i];
      NarrowedTensors(members[..n], payload);
      NarrowedMember(members[n], payload);
    }
  }

  lemma NarrowedMember(m: S.Member, payload: nat)
    requires S.WellFormed(Narrow(m), payload)
    ensures S.One(Narrow(m), payload) == if IsTensor(m) then [S.Described1(m)] else []
  {
  }

  /** The shard's header is accepted and names exactly the shard's entries. */
  ghost predicate ShardLoads(s: seq<Tensor>, shard: string, files: Files) {
    && shard in files && Readable(files[shard])
    && S.Acceptable(Narrowed(files[shard].members), |files[shard].shard.Payload()|)
    && I.Binds(s, shard, TensorsIn(files[shard].members))
  }

  lemma BindsPermutes(s: seq<Tensor>, shard: string, a: seq<Described>, b: seq<Described>)
    requires multiset(a) == multiset(b) && I.Binds(s, shard, a)
    ensures I.Binds(s, shard, b)
  {
    hide I.Resolves, I.Expected;
    assert |multiset(a)| == |a| && |multiset(b)| == |b|;
    Sorting.PermutationInside(b, a);
    forall p | 0 <= p < |b|
      ensures I.Resolves(s, shard, b[p].name)
    {
      assert b[p] in b;
      var q :| 0 <= q < |a| && a[q] == b[p];
      assert I.Resolves(s, shard, a[q].name);
    }
  }

  /** The entries are the same but for what is bound to them. */
  predicate SameEntries(s: seq<Tensor>, t: seq<Tensor>) {
    |s| == |t| && forall e :: 0 <= e < |s| ==> t[e] == s[e].(meta := t[e].meta)
  }

  lemma {:induction false} ExpectedSame(s: seq<Tensor>, t: seq<Tensor>, shard: string)
    requires SameEntries(s, t)
    ensures I.Expected(s, shard) == I.Expected(t, shard)
  {
    if s == [] {
    } else {
      ExpectedSame(s[..|s| - 1], t[..|t| - 1], shard);
    }
  }

  /** Binding other shards does not change whether a shard loads. */
  lemma LoadsSame(s: seq<Tensor>, t: seq<Tensor>, shard: string, files: Files)
    requires SameEntries(s, t) && ShardLoads(s, shard, files)
    ensures ShardLoads(t, shard, files)
  {
    hide TensorsIn, S.Acceptable, Readable, I.Expected;
    ExpectedSame(s, t, shard);
    var header := TensorsIn(files[shard].members);
    forall p | 0 <= p < |header|
      ensures I.Resolves(t, shard, header[p].name)
    {
      assert I.Resolves(s, shard, header[p].name);
      var e :| 0 <= e < |s| && s[e].name == header[p].name && s[e].shard == shard;
      assert t[e].name == header[p].name;
    }
  }

  /** inkling_index_bind_header for one shard file. */
  method LoadShard(index: I.Index, shard: string, files: Files) returns (ok: bool, ghost header: seq<Described>)
    requires index.Valid() && Directory(files)
    modifies index.entries
    ensures index.Valid()
    ensures ok <==> ShardLoads(old(index.entries[..index.count]), shard, files)
    ensures forall e :: 0 <= e < index.count
                        ==> index.entries[e] ==
                            if ok then I.Bound(old(index.entries[e]), header) else old(index.entries[e])
    ensures ok ==> multiset(header) == multiset(TensorsIn(files[shard].members))
                   && I.Binds(old(index.entries[..index.count]), shard, header)
  {
    hide TensorsIn, I.Bound, S.Acceptable, S.TensorsOf, I.Binds, S.Chained;
    hide I.Index.Valid;
    header := [];
    index.InBounds();
    if shard !in files || !Readable(files[shard]) {
      return false, header;
    }
    var read, tensors := S.ParseHeader(Narrowed(files[shard].members), |files[shard].shard.Payload()|);
    if !read {
      return false, header;
    }
    Parsed(files[shard].members, |files[shard].shard.Payload()|);
    ok := index.BindTensors(shard, tensors);
    header := tensors;
    if I.Binds(old(index.entries[..index.count]), shard, TensorsIn(files[shard].members)) {
      BindsPermutes(old(index.entries[..index.count]), shard, TensorsIn(files[shard].members), tensors);
    }
    if ok {
      BindsPermutes(old(index.entries[..index.count]), shard, tensors, TensorsIn(files[shard].members));
    }
  }

  lemma Parsed(members: seq<S.Member>, payload: nat)
    requires S.Acceptable(Narrowed(members), payload)
    ensures S.TensorsOf(Narrowed(members), payload) == TensorsIn(members)
  {
    NarrowedTensors(members, payload);
  }

  // ---------- What loading establishes ----------

  const UNOPENED: Storage.ShardFile := Storage.ShardFile(0, 0, None)

  function OpenedFile(f: File): Storage.ShardFile {
    Storage.ShardFile(f.shard.headerSize, |f.shard.file|, Some(f.shard.file))
  }

  /** An entry after loading: described by the header of its shard, whose file is open; or left unbound. */
  predicate EntryLoaded(t: Tensor, shards: seq<Storage.ShardFile>, files: Files) {
    && t.shardId < |shards|
    && if t.shard == MTP_SHARD then t.meta == UNBOUND && shards[t.shardId] == UNOPENED
       else InHeader(files, t.shard, Described(t.name, t.meta)) && shards[t.shardId] == OpenedFile(files[t.shard])
  }

  predicate FileOpen(shard: Storage.ShardFile) {
    shard == UNOPENED
    || (shard.file.Some? && 8 + shard.headerSize <= |shard.file.value| == shard.fileSize <= INT64_MAX)
  }

  ghost predicate Loaded(s: seq<Tensor>, shards: seq<Storage.ShardFile>, files: Files) {
    && T.DistinctEntries(s) && I.SameShardSameNumber(s) && Storage.CatalogueApart(s)
    && (forall e :: 0 <= e < |s| ==> EntryLoaded(s[e], shards, files))
    && (forall id :: 0 <= id < |shards| ==> FileOpen(shards[id]))
    && AllLoad(s, files)
  }

  /** What the header check has established of a tensor. */
  lemma HeaderTensor(s: seq<Tensor>, shard: string, files: Files, t: Described) returns (m: S.Member)
    requires ShardLoads(s, shard, files) && t in TensorsIn(files[shard].members)
    ensures m in files[shard].members && IsTensor(m) && t == S.Described1(m)
    ensures Narrow(m) == m && S.WellFormed(m, |files[shard].shard.Payload()|)
  {
    hide TensorsIn, I.Binds, S.Partition, S.SizeMatches;
    var members := files[shard].members;
    TensorsAreMembers(members);
    var i :| 0 <= i < |members| && IsTensor(members[i]) && S.Described1(members[i]) == t;
    m := members[i];
    assert S.WellFormed(Narrowed(members)[i], |files[shard].shard.Payload()|);
  }

  // ---------- Tensors lie apart ----------

  lemma UnboundApart(s: seq<Tensor>)
    requires forall e :: 0 <= e < |s| ==> s[e].meta == UNBOUND
    ensures Storage.CatalogueApart(s)
  {
  }

  predicate OtherTensor(a: Described, b: Described) {
    a.name != b.name
  }

  /** A rearranged header still names each tensor once. */
  lemma HeaderDistinct(members: seq<S.Member>, header: seq<Described>)
    requires DistinctMembers(members) && multiset(header) == multiset(TensorsIn(members))
    ensures Pigeonhole.NoRepeats(I.HeaderNames(header))
  {
    hide TensorsIn;
    TensorsAreMembers(members);
    var tensors := TensorsIn(members);
    forall p, q | 0 <= p < |tensors| && 0 <= q < |tensors| && p != q
      ensures OtherTensor(tensors[p], tensors[q])
    {
      assert I.HeaderNames(tensors)[p] != I.HeaderNames(tensors)[q];
    }
    Sorting.PairwisePermutes(OtherTensor, tensors, header);
    assert forall p, q :: 0 <= p < q < |header| ==> OtherTensor(header[p], header[q]);
  }

  /** After an accepted header has been bound: the shard's entries have places of the header, the others are as
      before. */
  lemma BoundPlaces(s: seq<Tensor>, shard: string, files: Files, header: seq<Described>, e: nat)
    requires Directory(files) && T.DistinctEntries(s) && ShardLoads(s, shard, files) && e < |s|
    requires multiset(header) == multiset(TensorsIn(files[shard].members)) && I.Binds(s, shard, header)
    ensures s[e].shard == shard ==> InHeader(files, shard, Described(s[e].name, I.Bound(s[e], header).meta))
    ensures s[e].shard != shard ==> I.Bound(s[e], header) == s[e]
  {
    hide TensorsIn, I.Bound, I.Binds, S.Acceptable, Readable;
    HeaderDistinct(files[shard].members, header);
    assert Pigeonhole.NoRepeats(NamesOf(s));
    I.BindingIsBijective(s, shard, header, e);
    if s[e].shard == shard {
      var p :| 0 <= p < |header| && header[p].name == s[e].name
               && I.Bound(s[e], header) == s[e].(meta := header[p].meta);
      assert header[p] == Described(s[e].name, I.Bound(s[e], header).meta);
      Sorting.PermutationHolds(header, TensorsIn(files[shard].members), header[p]);
    }
  }

  /** Binding an accepted header keeps the catalogue's tensors apart. */
  lemma BindingKeepsApart(s: seq<Tensor>, shard: string, files: Files, header: seq<Described>, t: seq<Tensor>)
    requires Directory(files) && T.DistinctEntries(s) && ShardLoads(s, shard, files)
    requires multiset(header) == multiset(TensorsIn(files[shard].members)) && I.Binds(s, shard, header)
    requires I.SameShardSameNumber(s) && Storage.CatalogueApart(s)
    requires |t| == |s| && forall e :: 0 <= e < |s| ==> t[e] == I.Bound(s[e], header)
    ensures Storage.CatalogueApart(t)
  {
    hide TensorsIn, I.Bound, I.Binds, S.Acceptable, Readable, ShardLoads, Directory;
    HeaderPartitions(s, shard, files, header);
    forall e, f | 0 <= e < |t| && 0 <= f < |t| && e != f
      ensures Apart(T.Span(t[e]), T.Span(t[f]))
    {
      BoundPlaces(s, shard, files, header, e);
      BoundPlaces(s, shard, files, header, f);
      if s[e].shard == shard && s[f].shard == shard {
        C.BoundShardApart(s, shard, header, |files[shard].shard.Payload()|, e, f);
      } else {
        assert Apart(T.Span(s[e]), T.Span(s[f]));
      }
    }
  }

  lemma HeaderPartitions(s: seq<Tensor>, shard: string, files: Files, header: seq<Described>)
    requires Directory(files) && T.DistinctEntries(s) && ShardLoads(s, shard, files)
    requires multiset(header) == multiset(TensorsIn(files[shard].members))
    ensures shard in files && files[shard].shard.Valid()
    ensures S.Partition(S.RangesOf(header), |files[shard].shard.Payload()|)
    ensures Pigeonhole.NoRepeats(NamesOf(s)) && Pigeonhole.NoRepeats(I.HeaderNames(header))
  {
    hide TensorsIn, S.Partition, S.RangesOf, I.Binds;
    var members := files[shard].members;
    HeaderDistinct(members, header);
    Parsed(members, |files[shard].shard.Payload()|);
    S.PartitionPermutes(TensorsIn(members), header, |files[shard].shard.Payload()|);
  }

  // ---------- The loop ----------

  /** An entry while the loop runs: loaded when its shard's file is open, unbound otherwise. */
  ghost predicate EntryState(t: Tensor, shards: seq<Storage.ShardFile>, files: Files, start: seq<Tensor>) {
    && t.shardId < |shards|
    && if shards[t.shardId].file.Some?
       then t.shard != MTP_SHARD && EntryLoaded(t, shards, files) && ShardLoads(start, t.shard, files)
       else t.meta == UNBOUND && shards[t.shardId] == UNOPENED
  }

  ghost predicate Progress(s: seq<Tensor>, shards: seq<Storage.ShardFile>, files: Files, start: seq<Tensor>) {
    && SameEntries(start, s) && T.DistinctEntries(s) && I.SameShardSameNumber(s) && Storage.CatalogueApart(s)
    && (forall e :: 0 <= e < |s| ==> EntryState(s[e], shards, files, start))
    && (forall id :: 0 <= id < |shards| ==> FileOpen(shards[id]))
  }

  /** Opening the file of one more shard and binding its header. */
  lemma ProgressStep(s: seq<Tensor>, shards: seq<Storage.ShardFile>, files: Files, start: seq<Tensor>, id: nat,
                     shard: string, header: seq<Described>, t: seq<Tensor>)
    requires Directory(files) && Progress(s, shards, files, start) && id < |shards| && shards[id].file.None?
    requires ShardLoads(s, shard, files) && shard != MTP_SHARD
    requires forall e :: 0 <= e < |s| ==> (s[e].shardId == id <==> s[e].shard == shard)
    requires multiset(header) == multiset(TensorsIn(files[shard].members)) && I.Binds(s, shard, header)
    requires |t| == |s| && forall e :: 0 <= e < |s| ==> t[e] == I.Bound(s[e], header)
    ensures Progress(t, shards[id := OpenedFile(files[shard])], files, start)
  {
    hide InHeader, I.Bound, I.Binds, ShardLoads, Readable, Storage.CatalogueApart;
    BindingKeepsApart(s, shard, files, header, t);
    LoadsSame(s, start, shard, files);
    LoadsReadable(s, shard, files);
    var now := shards[id := OpenedFile(files[shard])];
    assert FileOpen(OpenedFile(files[shard]));
    forall e | 0 <= e < |t|
      ensures EntryState(t[e], now, files, start)
    {
      assert EntryState(s[e], shards, files, start);
      BoundPlaces(s, shard, files, header, e);
    }
  }

  lemma LoadsReadable(s: seq<Tensor>, shard: string, files: Files)
    requires ShardLoads(s, shard, files)
    ensures shard in files && files[shard].shard.Valid()
  {
  }

  /** Every shard that is not left out loads. */
  ghost predicate AllLoad(s: seq<Tensor>, files: Files) {
    forall e :: 0 <= e < |s| && s[e].shard != MTP_SHARD ==> ShardLoads(s, s[e].shard, files)
  }

  /** The first loop of load_shards: each shard is opened when its first entry is met. */
  method OpenShards(index: I.Index, files: Files) returns (ok: bool, shards: seq<Storage.ShardFile>)
    requires index.Valid() && Directory(files)
    requires forall e :: 0 <= e < index.count ==> index.entries[e].meta == UNBOUND
    modifies index.entries
    ensures index.Valid() && SameEntries(old(index.entries[..index.count]), index.entries[..index.count])
    ensures ok <==> AllLoad(old(index.entries[..index.count]), files)
    ensures ok ==> Loaded(index.entries[..index.count], shards, files)
  {
    hide Progress, ShardLoads, I.Bound, I.Binds, Directory, Loaded, SameEntries;
    hide I.Index.Valid;
    index.InBounds();
    ghost var start := index.entries[..index.count];
    shards := seq(index.numShards, _ => UNOPENED);
    StartProgress(index, shards, files);
    for i := 0 to index.count
      invariant index.Valid() && index.count <= index.entries.Length
      invariant Progress(index.entries[..index.count], shards, files, start)
      invariant forall k :: 0 <= k < i && start[k].shard != MTP_SHARD ==> IsOpen(start[k], shards)
    {
      var t := index.entries[i];
      ghost var before := index.entries[..index.count];
      assert before[i] == t;
      ProgressEntry(before, shards, files, start, i);
      if shards[t.shardId].file.None? && t.shard != MTP_SHARD {
        var loaded;
        ghost var header;
        loaded, header := LoadShard(index, t.shard, files);
        ghost var now := index.entries[..index.count];
        assert forall e :: 0 <= e < |now| ==> now[e] == index.entries[e];
        if !loaded {
          Unchanged(before, now);
          ProgressSame(before, shards, files, start);
          NotAll(start, before, files, i);
          ok := false;
          return;
        }
        LoadsReadable(before, t.shard, files);
        ProgressStep(before, shards, files, start, t.shardId, t.shard, header, now);
        shards := shards[t.shardId := OpenedFile(files[t.shard])];
      }
    }
    ok := true;
    ProgressSame(index.entries[..index.count], shards, files, start);
    AllOpen(index.entries[..index.count], shards, files, start);
  }

  predicate IsOpen(t: Tensor, shards: seq<Storage.ShardFile>) {
    t.shardId < |shards| && shards[t.shardId].file.Some?
  }

  lemma StartProgress(index: I.Index, shards: seq<Storage.ShardFile>, files: Files)
    requires index.Valid() && forall e :: 0 <= e < index.count ==> index.entries[e].meta == UNBOUND
    requires |shards| == index.numShards && forall id :: 0 <= id < |shards| ==> shards[id] == UNOPENED
    ensures Progress(index.entries[..index.count], shards, files, index.entries[..index.count])
  {
    hide I.Table;
    index.NamesAreDistinct();
    var s := index.entries[..index.count];
    UnboundApart(s);
    forall i, j | 0 <= i < j < |s|
      ensures s[i].name != s[j].name
    {
      assert index.Names()[i] != index.Names()[j];
    }
  }

  lemma ProgressEntry(s: seq<Tensor>, shards: seq<Storage.ShardFile>, files: Files, start: seq<Tensor>, i: nat)
    requires Progress(s, shards, files, start) && i < |s|
    ensures |start| == |s| && s[i].shardId < |shards|
    ensures start[i].shard == s[i].shard && start[i].shardId == s[i].shardId
    ensures forall e :: 0 <= e < |s| ==> (s[e].shardId == s[i].shardId <==> s[e].shard == s[i].shard)
  {
    assert EntryState(s[i], shards, files, start);
  }

  lemma Unchanged(s: seq<Tensor>, t: seq<Tensor>)
    requires |s| == |t| && forall e :: 0 <= e < |s| ==> t[e] == s[e]
    ensures s == t
  {
  }

  lemma NotAll(start: seq<Tensor>, s: seq<Tensor>, files: Files, i: nat)
    requires SameEntries(start, s) && i < |s| && s[i].shard != MTP_SHARD && !ShardLoads(s, s[i].shard, files)
    ensures !AllLoad(start, files)
  {
    if ShardLoads(start, start[i].shard, files) {
      LoadsSame(start, s, s[i].shard, files);
    }
  }

  lemma ProgressSame(s: seq<Tensor>, shards: seq<Storage.ShardFile>, files: Files, start: seq<Tensor>)
    requires Progress(s, shards, files, start)
    ensures SameEntries(start, s)
  {
  }

  lemma AllOpen(s: seq<Tensor>, shards: seq<Storage.ShardFile>, files: Files, start: seq<Tensor>)
    requires Progress(s, shards, files, start)
    requires forall k :: 0 <= k < |start| && start[k].shard != MTP_SHARD ==> IsOpen(start[k], shards)
    ensures Loaded(s, shards, files) && AllLoad(start, files)
  {
    hide InHeader, ShardLoads, Storage.CatalogueApart;
    forall e | 0 <= e < |s|
      ensures EntryLoaded(s[e], shards, files)
      ensures s[e].shard != MTP_SHARD ==> ShardLoads(start, s[e].shard, files) && ShardLoads(s, s[e].shard, files)
    {
      assert EntryState(s[e], shards, files, start);
      if s[e].shard != MTP_SHARD {
        LoadsSame(start, s, s[e].shard, files);
      }
    }
  }

  // ---------- The total ----------

  function TotalBytes(s: seq<Tensor>): nat {
    if s == [] then 0 else TotalBytes(s[..|s| - 1]) + s[|s| - 1].meta.bytes
  }

  predicate AllBound(s: seq<Tensor>) {
    forall e :: 0 <= e < |s| ==> !s[e].meta.dtype.Unknown?
  }

  /** The sum fits 64 bits, and is the recorded one when nothing is unbound. */
  predicate TotalMatches(s: seq<Tensor>, total: nat) {
    TotalBytes(s) <= UINT64_MAX && (AllBound(s) ==> TotalBytes(s) == total)
  }

  lemma {:induction false} TotalGrows(s: seq<Tensor>, i: nat)
    requires i <= |s|
    ensures TotalBytes(s[..i]) <= TotalBytes(s)
  {
    if i == |s| {
      assert s[..i] == s;
    } else {
      assert s[..|s| - 1][..i] == s[..i];
      TotalGrows(s[..|s| - 1], i);
    }
  }

  /** The second loop of load_shards. */
  method CheckTotal(entries: seq<Tensor>, total: nat) returns (ok: bool)
    requires forall e :: 0 <= e < |entries| ==> entries[e].meta.bytes <= UINT64_MAX
    requires forall e :: 0 <= e < |entries| && entries[e].meta.dtype.Unknown? ==> entries[e].meta.bytes == 0
    ensures ok <==> TotalMatches(entries, total)
  {
    var sum, allBound := 0, true;
    for i := 0 to |entries|
      invariant sum == TotalBytes(entries[..i]) <= UINT64_MAX
      invariant allBound <==> forall e :: 0 <= e < i ==> !entries[e].meta.dtype.Unknown?
    {
      assert entries[..i + 1][..i] == entries[..i];
      if entries[i].meta.dtype.Unknown? {
        allBound := false;
      } else {
        if sum > UINT64_MAX - entries[i].meta.bytes {
          TotalGrows(entries, i + 1);
          return false;
        }
        sum := sum + entries[i].meta.bytes;
      }
    }
    assert entries[..|entries|] == entries;
    ok := !allBound || sum == total;
  }

  /** load_shards without extracted files. */
  method LoadShards(index: I.Index, files: Files, total: nat) returns (ok: bool, shards: seq<Storage.ShardFile>)
    requires index.Valid() && Directory(files)
    requires forall e :: 0 <= e < index.count ==> index.entries[e].meta == UNBOUND
    modifies index.entries
    ensures index.Valid() && SameEntries(old(index.entries[..index.count]), index.entries[..index.count])
    ensures ok ==> AllLoad(old(index.entries[..index.count]), files)
    ensures AllLoad(old(index.entries[..index.count]), files)
            ==> Loaded(index.entries[..index.count], shards, files)
                && (ok <==> TotalMatches(index.entries[..index.count], total))
  {
    hide Loaded, AllLoad, TotalMatches, Directory;
    hide I.Index.Valid;
    index.InBounds();
    ok, shards := OpenShards(index, files);
    if ok {
      BytesFit(index.entries[..index.count], shards, files);
      ok := CheckTotal(index.entries[..index.count], total);
    }
  }

  lemma BytesFit(s: seq<Tensor>, shards: seq<Storage.ShardFile>, files: Files)
    requires Directory(files) && Loaded(s, shards, files)
    ensures forall e :: 0 <= e < |s| ==> s[e].meta.bytes <= UINT64_MAX
    ensures forall e :: 0 <= e < |s| && s[e].meta.dtype.Unknown? ==> s[e].meta.bytes == 0
  {
    hide TensorsIn, ShardLoads, Storage.CatalogueApart;
    forall e | 0 <= e < |s|
      ensures s[e].meta.bytes <= UINT64_MAX && (s[e].meta.dtype.Unknown? ==> s[e].meta.bytes == 0)
    {
      assert EntryLoaded(s[e], shards, files);
      if s[e].shard != MTP_SHARD {
        var m := HeaderTensor(s, s[e].shard, files, Described(s[e].name, s[e].meta));
      }
    }
  }
}
