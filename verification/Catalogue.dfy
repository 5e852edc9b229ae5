/** The catalogue that the packer reads (read_catalogue in tools/pack_trunk.py): every tensor of the weight map with its
    place, after the shard files and the weight map have been checked against each other.

    `Accepted` says without any order when a checkpoint is accepted.  The files may be any files that an operating
    system can hold; the headers are what a JSON parser that refuses repeated keys gives.
*/
module Catalogue {
  import opened Octets
  import opened Wrappers
  import opened Counters
  import opened Tensors
  import opened Pigeonhole
  import I = Index
  import P = Packing
  import S = Safetensors
  import Sorting

  const MAX_HEADER_BYTES: nat := 104857600

  /** A shard file and the members of its header. */
  datatype File = File(members: seq<S.Member>, shard: P.Shard)

  type Files = map<string, File>

  predicate DistinctMembers(members: seq<S.Member>) {
    forall i, j :: 0 <= i < j < |members| ==> members[i].name != members[j].name
  }

  predicate DistinctPairs(pairs: seq<I.Mapping>) {
    forall i, j :: 0 <= i < j < |pairs| ==> pairs[i].name != pairs[j].name
  }

  /** What holds of any directory: no parsed header repeats a key and no file is longer than a file can be. */
  ghost predicate Directory(files: Files) {
    forall name :: name in files ==> DistinctMembers(files[name].members) && |files[name].shard.file| <= INT64_MAX
  }

  /** The header can be read: its size is in bounds and the file is not shorter. */
  predicate Readable(f: File) {
    0 < f.shard.headerSize <= MAX_HEADER_BYTES && f.shard.Valid()
  }

  function Shards(files: Files): map<string, P.Shard> {
    map name | name in files :: files[name].shard
  }

  // ---------- The tensors of a header ----------

  predicate IsTensor(m: S.Member) {
    m.name != S.METADATA_NAME && m.info.Some? && m.info.value.start <= m.info.value.end
  }

  /** The tensors of a header, in member order. */
  function TensorsIn(members: seq<S.Member>): (r: seq<Described>)
    ensures |r| <= |members|
  {
    if members == [] then []
    else
      var m := members[|members| - 1];
      TensorsIn(members[..|members| - 1]) + (if IsTensor(m) then [S.Described1(m)] else [])
  }

  lemma TensorsInSnoc(members: seq<S.Member>, m: S.Member)
    ensures TensorsIn(members + [m]) == TensorsIn(members) + (if IsTensor(m) then [S.Described1(m)] else [])
  {
    assert (members + [m])[..|members|] == members;
  }

  lemma {:induction false} TensorsAreMembers(members: seq<S.Member>)
    ensures forall t :: t in TensorsIn(members)
                        <==> exists i :: 0 <= i < |members| && IsTensor(members[i]) && S.Described1(members[i]) == t
    ensures DistinctMembers(members) ==> NoRepeats(I.HeaderNames(TensorsIn(members)))
  {
    if members == [] {
    } else {
      var n := |members| - 1;
      TensorsAreMembers(members[..n]);
      assert members == members[..n] + [members[n]];
      TensorsInSnoc(members[..n], members[n]);
      MemberSnoc(members[..n], members[n]);
    }
  }

  lemma MemberSnoc(members: seq<S.Member>, m: S.Member)
    requires forall t :: t in TensorsIn(members)
                         <==> exists i :: 0 <= i < |members| && IsTensor(members[i]) && S.Described1(members[i]) == t
    requires DistinctMembers(members) ==> NoRepeats(I.HeaderNames(TensorsIn(members)))
    ensures var all, now := members + [m], TensorsIn(members) + (if IsTensor(m) then [S.Described1(m)] else []);
            && (forall t :: t in now
                            <==> exists i :: 0 <= i < |all| && IsTensor(all[i]) && S.Described1(all[i]) == t)
            && (DistinctMembers(all) ==> NoRepeats(I.HeaderNames(now)))
  {
    hide TensorsIn;
    var all, now := members + [m], TensorsIn(members) + (if IsTensor(m) then [S.Described1(m)] else []);
    forall t | t in TensorsIn(members)
      ensures exists i :: 0 <= i < |all| && IsTensor(all[i]) && S.Described1(all[i]) == t
    {
      var i :| 0 <= i < |members| && IsTensor(members[i]) && S.Described1(members[i]) == t;
      assert all[i] == members[i];
    }
    if IsTensor(m) {
      assert all[|members|] == m;
    }
    if DistinctMembers(all) {
      assert forall i :: 0 <= i < |members| ==> all[i] == members[i];
      forall t | t in TensorsIn(members)
        ensures t.name != m.name
      {
        var i :| 0 <= i < |members| && IsTensor(members[i]) && S.Described1(members[i]) == t;
        assert all[i].name != all[|members|].name;
      }
    }
  }

  /** The header of the shard has a tensor with this name and place. */
  predicate InHeader(files: Files, shard: string, t: Described) {
    shard in files && Readable(files[shard]) && t in TensorsIn(files[shard].members)
  }

  lemma OneInHeader(files: Files, shard: string, t: Described, u: Described)
    requires Directory(files) && InHeader(files, shard, t) && InHeader(files, shard, u) && t.name == u.name
    ensures t == u
  {
    var tensors := TensorsIn(files[shard].members);
    TensorsAreMembers(files[shard].members);
    var i :| 0 <= i < |tensors| && tensors[i] == t;
    var j :| 0 <= j < |tensors| && tensors[j] == u;
    assert I.HeaderNames(tensors)[i] == I.HeaderNames(tensors)[j];
  }

  // ---------- The weight map ----------

  /** The weight map sends the name to the shard. */
  predicate Maps(pairs: seq<I.Mapping>, name: string, shard: string) {
    exists i :: 0 <= i < |pairs| && pairs[i] == I.Mapping(name, Some(shard))
  }

  /** The check of a shard name. */
  predicate PlainName(shard: Option<string>) {
    shard.Some? && shard.value != "" && '/' !in shard.value && '\\' !in shard.value
    && shard.value != "." && shard.value != ".."
  }

  /** No shard name leads out of the directory. */
  lemma UnsafeNames(a: string, b: string)
    ensures !PlainName(None) && !PlainName(Some("")) && !PlainName(Some(".")) && !PlainName(Some(".."))
    ensures !PlainName(Some(a + "/" + b)) && !PlainName(Some(a + "\\" + b))
  {
    assert (a + "/" + b)[|a|] == '/' && (a + "\\" + b)[|a|] == '\\';
  }

  /** The shard names to visit, each once; `sorted` only decides in which order. */
  function ShardList(pairs: seq<I.Mapping>): (r: seq<string>)
    requires forall i :: 0 <= i < |pairs| ==> pairs[i].shard.Some?
  {
    if pairs == [] then []
    else
      var before := ShardList(pairs[..|pairs| - 1]);
      var shard := pairs[|pairs| - 1].shard.value;
      if shard == MTP_SHARD || shard in before then before else before + [shard]
  }

  lemma {:induction false} ShardListMembers(pairs: seq<I.Mapping>)
    requires forall i :: 0 <= i < |pairs| ==> pairs[i].shard.Some?
    ensures NoRepeats(ShardList(pairs)) && MTP_SHARD !in ShardList(pairs)
    ensures forall x :: x in ShardList(pairs)
                        <==> x != MTP_SHARD && exists i :: 0 <= i < |pairs| && pairs[i].shard == Some(x)
  {
    if pairs == [] {
    } else {
      var n := |pairs| - 1;
      ShardListMembers(pairs[..n]);
      assert forall i :: 0 <= i < n ==> pairs[..n][i] == pairs[i];
    }
  }

  // ---------- What is accepted ----------

  /** The loop over the members: metadata is skipped, every other member belongs here and has the prescribed size. */
  predicate MemberAccepted(pairs: seq<I.Mapping>, shard: string, m: S.Member) {
    m.name == S.METADATA_NAME || (Maps(pairs, m.name, shard) && m.info.Some? && S.SizeMatches(m.info.value))
  }

  /** One shard: readable, every member accepted, and the tensors partition the payload. */
  ghost predicate ShardAccepted(pairs: seq<I.Mapping>, shard: string, files: Files) {
    && shard in files && Readable(files[shard])
    && (forall i :: 0 <= i < |files[shard].members| ==> MemberAccepted(pairs, shard, files[shard].members[i]))
    && S.Partition(S.RangesOf(TensorsIn(files[shard].members)), |files[shard].shard.Payload()|)
  }

  /** Every name of the weight map outside the shard that is left out has a tensor. */
  ghost predicate Complete(pairs: seq<I.Mapping>, files: Files) {
    forall i :: 0 <= i < |pairs| && pairs[i].shard.Some? && pairs[i].shard.value != MTP_SHARD
                ==> Has(files, pairs[i].shard.value, pairs[i].name)
  }

  ghost predicate Has(files: Files, shard: string, name: string) {
    exists t :: InHeader(files, shard, t) && t.name == name
  }

  function SourcesIn(shard: string, tensors: seq<Described>): (r: seq<P.Source>)
    ensures |r| == |tensors|
    ensures forall i :: 0 <= i < |r| ==> r[i] == P.Source(tensors[i].name, shard, tensors[i].meta)
  {
    seq(|tensors|, i requires 0 <= i < |tensors| => P.Source(tensors[i].name, shard, tensors[i].meta))
  }

  /** The catalogue of some shards. */
  function Entries(shards: seq<string>, files: Files): seq<P.Source> {
    if shards == [] then []
    else
      var shard := shards[|shards| - 1];
      Entries(shards[..|shards| - 1], files)
      + (if shard in files then SourcesIn(shard, TensorsIn(files[shard].members)) else [])
  }

  /** read_catalogue accepts the checkpoint; the total is compared only when no tensor is left out. */
  ghost predicate Accepted(pairs: seq<I.Mapping>, files: Files, total: nat) {
    && pairs != []
    && (forall i :: 0 <= i < |pairs| ==> PlainName(pairs[i].shard))
    && (forall shard :: shard in ShardList(pairs) ==> ShardAccepted(pairs, shard, files))
    && Complete(pairs, files)
    && ((forall i :: 0 <= i < |pairs| ==> pairs[i].shard != Some(MTP_SHARD))
        ==> total == P.Lengths(Entries(ShardList(pairs), files)))
  }

  // ---------- What the catalogue holds ----------

  /** An entry of the catalogue: named by the weight map, described by the header of its shard. */
  predicate Listed(pairs: seq<I.Mapping>, files: Files, x: P.Source) {
    x.shard != MTP_SHARD && Maps(pairs, x.name, x.shard) && InHeader(files, x.shard, Described(x.name, x.meta))
  }

  lemma {:induction false} EntriesMembers(shards: seq<string>, files: Files)
    requires forall x :: x in shards ==> x in files
    ensures forall x :: x in Entries(shards, files)
                        <==> x.shard in shards && Described(x.name, x.meta) in TensorsIn(files[x.shard].members)
  {
    hide TensorsIn;
    if shards == [] {
    } else {
      var n := |shards| - 1;
      var tensors := TensorsIn(files[shards[n]].members);
      EntriesMembers(shards[..n], files);
      assert shards == shards[..n] + [shards[n]];
      forall x: P.Source
        ensures x in SourcesIn(shards[n], tensors) <==> x.shard == shards[n] && Described(x.name, x.meta) in tensors
      {
        SourcesMembers(shards[n], tensors, x);
      }
    }
  }

  lemma SourcesMembers(shard: string, tensors: seq<Described>, x: P.Source)
    ensures x in SourcesIn(shard, tensors) <==> x.shard == shard && Described(x.name, x.meta) in tensors
  {
    if x.shard == shard && Described(x.name, x.meta) in tensors {
      var i :| 0 <= i < |tensors| && tensors[i] == Described(x.name, x.meta);
      assert SourcesIn(shard, tensors)[i] == x;
    }
  }

  /** The catalogue of an accepted checkpoint has exactly one entry for every name that is not left out. */
  lemma AcceptedCatalogue(pairs: seq<I.Mapping>, files: Files, total: nat)
    requires Directory(files) && DistinctPairs(pairs) && Accepted(pairs, files, total)
    ensures var catalogue := Entries(ShardList(pairs), files);
            && (forall x :: x in catalogue <==> Listed(pairs, files, x))
            && P.DistinctNames(catalogue) && P.AllPresent(catalogue, Shards(files))
            && (forall i :: 0 <= i < |pairs| && pairs[i].shard.value != MTP_SHARD
                            ==> exists x :: x in catalogue && x.name == pairs[i].name
                                            && x.shard == pairs[i].shard.value)
  {
    hide TensorsIn, S.SizeMatches, Readable, S.Partition, ShardList, Entries, P.Present;
    var shards := ShardList(pairs);
    var catalogue := Entries(shards, files);
    ShardListMembers(pairs);
    EntriesMembers(shards, files);
    forall x | x in catalogue
      ensures Listed(pairs, files, x) && P.Present(x, Shards(files))
    {
      EntryListed(pairs, files, x);
      EntryPresent(pairs, files, x);
    }
    forall x: P.Source | Listed(pairs, files, x)
      ensures x in catalogue
    {
      var i :| 0 <= i < |pairs| && pairs[i] == I.Mapping(x.name, Some(x.shard));
    }
    EntriesDistinct(pairs, files, shards);
    forall i | 0 <= i < |pairs| && pairs[i].shard.value != MTP_SHARD
      ensures exists x :: x in catalogue && x.name == pairs[i].name && x.shard == pairs[i].shard.value
    {
      var shard := pairs[i].shard.value;
      var t :| InHeader(files, shard, t) && t.name == pairs[i].name;
      assert Listed(pairs, files, P.Source(t.name, shard, t.meta)) by {
        assert pairs[i] == I.Mapping(t.name, Some(shard));
      }
    }
  }

  lemma EntryListed(pairs: seq<I.Mapping>, files: Files, x: P.Source)
    requires x.shard != MTP_SHARD && ShardAccepted(pairs, x.shard, files)
    requires Described(x.name, x.meta) in TensorsIn(files[x.shard].members)
    ensures Listed(pairs, files, x)
  {
    hide TensorsIn, Readable, S.Partition, S.SizeMatches;
    var members := files[x.shard].members;
    TensorsAreMembers(members);
    var i :| 0 <= i < |members| && IsTensor(members[i]) && S.Described1(members[i]) == Described(x.name, x.meta);
    assert MemberAccepted(pairs, x.shard, members[i]);
  }

  lemma EntryPresent(pairs: seq<I.Mapping>, files: Files, x: P.Source)
    requires ShardAccepted(pairs, x.shard, files)
    requires Described(x.name, x.meta) in TensorsIn(files[x.shard].members)
    ensures P.Present(x, Shards(files))
  {
    hide TensorsIn, MemberAccepted, Sorting.Pairwise;
    var tensors := TensorsIn(files[x.shard].members);
    var i :| 0 <= i < |tensors| && tensors[i] == Described(x.name, x.meta);
    assert S.RangesOf(tensors)[i].End() <= |files[x.shard].shard.Payload()|;
  }

  lemma {:induction false} EntriesDistinct(pairs: seq<I.Mapping>, files: Files, shards: seq<string>)
    requires Directory(files) && DistinctPairs(pairs) && NoRepeats(shards)
    requires forall x :: x in shards ==> x in files && x != MTP_SHARD && ShardAccepted(pairs, x, files)
    ensures P.DistinctNames(Entries(shards, files))
  {
    hide TensorsIn, ShardAccepted;
    if shards == [] {
    } else {
      var n := |shards| - 1;
      assert shards == shards[..n] + [shards[n]];
      assert shards[n] in shards && forall x :: x in shards[..n] ==> x in shards;
      EntriesDistinct(pairs, files, shards[..n]);
      var front, more := Entries(shards[..n], files), SourcesIn(shards[n], TensorsIn(files[shards[n]].members));
      ShardDistinct(files, shards[n]);
      forall x, y | x in front && y in more
        ensures x.name != y.name
      {
        OtherShards(pairs, files, shards, x, y);
      }
    }
  }

  lemma ShardDistinct(files: Files, shard: string)
    requires Directory(files) && shard in files
    ensures P.DistinctNames(SourcesIn(shard, TensorsIn(files[shard].members)))
  {
    hide TensorsIn;
    var tensors := TensorsIn(files[shard].members);
    TensorsAreMembers(files[shard].members);
    assert forall i :: 0 <= i < |tensors| ==> I.HeaderNames(tensors)[i] == tensors[i].name;
  }

  lemma OtherShards(pairs: seq<I.Mapping>, files: Files, shards: seq<string>, x: P.Source, y: P.Source)
    requires DistinctPairs(pairs) && NoRepeats(shards) && shards != []
    requires forall x :: x in shards ==> x in files && x != MTP_SHARD && ShardAccepted(pairs, x, files)
    requires x in Entries(shards[..|shards| - 1], files)
    requires y in SourcesIn(shards[|shards| - 1], TensorsIn(files[shards[|shards| - 1]].members))
    ensures x.name != y.name
  {
    hide TensorsIn, ShardAccepted, Entries, InHeader, Maps;
    var n := |shards| - 1;
    assert shards == shards[..n] + [shards[n]];
    EntriesMembers(shards[..n], files);
    SourcesMembers(shards[n], TensorsIn(files[shards[n]].members), y);
    assert x.shard in shards && x.shard != shards[n];
    EntryListed(pairs, files, x);
    EntryListed(pairs, files, y);
    OneShard(pairs, x.name, x.shard, y.name, y.shard);
  }

  lemma OneShard(pairs: seq<I.Mapping>, name: string, shard: string, other: string, otherShard: string)
    requires DistinctPairs(pairs) && Maps(pairs, name, shard) && Maps(pairs, other, otherShard) && shard != otherShard
    ensures name != other
  {
    var i :| 0 <= i < |pairs| && pairs[i] == I.Mapping(name, Some(shard));
    var j :| 0 <= j < |pairs| && pairs[j] == I.Mapping(other, Some(otherShard));
  }

  // ---------- Reading it ----------

  /** The check of the weight map's values, and the set of them. */
  method ListShards(pairs: seq<I.Mapping>) returns (ok: bool, shards: seq<string>)
    ensures ok <==> forall i :: 0 <= i < |pairs| ==> PlainName(pairs[i].shard)
    ensures ok ==> shards == ShardList(pairs)
  {
    shards := [];
    for i := 0 to |pairs|
      invariant forall k :: 0 <= k < i ==> PlainName(pairs[k].shard)
      invariant shards == ShardList(pairs[..i])
    {
      if !PlainName(pairs[i].shard) {
        return false, [];
      }
      var shard := pairs[i].shard.value;
      assert pairs[..i + 1][..i] == pairs[..i];
      if shard != MTP_SHARD && shard !in shards {
        shards := shards + [shard];
      }
    }
    assert pairs[..|pairs|] == pairs;
    ok := true;
  }

  /** The members of one header. */
  method ReadMembers(pairs: seq<I.Mapping>, shard: string, members: seq<S.Member>)
    returns (ok: bool, tensors: seq<Described>)
    ensures ok <==> forall i :: 0 <= i < |members| ==> MemberAccepted(pairs, shard, members[i])
    ensures ok ==> tensors == TensorsIn(members)
  {
    hide Maps;
    tensors := [];
    for i := 0 to |members|
      invariant forall k :: 0 <= k < i ==> MemberAccepted(pairs, shard, members[k])
      invariant tensors == TensorsIn(members[..i])
    {
      var m := members[i];
      if !MemberAccepted(pairs, shard, m) {
        return false, [];
      }
      assert members[..i + 1] == members[..i] + [m];
      TensorsInSnoc(members[..i], m);
      if m.name != S.METADATA_NAME {
        tensors := tensors + [S.Described1(m)];
      }
    }
    assert members[..|members|] == members;
    ok := true;
  }

  /** One shard of the loop: the members, the sorted scan, the length of the file. */
  method ReadShard(pairs: seq<I.Mapping>, shard: string, files: Files) returns (r: Option<seq<Described>>)
    ensures r.Some? <==> ShardAccepted(pairs, shard, files)
    ensures r.Some? ==> r.value == TensorsIn(files[shard].members)
  {
    hide MemberAccepted, TensorsIn, S.Partition, S.RangesOf, S.Chained;
    if shard !in files || !Readable(files[shard]) {
      return None;
    }
    var read, tensors := ReadMembers(pairs, shard, files[shard].members);
    if !read {
      return None;
    }
    var sorted := new Described[|tensors|](i requires 0 <= i < |tensors| => tensors[i]);
    assert sorted[..sorted.Length] == tensors;
    Sorting.Sort(sorted, sorted.Length, S.EarlierTensor);
    S.ScanDecides(tensors, sorted[..sorted.Length], |files[shard].shard.Payload()|);
    var ok := S.Scan(sorted, sorted.Length, |files[shard].shard.Payload()|);
    r := if ok then Some(tensors) else None;
  }

  /** set(catalogue) == expected; that the catalogue has no other names is checked member by member. */
  method CheckComplete(pairs: seq<I.Mapping>, catalogue: seq<P.Source>) returns (ok: bool)
    requires forall i :: 0 <= i < |pairs| ==> pairs[i].shard.Some?
    ensures ok <==> forall i :: 0 <= i < |pairs| && pairs[i].shard.value != MTP_SHARD
                                ==> exists x :: x in catalogue && x.name == pairs[i].name
  {
    for i := 0 to |pairs|
      invariant forall k :: 0 <= k < i && pairs[k].shard.value != MTP_SHARD
                            ==> exists x :: x in catalogue && x.name == pairs[k].name
    {
      if pairs[i].shard.value != MTP_SHARD && !exists x :: x in catalogue && x.name == pairs[i].name {
        return false;
      }
    }
    ok := true;
  }

  /** The loop over the shards. */
  method ReadShards(pairs: seq<I.Mapping>, shards: seq<string>, files: Files)
    returns (r: Option<seq<P.Source>>, total: nat)
    ensures r.Some? <==> forall shard :: shard in shards ==> ShardAccepted(pairs, shard, files)
    ensures r.Some? ==> r.value == Entries(shards, files) && total == P.Lengths(r.value)
  {
    hide ShardAccepted, TensorsIn, P.Lengths;
    var catalogue: seq<P.Source> := [];
    total := 0;
    NoBytes();
    for i := 0 to |shards|
      invariant forall k :: 0 <= k < i ==> ShardAccepted(pairs, shards[k], files)
      invariant catalogue == Entries(shards[..i], files) && total == P.Lengths(catalogue)
    {
      var tensors := ReadShard(pairs, shards[i], files);
      if tensors.None? {
        return None, 0;
      }
      assert shards[..i + 1][..i] == shards[..i];
      assert shards[i] in files by { AcceptedExists(pairs, shards[i], files); }
      var more := SourcesIn(shards[i], tensors.value);
      var bytes := SumBytes(more);
      LengthsAppend(catalogue, more);
      catalogue, total := catalogue + more, total + bytes;
    }
    assert shards[..|shards|] == shards;
    r := Some(catalogue);
  }

  lemma AcceptedExists(pairs: seq<I.Mapping>, shard: string, files: Files)
    requires ShardAccepted(pairs, shard, files)
    ensures shard in files
  {
  }

  lemma NoBytes()
    ensures P.Lengths([]) == 0
  {
  }

  method SumBytes(sources: seq<P.Source>) returns (total: nat)
    ensures total == P.Lengths(sources)
  {
    total := 0;
    for i := 0 to |sources|
      invariant total == P.Lengths(sources[..i])
    {
      assert sources[..i + 1][..i] == sources[..i];
      total := total + sources[i].meta.bytes;
    }
    assert sources[..|sources|] == sources;
  }

  lemma {:induction false} LengthsAppend(a: seq<P.Source>, b: seq<P.Source>)
    ensures P.Lengths(a + b) == P.Lengths(a) + P.Lengths(b)
  {
    if b == [] {
      assert a + b == a;
    } else {
      var n := |b| - 1;
      LengthsAppend(a, b[..n]);
      assert (a + b)[..|a + b| - 1] == a + b[..n];
    }
  }

  /** read_catalogue. */
  method ReadCatalogue(pairs: seq<I.Mapping>, files: Files, total: nat) returns (r: Option<seq<P.Source>>)
    requires Directory(files) && DistinctPairs(pairs)
    ensures r.Some? <==> Accepted(pairs, files, total)
    ensures r.Some? ==> r.value == Entries(ShardList(pairs), files)
    ensures r.Some? ==> P.DistinctNames(r.value) && P.AllPresent(r.value, Shards(files))
    ensures r.Some? ==> forall x :: x in r.value <==> Listed(pairs, files, x)
  {
    hide ShardAccepted, TensorsIn, Entries, ShardList, P.Lengths, P.Present, Listed, InHeader;
    if |pairs| == 0 {
      return None;
    }
    var plain, shards := ListShards(pairs);
    if !plain {
      return None;
    }
    var catalogue, sum := ReadShards(pairs, shards, files);
    if catalogue.None? {
      return None;
    }
    var complete := CheckComplete(pairs, catalogue.value);
    CompleteAgrees(pairs, files, catalogue.value);
    if !complete {
      return None;
    }
    if (forall i :: 0 <= i < |pairs| ==> pairs[i].shard != Some(MTP_SHARD)) && total != sum {
      return None;
    }
    AcceptedCatalogue(pairs, files, total);
    r := catalogue;
  }

  /** The comparison of name sets decides completeness. */
  lemma CompleteAgrees(pairs: seq<I.Mapping>, files: Files, catalogue: seq<P.Source>)
    requires Directory(files) && DistinctPairs(pairs) && forall i :: 0 <= i < |pairs| ==> pairs[i].shard.Some?
    requires forall shard :: shard in ShardList(pairs) ==> ShardAccepted(pairs, shard, files)
    requires catalogue == Entries(ShardList(pairs), files)
    ensures Complete(pairs, files)
            <==> forall i :: 0 <= i < |pairs| && pairs[i].shard.value != MTP_SHARD
                             ==> exists x :: x in catalogue && x.name == pairs[i].name
  {
    hide TensorsIn, Entries, ShardList, ShardAccepted, Readable;
    var shards := ShardList(pairs);
    ShardListMembers(pairs);
    forall shard | shard in shards
      ensures shard in files && Readable(files[shard])
    {
      AcceptedReadable(pairs, shard, files);
    }
    EntriesMembers(shards, files);
    forall i | 0 <= i < |pairs| && pairs[i].shard.value != MTP_SHARD
      ensures Has(files, pairs[i].shard.value, pairs[i].name) <==> exists x :: x in catalogue && x.name == pairs[i].name
    {
      var shard := pairs[i].shard.value;
      if Has(files, shard, pairs[i].name) {
        var t :| InHeader(files, shard, t) && t.name == pairs[i].name;
        assert P.Source(t.name, shard, t.meta) in catalogue;
      }
      if x :| x in catalogue && x.name == pairs[i].name {
        EntryListed(pairs, files, x);
        var j :| 0 <= j < |pairs| && pairs[j] == I.Mapping(x.name, Some(x.shard));
        assert i == j;
        assert InHeader(files, shard, Described(x.name, x.meta));
      }
    }
  }

  lemma AcceptedReadable(pairs: seq<I.Mapping>, shard: string, files: Files)
    requires ShardAccepted(pairs, shard, files)
    ensures shard in files && Readable(files[shard])
  {
  }
}
