/** Reading tensor bytes (inkling_model_read): from the shard files, from extracted blobs, or through the packed
    trunk.  All three give the bytes of the original shard; the packed trunk answers exactly for its own tensors.
*/
module Storage {
  import opened Octets
  import opened Wrappers
  import opened Counters
  import opened Tensors
  import opened Ranges
  import B = Blobs
  import P = Packing
  import S = Safetensors
  import T = PackedTrunk
  import Sorting

  // ---------- The model's files ----------

  /** InklingShard: the sizes found when the model was bound, and the file when there is one to read. */
  datatype ShardFile = ShardFile(headerSize: nat, fileSize: nat, file: Option<Bytes>)

  datatype PackedFile = PackedFile(rows: seq<Placed<nat>>, file: Bytes)

  datatype Model = Model(shards: seq<ShardFile>, packed: Option<PackedFile>, extracted: bool, blobs: seq<B.Blob>) {
    /** What opening has established: sorted tables without overlaps, files of the recorded sizes. */
    ghost predicate Ready() {
      && (packed.Some? ==> Sorted(packed.value.rows) && NeighboursApart(packed.value.rows))
      && (extracted ==> B.Loaded(blobs))
      && forall s :: 0 <= s < |shards| && shards[s].file.Some? ==> |shards[s].file.value| == shards[s].fileSize
    }

    /** The bounds that inkling_model_read checks first. */
    predicate InBounds(range: Range, relative: nat, bytes: nat) {
      && range.shard < |shards| && relative + bytes <= range.bytes && range.End() <= UINT64_MAX
      && shards[range.shard].headerSize + 8 <= UINT64_MAX
      && range.End() + shards[range.shard].headerSize + 8 <= shards[range.shard].fileSize
    }

    /** Where a read that starts at this byte goes has all its bytes. */
    ghost predicate Available(shard: nat, start: nat, bytes: nat)
      requires shard < |shards|
    {
      if packed.Some? && T.Redirected(packed.value.rows, shard, start) then
        forall i :: 0 <= i < |packed.value.rows| && packed.value.rows[i].range.Covers(shard, start)
                    ==> Within(packed.value.rows[i], packed.value.file, start, bytes)
      else if extracted then
        forall b :: start <= b < start + bytes ==> B.Held(blobs, shard, b)
      else
        shards[shard].file.Some? && 8 + shards[shard].headerSize + start + bytes <= shards[shard].fileSize
    }

    /** Every file holds bytes of the original shard payloads. */
    ghost predicate Faithful(original: seq<Bytes>) {
      && |original| == |shards| && B.CutFrom(blobs, original)
      && (forall s :: 0 <= s < |shards| ==> SameShard(shards[s], original[s]))
      && (packed.Some? ==> forall i :: 0 <= i < |packed.value.rows|
                                       ==> SameRow(packed.value.rows[i], packed.value.file, original))
    }
  }

  predicate Within(row: Placed<nat>, file: Bytes, start: nat, bytes: nat) {
    row.range.start <= start && start + bytes <= row.range.End()
    && row.data + (start - row.range.start) + bytes <= |file|
  }

  /** The recorded sizes are those of the payload; a shard that was never opened has size 0. */
  predicate SameShard(shard: ShardFile, payload: Bytes) {
    && (8 + shard.headerSize <= shard.fileSize ==> 8 + shard.headerSize + |payload| == shard.fileSize)
    && (shard.file.Some?
        ==> 8 + shard.headerSize <= |shard.file.value| == shard.fileSize
            && shard.file.value[8 + shard.headerSize..] == payload)
  }

  /** The packed file has, at the row's place, the bytes that the row's range has in the original shard. */
  predicate SameRow(row: Placed<nat>, file: Bytes, original: seq<Bytes>) {
    && row.range.shard < |original| && row.range.End() <= |original[row.range.shard]|
    && row.data + row.range.bytes <= |file|
    && file[row.data..row.data + row.range.bytes] == original[row.range.shard][row.range.start..row.range.End()]
  }

  /** What the bounds refuse: a shard that does not exist, a read that leaves the range, and a range that leaves the
      file. */
  lemma OutOfBounds(model: Model, range: Range, relative: nat, bytes: nat)
    requires || range.shard >= |model.shards| || relative + bytes > range.bytes
             || range.start + range.bytes > 0xFFFF_FFFF_FFFF_FFFF
             || var shard := model.shards[range.shard];
                8 + shard.headerSize + range.start + range.bytes > shard.fileSize
    ensures !model.InBounds(range, relative, bytes)
  {
  }

  // ---------- Reading ----------

  /** inkling_model_read. */
  method ModelRead(model: Model, range: Range, relative: nat, bytes: nat, destination: array<Byte>,
                   ghost original: seq<Bytes>)
    returns (ok: bool)
    requires model.Ready() && model.Faithful(original) && bytes <= destination.Length
    modifies destination
    ensures ok <==> model.InBounds(range, relative, bytes)
                    && (bytes == 0 || model.Available(range.shard, range.start + relative, bytes))
    ensures ok ==> range.shard < |original| && relative + bytes <= range.bytes
    ensures ok ==> range.End() <= |original[range.shard]|
    ensures ok ==> var start := range.start + relative;
                   destination[..bytes] == original[range.shard][start..start + bytes]
    ensures destination[bytes..] == old(destination[bytes..])
  {
    hide Sorted, NeighboursApart, B.Loaded, SameRow, B.CutFrom, Within;
    if !model.InBounds(range, relative, bytes) {
      return false;
    }
    assert SameShard(model.shards[range.shard], original[range.shard]);
    if bytes == 0 {
      return true;
    }
    var shard, start := range.shard, range.start + relative;
    if model.packed.Some? {
      var handled;
      ok, handled := ReadPacked(model.packed.value, shard, start, bytes, destination, original);
      if handled {
        return;
      }
    }
    if model.extracted {
      ok := ReadExtracted(model.blobs, shard, start, bytes, destination, original);
    } else {
      ok := ReadNative(model.shards[shard], start, bytes, destination, original[shard]);
    }
  }

  method ReadPacked(packed: PackedFile, shard: nat, start: nat, bytes: nat, destination: array<Byte>,
                    ghost original: seq<Bytes>)
    returns (ok: bool, handled: bool)
    requires Sorted(packed.rows) && NeighboursApart(packed.rows) && bytes <= destination.Length
    requires forall i :: 0 <= i < |packed.rows| ==> SameRow(packed.rows[i], packed.file, original)
    modifies destination
    ensures handled <==> T.Redirected(packed.rows, shard, start)
    ensures handled ==> (ok <==> forall i :: 0 <= i < |packed.rows| && packed.rows[i].range.Covers(shard, start)
                                             ==> Within(packed.rows[i], packed.file, start, bytes))
    ensures handled && ok ==> shard < |original| && start + bytes <= |original[shard]|
                              && destination[..bytes] == original[shard][start..start + bytes]
    ensures !handled ==> destination[..] == old(destination[..])
    ensures destination[bytes..] == old(destination[bytes..])
  {
    hide Sorted, NeighboursApart;
    ok, handled := T.Read(packed.rows, packed.file, shard, start, bytes, destination);
    if handled {
      ghost var i :| 0 <= i < |packed.rows| && packed.rows[i].range.Covers(shard, start);
      ghost var row := packed.rows[i];
      assert SameRow(row, packed.file, original);
      if ok {
        SliceOfRow(row, packed.file, original, start, bytes);
      } else {
        assert !Within(row, packed.file, start, bytes);
      }
    }
  }

  lemma SliceOfRow(row: Placed<nat>, file: Bytes, original: seq<Bytes>, start: nat, bytes: nat)
    requires SameRow(row, file, original) && Within(row, file, start, bytes)
    ensures var at := row.data + (start - row.range.start);
            file[at..at + bytes] == original[row.range.shard][start..start + bytes]
  {
    var within := start - row.range.start;
    var left, right := file[row.data..row.data + row.range.bytes],
                       original[row.range.shard][row.range.start..row.range.End()];
    assert left == right;
    SliceOfSlice(file, row.data, row.data + row.range.bytes, within, bytes);
    SliceOfSlice(original[row.range.shard], row.range.start, row.range.End(), within, bytes);
  }

  method ReadExtracted(blobs: seq<B.Blob>, shard: nat, start: nat, bytes: nat, destination: array<Byte>,
                       ghost original: seq<Bytes>)
    returns (ok: bool)
    requires B.Loaded(blobs) && B.CutFrom(blobs, original) && 0 < bytes <= destination.Length
    modifies destination
    ensures ok <==> forall b :: start <= b < start + bytes ==> B.Held(blobs, shard, b)
    ensures ok ==> shard < |original| && start + bytes <= |original[shard]|
                   && destination[..bytes] == original[shard][start..start + bytes]
    ensures destination[bytes..] == old(destination[bytes..])
  {
    hide Sorted, NeighboursApart, B.CutFrom, B.Holds, B.Held;
    ok := B.ReadBlobs(blobs, shard, start, bytes, destination);
    if ok {
      B.StitchedIsOriginal(blobs, original, shard, start, destination[..bytes]);
    }
  }

  /** read_file at the payload's offset in the shard file. */
  method ReadNative(shard: ShardFile, start: nat, bytes: nat, destination: array<Byte>, ghost payload: Bytes)
    returns (ok: bool)
    requires SameShard(shard, payload) && bytes <= destination.Length
    modifies destination
    ensures ok <==> shard.file.Some? && 8 + shard.headerSize + start + bytes <= shard.fileSize
    ensures ok ==> start + bytes <= |payload| && destination[..bytes] == payload[start..start + bytes]
    ensures destination[bytes..] == old(destination[bytes..])
  {
    var at := 8 + shard.headerSize + start;
    if shard.file.None? || at + bytes > |shard.file.value| {
      return false;
    }
    assert shard.file.value[at..at + bytes] == shard.file.value[8 + shard.headerSize..][start..start + bytes];
    T.CopyOut(shard.file.value, at, bytes, destination);
    ok := true;
  }

  // ---------- The packed trunk against the native files ----------

  /** Two tensors of the catalogue never overlap: each shard's tensors tile its payload. */
  ghost predicate CatalogueApart(s: seq<Tensor>) {
    forall i, j :: 0 <= i < |s| && 0 <= j < |s| && i != j ==> Apart(T.Span(s[i]), T.Span(s[j]))
  }

  /** A source of the packer is the index entry `e`, read from the same payload. */
  predicate IsSource(x: P.Source, e: Tensor, shards: map<string, P.Shard>, original: seq<Bytes>) {
    && x == P.Source(e.name, e.shard, e.meta) && P.Present(x, shards)
    && e.shardId < |original| && shards[e.shard].Payload() == original[e.shardId]
  }

  /** Every name that is packed stands for an index entry. */
  ghost predicate AllSources(names: seq<P.Source>, s: seq<Tensor>, shards: map<string, P.Shard>, original: seq<Bytes>) {
    forall i :: 0 <= i < |names| ==> HasSource(names[i], s, shards, original)
  }

  ghost predicate HasSource(x: P.Source, s: seq<Tensor>, shards: map<string, P.Shard>, original: seq<Bytes>) {
    exists e :: 0 <= e < |s| && IsSource(x, s[e], shards, original)
  }

  /** Opening what the packer wrote: the packed tensors are those of `r`, in any order. */
  ghost predicate Opened(s: seq<Tensor>, r: P.Packed, tensors: seq<Described>, base: nat, rows: seq<Placed<nat>>) {
    && multiset(tensors) == multiset(r.entries) && T.Opens(s, tensors, r.places)
    && exists before :: T.Rows(s, tensors, base, before) && multiset(before) == multiset(rows)
  }

  /** Every row of the table built from the packer's header leads to the bytes of the original shard. */
  lemma PackedRowsAreFaithful(s: seq<Tensor>, names: seq<P.Source>, shards: map<string, P.Shard>,
                              original: seq<Bytes>, r: P.Packed, tensors: seq<Described>, prefix: Bytes,
                              rows: seq<Placed<nat>>, j: nat)
    requires P.PackedFrom(names, shards, r) && T.DistinctEntries(s)
    requires AllSources(names, s, shards, original)
    requires Opened(s, r, tensors, |prefix|, rows) && j < |rows|
    ensures SameRow(rows[j], prefix + r.payload, original)
  {
    hide T.Opens, T.Rows, P.PlacesOf, S.Chained, P.Trunk, P.Present;
    var before :| T.Rows(s, tensors, |prefix|, before) && multiset(before) == multiset(rows);
    T.RowIsTrunk(s, tensors, r.places, |prefix|, before, rows, j);
    var e, i :| 0 <= e < |s| && 0 <= i < |tensors| && T.Matches(s[e], tensors[i], r.places)
                && rows[j] == T.Row(s[e], tensors[i], |prefix|);
    Sorting.PermutationHolds(tensors, r.entries, tensors[i]);
    var k :| 0 <= k < |r.entries| && r.entries[k] == tensors[i];
    assert P.Moved(names[k], r.entries[k]) && P.Stored(r.entries[k], r.payload, P.Content(names[k], shards));
    assert HasSource(names[k], s, shards, original);
    var f :| 0 <= f < |s| && IsSource(names[k], s[f], shards, original);
    assert e == f;
    StoredRow(names[k], s[e], shards, original, r, r.entries[k], prefix);
  }

  lemma StoredRow(x: P.Source, e: Tensor, shards: map<string, P.Shard>, original: seq<Bytes>, r: P.Packed,
                  t: Described, prefix: Bytes)
    requires IsSource(x, e, shards, original) && P.Moved(x, t)
    requires P.Stored(t, r.payload, P.Content(x, shards))
    ensures SameRow(T.Row(e, t, |prefix|), prefix + r.payload, original)
  {
    var at := |prefix| + t.meta.offset;
    assert (prefix + r.payload)[at..at + t.meta.bytes] == r.payload[t.meta.offset..t.meta.offset + t.meta.bytes];
  }

  /** A byte of a tensor is redirected exactly when the tensor belongs to the trunk. */
  lemma RedirectedExactlyTrunk(s: seq<Tensor>, tensors: seq<Described>, places: map<string, P.Place>, base: nat,
                               before: seq<Placed<nat>>, rows: seq<Placed<nat>>, e: nat, relative: nat)
    requires T.Opens(s, tensors, places) && T.DistinctEntries(s) && T.DistinctTensors(tensors) && CatalogueApart(s)
    requires T.Rows(s, tensors, base, before) && multiset(before) == multiset(rows)
    requires e < |s| && relative < s[e].meta.bytes
    ensures T.Redirected(rows, s[e].shardId, s[e].meta.offset + relative) <==> P.Trunk(s[e].name)
  {
    hide T.Opens, T.Rows, P.Trunk;
    var shard, b := s[e].shardId, s[e].meta.offset + relative;
    if P.Trunk(s[e].name) {
      T.RedirectsTrunk(s, tensors, places, base, before, rows, e);
      var i :| 0 <= i < |rows| && rows[i].range == T.Span(s[e]);
      assert rows[i].range.Covers(shard, b);
    }
    if T.Redirected(rows, shard, b) {
      var i :| 0 <= i < |rows| && rows[i].range.Covers(shard, b);
      T.RowIsTrunk(s, tensors, places, base, before, rows, i);
      var f, k :| 0 <= f < |s| && 0 <= k < |tensors| && T.Matches(s[f], tensors[k], places)
                  && rows[i] == T.Row(s[f], tensors[k], base);
      var other, own := T.Span(s[f]), T.Span(s[e]);
      assert f == e || Apart(other, own);
    }
  }

  /** The row that covers a byte of a trunk tensor is the tensor's own, so a read inside the tensor stays inside it. */
  lemma TrunkReadsStayInside(s: seq<Tensor>, tensors: seq<Described>, places: map<string, P.Place>, base: nat,
                             before: seq<Placed<nat>>, rows: seq<Placed<nat>>, e: nat, relative: nat, i: nat)
    requires T.Opens(s, tensors, places) && CatalogueApart(s)
    requires T.Rows(s, tensors, base, before) && multiset(before) == multiset(rows)
    requires e < |s| && i < |rows| && rows[i].range.Covers(s[e].shardId, s[e].meta.offset + relative)
    requires relative < s[e].meta.bytes
    ensures rows[i].range == T.Span(s[e])
  {
    hide T.Opens, T.Rows, P.Trunk;
    T.RowIsTrunk(s, tensors, places, base, before, rows, i);
    var f, k :| 0 <= f < |s| && 0 <= k < |tensors| && T.Matches(s[f], tensors[k], places)
                && rows[i] == T.Row(s[f], tensors[k], base);
    var other, own := T.Span(s[f]), T.Span(s[e]);
    assert f == e || Apart(other, own);
  }

  /** With a sorted table without overlaps the model stays ready, and its files stay faithful. */
  lemma PackedStaysFaithful(s: seq<Tensor>, names: seq<P.Source>, shards: map<string, P.Shard>, original: seq<Bytes>,
                            r: P.Packed, tensors: seq<Described>, prefix: Bytes, rows: seq<Placed<nat>>,
                            native: Model)
    requires P.PackedFrom(names, shards, r) && T.DistinctEntries(s)
    requires AllSources(names, s, shards, original)
    requires Opened(s, r, tensors, |prefix|, rows) && Sorted(rows) && NeighboursApart(rows)
    requires native.packed.None? && native.Ready() && native.Faithful(original)
    ensures var packed := native.(packed := Some(PackedFile(rows, prefix + r.payload)));
            packed.Ready() && packed.Faithful(original)
  {
    hide P.PackedFrom, SameRow, SameShard, AllSources, B.CutFrom, Opened, T.DistinctEntries, Sorted, NeighboursApart;
    forall j | 0 <= j < |rows|
      ensures SameRow(rows[j], prefix + r.payload, original)
    {
      PackedRowsAreFaithful(s, names, shards, original, r, tensors, prefix, rows, j);
    }
  }

  /** Attaching the packed trunk changes neither which tensor reads succeed nor what they return: with native files
      every read inside a tensor is available before and after, and the files stay faithful. */
  lemma PackedTrunkIsTransparent(s: seq<Tensor>, names: seq<P.Source>, shards: map<string, P.Shard>,
                                 original: seq<Bytes>, r: P.Packed, tensors: seq<Described>, prefix: Bytes,
                                 rows: seq<Placed<nat>>, native: Model, e: nat, relative: nat, bytes: nat)
    requires P.PackedFrom(names, shards, r) && T.DistinctEntries(s) && CatalogueApart(s)
    requires AllSources(names, s, shards, original)
    requires Opened(s, r, tensors, |prefix|, rows) && Sorted(rows) && NeighboursApart(rows)
    requires native.packed.None? && native.Ready() && native.Faithful(original) && !native.extracted
    requires e < |s| && bytes > 0 && native.InBounds(T.Span(s[e]), relative, bytes)
    requires native.shards[s[e].shardId].file.Some?
    ensures var packed := native.(packed := Some(PackedFile(rows, prefix + r.payload)));
            && packed.Ready() && packed.Faithful(original) && packed.InBounds(T.Span(s[e]), relative, bytes)
            && native.Available(s[e].shardId, s[e].meta.offset + relative, bytes)
            && packed.Available(s[e].shardId, s[e].meta.offset + relative, bytes)
  {
    hide P.PackedFrom, SameRow, SameShard, AllSources, B.CutFrom, CatalogueApart, Opened, T.DistinctEntries, Sorted,
      NeighboursApart, Model.Ready;
    var file := prefix + r.payload;
    var start := s[e].meta.offset + relative;
    PackedStaysFaithful(s, names, shards, original, r, tensors, prefix, rows, native);
    forall j | 0 <= j < |rows| && rows[j].range.Covers(s[e].shardId, start)
      ensures Within(rows[j], file, start, bytes)
    {
      OpenedReadsStayInside(s, r, tensors, |prefix|, rows, e, relative, j);
      RowInFile(rows[j], file, original);
    }
  }

  lemma RowInFile(row: Placed<nat>, file: Bytes, original: seq<Bytes>)
    requires SameRow(row, file, original)
    ensures row.data + row.range.bytes <= |file|
  {
  }

  lemma OpenedReadsStayInside(s: seq<Tensor>, r: P.Packed, tensors: seq<Described>, base: nat, rows: seq<Placed<nat>>,
                              e: nat, relative: nat, i: nat)
    requires Opened(s, r, tensors, base, rows) && CatalogueApart(s)
    requires e < |s| && i < |rows| && rows[i].range.Covers(s[e].shardId, s[e].meta.offset + relative)
    requires relative < s[e].meta.bytes
    ensures rows[i].range == T.Span(s[e])
  {
    hide T.Opens, T.Rows, CatalogueApart;
    var before :| T.Rows(s, tensors, base, before) && multiset(before) == multiset(rows);
    TrunkReadsStayInside(s, tensors, r.places, base, before, rows, e, relative, i);
  }
}
