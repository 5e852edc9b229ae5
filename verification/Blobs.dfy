/** Reading tensor bytes out of extracted blobs: the manifest's sorted, non-overlapping ranges and the one pass of
    inkling_model_read that stitches a request together from them.
*/
module Blobs {
  import opened Octets
  import opened Ranges
  import Sorting

  /** InklingBlob: a range of a shard and the bytes of the file that holds it. */
  type Blob = Placed<Bytes>

  /** What the manifest loader has checked before it sorts: nothing empty, files of the recorded length. */
  predicate Sound(blobs: seq<Blob>) {
    forall i :: 0 <= i < |blobs| ==> blobs[i].range.bytes > 0 && |blobs[i].data| == blobs[i].range.bytes
  }

  /** The loaded table: sorted, neighbours apart. */
  predicate Loaded(blobs: seq<Blob>) {
    Sound(blobs) && Sorted(blobs) && NeighboursApart(blobs)
  }

  /** The end of load_manifest: the blobs are accepted exactly when they are pairwise apart. */
  method LoadManifest(blobs: array<Blob>) returns (ok: bool)
    requires Sound(blobs[..])
    modifies blobs
    ensures ok <==> Sorting.Pairwise(ApartPlaced<Bytes>, old(blobs[..]))
    ensures multiset(blobs[..]) == multiset(old(blobs[..]))
    ensures ok ==> Loaded(blobs[..])
  {
    hide Sorting.Pairwise, Sorted, NeighboursApart;
    ghost var before := blobs[..];
    NoTies(before);
    ok := SortAndCheck(blobs);
    Sorting.PermutationInside(blobs[..], before);
    SoundPermutes(before, blobs[..]);
    if ok {
      NeighboursSound(before, blobs[..]);
    } else if Sorting.Pairwise(ApartPlaced<Bytes>, before) {
      NeighboursComplete(before, blobs[..]);
    }
  }

  lemma NoTies(blobs: seq<Blob>)
    requires Sound(blobs)
    ensures !EmptyTie(blobs)
  {
  }

  lemma SoundPermutes(s: seq<Blob>, t: seq<Blob>)
    requires Sound(s) && forall x :: x in t ==> x in s
    ensures Sound(t)
  {
    forall i | 0 <= i < |t|
      ensures t[i].range.bytes > 0 && |t[i].data| == t[i].range.bytes
    {
      assert t[i] in s;
    }
  }

  // ---------- Stitching ----------

  /** Some blob holds byte `b` of the shard. */
  ghost predicate Held(blobs: seq<Blob>, shard: nat, b: nat) {
    exists i :: 0 <= i < |blobs| && blobs[i].range.Covers(shard, b)
  }

  /** Some blob holds byte `b` of the shard, and the byte is `v`. */
  ghost predicate Holds(blobs: seq<Blob>, shard: nat, b: nat, v: Byte)
    requires Sound(blobs)
  {
    exists i :: 0 <= i < |blobs| && Gives(blobs[i], shard, b, v)
  }

  predicate Gives(blob: Blob, shard: nat, b: nat, v: Byte)
    requires |blob.data| == blob.range.bytes
  {
    blob.range.Covers(shard, b) && blob.data[b - blob.range.start] == v
  }

  /** The blobs were cut out of the original shards. */
  predicate CutFrom(blobs: seq<Blob>, original: seq<Bytes>) {
    forall i :: 0 <= i < |blobs| ==> Genuine(blobs[i], original)
  }

  predicate Genuine(blob: Blob, original: seq<Bytes>) {
    blob.range.shard < |original| && blob.range.End() <= |original[blob.range.shard]|
    && blob.data == original[blob.range.shard][blob.range.start..blob.range.End()]
  }

  /** After the blobs before `i`, the current position is not behind: none of them covers it. */
  ghost predicate Passed(blobs: seq<Blob>, i: nat, shard: nat, at: nat)
    requires i <= |blobs|
  {
    forall j :: 0 <= j < i ==> !blobs[j].range.Covers(shard, at)
  }

  /** Taking a blob to its end leaves all blobs up to it behind. */
  lemma TakenIsPassed(blobs: seq<Blob>, i: nat, shard: nat, at: nat)
    requires Loaded(blobs) && i < |blobs| && blobs[i].range.Covers(shard, at)
    ensures Passed(blobs, i + 1, shard, blobs[i].range.End())
  {
    forall j | 0 <= j < i
      ensures !blobs[j].range.Covers(shard, blobs[i].range.End())
    {
      NeighboursSuffice(blobs, j, i);
    }
  }

  /** Copies `take` bytes of a blob, from byte `start` of its shard, to the destination. */
  method CopyBlob(blob: Blob, start: nat, take: nat, destination: array<Byte>, output: nat)
    requires |blob.data| == blob.range.bytes
    requires blob.range.start <= start && start + take <= blob.range.End()
    requires output + take <= destination.Length
    modifies destination
    ensures forall k :: output <= k < output + take ==>
                        destination[k] == blob.data[start - blob.range.start + k - output]
    ensures forall k :: 0 <= k < destination.Length && !(output <= k < output + take) ==>
                        destination[k] == old(destination[k])
  {
    var offset := start - blob.range.start;
    for n := 0 to take
      invariant forall k :: output <= k < output + n ==> destination[k] == blob.data[offset + k - output]
      invariant forall k :: 0 <= k < destination.Length && !(output <= k < output + n)
                            ==> destination[k] == old(destination[k])
    {
      destination[output + n] := blob.data[offset + n];
    }
  }

  /** The loop of inkling_model_read over the blobs: it succeeds exactly when every byte asked for is held, and then
      the destination has those bytes. */
  method ReadBlobs(blobs: seq<Blob>, shard: nat, from: nat, bytes: nat, destination: array<Byte>) returns (ok: bool)
    requires Loaded(blobs) && bytes <= destination.Length
    modifies destination
    ensures ok <==> forall b :: from <= b < from + bytes ==> Held(blobs, shard, b)
    ensures ok ==> forall k :: 0 <= k < bytes ==> Holds(blobs, shard, from + k, destination[k])
    ensures destination[bytes..] == old(destination[bytes..])
  {
    hide Sorted, NeighboursApart, Sound, Gives;
    var start: nat, output: nat, remaining: nat := from, 0, bytes;
    var i := 0;
    while remaining > 0 && i < |blobs|
      invariant i <= |blobs| && output + remaining == bytes && start == from + output
      invariant forall k :: 0 <= k < output ==> Holds(blobs, shard, from + k, destination[k])
      invariant remaining > 0 ==> Passed(blobs, i, shard, start)
      invariant destination[bytes..] == old(destination[bytes..])
    {
      var blob := blobs[i];
      if blob.range.shard == shard && start >= blob.range.start && start - blob.range.start < blob.range.bytes {
        TakenIsPassed(blobs, i, shard, start);
        var available := blob.range.bytes - (start - blob.range.start);
        var take := if available < remaining then available else remaining;
        TakeBlob(blobs, i, shard, from, output, take, destination);
        start, output, remaining := start + take, output + take, remaining - take;
      }
      i := i + 1;
    }
    ok := remaining == 0;
    if remaining > 0 {
      assert !Held(blobs, shard, start);
    } else {
      forall b | from <= b < from + bytes
        ensures Held(blobs, shard, b)
      {
        HoldsHeld(blobs, shard, from + (b - from), destination[b - from]);
      }
    }
  }

  lemma HoldsHeld(blobs: seq<Blob>, shard: nat, b: nat, v: Byte)
    requires Sound(blobs) && Holds(blobs, shard, b, v)
    ensures Held(blobs, shard, b)
  {
  }

  /** One turn of the loop: the next `take` bytes come from blob `i`. */
  method TakeBlob(blobs: seq<Blob>, i: nat, shard: nat, from: nat, output: nat, take: nat, destination: array<Byte>)
    requires Sound(blobs) && i < |blobs| && blobs[i].range.shard == shard
    requires blobs[i].range.start <= from + output && from + output + take <= blobs[i].range.End()
    requires output + take <= destination.Length
    requires forall k :: 0 <= k < output ==> Holds(blobs, shard, from + k, destination[k])
    modifies destination
    ensures forall k :: 0 <= k < output + take ==> Holds(blobs, shard, from + k, destination[k])
    ensures forall k :: output + take <= k < destination.Length ==> destination[k] == old(destination[k])
  {
    CopyBlob(blobs[i], from + output, take, destination, output);
    forall k | 0 <= k < output + take
      ensures Holds(blobs, shard, from + k, destination[k])
    {
      if k >= output {
        assert Gives(blobs[i], shard, from + k, destination[k]);
      } else {
        assert destination[k] == old(destination[..output])[k];
      }
    }
  }

  // ---------- The original bytes ----------

  lemma HoldsOriginal(blobs: seq<Blob>, original: seq<Bytes>, shard: nat, b: nat, v: Byte)
    requires Sound(blobs) && CutFrom(blobs, original) && Holds(blobs, shard, b, v)
    ensures shard < |original| && b < |original[shard]| && v == original[shard][b]
  {
    var i :| 0 <= i < |blobs| && Gives(blobs[i], shard, b, v);
    assert Genuine(blobs[i], original);
  }

  /** What a successful stitched read gives is the stretch of the original shard. */
  lemma StitchedIsOriginal(blobs: seq<Blob>, original: seq<Bytes>, shard: nat, from: nat, r: Bytes)
    requires Sound(blobs) && CutFrom(blobs, original) && r != []
    requires forall k :: 0 <= k < |r| ==> Holds(blobs, shard, from + k, r[k])
    ensures shard < |original| && from + |r| <= |original[shard]| && r == original[shard][from..from + |r|]
  {
    forall k | 0 <= k < |r|
      ensures shard < |original| && from + k < |original[shard]| && r[k] == original[shard][from + k]
    {
      HoldsOriginal(blobs, original, shard, from + k, r[k]);
    }
    HoldsOriginal(blobs, original, shard, from + (|r| - 1), r[|r| - 1]);
  }
}
