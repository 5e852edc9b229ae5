/** Facts about a whole checkpoint: bound shards give a catalogue without overlaps, and when the runtime opens what
    the packer wrote.
*/
module Checkpoint {
  import opened Tensors
  import opened Ranges
  import I = Index
  import P = Packing
  import Pigeonhole
  import S = Safetensors
  import Sorting
  import Storage
  import T = PackedTrunk

  // ---------- Binding gives tensors that lie apart ----------

  /** After a shard whose header tiles its payload is bound, its entries lie apart and inside the payload. */
  lemma BoundShardApart(s: seq<Tensor>, shard: string, header: seq<Described>, payload: nat, e: nat, f: nat)
    requires Pigeonhole.NoRepeats(NamesOf(s)) && Pigeonhole.NoRepeats(I.HeaderNames(header))
    requires I.Binds(s, shard, header) && S.Partition(S.RangesOf(header), payload)
    requires e < |s| && f < |s| && e != f && s[e].shard == s[f].shard == shard
    ensures S.ApartTensor(Described("", I.Bound(s[e], header).meta), Described("", I.Bound(s[f], header).meta))
    ensures I.Bound(s[e], header).meta.offset + I.Bound(s[e], header).meta.bytes <= payload
  {
    I.BindingIsBijective(s, shard, header, e);
    I.BindingIsBijective(s, shard, header, f);
    var p :| 0 <= p < |header| && header[p].name == s[e].name
             && I.Bound(s[e], header) == s[e].(meta := header[p].meta);
    var q :| 0 <= q < |header| && header[q].name == s[f].name
             && I.Bound(s[f], header) == s[f].(meta := header[q].meta);
    assert NamesOf(s)[e] != NamesOf(s)[f];
    var ranges := S.RangesOf(header);
    assert S.Apart(ranges[p], ranges[q]);
  }

  // ---------- When a packed file opens ----------

  /** The packer's catalogue: every index entry but those of the shard it leaves out. */
  ghost predicate CatalogueOf(s: seq<Tensor>, catalogue: seq<P.Source>) {
    && P.DistinctNames(catalogue)
    && (forall i :: 0 <= i < |catalogue| ==> HasEntry(s, catalogue[i]))
    && (forall e :: 0 <= e < |s| && s[e].shard != MTP_SHARD ==> P.Source(s[e].name, s[e].shard, s[e].meta) in catalogue)
  }

  predicate IsEntry(e: Tensor, x: P.Source) {
    x == P.Source(e.name, e.shard, e.meta) && e.shard != MTP_SHARD
  }

  ghost predicate HasEntry(s: seq<Tensor>, x: P.Source) {
    exists e :: 0 <= e < |s| && IsEntry(s[e], x)
  }

  function SourceNames(names: seq<P.Source>): (r: seq<string>)
    ensures |r| == |names| && forall i :: 0 <= i < |names| ==> r[i] == names[i].name
  {
    seq(|names|, i requires 0 <= i < |names| => names[i].name)
  }

  /** No tensor with a trunk name lives in the shard that the packer leaves out. */
  ghost predicate TrunkIsComplete(s: seq<Tensor>) {
    forall e :: 0 <= e < |s| && P.Trunk(s[e].name) ==> s[e].shard != MTP_SHARD
  }

  lemma PackedNamesAreTrunk(s: seq<Tensor>, catalogue: seq<P.Source>, names: seq<P.Source>, k: nat)
    requires T.DistinctEntries(s) && CatalogueOf(s, catalogue) && k < |names|
    requires multiset(names) == multiset(P.TrunkOf(catalogue))
    ensures P.Trunk(names[k].name) && HasEntry(s, names[k])
  {
    hide P.Trunk, P.TrunkOf;
    P.TrunkOfMembers(catalogue);
    Sorting.PermutationHolds(names, P.TrunkOf(catalogue), names[k]);
    var i :| 0 <= i < |catalogue| && catalogue[i] == names[k];
  }

  lemma CompleteNames(s: seq<Tensor>, catalogue: seq<P.Source>, names: seq<P.Source>)
    requires T.DistinctEntries(s) && CatalogueOf(s, catalogue)
    requires multiset(names) == multiset(P.TrunkOf(catalogue))
    ensures P.DistinctNames(names)
    ensures |names| == T.TrunkCount(s) <==> TrunkIsComplete(s)
  {
    hide P.Trunk, P.TrunkOf, T.TrunkCount, CatalogueOf;
    DistinctTrunk(s, catalogue, names);
    var wanted, got := T.TrunkNames(s), Pigeonhole.Elements(SourceNames(names));
    T.TrunkNamesCount(s);
    assert Pigeonhole.NoRepeats(SourceNames(names));
    Pigeonhole.ElementsCount(SourceNames(names));
    forall x | x in got
      ensures x in wanted
    {
      var k :| 0 <= k < |names| && SourceNames(names)[k] == x;
      PackedNamesAreTrunk(s, catalogue, names, k);
    }
    Pigeonhole.SubsetSize(got, wanted);
    forall e | 0 <= e < |s| && P.Trunk(s[e].name)
      ensures s[e].name in wanted && (s[e].name in got <==> s[e].shard != MTP_SHARD)
    {
      PackedExactlyHere(s, catalogue, names, e);
    }
    if TrunkIsComplete(s) {
      assert got == wanted;
    }
  }

  lemma DistinctTrunk(s: seq<Tensor>, catalogue: seq<P.Source>, names: seq<P.Source>)
    requires CatalogueOf(s, catalogue) && multiset(names) == multiset(P.TrunkOf(catalogue))
    ensures P.DistinctNames(names)
  {
    P.TrunkOfMembers(catalogue);
    P.DistinctPermutes(P.TrunkOf(catalogue), names);
  }

  lemma PackedExactlyHere(s: seq<Tensor>, catalogue: seq<P.Source>, names: seq<P.Source>, e: nat)
    requires T.DistinctEntries(s) && CatalogueOf(s, catalogue) && e < |s| && P.Trunk(s[e].name)
    requires multiset(names) == multiset(P.TrunkOf(catalogue))
    ensures s[e].name in Pigeonhole.Elements(SourceNames(names)) <==> s[e].shard != MTP_SHARD
  {
    hide P.Trunk, P.TrunkOf;
    P.TrunkOfMembers(catalogue);
    var x := P.Source(s[e].name, s[e].shard, s[e].meta);
    if s[e].shard != MTP_SHARD {
      Sorting.PermutationHolds(P.TrunkOf(catalogue), names, x);
      var k :| 0 <= k < |names| && names[k] == x;
      assert SourceNames(names)[k] == s[e].name;
    }
    if s[e].name in Pigeonhole.Elements(SourceNames(names)) {
      var k :| 0 <= k < |names| && SourceNames(names)[k] == s[e].name;
      PackedNamesAreTrunk(s, catalogue, names, k);
      var f :| 0 <= f < |s| && IsEntry(s[f], names[k]);
      assert f == e;
    }
  }

  /** The checks before the sort pass exactly when the trunk is complete without the shard that is left out. */
  lemma PackedFileOpens(s: seq<Tensor>, catalogue: seq<P.Source>, names: seq<P.Source>, shards: map<string, P.Shard>,
                        r: P.Packed, tensors: seq<Described>)
    requires T.DistinctEntries(s) && CatalogueOf(s, catalogue) && P.TrunkOf(catalogue) != []
    requires multiset(names) == multiset(P.TrunkOf(catalogue)) && P.PackedFrom(names, shards, r)
    requires multiset(tensors) == multiset(r.entries)
    ensures T.Opens(s, tensors, r.places) <==> TrunkIsComplete(s)
    ensures T.DistinctTensors(tensors)
  {
    hide P.Trunk, P.TrunkOf, T.TrunkCount, CatalogueOf, TrunkIsComplete, T.DistinctEntries, S.Chained, P.Stored,
      T.MatchesIndex, P.Content, S.RangesOf;
    CompleteNames(s, catalogue, names);
    assert |multiset(names)| == |names| && |multiset(P.TrunkOf(catalogue))| == |P.TrunkOf(catalogue)|;
    assert |multiset(tensors)| == |tensors| && |multiset(r.entries)| == |r.entries|;
    forall i | 0 <= i < |tensors|
      ensures T.MatchesIndex(s, tensors[i], r.places)
    {
      Sorting.PermutationHolds(tensors, r.entries, tensors[i]);
      var k :| 0 <= k < |r.entries| && r.entries[k] == tensors[i];
      PackedNamesAreTrunk(s, catalogue, names, k);
      PackedMatches(s, names[k], tensors[i], r.places);
    }
    DistinctMoved(names, r.entries, tensors);
  }

  lemma PackedMatches(s: seq<Tensor>, x: P.Source, t: Described, places: map<string, P.Place>)
    requires T.DistinctEntries(s) && P.Trunk(x.name) && P.Moved(x, t)
    requires HasEntry(s, x)
    requires x.name in places && places[x.name] == P.Place(x.shard, x.meta.offset, x.meta.bytes)
    ensures T.MatchesIndex(s, t, places)
  {
    hide P.Trunk;
    var e :| 0 <= e < |s| && IsEntry(s[e], x);
    T.LookupUnique(s, e);
  }

  predicate OtherTensor(a: Described, b: Described) {
    a.name != b.name
  }

  lemma DistinctMoved(names: seq<P.Source>, entries: seq<Described>, tensors: seq<Described>)
    requires P.DistinctNames(names) && P.AllMoved(names, entries) && multiset(tensors) == multiset(entries)
    ensures T.DistinctTensors(tensors)
  {
    assert Sorting.Pairwise(OtherTensor, entries) by {
      assert forall i :: 0 <= i < |names| ==> P.Moved(names[i], entries[i]);
    }
    Sorting.PairwisePermutes(OtherTensor, entries, tensors);
    assert forall i, j :: 0 <= i < j < |tensors| ==> OtherTensor(tensors[i], tensors[j]);
  }

  /** The coverage check can fail: of two trunk tensors one lives in the shard that is left out, so the packer copies
      one and the runtime counts two. */
  lemma CoverageCanFail(names: seq<P.Source>, shards: map<string, P.Shard>, r: P.Packed, tensors: seq<Described>)
    ensures var meta := Meta(F32, [1], 0, 4);
            var s := [Tensor("model.llm.a", "x", 0, meta), Tensor("model.llm.b", "mtp.safetensors", 1, UNBOUND)];
            var catalogue := [P.Source("model.llm.a", "x", meta)];
            && T.DistinctEntries(s) && CatalogueOf(s, catalogue) && P.TrunkOf(catalogue) == catalogue
            && (multiset(names) == multiset(catalogue) && P.PackedFrom(names, shards, r)
                && multiset(tensors) == multiset(r.entries)
                ==> !T.Opens(s, tensors, r.places))
  {
    hide T.Opens, P.PackedFrom, P.Trunk;
    var meta := Meta(F32, [1], 0, 4);
    var s := [Tensor("model.llm.a", "x", 0, meta), Tensor("model.llm.b", "mtp.safetensors", 1, UNBOUND)];
    var catalogue := [P.Source("model.llm.a", "x", meta)];
    ShortTrunkName("model.llm.a");
    ShortTrunkName("model.llm.b");
    assert catalogue[..0] == [];
    assert IsEntry(s[0], catalogue[0]) && s[1].name[10] != s[0].name[10];
    if multiset(names) == multiset(catalogue) && P.PackedFrom(names, shards, r) &&
       multiset(tensors) == multiset(r.entries) {
      PackedFileOpens(s, catalogue, names, shards, r, tensors);
      assert P.Trunk(s[1].name);
    }
  }

  lemma ShortTrunkName(name: string)
    requires P.TRUNK_PREFIX <= name && |name| < |P.EXPERTS|
    ensures P.Trunk(name)
  {
  }

  // ---------- The verdict of the overlap check ----------

  /** A trunk tensor without bytes starts where a trunk tensor with bytes starts. */
  ghost predicate TrunkTie(s: seq<Tensor>) {
    exists e, f :: 0 <= e < |s| && 0 <= f < |s| && P.Trunk(s[e].name) && P.Trunk(s[f].name)
                   && Tied(T.Span(s[e]), T.Span(s[f]))
  }

  lemma RowEntry(s: seq<Tensor>, tensors: seq<Described>, places: map<string, P.Place>, base: nat,
                 rows: seq<Placed<nat>>, i: nat)
    returns (e: nat)
    requires T.Opens(s, tensors, places) && T.Rows(s, tensors, base, rows) && i < |rows|
    ensures e < |s| && s[e].name == tensors[i].name && P.Trunk(s[e].name) && rows[i].range == T.Span(s[e])
  {
    hide P.Trunk;
    assert T.IsRow(s, tensors[i], base, rows[i]) && T.MatchesIndex(s, tensors[i], places);
    e := T.Lookup(s, tensors[i].name).value;
  }

  lemma RowsApart(s: seq<Tensor>, tensors: seq<Described>, places: map<string, P.Place>, base: nat,
                  rows: seq<Placed<nat>>)
    requires T.Opens(s, tensors, places) && T.DistinctTensors(tensors) && Storage.CatalogueApart(s)
    requires T.Rows(s, tensors, base, rows)
    ensures Sorting.Pairwise(ApartPlaced<nat>, rows)
  {
    hide T.Opens, P.Trunk;
    forall i, j | 0 <= i < |rows| && 0 <= j < |rows| && i != j
      ensures ApartPlaced(rows[i], rows[j])
    {
      var e := RowEntry(s, tensors, places, base, rows, i);
      var f := RowEntry(s, tensors, places, base, rows, j);
      assert e != f;
    }
  }

  lemma TiesAreTrunkTies(s: seq<Tensor>, tensors: seq<Described>, places: map<string, P.Place>, base: nat,
                         rows: seq<Placed<nat>>)
    requires T.Opens(s, tensors, places) && T.DistinctTensors(tensors) && T.DistinctEntries(s)
    requires T.Rows(s, tensors, base, rows)
    ensures EmptyTie(rows) <==> TrunkTie(s)
  {
    hide T.Opens, P.Trunk, T.Rows;
    if EmptyTie(rows) {
      var i, j :| 0 <= i < |rows| && 0 <= j < |rows| && Tied(rows[i].range, rows[j].range);
      assert |rows| == |tensors| by { RowCount(s, tensors, base, rows); }
      var e := RowEntry(s, tensors, places, base, rows, i);
      var f := RowEntry(s, tensors, places, base, rows, j);
      assert Tied(T.Span(s[e]), T.Span(s[f]));
    }
    if TrunkTie(s) {
      var e, f :| 0 <= e < |s| && 0 <= f < |s| && P.Trunk(s[e].name) && P.Trunk(s[f].name)
                  && Tied(T.Span(s[e]), T.Span(s[f]));
      T.RedirectsTrunk(s, tensors, places, base, rows, rows, e);
      T.RedirectsTrunk(s, tensors, places, base, rows, rows, f);
      var i :| 0 <= i < |rows| && rows[i].range == T.Span(s[e]);
      var j :| 0 <= j < |rows| && rows[j].range == T.Span(s[f]);
      assert Tied(rows[i].range, rows[j].range);
    }
  }

  lemma RowCount(s: seq<Tensor>, tensors: seq<Described>, base: nat, rows: seq<Placed<nat>>)
    requires T.Rows(s, tensors, base, rows)
    ensures |rows| == |tensors|
  {
  }

  /** Opening succeeds whatever the library sort does exactly when no empty trunk tensor shares its start with a
      tensor that has bytes. */
  lemma OverlapVerdict(s: seq<Tensor>, tensors: seq<Described>, places: map<string, P.Place>, base: nat,
                       rows: seq<Placed<nat>>)
    requires T.Opens(s, tensors, places) && T.DistinctTensors(tensors) && T.DistinctEntries(s)
    requires Storage.CatalogueApart(s) && T.Rows(s, tensors, base, rows)
    ensures AnyOrderPasses(rows) <==> !TrunkTie(s)
  {
    hide T.Opens, P.Trunk, T.Rows, EmptyTie, TrunkTie, AnyOrderPasses;
    RowsApart(s, tensors, places, base, rows);
    TiesAreTrunkTies(s, tensors, places, base, rows);
    VerdictExactly(rows);
  }

  /** The verdict can be left open: an accepted header with an empty tensor in front of another one, both of the trunk.
      Both orders of the two rows are sorted; one passes and the other fails. */
  lemma TieAtAnInput()
    ensures var small, large := Described("model.llm.a", Meta(F32, [0], 0, 0)),
                                Described("model.llm.b", Meta(F32, [1], 0, 4));
            var s := [Tensor(small.name, "x", 0, small.meta), Tensor(large.name, "x", 0, large.meta)];
            var a, b := T.Row(s[0], small, 8), T.Row(s[1], large, 8);
            && S.Partition(S.RangesOf([small, large]), 4) && Storage.CatalogueApart(s) && T.DistinctEntries(s)
            && TrunkTie(s) && Sorted([a, b]) && Sorted([b, a]) && NeighboursApart([a, b]) && !NeighboursApart([b, a])
  {
    var small, large := Described("model.llm.a", Meta(F32, [0], 0, 0)), Described("model.llm.b", Meta(F32, [1], 0, 4));
    var s := [Tensor(small.name, "x", 0, small.meta), Tensor(large.name, "x", 0, large.meta)];
    var a, b := T.Row(s[0], small, 8), T.Row(s[1], large, 8);
    ShortTrunkName(small.name);
    ShortTrunkName(large.name);
    assert small.name[10] != large.name[10];
    assert Tied(T.Span(s[0]), T.Span(s[1]));
    var ranges := S.RangesOf([small, large]);
    assert ranges == [S.Range(0, 0), S.Range(0, 4)];
    assert forall p :: 0 <= p < 4 ==> ranges[1].Covers(p);
    assert !Follows([b, a][0].range, [b, a][1].range);
  }
}
