/** inkling_project: a matrix row by row, in tiles that fit the weight buffer, from the cache when it holds
    the expert.

    `Reference` reads every row where its tensor keeps it, with no tiles and no cache.  The method `Project`
    is proved to give the same output for every cache content, budget and buffer size.
*/
module Project {
  import opened Wrappers
  import opened Arithmetic
  import opened Octets
  import opened Carrier
  import opened Nvfp4
  import opened ExpertCache

  // ---------- The reference ----------

  /** Column products of a bfloat16 row, two little-endian bytes a weight. */
  function Bf16Sum(A: Arith, codec: Codec, data: Bytes, x: Row, n: nat): Float
    requires n * 2 <= |data| && n <= |x|
  {
    if n == 0 then ZERO
    else
      var weight := codec.bf16(data[(n - 1) * 2] as int + data[(n - 1) * 2 + 1] as int * 256);
      Add(A.single, Bf16Sum(A, codec, data, x, n - 1), Mul(A.single, weight, x[n - 1]))
  }

  function Bf16Value(A: Arith, codec: Codec, data: Bytes, x: Row): Option<Float>
    requires |data| == |x| * 2
  {
    var sum := Bf16Sum(A, codec, data, x, |x|);
    if sum.Fin? then Some(sum) else None
  }

  /** Where the tensor keeps the weights and the block scales of a row. */
  function RowWeights(M: Matrix, expert: nat, row: nat): (r: Bytes)
    requires M.Valid() && expert < M.experts && row < M.rows
    ensures |r| == M.RowBytes()
  {
    RowPlace(M.experts, M.rows, M.RowBytes(), expert, row);
    var start := Offset(Offset(expert, M.rows) + row, M.RowBytes());
    M.data[start..start + M.RowBytes()]
  }

  function RowFactors(M: Matrix, expert: nat, row: nat): (r: Bytes)
    requires M.Valid() && expert < M.experts && row < M.rows
    ensures |r| == M.ScaleBytes()
  {
    RowPlace(M.experts, M.rows, M.ScaleBytes(), expert, row);
    var start := Offset(Offset(expert, M.rows) + row, M.ScaleBytes());
    M.scales[start..start + M.ScaleBytes()]
  }

  /** expert * rows * width + row * width is the start of the row, inside the expert and inside the tensor. */
  lemma RowPlace(experts: nat, rows: nat, width: nat, expert: nat, row: nat)
    requires expert < experts && row < rows
    ensures Offset(Offset(expert, rows) + row, width) == Offset(expert, Offset(rows, width)) + Offset(row, width)
    ensures Offset(row, width) + width <= Offset(rows, width)
    ensures Offset(Offset(expert, rows) + row, width) + width <= Offset(experts, Offset(rows, width))
  {
    OffsetSum(Offset(expert, rows), row, width);
    OffsetNested(expert, rows, width);
    RowFits(row, rows, width);
    RowFits(expert, experts, Offset(rows, width));
  }

  /** One output of the product, from the row's own bytes. */
  function Output(A: Arith, codec: Codec, M: Matrix, expert: nat, scale2: Float, x: Row, row: nat): Option<Float>
    requires M.Valid() && expert < M.experts && row < M.rows && |x| == M.columns
  {
    if M.kind.Bf16? then Bf16Value(A, codec, RowWeights(M, expert, row), x)
    else RowValue(A, codec, RowWeights(M, expert, row), RowFactors(M, expert, row), scale2, x)
  }

  /** The first `n` outputs. */
  function Outputs(A: Arith, codec: Codec, M: Matrix, expert: nat, scale2: Float, x: Row, n: nat): (r: Option<Row>)
    requires M.Valid() && expert < M.experts && n <= M.rows && |x| == M.columns
    ensures r.Some? ==> |r.value| == n
  {
    if n == 0 then Some([])
    else
      var front :- Outputs(A, codec, M, expert, scale2, x, n - 1);
      var value :- Output(A, codec, M, expert, scale2, x, n - 1);
      Some(front + [value])
  }

  /** The untiled, uncached product of the first `rows` rows of an expert. */
  function Reference(A: Arith, codec: Codec, M: Matrix, expert: nat, rows: nat, scale2: Float, x: Row): (r: Option<Row>)
    requires M.Valid() && expert < M.experts && rows <= M.rows && |x| == M.columns
    ensures r.Some? ==> |r.value| == rows
  {
    if AllFinite(x) then Outputs(A, codec, M, expert, scale2, x, rows) else None
  }

  // ---------- Tiles ----------

  /** Bytes of one row in the weight buffer: its weights and its block scales. */
  function RowCost(M: Matrix): nat {
    M.RowBytes() + M.ScaleBytes()
  }

  /** inkling_project's own checks. */
  predicate Accepts(M: Matrix, expert: nat, rows: nat, weightBytes: nat) {
    expert < M.experts && 0 < rows <= M.rows && 0 < RowCost(M) <= weightBytes
  }

  /** As many rows as fit the buffer do fit it. */
  lemma TileFits(cost: nat, weightBytes: nat, count: nat)
    requires 0 < cost && count <= weightBytes / cost
    ensures Offset(count, cost) <= weightBytes
  {
    OffsetIsProduct(count, cost);
    assert weightBytes == (weightBytes / cost) * cost + weightBytes % cost;
    assert (weightBytes / cost - count) * cost >= 0;
  }

  lemma {:induction false} OffsetAdds(count: nat, a: nat, b: nat)
    ensures Offset(count, a) + Offset(count, b) == Offset(count, a + b)
  {
    if count == 0 {
    } else {
      OffsetAdds(count - 1, a, b);
    }
  }

  /** Row `i` of a tile that starts at row `first`. */
  lemma TileRow(M: Matrix, bytes: Bytes, width: nat, expert: nat, first: nat, count: nat, i: nat)
    requires expert < M.experts && first + count <= M.rows && i < count
    requires |bytes| == Offset(M.experts, Offset(M.rows, width))
    ensures var start := Offset(Offset(expert, M.rows) + first, width);
            var row := Offset(Offset(expert, M.rows) + (first + i), width);
            && start + Offset(count, width) <= |bytes| && row + width <= |bytes|
            && Offset(i, width) + width <= Offset(count, width)
            && bytes[start..start + Offset(count, width)][Offset(i, width)..Offset(i, width) + width] ==
               bytes[row..row + width]
  {
    hide Offset;
    var start := Offset(Offset(expert, M.rows) + first, width);
    OffsetSum(Offset(expert, M.rows) + first, i, width);
    OffsetSum(Offset(expert, M.rows) + first, count, width);
    assert Offset(expert, M.rows) + (first + i) == Offset(expert, M.rows) + first + i;
    RowFits(i, count, width);
    RowPlace(M.experts, M.rows, width, expert, first + i);
    TileInside(M, width, expert, first, count);
    SliceOfSlice(bytes, start, start + Offset(count, width), Offset(i, width), width);
  }

  lemma TileInside(M: Matrix, width: nat, expert: nat, first: nat, count: nat)
    requires expert < M.experts && first + count <= M.rows
    ensures Offset(Offset(expert, M.rows) + first, width) + Offset(count, width) <=
            Offset(M.experts, Offset(M.rows, width))
    ensures Offset(Offset(expert, M.rows) + first, width) ==
            Offset(expert, Offset(M.rows, width)) + Offset(first, width)
    ensures Offset(first, width) + Offset(count, width) <= Offset(M.rows, width)
  {
    OffsetSum(Offset(expert, M.rows), first, width);
    OffsetSum(first, count, width);
    OffsetMonotone(first + count, M.rows, width);
    OffsetNested(expert, M.rows, width);
    RowFits(expert, M.experts, Offset(M.rows, width));
  }

  /** The weights and the block scales of `count` rows from row `first` on. */
  function TileWeights(M: Matrix, expert: nat, first: nat, count: nat): (r: Bytes)
    requires M.Valid() && expert < M.experts && first + count <= M.rows
    ensures |r| == Offset(count, M.RowBytes())
  {
    TileInside(M, M.RowBytes(), expert, first, count);
    var start := Offset(Offset(expert, M.rows) + first, M.RowBytes());
    M.data[start..start + Offset(count, M.RowBytes())]
  }

  function TileFactors(M: Matrix, expert: nat, first: nat, count: nat): (r: Bytes)
    requires M.Valid() && expert < M.experts && first + count <= M.rows
    ensures |r| == Offset(count, M.ScaleBytes())
  {
    TileInside(M, M.ScaleBytes(), expert, first, count);
    var start := Offset(Offset(expert, M.rows) + first, M.ScaleBytes());
    M.scales[start..start + Offset(count, M.ScaleBytes())]
  }

  /** The cached expert holds the tile's weights at `first * RowBytes`, and its scales likewise. */
  lemma CachedWeights(M: Matrix, expert: nat, first: nat, count: nat)
    requires M.Valid() && expert < M.experts && first + count <= M.rows
    ensures var at, n := Offset(first, M.RowBytes()), Offset(count, M.RowBytes());
            at + n <= |M.DataOf(expert)| && M.DataOf(expert)[at..at + n] == TileWeights(M, expert, first, count)
  {
    hide Offset;
    CachedSlice(M, M.data, M.RowBytes(), expert, first, count);
  }

  lemma CachedFactors(M: Matrix, expert: nat, first: nat, count: nat)
    requires M.Valid() && expert < M.experts && first + count <= M.rows
    ensures var at, n := Offset(first, M.ScaleBytes()), Offset(count, M.ScaleBytes());
            at + n <= |M.ScalesOf(expert)| && M.ScalesOf(expert)[at..at + n] == TileFactors(M, expert, first, count)
  {
    hide Offset;
    CachedSlice(M, M.scales, M.ScaleBytes(), expert, first, count);
  }

  lemma CachedSlice(M: Matrix, bytes: Bytes, width: nat, expert: nat, first: nat, count: nat)
    requires expert < M.experts && first + count <= M.rows && |bytes| == Offset(M.experts, Offset(M.rows, width))
    ensures var size := Offset(M.rows, width);
            var base := Offset(expert, size);
            var start := Offset(Offset(expert, M.rows) + first, width);
            && base + size <= |bytes| && start + Offset(count, width) <= |bytes|
            && Offset(first, width) + Offset(count, width) <= size
            && bytes[base..base + size][Offset(first, width)..Offset(first, width) + Offset(count, width)] ==
               bytes[start..start + Offset(count, width)]
  {
    var size := Offset(M.rows, width);
    TileInside(M, width, expert, first, count);
    RowFits(expert, M.experts, size);
    SliceOfSlice(bytes, Offset(expert, size), Offset(expert, size) + size, Offset(first, width), Offset(count, width));
  }

  /** The layout inkling_project gives a tile of `count` rows. */
  function TileLayout(M: Matrix, count: nat): Layout {
    var bytes := Offset(count, M.columns / 2);
    Layout(1, count, M.columns, bytes, bytes / 8, 4)
  }

  lemma TileLayoutValid(M: Matrix, expert: nat, first: nat, count: nat)
    requires M.Valid() && M.kind.Nvfp4? && expert < M.experts && 0 < count && first + count <= M.rows && M.columns > 0
    ensures TileLayout(M, count).Valid()
    ensures TileLayout(M, count).packedBytes == Offset(count, M.RowBytes())
    ensures TileLayout(M, count).scaleBytes == Offset(count, M.ScaleBytes())
  {
    TileInside(M, M.RowBytes(), expert, first, count);
    assert Offset(1, count) == count by { assert Offset(0, count) == 0; }
    assert M.columns / 2 == 8 * (M.columns / 16);
    OffsetScale(count, M.columns / 16, 8);
  }

  /** Row `i` of the tile's weights is row `first + i` of the expert, and likewise for its scales. */
  lemma TileRows(M: Matrix, expert: nat, first: nat, count: nat, i: nat)
    requires M.Valid() && expert < M.experts && first + count <= M.rows && i < count
    ensures var at, n := Offset(i, M.RowBytes()), M.RowBytes();
            at + n <= Offset(count, n) &&
            TileWeights(M, expert, first, count)[at..at + n] == RowWeights(M, expert, first + i)
    ensures var at, n := Offset(i, M.ScaleBytes()), M.ScaleBytes();
            at + n <= Offset(count, n) &&
            TileFactors(M, expert, first, count)[at..at + n] == RowFactors(M, expert, first + i)
  {
    hide Matrix.RowBytes, Matrix.ScaleBytes, TileWeights, TileFactors, RowWeights, RowFactors, Offset;
    TileWeightRow(M, expert, first, count, i);
    TileFactorRow(M, expert, first, count, i);
  }

  lemma TileWeightRow(M: Matrix, expert: nat, first: nat, count: nat, i: nat)
    requires M.Valid() && expert < M.experts && first + count <= M.rows && i < count
    ensures var at, n := Offset(i, M.RowBytes()), M.RowBytes();
            at + n <= Offset(count, n) &&
            TileWeights(M, expert, first, count)[at..at + n] == RowWeights(M, expert, first + i)
  {
    hide Matrix.RowBytes, Matrix.ScaleBytes, Offset, TileWeights, RowWeights;
    TileRow(M, M.data, M.RowBytes(), expert, first, count, i);
    WeightSlices(M, expert, first, count, i);
  }

  lemma WeightSlices(M: Matrix, expert: nat, first: nat, count: nat, i: nat)
    requires M.Valid() && expert < M.experts && first + count <= M.rows && i < count
    requires var n := M.RowBytes();
             Offset(Offset(expert, M.rows) + first, n) + Offset(count, n) <= |M.data|
             && Offset(Offset(expert, M.rows) + (first + i), n) + n <= |M.data|
    ensures var n := M.RowBytes();
            var start, row := Offset(Offset(expert, M.rows) + first, n),
                              Offset(Offset(expert, M.rows) + (first + i), n);
            && TileWeights(M, expert, first, count) == M.data[start..start + Offset(count, n)]
            && RowWeights(M, expert, first + i) == M.data[row..row + n]
  {
    hide Matrix.RowBytes, Matrix.ScaleBytes, Offset;
  }

  lemma TileFactorRow(M: Matrix, expert: nat, first: nat, count: nat, i: nat)
    requires M.Valid() && expert < M.experts && first + count <= M.rows && i < count
    ensures var at, n := Offset(i, M.ScaleBytes()), M.ScaleBytes();
            at + n <= Offset(count, n) &&
            TileFactors(M, expert, first, count)[at..at + n] == RowFactors(M, expert, first + i)
  {
    hide Matrix.RowBytes, Matrix.ScaleBytes, Offset, TileFactors, RowFactors;
    TileRow(M, M.scales, M.ScaleBytes(), expert, first, count, i);
    FactorSlices(M, expert, first, count, i);
  }

  lemma FactorSlices(M: Matrix, expert: nat, first: nat, count: nat, i: nat)
    requires M.Valid() && expert < M.experts && first + count <= M.rows && i < count
    requires var n := M.ScaleBytes();
             Offset(Offset(expert, M.rows) + first, n) + Offset(count, n) <= |M.scales|
             && Offset(Offset(expert, M.rows) + (first + i), n) + n <= |M.scales|
    ensures var n := M.ScaleBytes();
            var start, row := Offset(Offset(expert, M.rows) + first, n),
                              Offset(Offset(expert, M.rows) + (first + i), n);
            && TileFactors(M, expert, first, count) == M.scales[start..start + Offset(count, n)]
            && RowFactors(M, expert, first + i) == M.scales[row..row + n]
  {
    hide Matrix.RowBytes, Matrix.ScaleBytes, Offset;
  }

  /** On a tile, the product's row is the output of the matrix row. */
  lemma TileProduct(A: Arith, codec: Codec, M: Matrix, expert: nat, first: nat, count: nat, scale2: Float, x: Row,
                    i: nat)
    requires M.Valid() && M.kind.Nvfp4? && expert < M.experts && first + count <= M.rows && i < count
    requires M.columns > 0 && |x| == M.columns
    ensures TileLayout(M, count).Valid()
    ensures var L := TileLayout(M, count);
            && L.packedBytes == Offset(count, M.RowBytes()) && L.scaleBytes == Offset(count, M.ScaleBytes())
            && Product(A, codec, L, TileWeights(M, expert, first, count), TileFactors(M, expert, first, count), 0,
                       scale2, x, i)
               == Output(A, codec, M, expert, scale2, x, first + i)
  {
    hide RowValue, Offset, RowData, RowScales, RowWeights, RowFactors, TileLayout, TileWeights, TileFactors;
    TileLayoutValid(M, expert, first, count);
    TileShape(M, count);
    TileRowBytes(M, expert, first, count, i);
  }

  lemma TileShape(M: Matrix, count: nat)
    ensures var L := TileLayout(M, count); L.experts == 1 && L.rows == count && L.columns == M.columns
  {
  }

  /** The bytes the product takes for row `i` of a tile are the row's own bytes. */
  lemma TileRowBytes(M: Matrix, expert: nat, first: nat, count: nat, i: nat)
    requires M.Valid() && M.kind.Nvfp4? && expert < M.experts && first + count <= M.rows && i < count && M.columns > 0
    requires var L := TileLayout(M, count);
             && L.Valid() && L.packedBytes == Offset(count, M.RowBytes())
             && L.scaleBytes == Offset(count, M.ScaleBytes())
    ensures var L := TileLayout(M, count);
            && RowData(L, TileWeights(M, expert, first, count), 0, i) == RowWeights(M, expert, first + i)
            && RowScales(L, TileFactors(M, expert, first, count), 0, i) == RowFactors(M, expert, first + i)
  {
    hide Offset, RowWeights, RowFactors, TileWeights, TileFactors;
    TileRows(M, expert, first, count, i);
    TileBlocks(M, count, i);
  }

  /** The first block of row `i` of a tile. */
  lemma TileBlocks(M: Matrix, count: nat, i: nat)
    requires M.Valid() && M.kind.Nvfp4?
    ensures var L := TileLayout(M, count);
            && Linear(L, 0, i, 0) == Offset(i, M.ScaleBytes()) && Linear(L, 0, i, 0) * 8 == Offset(i, M.RowBytes())
            && L.Blocks() == M.ScaleBytes() && L.Blocks() * 8 == M.RowBytes()
  {
    var L := TileLayout(M, count);
    assert Offset(0, L.rows) == 0;
    OffsetScale(i, L.Blocks(), 8);
    assert M.columns / 2 == 8 * (M.columns / 16);
  }

  // ---------- The loops ----------

  /** inkling_context_read into the weight buffer. */
  method Fetch(c: Cache, bytes: Bytes, start: nat, n: nat, weights: array<Byte>, at: nat, succeeds: bool)
    returns (ok: bool)
    requires c.Valid() && start + n <= |bytes| && at + n <= weights.Length
    modifies c`readCalls, c`bytesRead, weights
    ensures c.Valid() && c.list == old(c.list) && ok == succeeds
    ensures ok ==> weights[at..at + n] == bytes[start..start + n]
    ensures forall i :: 0 <= i < weights.Length && !(at <= i < at + n) ==> weights[i] == old(weights[i])
  {
    ok := c.Read(n, succeeds);
    if ok {
      forall i | 0 <= i < n {
        weights[at + i] := bytes[start + i];
      }
    }
  }

  /** The bytes of one tile: pointers into the cached payload, or two reads into the weight buffer. */
  method LoadTile(c: Cache, weights: array<Byte>, m: nat, expert: nat, entry: Entry?, first: nat, count: nat,
                  readsData: bool, readsScales: bool) returns (ok: bool, data: Bytes, factors: Bytes)
    requires c.Valid() && m < |c.matrices| && c.matrices[m].Valid() && expert < c.matrices[m].experts
    requires first + count <= c.matrices[m].rows
    requires Offset(count, RowCost(c.matrices[m])) <= weights.Length
    requires entry != null ==> c.Faithful(entry) && entry.matrix == m && entry.expert == expert
    modifies c`readCalls, c`bytesRead, weights
    ensures c.Valid() && c.list == old(c.list)
    ensures ok ==> data == TileWeights(c.matrices[m], expert, first, count)
    ensures ok ==> factors == TileFactors(c.matrices[m], expert, first, count)
    ensures entry != null || (readsData && readsScales) ==> ok
  {
    hide Offset;
    var M := c.matrices[m];
    var dataBytes, factorBytes := Offset(count, M.RowBytes()), Offset(count, M.ScaleBytes());
    if entry != null {
      var at, factorAt := Offset(first, M.RowBytes()), Offset(first, M.ScaleBytes());
      CachedWeights(M, expert, first, count);
      CachedFactors(M, expert, first, count);
      data := entry.payload[at..at + dataBytes];
      factors := entry.payload[entry.dataBytes + factorAt..entry.dataBytes + factorAt + factorBytes];
      assert data == M.DataOf(expert)[at..at + dataBytes];
      assert factors == M.ScalesOf(expert)[factorAt..factorAt + factorBytes];
      return true, data, factors;
    }
    OffsetAdds(count, M.RowBytes(), M.ScaleBytes());
    TileInside(M, M.RowBytes(), expert, first, count);
    TileInside(M, M.ScaleBytes(), expert, first, count);
    ok := Fetch(c, M.data, Offset(Offset(expert, M.rows) + first, M.RowBytes()), dataBytes, weights, 0, readsData);
    if !ok {
      return false, [], [];
    }
    ghost var loaded := weights[..dataBytes];
    if M.kind.Nvfp4? {
      ok := Fetch(c, M.scales, Offset(Offset(expert, M.rows) + first, M.ScaleBytes()), factorBytes, weights,
                  dataBytes, readsScales);
      if !ok {
        return false, [], [];
      }
    } else {
      EmptyOffset(count);
    }
    data, factors := weights[..dataBytes], weights[dataBytes..dataBytes + factorBytes];
    assert data == loaded;
  }

  lemma {:induction false} EmptyOffset(count: nat)
    ensures Offset(count, 0) == 0
  {
    if count == 0 {
    } else {
      EmptyOffset(count - 1);
    }
  }

  /** One tile of a bfloat16 matrix. */
  method MultiplyBf16(A: Arith, codec: Codec, M: Matrix, expert: nat, scale2: Float, first: nat, count: nat,
                      data: Bytes, x: Row, out: array<Float>) returns (ok: bool)
    requires M.Valid() && M.kind.Bf16? && expert < M.experts && first + count <= M.rows && |x| == M.columns
    requires data == TileWeights(M, expert, first, count) && first + count <= out.Length
    modifies out
    ensures ok <==> forall r :: first <= r < first + count ==> Output(A, codec, M, expert, scale2, x, r).Some?
    ensures ok ==> forall r :: first <= r < first + count ==>
                     var o := Output(A, codec, M, expert, scale2, x, r); o.Some? && out[r] == o.value
    ensures forall i :: 0 <= i < out.Length && !(first <= i < first + count) ==> out[i] == old(out[i])
  {
    hide Bf16Sum, Offset;
    for i := 0 to count
      invariant forall r :: first <= r < first + i ==>
                              var o := Output(A, codec, M, expert, scale2, x, r); o.Some? && out[r] == o.value
      invariant forall j :: 0 <= j < out.Length && !(first <= j < first + i) ==> out[j] == old(out[j])
    {
      TileRows(M, expert, first, count, i);
      var value := Bf16Value(A, codec, data[Offset(i, M.RowBytes())..Offset(i, M.RowBytes()) + M.RowBytes()], x);
      assert value == Output(A, codec, M, expert, scale2, x, first + i);
      if value.None? {
        return false;
      }
      out[first + i] := value.value;
    }
    ok := true;
  }

  /** One tile of either kind. */
  method MultiplyTile(A: Arith, codec: Codec, M: Matrix, expert: nat, scale2: Float, first: nat, count: nat,
                      data: Bytes, factors: Bytes, x: Row, out: array<Float>) returns (ok: bool)
    requires M.Valid() && expert < M.experts && 0 < count && first + count <= M.rows && |x| == M.columns > 0
    requires data == TileWeights(M, expert, first, count) && factors == TileFactors(M, expert, first, count)
    requires first + count <= out.Length && AllFinite(x)
    modifies out
    ensures ok <==> forall r :: first <= r < first + count ==> Output(A, codec, M, expert, scale2, x, r).Some?
    ensures ok ==> forall r :: first <= r < first + count ==>
                     var o := Output(A, codec, M, expert, scale2, x, r); o.Some? && out[r] == o.value
    ensures forall i :: 0 <= i < out.Length && !(first <= i < first + count) ==> out[i] == old(out[i])
  {
    hide Offset, Output, Product;
    if M.kind.Bf16? {
      ok := MultiplyBf16(A, codec, M, expert, scale2, first, count, data, x, out);
    } else {
      var L := TileLayout(M, count);
      TileLayoutValid(M, expert, first, count);
      ok := Matvec(A, codec, L, 0, data, factors, scale2, x, out, first);
      forall r | first <= r < first + count
        ensures Product(A, codec, L, data, factors, 0, scale2, x, r - first) ==
                Output(A, codec, M, expert, scale2, x, r)
        ensures ok ==> out[r] == Product(A, codec, L, data, factors, 0, scale2, x, r - first).value
      {
        TileProduct(A, codec, M, expert, first, count, scale2, x, r - first);
        assert out[first + (r - first)] == out[r];
      }
      if !ok {
        var i :| 0 <= i < count && Product(A, codec, L, data, factors, 0, scale2, x, i).None?;
        assert Output(A, codec, M, expert, scale2, x, first + i).None? by {
          TileProduct(A, codec, M, expert, first, count, scale2, x, i);
        }
      }
    }
  }

  /** Which reads succeed: those that fill the cache, and the two of each streamed tile. */
  datatype Faults = Faults(env: Env, tileData: nat -> bool, tileScales: nat -> bool) {
    ghost predicate None() {
      env.readsData && env.readsScales && (forall i :: tileData(i)) && (forall i :: tileScales(i))
    }
  }

  lemma {:induction false} OutputsStop(A: Arith, codec: Codec, M: Matrix, expert: nat, scale2: Float, x: Row,
                                       row: nat, n: nat)
    requires M.Valid() && expert < M.experts && row < n <= M.rows && |x| == M.columns
    requires Output(A, codec, M, expert, scale2, x, row).None?
    ensures Outputs(A, codec, M, expert, scale2, x, n).None?
  {
    hide Output;
    if row < n - 1 {
      OutputsStop(A, codec, M, expert, scale2, x, row, n - 1);
    }
  }

  lemma {:induction false} OutputsExtend(A: Arith, codec: Codec, M: Matrix, expert: nat, scale2: Float, x: Row,
                                         out: Row, first: nat, n: nat)
    requires M.Valid() && expert < M.experts && first <= n <= M.rows && n <= |out| && |x| == M.columns
    requires Outputs(A, codec, M, expert, scale2, x, first) == Some(out[..first])
    requires forall r :: first <= r < n ==>
                           var o := Output(A, codec, M, expert, scale2, x, r); o.Some? && out[r] == o.value
    ensures Outputs(A, codec, M, expert, scale2, x, n) == Some(out[..n])
  {
    hide Output;
    if first < n {
      OutputsExtend(A, codec, M, expert, scale2, x, out, first, n - 1);
      assert out[..n] == out[..n - 1] + [out[n - 1]];
    }
  }

  /** The tile loop of inkling_project. */
  method Tiles(A: Arith, codec: Codec, c: Cache, weights: array<Byte>, m: nat, expert: nat, entry: Entry?, rows: nat,
               scale2: Float, x: Row, out: array<Float>, faults: Faults) returns (ok: bool)
    requires c.Valid() && m < |c.matrices| && c.matrices[m].Valid()
    requires Accepts(c.matrices[m], expert, rows, weights.Length) && rows <= out.Length
    requires |x| == c.matrices[m].columns && AllFinite(x)
    requires entry != null ==> c.Faithful(entry) && entry.matrix == m && entry.expert == expert
    modifies c`readCalls, c`bytesRead, weights, out
    ensures c.Valid() && c.list == old(c.list)
    ensures ok ==> Outputs(A, codec, c.matrices[m], expert, scale2, x, rows) == Some(out[..rows])
    ensures !ok ==> !faults.None() || Outputs(A, codec, c.matrices[m], expert, scale2, x, rows).None?
  {
    hide Offset, Output, Outputs;
    hide Cache.Valid, Matrix.Valid;
    var M := c.matrices[m];
    var tileRows := weights.Length / RowCost(M);
    assert tileRows > 0 by { ProductBound(1, RowCost(M)); TileCount(RowCost(M), weights.Length); }
    NoOutputs(A, codec, M, expert, scale2, x);
    var row, tile := 0, 0;
    while row < rows
      invariant row <= rows && c.Valid() && c.list == old(c.list)
      invariant Outputs(A, codec, M, expert, scale2, x, row) == Some(out[..row])
    {
      var count := if rows - row < tileRows then rows - row else tileRows;
      TileFits(RowCost(M), weights.Length, count);
      var data, factors;
      ok, data, factors := LoadTile(c, weights, m, expert, entry, row, count, faults.tileData(tile),
                                   faults.tileScales(tile));
      if !ok {
        return false;
      }
      ghost var before := out[..row];
      ok := MultiplyTile(A, codec, M, expert, scale2, row, count, data, factors, x, out);
      if !ok {
        var r :| row <= r < row + count && Output(A, codec, M, expert, scale2, x, r).None?;
        OutputsStop(A, codec, M, expert, scale2, x, r, rows);
        return false;
      }
      assert out[..row] == before;
      OutputsExtend(A, codec, M, expert, scale2, x, out[..], row, row + count);
      assert out[..][..row] == out[..row] && out[..][..row + count] == out[..row + count];
      row, tile := row + count, tile + 1;
    }
    ok := true;
  }

  lemma TileCount(cost: nat, weightBytes: nat)
    requires 0 < cost <= weightBytes
    ensures weightBytes / cost > 0
  {
    assert weightBytes == (weightBytes / cost) * cost + weightBytes % cost;
  }

  lemma NoOutputs(A: Arith, codec: Codec, M: Matrix, expert: nat, scale2: Float, x: Row)
    requires M.Valid() && expert < M.experts && |x| == M.columns
    ensures Outputs(A, codec, M, expert, scale2, x, 0) == Some([])
  {
  }

  /** inkling_project.  Whatever the cache holds, whatever its budget, however entries are evicted or fail to be
      allocated, and for any weight buffer that holds one row, the output is the untiled uncached product; it
      fails only when a read fails or that product does. */
  method Project(A: Arith, codec: Codec, c: Cache, weights: array<Byte>, m: nat, expert: nat, rows: nat,
                 scale2: Float, x: Row, out: array<Float>, faults: Faults) returns (ok: bool)
    requires c.Valid() && m < |c.matrices| && rows <= out.Length && |x| == c.matrices[m].columns
    modifies c, c.list, weights, out
    ensures c.Valid()
    ensures forall e :: e in c.list ==> e in old(c.list) || fresh(e)
    ensures ok ==>
              && Accepts(c.matrices[m], expert, rows, weights.Length)
              && Reference(A, codec, c.matrices[m], expert, rows, scale2, x) == Some(out[..rows])
    ensures !ok ==>
              || !Accepts(c.matrices[m], expert, rows, weights.Length)
              || !faults.None()
              || Reference(A, codec, c.matrices[m], expert, rows, scale2, x).None?
  {
    hide Outputs, Offset;
    if !Accepts(c.matrices[m], expert, rows, weights.Length) {
      return false;
    }
    var entry, how;
    ok, entry, how := c.CachedExpert(m, expert, faults.env);
    if !ok || !AllFinite(x) {
      return false;
    }
    ok := Tiles(A, codec, c, weights, m, expert, entry, rows, scale2, x, out, faults);
  }
}
