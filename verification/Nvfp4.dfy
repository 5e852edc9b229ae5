/** NVFP4 storage: where a block lives, how it decodes, and the row/block walk of inkling_nvfp4_matvec. */
module Nvfp4 {
  import opened Wrappers
  import opened Arithmetic
  import opened Counters
  import opened Octets
  import opened Carrier

  // ---------- Addressing ----------

  /** InklingNvfp4Layout. */
  datatype Layout = Layout(experts: nat, rows: nat, columns: nat, packedBytes: nat, scaleBytes: nat, scale2Bytes: nat)
  {
    function Blocks(): nat { columns / 16 }

    /** What inkling_nvfp4_layout returns. */
    predicate Valid() {
      && experts > 0 && rows > 0 && columns > 0 && columns % 16 == 0
      && packedBytes == Offset(Offset(experts, rows), columns / 2) && scaleBytes == packedBytes / 8
      && scale2Bytes == experts * 4
      && packedBytes <= SIZE_MAX && scale2Bytes <= SIZE_MAX
    }
  }

  /** inkling_nvfp4_layout, for the original, packed and scale shapes. */
  function MakeLayout(shape: (nat, nat, nat), packed: (nat, nat, nat), scales: (nat, nat, nat), scale2Count: nat)
    : (r: Option<Layout>)
    ensures r.Some? ==> r.value.Valid() && (r.value.experts, r.value.rows, r.value.columns) == shape
  {
    var (experts, rows, columns) := shape;
    if experts == 0 || rows == 0 || columns == 0 then None
    else if experts > SIZE_MAX || rows > SIZE_MAX || columns > SIZE_MAX then None
    else if packed != (experts, rows, columns / 2) || scales != (experts, rows, columns / 16) then None
    else if columns % 16 != 0 || scale2Count != experts then None
    else if Offset(experts, rows) > SIZE_MAX || Offset(Offset(experts, rows), columns / 2) > SIZE_MAX ||
            experts * 4 > SIZE_MAX then None
    else
      var bytes := Offset(Offset(experts, rows), columns / 2);
      Some(Layout(experts, rows, columns, bytes, bytes / 8, experts * 4))
  }

  /** What is accepted: exactly the shapes of a valid layout, and what comes back is that layout. */
  lemma LayoutExactly(shape: (nat, nat, nat), packed: (nat, nat, nat), scales: (nat, nat, nat), scale2Count: nat,
                      L: Layout)
    ensures MakeLayout(shape, packed, scales, scale2Count) == Some(L)
            <==> L.Valid() && shape == (L.experts, L.rows, L.columns) && L.columns <= SIZE_MAX
                 && packed == (L.experts, L.rows, L.columns / 2) && scales == (L.experts, L.rows, L.columns / 16)
                 && scale2Count == L.experts
  {
    if L.Valid() && shape == (L.experts, L.rows, L.columns) {
      FactorsFit(L);
    }
  }

  lemma FactorsFit(L: Layout)
    requires L.Valid()
    ensures L.experts <= SIZE_MAX && L.rows <= SIZE_MAX && Offset(L.experts, L.rows) <= SIZE_MAX
  {
    var total := Offset(L.experts, L.rows);
    OffsetIsProduct(L.experts, L.rows);
    OffsetIsProduct(total, L.columns / 2);
    FactorAtMost(L.experts, L.rows);
    FactorAtMost(L.rows, L.experts);
    FactorAtMost(total, L.columns / 2);
  }

  lemma FactorAtMost(a: nat, b: nat)
    requires b > 0
    ensures a <= a * b
  {
    assert a * b == a + a * (b - 1);
  }

  /** InklingNvfp4Offsets. */
  datatype Offsets = Offsets(packed: nat, scale: nat, scale2: nat)

  /** The number of blocks before block `block` of row `row` of expert `expert`. */
  function Linear(L: Layout, expert: nat, row: nat, block: nat): nat {
    Offset(Offset(expert, L.rows) + row, L.Blocks()) + block
  }

  /** inkling_nvfp4_offsets. */
  function OffsetsOf(L: Layout, expert: nat, row: nat, block: nat): Option<Offsets> {
    if L.columns == 0 || L.columns % 16 != 0 || expert >= L.experts || row >= L.rows || block >= L.Blocks() then None
    else
      var scale := Linear(L, expert, row, block);
      if Offset(expert, L.rows) + row > SIZE_MAX || scale > SIZE_MAX || scale * 8 > SIZE_MAX || expert * 4 > SIZE_MAX ||
         L.packedBytes < 8 || scale * 8 > L.packedBytes - 8 || scale >= L.scaleBytes ||
         L.scale2Bytes < 4 || expert * 4 > L.scale2Bytes - 4 then None
      else Some(Offsets(scale * 8, scale, expert * 4))
  }

  lemma {:induction false} OffsetScale(n: nat, width: nat, k: nat)
    ensures Offset(n, k * width) == k * Offset(n, width)
  {
    if n == 0 {
    } else {
      OffsetScale(n - 1, width, k);
      assert k * (Offset(n - 1, width) + width) == k * Offset(n - 1, width) + k * width;
    }
  }

  lemma {:induction false} OffsetMonotone(m: nat, n: nat, width: nat)
    requires m <= n
    ensures Offset(m, width) <= Offset(n, width)
  {
    if m < n {
      OffsetMonotone(m, n - 1, width);
    }
  }

  lemma {:induction false} OffsetSum(a: nat, b: nat, width: nat)
    ensures Offset(a + b, width) == Offset(a, width) + Offset(b, width)
  {
    if b == 0 {
    } else {
      OffsetSum(a, b - 1, width);
    }
  }

  lemma {:induction false} OffsetNested(a: nat, b: nat, width: nat)
    ensures Offset(Offset(a, b), width) == Offset(a, Offset(b, width))
  {
    if a == 0 {
    } else {
      OffsetNested(a - 1, b, width);
      OffsetSum(Offset(a - 1, b), b, width);
    }
  }

  /** The number of blocks of the whole tensor. */
  function BlockCount(L: Layout): nat {
    Offset(Offset(L.experts, L.rows), L.Blocks())
  }

  lemma BlockTotals(L: Layout)
    requires L.Valid()
    ensures L.scaleBytes == BlockCount(L) && L.packedBytes == 8 * BlockCount(L)
  {
    assert L.columns / 2 == 8 * L.Blocks();
    OffsetScale(Offset(L.experts, L.rows), L.Blocks(), 8);
  }

  lemma LinearInRange(L: Layout, expert: nat, row: nat, block: nat)
    requires expert < L.experts && row < L.rows && block < L.Blocks()
    ensures Linear(L, expert, row, block) < BlockCount(L)
    ensures Offset(expert, L.rows) + row < Offset(L.experts, L.rows)
  {
    RowFits(expert, L.experts, L.rows);
    RowFits(Offset(expert, L.rows) + row, Offset(L.experts, L.rows), L.Blocks());
  }

  /** For a valid layout the offsets exist exactly for the blocks of the tensor, stay inside the three payloads
      and no 64-bit step overflows. */
  lemma OffsetsInBounds(L: Layout, expert: nat, row: nat, block: nat)
    requires L.Valid()
    ensures OffsetsOf(L, expert, row, block).Some? <==>
              expert < L.experts && row < L.rows && block < L.Blocks()
    ensures OffsetsOf(L, expert, row, block).Some? ==>
              var o := OffsetsOf(L, expert, row, block).value;
              o.packed + 8 <= L.packedBytes && o.scale < L.scaleBytes && o.scale2 + 4 <= L.scale2Bytes
  {
    if expert < L.experts && row < L.rows && block < L.Blocks() {
      LinearInRange(L, expert, row, block);
      BlockTotals(L);
      OffsetGrows(Offset(L.experts, L.rows), L.Blocks());
    }
  }

  lemma {:induction false} OffsetGrows(n: nat, width: nat)
    requires width > 0
    ensures Offset(n, width) >= n
  {
    if n == 0 {
    } else {
      OffsetGrows(n - 1, width);
    }
  }

  /** Different blocks live at different places: earlier in (expert, row, block) order is earlier in storage. */
  lemma LinearOrdered(L: Layout, e: nat, r: nat, b: nat, e': nat, r': nat, b': nat)
    requires r < L.rows && r' < L.rows && b < L.Blocks() && b' < L.Blocks()
    requires e < e' || (e == e' && (r < r' || (r == r' && b < b')))
    ensures Linear(L, e, r, b) < Linear(L, e', r', b')
  {
    var row, row' := Offset(e, L.rows) + r, Offset(e', L.rows) + r';
    if e < e' {
      RowFits(e, e', L.rows);
    }
    if row < row' {
      RowFits(row, row', L.Blocks());
    }
  }

  // ---------- Decoding ----------

  /** The code tables: 4-bit values, 8-bit block scales and bfloat16, each widened to float. */
  datatype Codec = Codec(e2m1: nat -> Float, e4m3: nat -> Float, bf16: nat -> Float)

  /** Code `i` of a block: two per byte, the low nibble first. */
  function Nibble(block: Bytes, i: nat): nat
    requires |block| == 8 && i < 16
  {
    if i % 2 == 0 then block[i / 2] % 16 else block[i / 2] / 16
  }

  /** inkling_nvfp4_decode_block: sixteen values, or None for a bad scale or an overflow. */
  function DecodeBlock(A: Arith, codec: Codec, block: Bytes, scale: Byte, scale2: Float): (r: Option<Row>)
    requires |block| == 8
    ensures r.Some? ==> |r.value| == 16
  {
    var local := codec.e4m3(scale);
    if !local.Fin? || local.v < 0.0 || !scale2.Fin? || scale2.v <= 0.0 then None
    else
      var combined := Mul(A.single, local, scale2);
      var decoded := seq(16, i requires 0 <= i < 16 => Mul(A.single, codec.e2m1(Nibble(block, i)), combined));
      if AllFinite(decoded) then Some(decoded) else None
  }

  /** `sum` with the products of a decoded block and its inputs added in order. */
  function AddBlock(A: Arith, sum: Float, decoded: Row, x: Row, at: nat, n: nat): Float
    requires n <= |decoded| && at + n <= |x|
  {
    if n == 0 then sum
    else Add(A.single, AddBlock(A, sum, decoded, x, at, n - 1), Mul(A.single, decoded[n - 1], x[at + n - 1]))
  }

  /** The first `n` blocks of a row. */
  function RowSum(A: Arith, codec: Codec, data: Bytes, scales: Bytes, scale2: Float, x: Row, n: nat): Option<Float>
    requires n * 8 <= |data| && n <= |scales| && n * 16 <= |x|
  {
    if n == 0 then Some(ZERO)
    else
      var sum :- RowSum(A, codec, data, scales, scale2, x, n - 1);
      var decoded :- DecodeBlock(A, codec, data[(n - 1) * 8..(n - 1) * 8 + 8], scales[n - 1], scale2);
      Some(AddBlock(A, sum, decoded, x, (n - 1) * 16, 16))
  }

  /** One output of the product: the row's sum, which must be finite. */
  function RowValue(A: Arith, codec: Codec, data: Bytes, scales: Bytes, scale2: Float, x: Row): Option<Float>
    requires |data| == |scales| * 8 && |x| == |scales| * 16
  {
    var sum :- RowSum(A, codec, data, scales, scale2, x, |scales|);
    if sum.Fin? then Some(sum) else None
  }

  // ---------- The matrix-vector product ----------

  /** The bytes and the block scales of one row, at the place inkling_nvfp4_offsets gives its first block. */
  function RowData(L: Layout, packed: Bytes, expert: nat, row: nat): (r: Bytes)
    requires L.Valid() && |packed| >= L.packedBytes && expert < L.experts && row < L.rows
    ensures |r| == L.Blocks() * 8
  {
    RowInside(L, expert, row);
    packed[Linear(L, expert, row, 0) * 8..Linear(L, expert, row, 0) * 8 + L.Blocks() * 8]
  }

  function RowScales(L: Layout, scales: Bytes, expert: nat, row: nat): (r: Bytes)
    requires L.Valid() && |scales| >= L.scaleBytes && expert < L.experts && row < L.rows
    ensures |r| == L.Blocks()
  {
    RowInside(L, expert, row);
    scales[Linear(L, expert, row, 0)..Linear(L, expert, row, 0) + L.Blocks()]
  }

  lemma RowInside(L: Layout, expert: nat, row: nat)
    requires L.Valid() && expert < L.experts && row < L.rows
    ensures Linear(L, expert, row, 0) + L.Blocks() <= L.scaleBytes
    ensures Linear(L, expert, row, 0) * 8 + L.Blocks() * 8 <= L.packedBytes
  {
    LinearInRange(L, expert, row, L.Blocks() - 1);
    BlockTotals(L);
  }

  /** Row `row` of expert `expert` times `x`. */
  function Product(A: Arith, codec: Codec, L: Layout, packed: Bytes, scales: Bytes, expert: nat, scale2: Float,
                   x: Row, row: nat): Option<Float>
    requires L.Valid() && |packed| >= L.packedBytes && |scales| >= L.scaleBytes
    requires expert < L.experts && row < L.rows && |x| == L.columns
  {
    RowValue(A, codec, RowData(L, packed, expert, row), RowScales(L, scales, expert, row), scale2, x)
  }

  /** The block loop of one row.  The offsets run on from block to block and from row to row. */
  method SumRow(A: Arith, codec: Codec, ghost L: Layout, blocks: nat, packed: Bytes, scales: Bytes, ghost expert: nat,
                ghost row: nat, scale2: Float, x: Row, packedAt: nat, scaleAt: nat)
    returns (sum: Option<Float>, packedEnd: nat, scaleEnd: nat)
    requires L.Valid() && blocks == L.Blocks() && |packed| >= L.packedBytes && |scales| >= L.scaleBytes
    requires expert < L.experts && row < L.rows && |x| == L.columns
    requires scaleAt == Linear(L, expert, row, 0) && packedAt == scaleAt * 8
    ensures sum == RowSum(A, codec, RowData(L, packed, expert, row), RowScales(L, scales, expert, row),
                          scale2, x, blocks)
    ensures sum.Some? ==> scaleEnd == scaleAt + blocks && packedEnd == scaleEnd * 8
  {
    hide DecodeBlock, AddBlock;
    RowInside(L, expert, row);
    ghost var data, factors := RowData(L, packed, expert, row), RowScales(L, scales, expert, row);
    packedEnd, scaleEnd := packedAt, scaleAt;
    var total := ZERO;
    for block := 0 to blocks
      invariant scaleEnd == scaleAt + block && packedEnd == scaleEnd * 8
      invariant RowSum(A, codec, data, factors, scale2, x, block) == Some(total)
    {
      SliceOfSlice(packed, packedAt, packedAt + blocks * 8, block * 8, 8);
      assert scales[scaleEnd] == factors[block];
      var decoded := DecodeBlock(A, codec, packed[packedEnd..packedEnd + 8], scales[scaleEnd], scale2);
      if decoded.None? {
        SumStops(A, codec, data, factors, scale2, x, block + 1, blocks);
        return None, packedEnd, scaleEnd;
      }
      total := AddBlock(A, total, decoded.value, x, block * 16, 16);
      packedEnd, scaleEnd := packedEnd + 8, scaleEnd + 1;
    }
    sum := Some(total);
  }

  lemma {:induction false} SumStops(A: Arith, codec: Codec, data: Bytes, scales: Bytes, scale2: Float, x: Row, m: nat,
                                    n: nat)
    requires m <= n && n * 8 <= |data| && n <= |scales| && n * 16 <= |x|
    requires RowSum(A, codec, data, scales, scale2, x, m).None?
    ensures RowSum(A, codec, data, scales, scale2, x, n).None?
  {
    hide DecodeBlock, AddBlock;
    if m < n {
      SumStops(A, codec, data, scales, scale2, x, m, n - 1);
    }
  }

  /** inkling_nvfp4_matvec on one expert, writing from `out[at]` on. */
  method Matvec(A: Arith, codec: Codec, L: Layout, expert: nat, packed: Bytes, scales: Bytes, scale2: Float, x: Row,
                out: array<Float>, at: nat) returns (ok: bool)
    requires L.Valid() && |packed| >= L.packedBytes && |scales| >= L.scaleBytes
    requires expert < L.experts && |x| == L.columns && at + L.rows <= out.Length
    modifies out
    ensures ok <==>
              && AllFinite(x)
              && forall row :: 0 <= row < L.rows ==> Product(A, codec, L, packed, scales, expert, scale2, x, row).Some?
    ensures ok ==> forall row :: 0 <= row < L.rows ==>
                     out[at + row] == Product(A, codec, L, packed, scales, expert, scale2, x, row).value
    ensures forall i :: 0 <= i < out.Length && !(at <= i < at + L.rows) ==> out[i] == old(out[i])
  {
    hide RowSum, RowData, RowScales;
    if !AllFinite(x) {
      return false;
    }
    var packedAt, scaleAt := Linear(L, expert, 0, 0) * 8, Linear(L, expert, 0, 0);
    for row := 0 to L.rows
      invariant row < L.rows ==> scaleAt == Linear(L, expert, row, 0) && packedAt == scaleAt * 8
      invariant forall r :: 0 <= r < row ==>
                              var p := Product(A, codec, L, packed, scales, expert, scale2, x, r);
                              p.Some? && out[at + r] == p.value
      invariant forall i :: 0 <= i < out.Length && !(at <= i < at + row) ==> out[i] == old(out[i])
    {
      var sum;
      sum, packedAt, scaleAt := SumRow(A, codec, L, L.Blocks(), packed, scales, expert, row, scale2, x, packedAt,
                                        scaleAt);
      if sum.None? || !sum.value.Fin? {
        assert Product(A, codec, L, packed, scales, expert, scale2, x, row).None?;
        return false;
      }
      out[at + row] := sum.value;
      NextRow(L, expert, row);
    }
    ok := true;
  }

  /** The next row starts where the last one ended. */
  lemma NextRow(L: Layout, expert: nat, row: nat)
    ensures Linear(L, expert, row + 1, 0) == Linear(L, expert, row, 0) + L.Blocks()
  {
    assert Offset(expert, L.rows) + (row + 1) == (Offset(expert, L.rows) + row) + 1;
  }
}
