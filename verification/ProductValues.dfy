/** What a matrix product is: from the codes that were packed, to the sum of weight times input. */
module ProductValues {
  import opened Wrappers
  import opened Arithmetic
  import opened Counters
  import opened Octets
  import opened Carrier
  import opened RealMath
  import opened Nvfp4
  import E = ExpertCache
  import P = Project

  // ---------- NVFP4 blocks ----------

  /** Codes of four bits. */
  predicate Codes(c: seq<nat>) {
    forall i :: 0 <= i < |c| ==> c[i] < 16
  }

  /** Byte `k` holds code `2k` in its low and code `2k + 1` in its high half. */
  predicate HoldsCodes(data: Bytes, c: seq<nat>) {
    |c| == 2 * |data| && Codes(c) && forall k :: 0 <= k < |data| ==> data[k] as int == c[2 * k] + 16 * c[2 * k + 1]
  }

  /** The combined scale of a block. */
  function Combined(A: Arith, codec: Codec, scale: Byte, scale2: Float): Float {
    Mul(A.single, codec.e4m3(scale), scale2)
  }

  lemma NibbleIsCode(block: Bytes, c: seq<nat>, i: nat)
    requires |block| == 8 && HoldsCodes(block, c) && i < 16
    ensures Nibble(block, i) == c[i]
  {
    var k := i / 2;
    assert block[k] as int == c[2 * k] + 16 * c[2 * k + 1] && c[2 * k] < 16 && c[2 * k + 1] < 16;
  }

  /** Decoding: code `i` of the block times the combined scale, and success exactly for a usable scale and finite
      results. */
  lemma DecodedCodes(A: Arith, codec: Codec, block: Bytes, c: seq<nat>, scale: Byte, scale2: Float)
    requires |block| == 8 && HoldsCodes(block, c)
    ensures DecodeBlock(A, codec, block, scale, scale2).Some? <==>
              && codec.e4m3(scale).Fin? && codec.e4m3(scale).v >= 0.0 && scale2.Fin? && scale2.v > 0.0
              && forall i :: 0 <= i < 16 ==> Mul(A.single, codec.e2m1(c[i]), Combined(A, codec, scale, scale2)).Fin?
    ensures DecodeBlock(A, codec, block, scale, scale2).Some? ==>
              forall i :: 0 <= i < 16 ==>
                DecodeBlock(A, codec, block, scale, scale2).value[i] ==
                Mul(A.single, codec.e2m1(c[i]), Combined(A, codec, scale, scale2))
  {
    hide Mul, Nibble, HoldsCodes;
    LongEnough(block, c);
    forall i | 0 <= i < 16
      ensures Nibble(block, i) == c[i]
    {
      NibbleIsCode(block, c, i);
    }
    var combined := Combined(A, codec, scale, scale2);
    var decoded := seq(16, i requires 0 <= i < 16 => Mul(A.single, codec.e2m1(Nibble(block, i)), combined));
    assert forall i :: 0 <= i < 16 ==> decoded[i] == Mul(A.single, codec.e2m1(c[i]), combined);
  }

  // ---------- A row without rounding ----------

  /** All numbers of a row can be used: codes and scales are finite, scales are not negative. */
  predicate Usable(codec: Codec, c: seq<nat>, scales: Bytes, scale2: Float) {
    && (forall i :: 0 <= i < |c| ==> codec.e2m1(c[i]).Fin?)
    && (forall b :: 0 <= b < |scales| ==> codec.e4m3(scales[b]).Fin? && codec.e4m3(scales[b]).v >= 0.0)
    && scale2.Fin? && scale2.v > 0.0
  }

  /** Weight `i` of a row: its code's value, the scale of its block of sixteen, the scale of the expert. */
  function Weight(codec: Codec, c: seq<nat>, scales: Bytes, scale2: Float, i: nat): real
    requires Usable(codec, c, scales, scale2) && |c| == 16 * |scales| && i < |c|
  {
    codec.e2m1(c[i]).v * (codec.e4m3(scales[i / 16]).v * scale2.v)
  }

  /** Weight times input, column by column. */
  function Terms(codec: Codec, c: seq<nat>, scales: Bytes, scale2: Float, x: Row): nat -> real
    requires Usable(codec, c, scales, scale2) && |c| == 16 * |scales|
  {
    (i: nat) => if i < |c| then Weight(codec, c, scales, scale2, i) * At(x, i) else 0.0
  }

  lemma BlockCodes(data: Bytes, c: seq<nat>, b: nat)
    requires HoldsCodes(data, c) && b * 8 + 8 <= |data|
    ensures HoldsCodes(data[b * 8..b * 8 + 8], c[b * 16..b * 16 + 16])
  {
    var block, codes := data[b * 8..b * 8 + 8], c[b * 16..b * 16 + 16];
    forall k | 0 <= k < 8
      ensures block[k] as int == codes[2 * k] + 16 * codes[2 * k + 1]
    {
      assert data[b * 8 + k] as int == c[2 * (b * 8 + k)] + 16 * c[2 * (b * 8 + k) + 1];
    }
  }

  /** A block decodes to its weights. */
  lemma ExactBlock(A: Arith, codec: Codec, data: Bytes, c: seq<nat>, scales: Bytes, scale2: Float, b: nat)
    requires Unrounded(A) && HoldsCodes(data, c) && |c| == 16 * |scales| && b < |scales|
    requires Usable(codec, c, scales, scale2)
    ensures b * 8 + 8 <= |data|
    ensures var r := DecodeBlock(A, codec, data[b * 8..b * 8 + 8], scales[b], scale2);
            r.Some? && forall i :: 0 <= i < 16 ==> r.value[i] == Fin(Weight(codec, c, scales, scale2, b * 16 + i))
  {
    hide Unrounded, Mul, DecodeBlock, HoldsCodes, Weight, Combined;
    var codes := c[b * 16..b * 16 + 16];
    LongEnough(data, c);
    BlockCodes(data, c, b);
    DecodedCodes(A, codec, data[b * 8..b * 8 + 8], codes, scales[b], scale2);
    forall i | 0 <= i < 16
      ensures Mul(A.single, codec.e2m1(codes[i]), Combined(A, codec, scales[b], scale2))
           == Fin(Weight(codec, c, scales, scale2, b * 16 + i))
    {
      assert codes[i] == c[b * 16 + i];
      BlockOf(b, i);
      ExactWeight(A, codec, c, scales, scale2, b * 16 + i);
    }
  }

  lemma ExactWeight(A: Arith, codec: Codec, c: seq<nat>, scales: Bytes, scale2: Float, k: nat)
    requires Unrounded(A) && |c| == 16 * |scales| && k < |c| && Usable(codec, c, scales, scale2)
    ensures k / 16 < |scales|
    ensures Mul(A.single, codec.e2m1(c[k]), Combined(A, codec, scales[k / 16], scale2))
         == Fin(Weight(codec, c, scales, scale2, k))
  {
    hide Unrounded, Mul;
    var b := k / 16;
    assert codec.e4m3(scales[b]).Fin?;
    Twice(A, codec.e2m1(c[k]), codec.e4m3(scales[b]), scale2);
  }

  lemma Twice(A: Arith, x: Float, y: Float, z: Float)
    requires Unrounded(A) && x.Fin? && y.Fin? && z.Fin?
    ensures Mul(A.single, x, Mul(A.single, y, z)) == Fin(x.v * (y.v * z.v))
  {
    hide Unrounded, Mul;
    Operations(A, y, z);
    Operations(A, x, Fin(y.v * z.v));
  }

  lemma BlockOf(b: nat, i: nat)
    requires i < 16
    ensures (b * 16 + i) / 16 == b
  {
  }

  lemma LongEnough(data: Bytes, c: seq<nat>)
    requires HoldsCodes(data, c)
    ensures |c| == 2 * |data|
  {
  }

  lemma {:induction false} ExactAddBlock(A: Arith, sum: real, decoded: Row, x: Row, at: nat, n: nat, f: nat -> real)
    requires Unrounded(A) && n <= |decoded| && at + n <= |x| && AllFinite(x)
    requires forall i :: 0 <= i < n ==> decoded[i].Fin? && f(at + i) == decoded[i].v * x[at + i].v
    requires sum == Sum(at, f)
    ensures AddBlock(A, Fin(sum), decoded, x, at, n) == Fin(Sum(at + n, f))
  {
    hide Unrounded, Add, Mul;
    if n == 0 {
    } else {
      ExactAddBlock(A, sum, decoded, x, at, n - 1, f);
      Operations(A, decoded[n - 1], x[at + n - 1]);
      assert f(at + (n - 1)) == decoded[n - 1].v * x[at + (n - 1)].v;
      Operations(A, Fin(Sum(at + n - 1, f)), Mul(A.single, decoded[n - 1], x[at + n - 1]));
    }
  }

  lemma {:induction false} ExactRowSum(A: Arith, codec: Codec, data: Bytes, c: seq<nat>, scales: Bytes, scale2: Float,
                                       x: Row, n: nat)
    requires Unrounded(A) && HoldsCodes(data, c) && |c| == 16 * |scales| == |x| && n <= |scales|
    requires Usable(codec, c, scales, scale2) && AllFinite(x)
    ensures n * 8 <= |data| && n * 16 <= |x|
    ensures RowSum(A, codec, data, scales, scale2, x, n) == Some(Fin(Sum(n * 16, Terms(codec, c, scales, scale2, x))))
  {
    hide Unrounded, DecodeBlock, AddBlock, HoldsCodes, Weight;
    LongEnough(data, c);
    if n == 0 {
    } else {
      var b, f := n - 1, Terms(codec, c, scales, scale2, x);
      ExactRowSum(A, codec, data, c, scales, scale2, x, b);
      ExactBlock(A, codec, data, c, scales, scale2, b);
      var decoded := DecodeBlock(A, codec, data[b * 8..b * 8 + 8], scales[b], scale2).value;
      forall i | 0 <= i < 16
        ensures decoded[i].Fin? && f(b * 16 + i) == decoded[i].v * x[b * 16 + i].v
      {
        assert x[b * 16 + i].Fin?;
      }
      ExactAddBlock(A, Sum(b * 16, f), decoded, x, b * 16, 16, f);
    }
  }

  /** One output of the product: the sum over all columns of weight times input. */
  lemma ExactRow(A: Arith, codec: Codec, data: Bytes, c: seq<nat>, scales: Bytes, scale2: Float, x: Row)
    requires Unrounded(A) && HoldsCodes(data, c) && |c| == 16 * |scales| == |x|
    requires Usable(codec, c, scales, scale2) && AllFinite(x)
    ensures |data| == |scales| * 8
    ensures RowValue(A, codec, data, scales, scale2, x) == Some(Fin(Sum(|x|, Terms(codec, c, scales, scale2, x))))
  {
    hide Unrounded, RowSum, HoldsCodes, Terms;
    LongEnough(data, c);
    ExactRowSum(A, codec, data, c, scales, scale2, x, |scales|);
  }

  /** In the tensor: row `row` of expert `expert` starts at byte (expert * rows + row) * columns / 2, its scales at
      (expert * rows + row) * columns / 16. */
  lemma ExactProduct(A: Arith, codec: Codec, L: Layout, packed: Bytes, factors: Bytes, expert: nat, row: nat,
                     scale2: Float, c: seq<nat>, scales: Bytes, x: Row)
    requires Unrounded(A) && L.Valid() && |packed| >= L.packedBytes && |factors| >= L.scaleBytes
    requires expert < L.experts && row < L.rows && |x| == |c| == L.columns && |scales| == L.columns / 16
    requires Codes(c) && Usable(codec, c, scales, scale2) && AllFinite(x)
    requires forall k :: 0 <= k < L.columns / 2 ==>
               RowStart(L, expert, row, L.columns / 2) + k < |packed|
               && packed[RowStart(L, expert, row, L.columns / 2) + k] as int == c[2 * k] + 16 * c[2 * k + 1]
    requires forall b :: 0 <= b < L.columns / 16 ==>
               RowStart(L, expert, row, L.columns / 16) + b < |factors|
               && factors[RowStart(L, expert, row, L.columns / 16) + b] == scales[b]
    ensures Product(A, codec, L, packed, factors, expert, scale2, x, row)
         == Some(Fin(Sum(|x|, Terms(codec, c, scales, scale2, x))))
  {
    hide Unrounded, RowValue, Terms, Linear, Usable, RowStart;
    RowInside(L, expert, row);
    RowStarts(L, expert, row);
    var data := RowData(L, packed, expert, row);
    assert HoldsCodes(data, c);
    assert RowScales(L, factors, expert, row) == scales;
    ExactRow(A, codec, data, c, scales, scale2, x);
  }

  function RowStart(L: Layout, expert: nat, row: nat, width: nat): nat {
    (expert * L.rows + row) * width
  }

  lemma RowStarts(L: Layout, expert: nat, row: nat)
    requires L.Valid()
    ensures L.columns == L.Blocks() * 16 && L.columns / 2 == L.Blocks() * 8
    ensures Linear(L, expert, row, 0) == RowStart(L, expert, row, L.columns / 16)
    ensures Linear(L, expert, row, 0) * 8 == RowStart(L, expert, row, L.columns / 2)
  {
    OffsetIsProduct(expert, L.rows);
    OffsetIsProduct(Offset(expert, L.rows) + row, L.Blocks());
    TimesEight(expert * L.rows + row, L.Blocks());
  }

  lemma TimesEight(r: nat, blocks: nat)
    ensures r * blocks * 8 == r * (blocks * 8)
  {
  }

  // ---------- bfloat16 rows ----------

  /** Bytes `2i` and `2i + 1` are the low and the high byte of code `i`. */
  predicate HoldsWords(data: Bytes, c: seq<nat>) {
    |data| == 2 * |c|
    && forall i :: 0 <= i < |c| ==>
         c[i] < 65536 && data[2 * i] as int == c[i] % 256 && data[2 * i + 1] as int == c[i] / 256
  }

  /** Weight times input of a bfloat16 row. */
  function WordTerms(codec: Codec, c: seq<nat>, x: Row): nat -> real {
    (i: nat) => if i < |c| && codec.bf16(c[i]).Fin? then codec.bf16(c[i]).v * At(x, i) else 0.0
  }

  /** The products of a bfloat16 row are those of its codes, in column order. */
  function CodeSum(A: Arith, codec: Codec, c: seq<nat>, x: Row): Float
    requires |c| <= |x|
  {
    if c == [] then ZERO
    else
      var n := |c| - 1;
      Add(A.single, CodeSum(A, codec, c[..n], x), Mul(A.single, codec.bf16(c[n]), x[n]))
  }

  lemma {:induction false} WordsAreCodes(A: Arith, codec: Codec, data: Bytes, c: seq<nat>, x: Row, n: nat)
    requires HoldsWords(data, c) && n <= |c| <= |x|
    ensures P.Bf16Sum(A, codec, data, x, n) == CodeSum(A, codec, c[..n], x)
  {
    hide Add, Mul;
    if n == 0 {
    } else {
      WordsAreCodes(A, codec, data, c, x, n - 1);
      assert c[..n][..n - 1] == c[..n - 1];
      WordAt(data, c, n - 1);
    }
  }

  lemma WordAt(data: Bytes, c: seq<nat>, i: nat)
    requires HoldsWords(data, c) && i < |c|
    ensures data[i * 2] as int + data[i * 2 + 1] as int * 256 == c[i]
  {
    assert data[2 * i] as int == c[i] % 256 && data[2 * i + 1] as int == c[i] / 256;
  }

  lemma {:induction false} ExactCodeSum(A: Arith, codec: Codec, c: seq<nat>, x: Row, n: nat)
    requires Unrounded(A) && n <= |c| <= |x| && AllFinite(x) && forall i :: 0 <= i < |c| ==> codec.bf16(c[i]).Fin?
    ensures CodeSum(A, codec, c[..n], x) == Fin(Sum(n, WordTerms(codec, c, x)))
  {
    hide Unrounded, Add, Mul;
    if n == 0 {
    } else {
      ExactCodeSum(A, codec, c, x, n - 1);
      assert c[..n][..n - 1] == c[..n - 1];
      assert x[n - 1].Fin?;
      Operations(A, codec.bf16(c[n - 1]), x[n - 1]);
      Operations(A, Fin(Sum(n - 1, WordTerms(codec, c, x))), Mul(A.single, codec.bf16(c[n - 1]), x[n - 1]));
    }
  }

  /** One output of a bfloat16 product. */
  lemma ExactWords(A: Arith, codec: Codec, data: Bytes, c: seq<nat>, x: Row)
    requires Unrounded(A) && HoldsWords(data, c) && |c| == |x| && AllFinite(x)
    requires forall i :: 0 <= i < |c| ==> codec.bf16(c[i]).Fin?
    ensures P.Bf16Value(A, codec, data, x) == Some(Fin(Sum(|x|, WordTerms(codec, c, x))))
  {
    hide Unrounded, CodeSum, WordTerms;
    WordsAreCodes(A, codec, data, c, x, |x|);
    ExactCodeSum(A, codec, c, x, |x|);
  }

  // ---------- Matrices ----------

  /** Where a row of a matrix starts in its tensor. */
  function RowOf(M: E.Matrix, expert: nat, row: nat, width: nat): nat {
    (expert * M.rows + row) * width
  }

  lemma RowOfPlace(M: E.Matrix, expert: nat, row: nat)
    requires M.Valid() && expert < M.experts && row < M.rows
    ensures RowOf(M, expert, row, M.RowBytes()) + M.RowBytes() <= |M.data|
    ensures RowOf(M, expert, row, M.ScaleBytes()) + M.ScaleBytes() <= |M.scales|
    ensures P.RowWeights(M, expert, row)
         == M.data[RowOf(M, expert, row, M.RowBytes())..RowOf(M, expert, row, M.RowBytes()) + M.RowBytes()]
    ensures P.RowFactors(M, expert, row)
         == M.scales[RowOf(M, expert, row, M.ScaleBytes())..RowOf(M, expert, row, M.ScaleBytes()) + M.ScaleBytes()]
  {
    hide Offset;
    OffsetTwice(expert, M.rows, row, M.RowBytes());
    OffsetTwice(expert, M.rows, row, M.ScaleBytes());
    P.RowPlace(M.experts, M.rows, M.RowBytes(), expert, row);
    P.RowPlace(M.experts, M.rows, M.ScaleBytes(), expert, row);
  }

  lemma OffsetTwice(expert: nat, rows: nat, row: nat, width: nat)
    ensures Offset(Offset(expert, rows) + row, width) == (expert * rows + row) * width
  {
    OffsetIsProduct(expert, rows);
    OffsetIsProduct(Offset(expert, rows) + row, width);
  }

  /** One output of a projection with an NVFP4 matrix, from the bytes of its tensors. */
  lemma ExactNvfp4Output(A: Arith, codec: Codec, M: E.Matrix, expert: nat, row: nat, scale2: Float, c: seq<nat>,
                         scales: Bytes, x: Row)
    requires Unrounded(A) && M.Valid() && M.kind.Nvfp4? && expert < M.experts && row < M.rows
    requires |x| == |c| == M.columns && |scales| == M.columns / 16
    requires Codes(c) && Usable(codec, c, scales, scale2) && AllFinite(x)
    requires forall k :: 0 <= k < M.columns / 2 ==>
               RowOf(M, expert, row, M.columns / 2) + k < |M.data|
               && M.data[RowOf(M, expert, row, M.columns / 2) + k] as int == c[2 * k] + 16 * c[2 * k + 1]
    requires forall b :: 0 <= b < M.columns / 16 ==>
               RowOf(M, expert, row, M.columns / 16) + b < |M.scales|
               && M.scales[RowOf(M, expert, row, M.columns / 16) + b] == scales[b]
    ensures P.Output(A, codec, M, expert, scale2, x, row)
         == Some(Fin(Sum(|x|, Terms(codec, c, scales, scale2, x))))
  {
    hide Unrounded, RowValue, Terms, Usable, RowOf;
    RowOfPlace(M, expert, row);
    var data := P.RowWeights(M, expert, row);
    assert HoldsCodes(data, c);
    assert P.RowFactors(M, expert, row) == scales;
    ExactRow(A, codec, data, c, scales, scale2, x);
  }

  /** One output of a projection with a bfloat16 matrix. */
  lemma ExactBf16Output(A: Arith, codec: Codec, M: E.Matrix, expert: nat, row: nat, scale2: Float, c: seq<nat>, x: Row)
    requires Unrounded(A) && M.Valid() && M.kind.Bf16? && expert < M.experts && row < M.rows
    requires |x| == |c| == M.columns && AllFinite(x)
    requires forall i :: 0 <= i < |c| ==> c[i] < 65536 && codec.bf16(c[i]).Fin?
    requires forall i :: 0 <= i < |c| ==>
               RowOf(M, expert, row, M.columns * 2) + 2 * i + 1 < |M.data|
               && M.data[RowOf(M, expert, row, M.columns * 2) + 2 * i] as int == c[i] % 256
               && M.data[RowOf(M, expert, row, M.columns * 2) + 2 * i + 1] as int == c[i] / 256
    ensures P.Output(A, codec, M, expert, scale2, x, row) == Some(Fin(Sum(|x|, WordTerms(codec, c, x))))
  {
    hide Unrounded, P.Bf16Value, WordTerms, RowOf;
    RowOfPlace(M, expert, row);
    var data := P.RowWeights(M, expert, row);
    assert HoldsWords(data, c);
    ExactWords(A, codec, data, c, x);
  }
}
