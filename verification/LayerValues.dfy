/** What a layer adds to its input: the taps of a convolution, the two residual sums, and a model whose branches give
    nothing.
*/
module LayerValues {
  import opened Wrappers
  import opened Carrier
  import opened RealMath
  import opened ShortConv
  import opened Attention
  import opened Layers = Layer
  import opened HeadValues
  import opened Forward

  // ---------- Convolution ----------

  /** Tap `k` of a kernel, oldest first. */
  function Tap(kernel: Kernel, k: nat): Float
    requires k < 4
  {
    if k == 0 then kernel.k0 else if k == 1 then kernel.k1 else if k == 2 then kernel.k2 else kernel.k3
  }

  /** The kernel whose tap `k` is one and whose other taps are zero. */
  function Delay(k: nat): Kernel
    requires k < 4
  {
    Kernel(if k == 0 then ONE else ZERO, if k == 1 then ONE else ZERO, if k == 2 then ONE else ZERO,
           if k == 3 then ONE else ZERO)
  }

  predicate Format(A: Arith, x: Float) {
    x.Fin? && A.single(x.v) == x
  }

  lemma TimesOne(A: Arith, x: Float)
    requires Format(A, x)
    ensures Mul(A.single, x, ONE) == x
  {
    assert x.v * 1.0 == x.v;
  }

  lemma TimesZero(A: Arith, x: Float)
    requires Lawful(A) && x.Fin?
    ensures Mul(A.single, x, ZERO) == ZERO && Mul(A.single, ZERO, x) == ZERO
  {
    assert x.v * 0.0 == 0.0 && 0.0 * x.v == 0.0;
  }

  lemma PlusZero(A: Arith, x: Float)
    requires Lawful(A) && Format(A, x)
    ensures Add(A.single, x, ZERO) == x && Add(A.single, ZERO, x) == x
  {
    assert x.v + 0.0 == x.v && 0.0 + x.v == x.v;
  }

  /** A kernel with the single tap `k` adds the sample of `3 - k` steps ago to the input. */
  lemma DelayedSample(A: Arith, k: nat, h0: Float, h1: Float, h2: Float, x: Float)
    requires Lawful(A) && k < 4 && Format(A, h0) && Format(A, h1) && Format(A, h2) && Format(A, x)
    ensures Cell(A, Delay(k), h0, h1, h2, x) == Add(A.single, [h0, h1, h2, x][k], x)
  {
    ZeroFormat(A);
    forall y | y in {h0, h1, h2, x}
      ensures Mul(A.single, y, ONE) == y && Mul(A.single, y, ZERO) == ZERO
      ensures Add(A.single, ZERO, y) == y && Add(A.single, y, ZERO) == y
    {
      TimesOne(A, y);
      TimesZero(A, y);
      PlusZero(A, y);
    }
    PlusZero(A, ZERO);
    hide Add, Mul, Lawful;
  }

  lemma ZeroFormat(A: Arith)
    requires Lawful(A)
    ensures Format(A, ZERO)
  {
  }

  /** The same for whole rows: output `t` is input `t` and the padded input `t + k`. */
  lemma DelayedRow(A: Arith, kernels: seq<Kernel>, history: seq<Row>, xs: seq<Row>, k: nat, t: nat, c: nat)
    requires Lawful(A) && k < 4 && |history| == 3 && t < |xs| && c < |kernels| && kernels[c] == Delay(k)
    requires Widths(history, |kernels|) && Widths(xs, |kernels|)
    requires forall s :: 0 <= s < |history + xs| ==> InFormat(A, (history + xs)[s])
    requires Conv(A, kernels, history, xs).Some?
    ensures Conv(A, kernels, history, xs).value[t][c] == Add(A.single, (history + xs)[t + k][c], xs[t][c])
  {
    hide Lawful, Cell, InFormat;
    var padded := history + xs;
    forall s | t <= s <= t + 3
      ensures |padded[s]| == |kernels| && Format(A, padded[s][c])
    {
      FormatIn(A, padded[s], c);
    }
    DelayedSample(A, k, padded[t][c], padded[t + 1][c], padded[t + 2][c], padded[t + 3][c]);
  }

  lemma FormatIn(A: Arith, row: Row, c: nat)
    requires InFormat(A, row) && c < |row|
    ensures Format(A, row[c])
  {
  }

  /** Without rounding: the four taps on the last four inputs, and the input. */
  lemma ExactCell(A: Arith, k: Kernel, h0: Float, h1: Float, h2: Float, x: Float)
    requires Unrounded(A) && h0.Fin? && h1.Fin? && h2.Fin? && x.Fin?
    requires k.k0.Fin? && k.k1.Fin? && k.k2.Fin? && k.k3.Fin?
    ensures Cell(A, k, h0, h1, h2, x)
         == Fin(h0.v * k.k0.v + h1.v * k.k1.v + h2.v * k.k2.v + x.v * k.k3.v + x.v)
  {
    hide Unrounded, Add, Mul;
    Operations(A, h0, k.k0);
    Operations(A, h1, k.k1);
    Operations(A, h2, k.k2);
    Operations(A, x, k.k3);
    var a, b, c, d := h0.v * k.k0.v, h1.v * k.k1.v, h2.v * k.k2.v, x.v * k.k3.v;
    AddFive(A, a, b, c, d, x.v);
    assert Mul(A.single, h0, k.k0) == Fin(a) && Mul(A.single, h1, k.k1) == Fin(b);
    assert Mul(A.single, h2, k.k2) == Fin(c) && Mul(A.single, x, k.k3) == Fin(d) && x == Fin(x.v);
  }

  lemma AddFive(A: Arith, a: real, b: real, c: real, d: real, x: real)
    requires Unrounded(A)
    ensures var s := Add(A.single, Add(A.single, ZERO, Fin(a)), Fin(b));
            Add(A.single, Add(A.single, Add(A.single, s, Fin(c)), Fin(d)), Fin(x)) == Fin(a + b + c + d + x)
  {
    hide Unrounded, Add;
    Operations(A, ZERO, Fin(a));
    Operations(A, Fin(a), Fin(b));
    Operations(A, Fin(a + b), Fin(c));
    Operations(A, Fin(a + b + c), Fin(d));
    Operations(A, Fin(a + b + c + d), Fin(x));
  }

  /** Every output of a convolution: the sum over the taps `k` of tap times padded input `t + k`, and input `t`. */
  lemma ExactConv(A: Arith, kernels: seq<Kernel>, history: seq<Row>, xs: seq<Row>, t: nat, c: nat)
    requires Unrounded(A) && |history| == 3 && t < |xs| && c < |kernels|
    requires Widths(history, |kernels|) && Widths(xs, |kernels|) && Conv(A, kernels, history, xs).Some?
    ensures Conv(A, kernels, history, xs).value[t][c] == Fin(Sum(4, Taps(kernels, history + xs, t, c)) + At(xs[t], c))
  {
    hide Unrounded, Cell, Sum, Taps;
    var padded, k := history + xs, kernels[c];
    assert padded[t + 3] == xs[t];
    forall s | t <= s <= t + 3
      ensures |padded[s]| == |kernels| && padded[s][c].Fin?
    {
      assert AllFinite(if s < 3 then history[s] else xs[s - 3]);
    }
    ExactCell(A, k, padded[t][c], padded[t + 1][c], padded[t + 2][c], padded[t + 3][c]);
    FourTaps(kernels, padded, t, c);
  }

  /** Tap `k` of channel `c` times padded input `t + k`. */
  function Taps(kernels: seq<Kernel>, padded: seq<Row>, t: nat, c: nat): nat -> real {
    (k: nat) => if k < 4 && c < |kernels| && t + k < |padded| && Tap(kernels[c], k).Fin?
                then At(padded[t + k], c) * Tap(kernels[c], k).v else 0.0
  }

  lemma FourTaps(kernels: seq<Kernel>, padded: seq<Row>, t: nat, c: nat)
    requires c < |kernels| && t + 3 < |padded| && FiniteKernels(kernels)
    requires forall s :: t <= s <= t + 3 ==> c < |padded[s]| && padded[s][c].Fin?
    ensures var k := kernels[c];
            Sum(4, Taps(kernels, padded, t, c)) ==
            padded[t][c].v * k.k0.v + padded[t + 1][c].v * k.k1.v + padded[t + 2][c].v * k.k2.v
            + padded[t + 3][c].v * k.k3.v
  {
    var f, k := Taps(kernels, padded, t, c), kernels[c];
    assert f(0) == padded[t][c].v * k.k0.v && f(1) == padded[t + 1][c].v * k.k1.v;
    assert f(2) == padded[t + 2][c].v * k.k2.v && f(3) == padded[t + 3][c].v * k.k3.v;
    assert Sum(1, f) == Sum(0, f) + f(0) && Sum(2, f) == Sum(1, f) + f(1);
    assert Sum(3, f) == Sum(2, f) + f(2) && Sum(4, f) == Sum(3, f) + f(3);
  }

  // ---------- Branches that give nothing ----------

  /** Whatever `f` returns is a zero row. */
  ghost predicate Nothing(f: Row -> Option<Row>, width: nat) {
    forall x :: f(x).Some? ==> f(x).value == ZeroRow(width)
  }

  function ZeroRows(width: nat, n: nat): (r: seq<Row>)
    ensures |r| == n && Widths(r, width) && forall t :: 0 <= t < n ==> r[t] == ZeroRow(width)
  {
    seq(n, _ => ZeroRow(width))
  }

  lemma {:induction false} MapNothing(f: Row -> Option<Row>, xs: seq<Row>, width: nat)
    requires Nothing(f, width) && MapRows(f, xs).Some?
    ensures MapRows(f, xs).value == ZeroRows(width, |xs|)
  {
    if xs == [] {
    } else {
      MapNothing(f, xs[..|xs| - 1], width);
      assert f(xs[|xs| - 1]).Some?;
    }
  }

  lemma ZeroCell(A: Arith, k: Kernel)
    requires Lawful(A) && k.k0.Fin? && k.k1.Fin? && k.k2.Fin? && k.k3.Fin?
    ensures Cell(A, k, ZERO, ZERO, ZERO, ZERO) == ZERO
  {
    TimesZero(A, k.k0);
    TimesZero(A, k.k1);
    TimesZero(A, k.k2);
    TimesZero(A, k.k3);
    ZeroFormat(A);
    PlusZero(A, ZERO);
    hide Add, Mul, Lawful;
  }

  /** A convolution of zero rows after a zero history gives zero rows. */
  lemma ConvNothing(A: Arith, kernels: seq<Kernel>, n: nat)
    requires Lawful(A) && FiniteKernels(kernels)
    ensures Conv(A, kernels, Zeros(|kernels|), ZeroRows(|kernels|, n)) == Some(ZeroRows(|kernels|, n))
  {
    hide Lawful, Cell;
    var history, xs := Zeros(|kernels|), ZeroRows(|kernels|, n);
    var out := Outputs(A, kernels, history, xs);
    forall t | 0 <= t < n
      ensures out[t] == ZeroRow(|kernels|)
    {
      forall c | 0 <= c < |kernels|
        ensures out[t][c] == ZERO
      {
        ZeroCell(A, kernels[c]);
      }
    }
    assert out == xs;
  }

  lemma AddNothing(A: Arith, x: Row)
    requires Lawful(A) && InFormat(A, x)
    ensures AddRow(A, x, ZeroRow(|x|)) == Some(x)
  {
    forall c | 0 <= c < |x|
      ensures Add(A.single, x[c], ZERO) == x[c] && x[c].Fin?
    {
      FormatIn(A, x, c);
      PlusZero(A, x[c]);
    }
    hide Add;
    assert seq(|x|, j requires 0 <= j < |x| => Add(A.single, x[j], ZeroRow(|x|)[j])) == x;
  }

  predicate FormatRows(A: Arith, xs: seq<Row>) {
    forall t :: 0 <= t < |xs| ==> InFormat(A, xs[t])
  }

  lemma {:induction false} AddNothings(A: Arith, xs: seq<Row>, width: nat)
    requires Lawful(A) && Widths(xs, width) && FormatRows(A, xs)
    ensures AddRows(A, xs, ZeroRows(width, |xs|), width) == Some(xs)
  {
    hide Lawful, InFormat, AddRow;
    if xs == [] {
    } else {
      var n := |xs| - 1;
      AddNothings(A, xs[..n], width);
      AddNothing(A, xs[n]);
      assert ZeroRows(width, |xs|)[..n] == ZeroRows(width, n);
      assert xs == xs[..n] + [xs[n]];
    }
  }

  /** Residual stream, full pass: when the attention output and the MLP give nothing, a layer returns its input. */
  lemma LayerKeepsInput(A: Arith, L: Layers.Layer, hidden: nat, xs: seq<Row>)
    requires Lawful(A) && L.Valid(hidden) && Widths(xs, hidden) && FormatRows(A, xs)
    requires Nothing(L.o, hidden) && Nothing(L.mlp, hidden) && FullLayer(A, L, hidden, xs).Some?
    ensures FullLayer(A, L, hidden, xs).value == xs
  {
    hide Lawful, Conv, AddRows, HeadRows, ProjectAll, Nothing, Yields, FormatRows;
    var (normed, attn, posts) := FullPost(A, L, hidden, xs).value;
    AttentionGivesNothing(A, L, hidden, normed);
    ConvNothing(A, L.attnConv, |xs|);
    AddNothings(A, xs, hidden);
    assert posts == xs;
    MapNothing(L.mlp, MapRows(L.mlpNorm, posts).value, hidden);
    ConvNothing(A, L.mlpConv, |xs|);
  }

  lemma AttentionGivesNothing(A: Arith, L: Layers.Layer, hidden: nat, xs: seq<Row>)
    requires L.Valid(hidden) && Nothing(L.o, hidden) && FullAttention(A, L, hidden, xs).Some?
    ensures FullAttention(A, L, hidden, xs).value == ZeroRows(hidden, |xs|)
  {
    hide HeadRows, ProjectAll, Nothing, Yields;
    var s := ProjectAll(A, L, hidden, xs).value;
    MapNothing(L.o, HeadRows(A, L.G, s.ys, s.ks, s.vs, |xs|).value, hidden);
  }

  lemma ConvOneNothing(A: Arith, kernels: seq<Kernel>)
    requires Lawful(A) && FiniteKernels(kernels)
    ensures ConvOne(A, kernels, Zeros(|kernels|), ZeroRow(|kernels|)) == Some(ZeroRow(|kernels|))
  {
    hide Lawful, Conv;
    ConvNothing(A, kernels, 1);
    assert ZeroRows(|kernels|, 1) == [ZeroRow(|kernels|)];
  }

  /** The same for one token: it is returned, and the two histories stay zero. */
  lemma TokenKeepsInput(A: Arith, L: Layers.Layer, hidden: nat, st: LayerState, t: nat, x: Row)
    requires Lawful(A) && L.Valid(hidden) && st.Fits(L.G, hidden, |st.keys|) && |x| == hidden && InFormat(A, x)
    requires Nothing(L.o, hidden) && Nothing(L.mlp, hidden)
    requires st.attnHistory == st.mlpHistory == Zeros(hidden) && TokenLayer(A, L, hidden, st, t, x).Some?
    ensures var (y, next) := TokenLayer(A, L, hidden, st, t, x).value;
            y == x && next.attnHistory == next.mlpHistory == Zeros(hidden)
  {
    hide Lawful, ConvOne, AddRow, RingHeads, ProjectToken, Yields, InFormat;
    var normed := L.attnNorm(x).value;
    assert TokenAttention(A, L, hidden, st, t, normed).value.0 == ZeroRow(hidden);
    ConvOneNothing(A, L.attnConv);
    ConvOneNothing(A, L.mlpConv);
    AddNothing(A, x);
  }

  /** A model whose layers give nothing. */
  ghost predicate Silent(M: Model) {
    forall l :: 0 <= l < |M.layers| ==> Nothing(M.layers[l].o, M.hidden) && Nothing(M.layers[l].mlp, M.hidden)
  }

  lemma {:induction false} SilentThrough(M: Model, ids: Ids, n: nat)
    requires M.Valid() && n <= |M.layers| && Silent(M) && Through(M, ids, n).Some?
    requires EmbedAll(M, ids).Some? && FormatRows(M.A, EmbedAll(M, ids).value)
    ensures Through(M, ids, n) == EmbedAll(M, ids)
  {
    hide FullLayer, FormatRows, Lawful, Nothing, Yields;
    if n == 0 {
    } else {
      SilentThrough(M, ids, n - 1);
      LayerKeepsInput(M.A, M.layers[n - 1], M.hidden, EmbedAll(M, ids).value);
    }
  }

  lemma {:induction false} EmbeddedAt(M: Model, ids: Ids, t: nat)
    requires M.Valid() && t < |ids| && EmbedAll(M, ids).Some?
    ensures M.embed(ids[t]).Some? && EmbedAll(M, ids).value[t] == M.embed(ids[t]).value
  {
    if t < |ids| - 1 {
      EmbeddedAt(M, ids[..|ids| - 1], t);
    }
  }

  lemma {:induction false} MappedAt(f: Row -> Option<Row>, xs: seq<Row>, t: nat)
    requires t < |xs| && MapRows(f, xs).Some?
    ensures f(xs[t]).Some? && MapRows(f, xs).value[t] == f(xs[t]).value
  {
    if t < |xs| - 1 {
      MappedAt(f, xs[..|xs| - 1], t);
    }
  }

  /** The residual stream carries every token to its own logits: in a silent model row `t` is the unembedding of the
      embedding of token `t`. */
  lemma SilentModel(M: Model, ids: Ids, t: nat)
    requires M.Valid() && t < |ids| && Silent(M) && FullForward(M, ids, false).Some?
    requires forall id :: M.embed(id).Some? ==> InFormat(M.A, M.embed(id).value)
    ensures M.embed(ids[t]).Some? && M.unembed(M.embed(ids[t]).value).Some?
    ensures FullForward(M, ids, false).value[t] == M.unembed(M.embed(ids[t]).value).value
  {
    hide Through, Silent, InFormat;
    EmbeddedSome(M, ids, |M.layers|);
    forall s | 0 <= s < |ids|
      ensures InFormat(M.A, EmbedAll(M, ids).value[s])
    {
      EmbeddedAt(M, ids, s);
    }
    SilentThrough(M, ids, |M.layers|);
    EmbeddedAt(M, ids, t);
    MappedAt(M.unembed, EmbedAll(M, ids).value, t);
  }

  lemma {:induction false} EmbeddedSome(M: Model, ids: Ids, n: nat)
    requires M.Valid() && n <= |M.layers| && Through(M, ids, n).Some?
    ensures EmbedAll(M, ids).Some?
  {
    hide FullLayer, Lawful, Yields;
    if n == 0 {
    } else {
      EmbeddedSome(M, ids, n - 1);
    }
  }

  // ---------- The residual sums without rounding ----------

  /** A residual sum is the sum. */
  lemma ExactAddRow(A: Arith, x: Row, y: Row, c: nat)
    requires Unrounded(A) && |x| == |y| && c < |x| && AddRow(A, x, y).Some?
    ensures x[c].Fin? && y[c].Fin? && AddRow(A, x, y).value[c] == Fin(x[c].v + y[c].v)
  {
    var sum := AddRow(A, x, y).value;
    assert sum[c] == Add(A.single, x[c], y[c]) && sum[c].Fin?;
    FiniteOperands(A, x[c], y[c]);
    Operations(A, x[c], y[c]);
  }

  lemma FiniteOperands(A: Arith, x: Float, y: Float)
    requires Add(A.single, x, y).Fin?
    ensures x.Fin? && y.Fin?
  {
  }

  lemma {:induction false} AddedAt(A: Arith, xs: seq<Row>, ys: seq<Row>, width: nat, t: nat)
    requires |xs| == |ys| && Widths(xs, width) && Widths(ys, width) && t < |xs| && AddRows(A, xs, ys, width).Some?
    ensures AddRow(A, xs[t], ys[t]) == Some(AddRows(A, xs, ys, width).value[t])
  {
    hide AddRow;
    if t < |xs| - 1 {
      AddedAt(A, xs[..|xs| - 1], ys[..|xs| - 1], width, t);
    }
  }

  /** The attention branch and the MLP branch of a full pass, convolved. */
  ghost function Branches(A: Arith, L: Layers.Layer, hidden: nat, xs: seq<Row>): (r: (seq<Row>, seq<Row>))
    requires L.Valid(hidden) && Widths(xs, hidden) && FullLayer(A, L, hidden, xs).Some?
    ensures |r.0| == |r.1| == |xs| && Widths(r.0, hidden) && Widths(r.1, hidden)
  {
    var (normed, attn, posts) := FullPost(A, L, hidden, xs).value;
    var (mlp, out) := FullMlp(A, L, hidden, posts).value;
    (Conv(A, L.attnConv, Zeros(hidden), attn).value, Conv(A, L.mlpConv, Zeros(hidden), mlp).value)
  }

  /** A layer adds its two branches to its input. */
  lemma ExactLayer(A: Arith, L: Layers.Layer, hidden: nat, xs: seq<Row>, t: nat, c: nat)
    requires Unrounded(A) && L.Valid(hidden) && Widths(xs, hidden) && t < |xs| && c < hidden
    requires FullLayer(A, L, hidden, xs).Some?
    ensures var (a, b) := Branches(A, L, hidden, xs);
            && xs[t][c].Fin? && a[t][c].Fin? && b[t][c].Fin?
            && FullLayer(A, L, hidden, xs).value[t][c] == Fin(xs[t][c].v + a[t][c].v + b[t][c].v)
  {
    hide Unrounded, Conv, AddRow, AddRows, MapRows, FullAttention, Yields;
    var (normed, attn, posts) := FullPost(A, L, hidden, xs).value;
    var (a, b) := Branches(A, L, hidden, xs);
    AddedAt(A, xs, a, hidden, t);
    ExactAddRow(A, xs[t], a[t], c);
    AddedAt(A, posts, b, hidden, t);
    ExactAddRow(A, posts[t], b[t], c);
  }

  /** The two branches of one token, convolved with the carried histories. */
  ghost function TokenBranches(A: Arith, L: Layers.Layer, hidden: nat, st: LayerState, t: nat, x: Row): (r: (Row, Row))
    requires L.Valid(hidden) && st.Fits(L.G, hidden, |st.keys|) && |x| == hidden
    requires TokenLayer(A, L, hidden, st, t, x).Some?
    ensures |r.0| == |r.1| == hidden
  {
    var attn := TokenAttention(A, L, hidden, st, t, L.attnNorm(x).value).value.0;
    var post := TokenPost(A, L, hidden, st, t, x).value.1;
    (ConvOne(A, L.attnConv, st.attnHistory, attn).value,
     ConvOne(A, L.mlpConv, st.mlpHistory, TokenMlp(A, L, hidden, st.mlpHistory, post).value.0).value)
  }

  lemma ExactToken(A: Arith, L: Layers.Layer, hidden: nat, st: LayerState, t: nat, x: Row, c: nat)
    requires Unrounded(A) && L.Valid(hidden) && st.Fits(L.G, hidden, |st.keys|) && |x| == hidden && c < hidden
    requires TokenLayer(A, L, hidden, st, t, x).Some?
    ensures var (a, b) := TokenBranches(A, L, hidden, st, t, x);
            && x[c].Fin? && a[c].Fin? && b[c].Fin?
            && TokenLayer(A, L, hidden, st, t, x).value.0[c] == Fin(x[c].v + a[c].v + b[c].v)
  {
    hide Unrounded, ConvOne, AddRow, TokenAttention, Yields;
    var (a, b) := TokenBranches(A, L, hidden, st, t, x);
    var post := TokenPost(A, L, hidden, st, t, x).value.1;
    ExactAddRow(A, x, a, c);
    ExactAddRow(A, post, b, c);
  }

  // ---------- The attention of a prefix ----------

  lemma {:induction false} QueryAt(A: Arith, L: Layers.Layer, qs: seq<Row>, rs: seq<Row>, t: nat)
    requires |qs| == |rs| && Widths(qs, L.G.QueryWidth()) && Widths(rs, L.G.RelativeWidth()) && t < |qs|
    requires Queries(A, L, qs, rs).Some?
    ensures MakeQuery(A, L, qs[t], rs[t], t) == Some(Queries(A, L, qs, rs).value[t])
  {
    hide MakeQuery;
    if t < |qs| - 1 {
      QueryAt(A, L, qs[..|qs| - 1], rs[..|qs| - 1], t);
    }
  }

  /** What token `t` asks: its features as they are, and its queries scaled by the factor of position `t + 1` in a
      global layer and unscaled in a local one. */
  lemma QueryOfToken(A: Arith, L: Layers.Layer, qs: seq<Row>, rs: seq<Row>, t: nat, j: nat)
    requires |qs| == |rs| && Widths(qs, L.G.QueryWidth()) && Widths(rs, L.G.RelativeWidth()) && t < |qs|
    requires Queries(A, L, qs, rs).Some? && j < |qs[t]| && InFormat(A, qs[t])
    ensures var y := Queries(A, L, qs, rs).value[t];
            && |y.q| == |qs[t]| && y.r == rs[t]
            && (L.G.window != 0 ==> y.tau == ONE && y.q[j] == qs[t][j])
            && (L.G.window == 0 ==> y.tau == L.logScale(t + 1) && y.q[j] == Mul(A.single, qs[t][j], L.logScale(t + 1)))
  {
    QueryAt(A, L, qs, rs, t);
    FormatIn(A, qs[t], j);
    TimesOne(A, qs[t][j]);
  }

  /** Row `t` of the attention is the heads of token `t` on the whole prefix, projected. */
  lemma {:induction false} HeadRowAt(A: Arith, G: Geometry, ys: seq<Query>, ks: seq<Row>, vs: seq<Row>, n: nat, t: nat)
    requires G.Valid() && t < n <= |ys| == |ks| == |vs| && QueriesFit(G, ys)
    requires Widths(ks, G.KeyWidth()) && Widths(vs, G.KeyWidth()) && HeadRows(A, G, ys, ks, vs, n).Some?
    ensures FullHeads(A, G, ys[t], ks, vs, t, G.heads) == Some(HeadRows(A, G, ys, ks, vs, n).value[t])
  {
    hide FullHeads;
    if t < n - 1 {
      HeadRowAt(A, G, ys, ks, vs, n - 1, t);
    }
  }
}
