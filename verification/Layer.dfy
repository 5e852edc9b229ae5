/** A decoder layer in its two forms.

    `FullLayer` runs each stage over the whole prefix before the next stage starts.  `TokenLayer` runs
    all stages for one token and carries four convolution histories and two rings.  `LayerStep` is the
    exchange of the two loops for one token: the carried state stays the summary of the full pass.
*/
module Layer {
  import opened Wrappers
  import opened Arithmetic
  import opened Carrier
  import opened ShortConv
  import opened Attention

  /** Every result of `f` has the given width. */
  ghost predicate Yields(f: Row -> Option<Row>, width: nat) {
    forall x :: f(x).Some? ==> |f(x).value| == width
  }

  /** A layer: its geometry, its per-token operations and its convolution kernels.  The projections,
      norms and the MLP act on one row and may fail; `logScale` is the query scaling of global layers
      as a function of the one-based position. */
  datatype Layer = Layer(
    G: Geometry,
    q: Row -> Option<Row>, k: Row -> Option<Row>, v: Row -> Option<Row>, r: Row -> Option<Row>,
    o: Row -> Option<Row>, qNorm: Row -> Option<Row>, kNorm: Row -> Option<Row>,
    attnNorm: Row -> Option<Row>, mlpNorm: Row -> Option<Row>, mlp: Row -> Option<Row>,
    kConv: seq<Kernel>, vConv: seq<Kernel>, attnConv: seq<Kernel>, mlpConv: seq<Kernel>,
    logScale: nat -> Float)
  {
    ghost predicate Valid(hidden: nat) {
      && G.Valid()
      && Yields(q, G.QueryWidth()) && Yields(k, G.KeyWidth()) && Yields(v, G.KeyWidth())
      && Yields(r, G.RelativeWidth()) && Yields(o, hidden)
      && Yields(qNorm, G.QueryWidth()) && Yields(kNorm, G.KeyWidth())
      && Yields(attnNorm, hidden) && Yields(mlpNorm, hidden) && Yields(mlp, hidden)
      && |kConv| == |vConv| == G.KeyWidth() && |attnConv| == |mlpConv| == hidden
      && FiniteKernels(kConv) && FiniteKernels(vConv) && FiniteKernels(attnConv) && FiniteKernels(mlpConv)
    }

    /** The query scaling factor of token `t`. */
    function Tau(t: nat): Float {
      if G.window == 0 then logScale(t + 1) else ONE
    }
  }

  function Keep(x: Row): Option<Row> {
    if |x| == 1 then Some(x) else None
  }

  /** One head of one element, a window of two tokens, and convolutions that copy their input. */
  function TinyLayer(): Layer {
    var kernels := [Kernel(ZERO, ZERO, ZERO, ONE)];
    Layer(Geometry(1, 1, 1, 1, 1, 2, [ONE]), Keep, Keep, Keep, Keep, Keep, Keep, Keep, Keep, Keep, Keep,
          kernels, kernels, kernels, kernels, _ => ONE)
  }

  lemma TinyLayerIsValid()
    ensures TinyLayer().Valid(1)
  {
    assert Offset(0, 1) == 0 && Offset(1, 1) == 1;
  }

  function ZeroRow(width: nat): (r: Row)
    ensures |r| == width && AllFinite(r)
  {
    seq(width, _ => ZERO)
  }

  /** The history of a stream that has seen nothing. */
  function Zeros(width: nat): (r: seq<Row>)
    ensures |r| == 3 && Widths(r, width) && FiniteRows(r)
  {
    [ZeroRow(width), ZeroRow(width), ZeroRow(width)]
  }

  // ---------- Stages over the whole prefix ----------

  /** A per-token operation applied to every row, failing when it fails on any. */
  function MapRows(f: Row -> Option<Row>, xs: seq<Row>): (r: Option<seq<Row>>)
    ensures r.Some? ==> |r.value| == |xs|
    ensures r.Some? ==> forall width :: Yields(f, width) ==> Widths(r.value, width)
  {
    if xs == [] then Some([])
    else
      var front :- MapRows(f, xs[..|xs| - 1]);
      var y :- f(xs[|xs| - 1]);
      Some(front + [y])
  }

  /** The scaled query of token `t`, or None when the scaling overflows. */
  function MakeQuery(A: Arith, L: Layer, q: Row, r: Row, t: nat): (y: Option<Query>)
    ensures y.Some? ==> |y.value.q| == |q| && y.value.r == r && y.value.tau.Fin?
  {
    var tau := L.Tau(t);
    var scaled := seq(|q|, j requires 0 <= j < |q| => Mul(A.single, q[j], tau));
    if tau.Fin? && AllFinite(scaled) then Some(Query(scaled, r, tau)) else None
  }

  predicate QueriesFit(G: Geometry, ys: seq<Query>) {
    forall t :: 0 <= t < |ys| ==> ys[t].Fits(G)
  }

  function Queries(A: Arith, L: Layer, qs: seq<Row>, rs: seq<Row>): (r: Option<seq<Query>>)
    requires |qs| == |rs| && Widths(qs, L.G.QueryWidth()) && Widths(rs, L.G.RelativeWidth())
    ensures r.Some? ==> |r.value| == |qs| && QueriesFit(L.G, r.value)
  {
    if qs == [] then Some([])
    else
      var n := |qs| - 1;
      var front :- Queries(A, L, qs[..n], rs[..n]);
      var y :- MakeQuery(A, L, qs[n], rs[n], n);
      Some(front + [y])
  }

  /** The attention rows of the first `n` tokens, each computed against the whole prefix. */
  function HeadRows(A: Arith, G: Geometry, ys: seq<Query>, ks: seq<Row>, vs: seq<Row>, n: nat): (r: Option<seq<Row>>)
    requires G.Valid() && n <= |ys| == |ks| == |vs| && QueriesFit(G, ys)
    requires Widths(ks, G.KeyWidth()) && Widths(vs, G.KeyWidth())
    ensures r.Some? ==> |r.value| == n && Widths(r.value, G.QueryWidth())
  {
    if n == 0 then Some([])
    else
      var front :- HeadRows(A, G, ys, ks, vs, n - 1);
      var row :- FullHeads(A, G, ys[n - 1], ks, vs, n - 1, G.heads);
      Some(front + [row])
  }

  /** A residual sum of one row, which must stay finite. */
  function AddRow(A: Arith, x: Row, y: Row): (r: Option<Row>)
    requires |x| == |y|
    ensures r.Some? ==> |r.value| == |x|
  {
    var sum := seq(|x|, j requires 0 <= j < |x| => Add(A.single, x[j], y[j]));
    if AllFinite(sum) then Some(sum) else None
  }

  function AddRows(A: Arith, xs: seq<Row>, ys: seq<Row>, width: nat): (r: Option<seq<Row>>)
    requires |xs| == |ys| && Widths(xs, width) && Widths(ys, width)
    ensures r.Some? ==> |r.value| == |xs| && Widths(r.value, width)
  {
    if xs == [] then Some([])
    else
      var n := |xs| - 1;
      var front :- AddRows(A, xs[..n], ys[..n], width);
      var row :- AddRow(A, xs[n], ys[n]);
      Some(front + [row])
  }

  // ---------- The full-prefix layer ----------

  /** The projected and normalised streams of a prefix, with the convolution inputs that feed them. */
  datatype Streams = Streams(kRaw: seq<Row>, vRaw: seq<Row>, ks: seq<Row>, vs: seq<Row>, ys: seq<Query>) {
    predicate Fits(G: Geometry, n: nat) {
      && |kRaw| == |vRaw| == |ks| == |vs| == |ys| == n
      && Widths(kRaw, G.KeyWidth()) && Widths(vRaw, G.KeyWidth())
      && Widths(ks, G.KeyWidth()) && Widths(vs, G.KeyWidth()) && QueriesFit(G, ys)
      && FiniteRows(vs)
    }
  }

  ghost function ProjectAll(A: Arith, L: Layer, hidden: nat, xs: seq<Row>): (r: Option<Streams>)
    requires L.Valid(hidden)
    ensures r.Some? ==> r.value.Fits(L.G, |xs|)
  {
    var q0 :- MapRows(L.q, xs);
    var kRaw :- MapRows(L.k, xs);
    var vRaw :- MapRows(L.v, xs);
    var rs :- MapRows(L.r, xs);
    var kc :- Conv(A, L.kConv, Zeros(L.G.KeyWidth()), kRaw);
    var vs :- Conv(A, L.vConv, Zeros(L.G.KeyWidth()), vRaw);
    var qs :- MapRows(L.qNorm, q0);
    var ks :- MapRows(L.kNorm, kc);
    var ys :- Queries(A, L, qs, rs);
    Some(Streams(kRaw, vRaw, ks, vs, ys))
  }

  /** inkling_attention_forward from position 0. */
  ghost function FullAttention(A: Arith, L: Layer, hidden: nat, xs: seq<Row>): (r: Option<seq<Row>>)
    requires L.Valid(hidden)
    ensures r.Some? ==> |r.value| == |xs| && Widths(r.value, hidden)
    ensures r.Some? ==> ProjectAll(A, L, hidden, xs).Some?
  {
    var s :- ProjectAll(A, L, hidden, xs);
    var heads :- HeadRows(A, L.G, s.ys, s.ks, s.vs, |xs|);
    MapRows(L.o, heads)
  }

  /** The first half of a layer: the normed input, the attention rows before their convolution, and the
      attention residual. */
  ghost function FullPost(A: Arith, L: Layer, hidden: nat, xs: seq<Row>): (r: Option<(seq<Row>, seq<Row>, seq<Row>)>)
    requires L.Valid(hidden) && Widths(xs, hidden)
    ensures r.Some? ==> |r.value.0| == |r.value.1| == |r.value.2| == |xs|
    ensures r.Some? ==> Widths(r.value.1, hidden) && Widths(r.value.2, hidden)
    ensures r.Some? ==> FullAttention(A, L, hidden, r.value.0).Some?
  {
    var normed :- MapRows(L.attnNorm, xs);
    var attn :- FullAttention(A, L, hidden, normed);
    var convolved :- Conv(A, L.attnConv, Zeros(hidden), attn);
    var posts :- AddRows(A, xs, convolved, hidden);
    Some((normed, attn, posts))
  }

  /** The second half of a layer: the MLP rows before their convolution, and the layer's result. */
  ghost function FullMlp(A: Arith, L: Layer, hidden: nat, posts: seq<Row>): (r: Option<(seq<Row>, seq<Row>)>)
    requires L.Valid(hidden) && Widths(posts, hidden)
    ensures r.Some? ==> |r.value.0| == |r.value.1| == |posts|
    ensures r.Some? ==> Widths(r.value.0, hidden) && Widths(r.value.1, hidden)
  {
    var normed :- MapRows(L.mlpNorm, posts);
    var mlp :- MapRows(L.mlp, normed);
    var convolved :- Conv(A, L.mlpConv, Zeros(hidden), mlp);
    var out :- AddRows(A, posts, convolved, hidden);
    Some((mlp, out))
  }

  /** The stages of a layer: attention and MLP outputs before their convolutions, and the result. */
  datatype Stages = Stages(normed: seq<Row>, attn: seq<Row>, mlp: seq<Row>, out: seq<Row>)

  ghost function LayerStages(A: Arith, L: Layer, hidden: nat, xs: seq<Row>): (r: Option<Stages>)
    requires L.Valid(hidden) && Widths(xs, hidden)
    ensures r.Some? ==> |r.value.attn| == |r.value.mlp| == |r.value.out| == |xs|
    ensures r.Some? ==> Widths(r.value.attn, hidden) && Widths(r.value.mlp, hidden) && Widths(r.value.out, hidden)
    ensures r.Some? ==> ProjectAll(A, L, hidden, r.value.normed).Some? && |r.value.normed| == |xs|
  {
    var (normed, attn, posts) :- FullPost(A, L, hidden, xs);
    var (mlp, out) :- FullMlp(A, L, hidden, posts);
    Some(Stages(normed, attn, mlp, out))
  }

  /** inkling_layer_forward. */
  ghost function FullLayer(A: Arith, L: Layer, hidden: nat, xs: seq<Row>): (r: Option<seq<Row>>)
    requires L.Valid(hidden) && Widths(xs, hidden)
    ensures r.Some? ==> |r.value| == |xs| && Widths(r.value, hidden)
  {
    var s :- LayerStages(A, L, hidden, xs);
    Some(s.out)
  }

  // ---------- The incremental layer ----------

  /** InklingLayerState as a value: two rings and four convolution histories. */
  datatype LayerState = LayerState(keys: seq<Row>, values: seq<Row>, keyHistory: seq<Row>,
                                   valueHistory: seq<Row>, attnHistory: seq<Row>, mlpHistory: seq<Row>)
  {
    predicate Fits(G: Geometry, hidden: nat, capacity: nat) {
      && |keys| == |values| == capacity > 0
      && Widths(keys, G.KeyWidth()) && Widths(values, G.KeyWidth())
      && |keyHistory| == |valueHistory| == |attnHistory| == |mlpHistory| == 3
      && Widths(keyHistory, G.KeyWidth()) && Widths(valueHistory, G.KeyWidth())
      && Widths(attnHistory, hidden) && Widths(mlpHistory, hidden)
    }
  }

  /** One row through a convolution that carries its history. */
  function ConvOne(A: Arith, kernels: seq<Kernel>, history: seq<Row>, x: Row): (r: Option<Row>)
    requires |history| == 3 && Widths(history, |kernels|) && |x| == |kernels|
    ensures r.Some? ==> |r.value| == |kernels| && AllFinite(r.value)
  {
    assert Widths([x], |kernels|);
    var out :- Conv(A, kernels, history, [x]);
    Some(out[0])
  }

  function Push(history: seq<Row>, x: Row): (r: seq<Row>)
    requires |history| == 3
    ensures |r| == 3
  {
    [history[1], history[2], x]
  }

  /** What token_attention computes before it looks at the rings. */
  datatype TokenStreams = TokenStreams(kRaw: Row, vRaw: Row, k: Row, v: Row, y: Query)

  ghost function ProjectToken(A: Arith, L: Layer, hidden: nat, keyHistory: seq<Row>, valueHistory: seq<Row>, t: nat,
                              x: Row): (r: Option<TokenStreams>)
    requires L.Valid(hidden) && |keyHistory| == |valueHistory| == 3
    requires Widths(keyHistory, L.G.KeyWidth()) && Widths(valueHistory, L.G.KeyWidth())
    ensures r.Some? ==> |r.value.kRaw| == |r.value.vRaw| == |r.value.k| == |r.value.v| == L.G.KeyWidth()
    ensures r.Some? ==> r.value.y.Fits(L.G) && AllFinite(r.value.v)
  {
    var q0 :- L.q(x);
    var kRaw :- L.k(x);
    var vRaw :- L.v(x);
    var r :- L.r(x);
    var kc :- ConvOne(A, L.kConv, keyHistory, kRaw);
    var v :- ConvOne(A, L.vConv, valueHistory, vRaw);
    var q :- L.qNorm(q0);
    var k :- L.kNorm(kc);
    var y :- MakeQuery(A, L, q, r, t);
    Some(TokenStreams(kRaw, vRaw, k, v, y))
  }

  /** token_attention: write slot `t % capacity`, then attend over the rings. */
  ghost function TokenAttention(A: Arith, L: Layer, hidden: nat, st: LayerState, t: nat, x: Row)
    : (r: Option<(Row, LayerState)>)
    requires L.Valid(hidden) && st.Fits(L.G, hidden, |st.keys|)
    ensures r.Some? ==> |r.value.0| == hidden && r.value.1.Fits(L.G, hidden, |st.keys|)
    ensures r.Some? ==> r.value.1.attnHistory == st.attnHistory && r.value.1.mlpHistory == st.mlpHistory
  {
    var p :- ProjectToken(A, L, hidden, st.keyHistory, st.valueHistory, t, x);
    var slot := t % |st.keys|;
    var next := st.(keys := st.keys[slot := p.k], values := st.values[slot := p.v],
                    keyHistory := Push(st.keyHistory, p.kRaw), valueHistory := Push(st.valueHistory, p.vRaw));
    var heads :- RingHeads(A, L.G, p.y, next.keys, next.values, t, L.G.heads);
    var out :- L.o(heads);
    Some((out, next))
  }

  /** The first half of token_layer: the state without the MLP's history, and the row after the residual. */
  ghost function TokenPost(A: Arith, L: Layer, hidden: nat, st: LayerState, t: nat, x: Row)
    : (r: Option<(LayerState, Row)>)
    requires L.Valid(hidden) && st.Fits(L.G, hidden, |st.keys|) && |x| == hidden
    ensures r.Some? ==> r.value.0.Fits(L.G, hidden, |st.keys|) && |r.value.1| == hidden
    ensures r.Some? ==> r.value.0.mlpHistory == st.mlpHistory
  {
    var normed :- L.attnNorm(x);
    var (attn, next) :- TokenAttention(A, L, hidden, st, t, normed);
    var convolved :- ConvOne(A, L.attnConv, st.attnHistory, attn);
    var post :- AddRow(A, x, convolved);
    Some((next.(attnHistory := Push(st.attnHistory, attn)), post))
  }

  /** The second half of token_layer. */
  ghost function TokenMlp(A: Arith, L: Layer, hidden: nat, history: seq<Row>, post: Row): (r: Option<(Row, Row)>)
    requires L.Valid(hidden) && |history| == 3 && Widths(history, hidden) && |post| == hidden
    ensures r.Some? ==> |r.value.0| == |r.value.1| == hidden
  {
    var normed :- L.mlpNorm(post);
    var mlp :- L.mlp(normed);
    var convolved :- ConvOne(A, L.mlpConv, history, mlp);
    var out :- AddRow(A, post, convolved);
    Some((mlp, out))
  }

  /** token_layer. */
  ghost function TokenLayer(A: Arith, L: Layer, hidden: nat, st: LayerState, t: nat, x: Row)
    : (r: Option<(Row, LayerState)>)
    requires L.Valid(hidden) && st.Fits(L.G, hidden, |st.keys|) && |x| == hidden
    ensures r.Some? ==> |r.value.0| == hidden && r.value.1.Fits(L.G, hidden, |st.keys|)
  {
    var (next, post) :- TokenPost(A, L, hidden, st, t, x);
    var (mlp, out) :- TokenMlp(A, L, hidden, st.mlpHistory, post);
    Some((out, next.(mlpHistory := Push(st.mlpHistory, mlp))))
  }

  // ---------- One more token: stage by stage ----------

  lemma MapSnoc(f: Row -> Option<Row>, xs: seq<Row>, x: Row)
    ensures MapRows(f, xs + [x]).Some? <==> MapRows(f, xs).Some? && f(x).Some?
    ensures MapRows(f, xs + [x]).Some? ==>
              MapRows(f, xs + [x]).value == MapRows(f, xs).value + [f(x).value]
  {
    assert (xs + [x])[..|xs|] == xs;
  }

  lemma QueriesSnoc(A: Arith, L: Layer, qs: seq<Row>, rs: seq<Row>, q: Row, r: Row)
    requires |qs| == |rs| && Widths(qs, L.G.QueryWidth()) && Widths(rs, L.G.RelativeWidth())
    requires |q| == L.G.QueryWidth() && |r| == L.G.RelativeWidth()
    ensures var more := Queries(A, L, qs + [q], rs + [r]);
            && (more.Some? <==> Queries(A, L, qs, rs).Some? && MakeQuery(A, L, q, r, |qs|).Some?)
            && (more.Some? ==> more.value == Queries(A, L, qs, rs).value + [MakeQuery(A, L, q, r, |qs|).value])
  {
    hide MakeQuery;
    assert (qs + [q])[..|qs|] == qs && (rs + [r])[..|rs|] == rs;
  }

  lemma AddSnoc(A: Arith, xs: seq<Row>, ys: seq<Row>, x: Row, y: Row, width: nat)
    requires |xs| == |ys| && Widths(xs, width) && Widths(ys, width) && |x| == |y| == width
    ensures var more := AddRows(A, xs + [x], ys + [y], width);
            && (more.Some? <==> AddRows(A, xs, ys, width).Some? && AddRow(A, x, y).Some?)
            && (more.Some? ==> more.value == AddRows(A, xs, ys, width).value + [AddRow(A, x, y).value])
  {
    hide AddRow;
    assert (xs + [x])[..|xs|] == xs && (ys + [y])[..|ys|] == ys;
  }

  /** The convolution of one more row is the one-row convolution from the carried history. */
  lemma ConvSnoc(A: Arith, kernels: seq<Kernel>, xs: seq<Row>, x: Row)
    requires Widths(xs, |kernels|) && |x| == |kernels|
    requires Conv(A, kernels, Zeros(|kernels|), xs).Some?
    ensures Widths(xs + [x], |kernels|)
    ensures var before, more := History(Zeros(|kernels|), xs), Conv(A, kernels, Zeros(|kernels|), xs + [x]);
            && (more.Some? <==> ConvOne(A, kernels, before, x).Some?)
            && (more.Some? ==>
                  more.value == Conv(A, kernels, Zeros(|kernels|), xs).value + [ConvOne(A, kernels, before, x).value])
            && History(Zeros(|kernels|), xs + [x]) == Push(before, x)
  {
    hide Conv;
    assert Widths([x], |kernels|);
    ConvChunks(A, kernels, Zeros(|kernels|), xs, [x]);
  }

  /** Rows that were already computed do not change when the prefix grows. */
  lemma {:induction false} HeadRowsCausal(A: Arith, G: Geometry, ys: seq<Query>, ks: seq<Row>, vs: seq<Row>,
                                          ys': seq<Query>, ks': seq<Row>, vs': seq<Row>, n: nat)
    requires Lawful(A) && G.Valid() && n <= |ys| == |ks| == |vs| && QueriesFit(G, ys)
    requires |ys'| == |ks'| == |vs'| && QueriesFit(G, ys') && ys <= ys' && ks <= ks' && vs <= vs'
    requires Widths(ks, G.KeyWidth()) && Widths(vs, G.KeyWidth())
    requires Widths(ks', G.KeyWidth()) && Widths(vs', G.KeyWidth())
    ensures HeadRows(A, G, ys', ks', vs', n) == HeadRows(A, G, ys, ks, vs, n)
  {
    hide FullHeads;
    if n == 0 {
    } else {
      HeadRowsCausal(A, G, ys, ks, vs, ys', ks', vs', n - 1);
      HeadsCausal(A, G, ys[n - 1], ks, vs, ks', vs', n - 1, G.heads);
    }
  }

  // ---------- The carried state summarises the full pass ----------

  /** After `n` tokens the rings hold every position a later token can read, and the histories are the
      last three inputs of their streams. */
  ghost predicate Carried(L: Layer, hidden: nat, capacity: nat, s: Streams, n: nat, st: LayerState)
    requires L.Valid(hidden) && s.Fits(L.G, n) && capacity > 0
  {
    && st.Fits(L.G, hidden, capacity)
    && Holds(st.keys, s.ks, Start(capacity, n), n) && Holds(st.values, s.vs, Start(capacity, n), n)
    && st.keyHistory == History(Zeros(L.G.KeyWidth()), s.kRaw)
    && st.valueHistory == History(Zeros(L.G.KeyWidth()), s.vRaw)
  }

  /** The state a layer must carry after the prefix `xs`. */
  ghost predicate Summarises(A: Arith, L: Layer, hidden: nat, capacity: nat, xs: seq<Row>, st: LayerState)
    requires L.Valid(hidden) && Widths(xs, hidden)
  {
    && capacity > 0 && LayerStages(A, L, hidden, xs).Some?
    && var stages := LayerStages(A, L, hidden, xs).value;
    && Carried(L, hidden, capacity, ProjectAll(A, L, hidden, stages.normed).value, |xs|, st)
    && st.attnHistory == History(Zeros(hidden), stages.attn)
    && st.mlpHistory == History(Zeros(hidden), stages.mlp)
  }

  /** Writing slot `n % capacity` keeps every position that token `n` reads. */
  lemma RingWrite(ring: seq<Row>, rows: seq<Row>, row: Row, n: nat)
    requires |ring| > 0 && |rows| == n && Holds(ring, rows, Start(|ring|, n), n)
    ensures var written := ring[n % |ring| := row];
            && Holds(written, rows + [row], Start(|ring|, n), n + 1)
            && Holds(written, rows + [row], Start(|ring|, n + 1), n + 1)
  {
    var written, more := ring[n % |ring| := row], rows + [row];
    forall s | Start(|ring|, n) <= s < n + 1
      ensures written[s % |ring|] == more[s]
    {
      if s < n {
        if s % |ring| == n % |ring| {
          SameRemainder(s, n, |ring|);
          assert false;
        }
        assert ring[s % |ring|] == rows[s];
      }
    }
  }

  /** Projecting one more token from the carried histories extends the projected streams by one row. */
  lemma ProjectSnoc(A: Arith, L: Layer, hidden: nat, xs: seq<Row>, x: Row)
    requires L.Valid(hidden) && ProjectAll(A, L, hidden, xs).Some?
    ensures var s, width := ProjectAll(A, L, hidden, xs).value, L.G.KeyWidth();
            var one := ProjectToken(A, L, hidden, History(Zeros(width), s.kRaw), History(Zeros(width), s.vRaw),
                                    |xs|, x);
            var more := ProjectAll(A, L, hidden, xs + [x]);
            && (more.Some? <==> one.Some?)
            && (more.Some? ==>
                  more.value == Streams(s.kRaw + [one.value.kRaw], s.vRaw + [one.value.vRaw], s.ks + [one.value.k],
                                        s.vs + [one.value.v], s.ys + [one.value.y]))
            && (more.Some? ==>
                  History(Zeros(width), more.value.kRaw) == Push(History(Zeros(width), s.kRaw), one.value.kRaw) &&
                  History(Zeros(width), more.value.vRaw) == Push(History(Zeros(width), s.vRaw), one.value.vRaw))
  {
    hide MapRows, Conv, ConvOne, Queries, MakeQuery;
    var s, width := ProjectAll(A, L, hidden, xs).value, L.G.KeyWidth();
    MapSnoc(L.q, xs, x);
    MapSnoc(L.k, xs, x);
    MapSnoc(L.v, xs, x);
    MapSnoc(L.r, xs, x);
    if L.q(x).Some? && L.k(x).Some? && L.v(x).Some? && L.r(x).Some? {
      ConvSnoc(A, L.kConv, s.kRaw, L.k(x).value);
      ConvSnoc(A, L.vConv, s.vRaw, L.v(x).value);
      var kc := ConvOne(A, L.kConv, History(Zeros(width), s.kRaw), L.k(x).value);
      var v := ConvOne(A, L.vConv, History(Zeros(width), s.vRaw), L.v(x).value);
      if kc.Some? && v.Some? {
        MapSnoc(L.qNorm, MapRows(L.q, xs).value, L.q(x).value);
        MapSnoc(L.kNorm, Conv(A, L.kConv, Zeros(width), s.kRaw).value, kc.value);
        var q := L.qNorm(L.q(x).value);
        if q.Some? && L.kNorm(kc.value).Some? {
          QueriesSnoc(A, L, MapRows(L.qNorm, MapRows(L.q, xs).value).value, MapRows(L.r, xs).value, q.value,
                      L.r(x).value);
        }
      }
    }
  }

  /** One token through attention with a carried state gives the next row of the full attention. */
  lemma AttentionStep(A: Arith, L: Layer, hidden: nat, contextCapacity: nat, xs: seq<Row>, x: Row, st: LayerState)
    requires Lawful(A) && L.Valid(hidden) && |xs| < contextCapacity
    requires FullAttention(A, L, hidden, xs).Some?
    requires Carried(L, hidden, RingCapacity(L.G.window, contextCapacity), ProjectAll(A, L, hidden, xs).value, |xs|, st)
    ensures var one, more := TokenAttention(A, L, hidden, st, |xs|, x), FullAttention(A, L, hidden, xs + [x]);
            && (one.Some? <==> more.Some?)
            && (one.Some? ==> more.value == FullAttention(A, L, hidden, xs).value + [one.value.0])
            && (one.Some? ==>
                  Carried(L, hidden, RingCapacity(L.G.window, contextCapacity),
                          ProjectAll(A, L, hidden, xs + [x]).value, |xs| + 1, one.value.1))
  {
    hide ProjectAll, ProjectToken, HeadRows, FullHeads, RingHeads, MapRows;
    var s := ProjectAll(A, L, hidden, xs).value;
    ProjectSnoc(A, L, hidden, xs, x);
    var p := ProjectToken(A, L, hidden, st.keyHistory, st.valueHistory, |xs|, x);
    if p.Some? {
      RingWrite(st.keys, s.ks, p.value.k, |xs|);
      RingWrite(st.values, s.vs, p.value.v, |xs|);
      HeadsSnoc(A, L, contextCapacity, s, p.value, |xs|, st.keys, st.values);
      var heads := HeadRows(A, L.G, s.ys, s.ks, s.vs, |xs|).value;
      var slot := |xs| % |st.keys|;
      var row := RingHeads(A, L.G, p.value.y, st.keys[slot := p.value.k], st.values[slot := p.value.v], |xs|,
                           L.G.heads);
      if row.Some? {
        MapSnoc(L.o, heads, row.value);
      }
    }
  }

  lemma HeadsSnoc(A: Arith, L: Layer, contextCapacity: nat, s: Streams, p: TokenStreams, n: nat, keys: seq<Row>,
                  values: seq<Row>)
    requires Lawful(A) && L.G.Valid() && s.Fits(L.G, n) && n < contextCapacity
    requires |p.k| == |p.v| == L.G.KeyWidth() && p.y.Fits(L.G) && AllFinite(p.v)
    requires |keys| == |values| == RingCapacity(L.G.window, contextCapacity)
    requires Widths(keys, L.G.KeyWidth()) && Widths(values, L.G.KeyWidth())
    requires var slot := n % |keys|;
             && Holds(keys[slot := p.k], s.ks + [p.k], Start(|keys|, n), n + 1)
             && Holds(values[slot := p.v], s.vs + [p.v], Start(|keys|, n), n + 1)
    requires HeadRows(A, L.G, s.ys, s.ks, s.vs, n).Some?
    ensures var slot := n % |keys|;
            var row := RingHeads(A, L.G, p.y, keys[slot := p.k], values[slot := p.v], n, L.G.heads);
            var more := HeadRows(A, L.G, s.ys + [p.y], s.ks + [p.k], s.vs + [p.v], n + 1);
            && (more.Some? <==> row.Some?)
            && (more.Some? ==> more.value == HeadRows(A, L.G, s.ys, s.ks, s.vs, n).value + [row.value])
  {
    hide FullHeads, RingHeads, Holds;
    var ys, ks, vs, slot := s.ys + [p.y], s.ks + [p.k], s.vs + [p.v], n % |keys|;
    HeadRowsCausal(A, L.G, s.ys, s.ks, s.vs, ys, ks, vs, n);
    FiniteConcat(s.vs, [p.v]);
    assert FiniteRows([p.v]);
    HeadsAgree(A, L.G, p.y, ks, vs, keys[slot := p.k], values[slot := p.v], contextCapacity, n, L.G.heads);
  }

  /** The attention half of one more token. */
  lemma PostStep(A: Arith, L: Layer, hidden: nat, contextCapacity: nat, xs: seq<Row>, x: Row, st: LayerState)
    requires Lawful(A) && L.Valid(hidden) && Widths(xs, hidden) && |x| == hidden && |xs| < contextCapacity
    requires FullPost(A, L, hidden, xs).Some?
    requires var (normed, attn, posts) := FullPost(A, L, hidden, xs).value;
             && Carried(L, hidden, RingCapacity(L.G.window, contextCapacity),
                        ProjectAll(A, L, hidden, normed).value, |xs|, st)
             && st.attnHistory == History(Zeros(hidden), attn)
    ensures Widths(xs + [x], hidden)
    ensures var (normed, attn, posts) := FullPost(A, L, hidden, xs).value;
            var one, more := TokenPost(A, L, hidden, st, |xs|, x), FullPost(A, L, hidden, xs + [x]);
            && (one.Some? <==> more.Some?)
            && (one.Some? ==>
                  && more.value.2 == posts + [one.value.1]
                  && one.value.0.attnHistory == History(Zeros(hidden), more.value.1)
                  && Carried(L, hidden, RingCapacity(L.G.window, contextCapacity),
                             ProjectAll(A, L, hidden, more.value.0).value, |xs| + 1, one.value.0))
  {
    hide ProjectAll, FullAttention, TokenAttention, Conv, ConvOne, MapRows, AddRows, AddRow;
    var (normeds, attns, posts) := FullPost(A, L, hidden, xs).value;
    MapSnoc(L.attnNorm, xs, x);
    if L.attnNorm(x).Some? {
      var normed := L.attnNorm(x).value;
      AttentionStep(A, L, hidden, contextCapacity, normeds, normed, st);
      var attn := TokenAttention(A, L, hidden, st, |xs|, normed);
      if attn.Some? {
        ConvSnoc(A, L.attnConv, attns, attn.value.0);
        var convolved := ConvOne(A, L.attnConv, st.attnHistory, attn.value.0);
        if convolved.Some? {
          AddSnoc(A, xs, Conv(A, L.attnConv, Zeros(hidden), attns).value, x, convolved.value, hidden);
        }
      }
    }
  }

  lemma MlpStep(A: Arith, L: Layer, hidden: nat, posts: seq<Row>, post: Row)
    requires L.Valid(hidden) && Widths(posts, hidden) && |post| == hidden
    requires FullMlp(A, L, hidden, posts).Some?
    ensures Widths(posts + [post], hidden)
    ensures var (mlp, out) := FullMlp(A, L, hidden, posts).value;
            var before := History(Zeros(hidden), mlp);
            var one, more := TokenMlp(A, L, hidden, before, post), FullMlp(A, L, hidden, posts + [post]);
            && (one.Some? <==> more.Some?)
            && (one.Some? ==> more.value == (mlp + [one.value.0], out + [one.value.1]))
            && (one.Some? ==> History(Zeros(hidden), more.value.0) == Push(before, one.value.0))
  {
    hide Conv, ConvOne, MapRows, AddRows, AddRow;
    MapSnoc(L.mlpNorm, posts, post);
    if L.mlpNorm(post).Some? {
      var normeds, normed := MapRows(L.mlpNorm, posts).value, L.mlpNorm(post).value;
      MapSnoc(L.mlp, normeds, normed);
      if L.mlp(normed).Some? {
        var mlps, mlp := MapRows(L.mlp, normeds).value, L.mlp(normed).value;
        ConvSnoc(A, L.mlpConv, mlps, mlp);
        var convolved := ConvOne(A, L.mlpConv, History(Zeros(hidden), mlps), mlp);
        if convolved.Some? {
          AddSnoc(A, posts, Conv(A, L.mlpConv, Zeros(hidden), mlps).value, post, convolved.value, hidden);
        }
      }
    }
  }

  /** One token through a layer with a carried state: it succeeds exactly when the full layer succeeds on
      the longer prefix, gives its last row, and leaves the state that summarises the longer prefix. */
  lemma LayerStep(A: Arith, L: Layer, hidden: nat, contextCapacity: nat, xs: seq<Row>, x: Row, st: LayerState)
    requires Lawful(A) && L.Valid(hidden) && Widths(xs, hidden) && |x| == hidden && |xs| < contextCapacity
    requires Summarises(A, L, hidden, RingCapacity(L.G.window, contextCapacity), xs, st)
    ensures Widths(xs + [x], hidden)
    ensures var one, more := TokenLayer(A, L, hidden, st, |xs|, x), FullLayer(A, L, hidden, xs + [x]);
            && (one.Some? <==> more.Some?)
            && (one.Some? ==> more.value == FullLayer(A, L, hidden, xs).value + [one.value.0])
            && (one.Some? ==>
                  Summarises(A, L, hidden, RingCapacity(L.G.window, contextCapacity), xs + [x], one.value.1))
  {
    hide Lawful, Yields, ProjectAll, FullPost, TokenPost, FullMlp, TokenMlp, Holds;
    PostStep(A, L, hidden, contextCapacity, xs, x, st);
    var post := TokenPost(A, L, hidden, st, |xs|, x);
    if post.Some? {
      MlpStep(A, L, hidden, FullPost(A, L, hidden, xs).value.2, post.value.1);
    }
  }

  // ---------- Causality of the full layer ----------

  function Front<T>(s: seq<T>): (r: seq<T>)
    requires s != []
    ensures |r| == |s| - 1
  {
    s[..|s| - 1]
  }

  lemma ConvFront(A: Arith, kernels: seq<Kernel>, history: seq<Row>, xs: seq<Row>)
    requires |history| == 3 && Widths(history, |kernels|) && Widths(xs, |kernels|) && xs != []
    requires Conv(A, kernels, history, xs).Some?
    ensures Widths(Front(xs), |kernels|)
    ensures Conv(A, kernels, history, Front(xs)) == Some(Front(Conv(A, kernels, history, xs).value))
  {
    hide Conv;
    var last := [xs[|xs| - 1]];
    assert xs == Front(xs) + last;
    ConvChunks(A, kernels, history, Front(xs), last);
  }

  lemma HeadRowsFewer(A: Arith, G: Geometry, ys: seq<Query>, ks: seq<Row>, vs: seq<Row>, n: nat)
    requires G.Valid() && 0 < n <= |ys| == |ks| == |vs| && QueriesFit(G, ys)
    requires Widths(ks, G.KeyWidth()) && Widths(vs, G.KeyWidth())
    requires HeadRows(A, G, ys, ks, vs, n).Some?
    ensures HeadRows(A, G, ys, ks, vs, n - 1) == Some(Front(HeadRows(A, G, ys, ks, vs, n).value))
  {
    hide FullHeads;
  }

  lemma HeadRowsFront(A: Arith, G: Geometry, ys: seq<Query>, ks: seq<Row>, vs: seq<Row>)
    requires Lawful(A) && G.Valid() && |ys| == |ks| == |vs| > 0 && QueriesFit(G, ys)
    requires Widths(ks, G.KeyWidth()) && Widths(vs, G.KeyWidth())
    requires HeadRows(A, G, ys, ks, vs, |ys|).Some?
    ensures HeadRows(A, G, Front(ys), Front(ks), Front(vs), |ys| - 1) ==
            Some(Front(HeadRows(A, G, ys, ks, vs, |ys|).value))
  {
    hide FullHeads, HeadRows, Lawful;
    HeadRowsFewer(A, G, ys, ks, vs, |ys|);
    HeadRowsCausal(A, G, Front(ys), Front(ks), Front(vs), ys, ks, vs, |ys| - 1);
  }

  lemma ProjectFront(A: Arith, L: Layer, hidden: nat, xs: seq<Row>)
    requires L.Valid(hidden) && xs != [] && ProjectAll(A, L, hidden, xs).Some?
    ensures var s := ProjectAll(A, L, hidden, xs).value;
            ProjectAll(A, L, hidden, Front(xs)) ==
            Some(Streams(Front(s.kRaw), Front(s.vRaw), Front(s.ks), Front(s.vs), Front(s.ys)))
  {
    hide Conv, MapRows, Queries;
    var width := L.G.KeyWidth();
    var q0, kRaw, vRaw, rs := MapRows(L.q, xs).value, MapRows(L.k, xs).value, MapRows(L.v, xs).value,
                              MapRows(L.r, xs).value;
    MapFront(L.q, xs);
    MapFront(L.k, xs);
    MapFront(L.v, xs);
    MapFront(L.r, xs);
    ConvFront(A, L.kConv, Zeros(width), kRaw);
    ConvFront(A, L.vConv, Zeros(width), vRaw);
    MapFront(L.qNorm, q0);
    MapFront(L.kNorm, Conv(A, L.kConv, Zeros(width), kRaw).value);
    QueriesFront(A, L, MapRows(L.qNorm, q0).value, rs);
  }

  lemma MapFront(f: Row -> Option<Row>, xs: seq<Row>)
    requires xs != [] && MapRows(f, xs).Some?
    ensures MapRows(f, Front(xs)) == Some(Front(MapRows(f, xs).value))
  {
  }

  lemma AddFront(A: Arith, xs: seq<Row>, ys: seq<Row>, width: nat)
    requires |xs| == |ys| > 0 && Widths(xs, width) && Widths(ys, width) && AddRows(A, xs, ys, width).Some?
    ensures AddRows(A, Front(xs), Front(ys), width) == Some(Front(AddRows(A, xs, ys, width).value))
  {
    hide AddRow;
  }

  lemma QueriesFront(A: Arith, L: Layer, qs: seq<Row>, rs: seq<Row>)
    requires |qs| == |rs| > 0 && Widths(qs, L.G.QueryWidth()) && Widths(rs, L.G.RelativeWidth())
    requires Queries(A, L, qs, rs).Some?
    ensures Queries(A, L, Front(qs), Front(rs)) == Some(Front(Queries(A, L, qs, rs).value))
  {
    hide MakeQuery;
  }

  lemma AttentionFront(A: Arith, L: Layer, hidden: nat, xs: seq<Row>)
    requires Lawful(A) && L.Valid(hidden) && xs != [] && FullAttention(A, L, hidden, xs).Some?
    ensures FullAttention(A, L, hidden, Front(xs)) == Some(Front(FullAttention(A, L, hidden, xs).value))
  {
    hide ProjectAll, HeadRows;
    ProjectFront(A, L, hidden, xs);
    var s := ProjectAll(A, L, hidden, xs).value;
    HeadRowsFront(A, L.G, s.ys, s.ks, s.vs);
  }

  /** Causality: the rows of a shorter prefix are the first rows of the longer one. */
  lemma LayerFront(A: Arith, L: Layer, hidden: nat, xs: seq<Row>)
    requires Lawful(A) && L.Valid(hidden) && Widths(xs, hidden) && xs != []
    requires FullLayer(A, L, hidden, xs).Some?
    ensures Widths(Front(xs), hidden)
    ensures FullLayer(A, L, hidden, Front(xs)) == Some(Front(FullLayer(A, L, hidden, xs).value))
  {
    hide FullPost, FullMlp;
    PostFront(A, L, hidden, xs);
    MlpFront(A, L, hidden, FullPost(A, L, hidden, xs).value.2);
  }

  lemma PostFront(A: Arith, L: Layer, hidden: nat, xs: seq<Row>)
    requires Lawful(A) && L.Valid(hidden) && Widths(xs, hidden) && xs != [] && FullPost(A, L, hidden, xs).Some?
    ensures Widths(Front(xs), hidden)
    ensures var (normed, attn, posts) := FullPost(A, L, hidden, xs).value;
            FullPost(A, L, hidden, Front(xs)) == Some((Front(normed), Front(attn), Front(posts)))
  {
    hide FullAttention, Conv, MapRows, AddRows;
    var normed := MapRows(L.attnNorm, xs).value;
    var attn := FullAttention(A, L, hidden, normed).value;
    MapFront(L.attnNorm, xs);
    AttentionFront(A, L, hidden, normed);
    ConvFront(A, L.attnConv, Zeros(hidden), attn);
    AddFront(A, xs, Conv(A, L.attnConv, Zeros(hidden), attn).value, hidden);
  }

  lemma MlpFront(A: Arith, L: Layer, hidden: nat, posts: seq<Row>)
    requires L.Valid(hidden) && Widths(posts, hidden) && posts != [] && FullMlp(A, L, hidden, posts).Some?
    ensures Widths(Front(posts), hidden)
    ensures var (mlp, out) := FullMlp(A, L, hidden, posts).value;
            FullMlp(A, L, hidden, Front(posts)) == Some((Front(mlp), Front(out)))
  {
    hide Conv, AddRow;
    ConvFront(A, L.mlpConv, Zeros(hidden), FullMlp(A, L, hidden, posts).value.0);
  }
}
