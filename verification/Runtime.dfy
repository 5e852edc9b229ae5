/** The runtime context: the buffers the C code updates in place, and the loops that update them.

    Every method is proved against the functions of `Layer`, `Forward` and `Sequence`; the public calls are
    proved to be steps of the state machine of `Sequence`.
*/
module Runtime {
  import opened Wrappers
  import opened Arithmetic
  import opened Carrier
  import opened ShortConv
  import opened Attention
  import opened Layer
  import opened Forward
  import opened Sequence
  import opened Counters
  import Softmax

  /** InklingLayerState: two ring buffers of rows and four carried histories. */
  class LayerBuffers {
    const capacity: nat
    const keys: array<Row>
    const values: array<Row>
    var keyHistory: seq<Row>
    var valueHistory: seq<Row>
    var attnHistory: seq<Row>
    var mlpHistory: seq<Row>

    function Own(): set<object> {
      {this, keys, values}
    }

    ghost function View(): LayerState
      reads this, keys, values
    {
      LayerState(keys[..], values[..], keyHistory, valueHistory, attnHistory, mlpHistory)
    }

    ghost predicate Valid(G: Geometry, hidden: nat)
      reads this, keys, values
    {
      keys != values && keys.Length == values.Length == capacity && View().Fits(G, hidden, capacity)
    }

    /** One layer of sequence_create.  The rings start out arbitrary; here they hold zero rows. */
    constructor (G: Geometry, hidden: nat, ringCapacity: nat)
      requires ringCapacity > 0
      ensures Valid(G, hidden) && capacity == ringCapacity && fresh(Own())
      ensures keyHistory == valueHistory == Zeros(G.KeyWidth()) && attnHistory == mlpHistory == Zeros(hidden)
    {
      capacity := ringCapacity;
      keys := new Row[ringCapacity](_ => ZeroRow(G.KeyWidth()));
      values := new Row[ringCapacity](_ => ZeroRow(G.KeyWidth()));
      keyHistory, valueHistory := Zeros(G.KeyWidth()), Zeros(G.KeyWidth());
      attnHistory, mlpHistory := Zeros(hidden), Zeros(hidden);
    }

    /** The part of inkling_context_reset that concerns one layer. */
    method Clear(L: Layer, hidden: nat)
      modifies this
      ensures View() == ClearState(L, hidden, old(View()))
      ensures old(Valid(L.G, hidden)) ==> Valid(L.G, hidden)
    {
      keyHistory, valueHistory := Zeros(L.G.KeyWidth()), Zeros(L.G.KeyWidth());
      attnHistory, mlpHistory := Zeros(hidden), Zeros(hidden);
    }
  }

  // ---------- Attention loops over the score and bias buffers ----------

  /** The biases written so far are those of the distances `t - s`. */
  ghost predicate BiasWritten(A: Arith, G: Geometry, y: Query, h: nat, t: nat, bias: Row, n: nat)
    requires G.Valid() && y.Fits(G) && h < G.heads && n <= |bias|
  {
    forall s :: 0 <= s < n ==> bias[s] == (if s <= t then Bias(A, G, y, h, t - s) else ZERO)
  }

  /** The two finiteness checks on the bias buffer and the scaling between them. */
  method ScaleBias(A: Arith, G: Geometry, y: Query, h: nat, t: nat, bias: array<Float>, n: nat) returns (ok: bool)
    requires Lawful(A) && G.Valid() && y.Fits(G) && h < G.heads && t < n <= bias.Length
    requires BiasWritten(A, G, y, h, t, bias[..], n)
    modifies bias
    ensures ok <==> BiasesFinite(A, G, y, h, t)
  {
    hide Bias, Mul;
    ghost var written := bias[..];
    var finite := FinitePrefix(bias, n);
    if !finite {
      assert exists s :: 0 <= s < n && !written[..n][s].Fin?;
      BiasNotFinite(A, G, y, h, t, written, n);
      return false;
    }
    for s := 0 to n
      invariant forall i :: 0 <= i < s ==> bias[i] == Mul(A.single, written[i], y.tau)
      invariant forall i :: s <= i < n ==> bias[i] == written[i]
    {
      bias[s] := Mul(A.single, bias[s], y.tau);
    }
    ok := FinitePrefix(bias, n);
    ScaledBiases(A, G, y, h, t, written, bias[..], n);
  }

  lemma BiasNotFinite(A: Arith, G: Geometry, y: Query, h: nat, t: nat, bias: Row, n: nat)
    requires G.Valid() && y.Fits(G) && h < G.heads && n <= |bias|
    requires BiasWritten(A, G, y, h, t, bias, n) && !AllFinite(bias[..n])
    ensures !BiasesFinite(A, G, y, h, t)
  {
    hide Bias, Mul;
    var s :| 0 <= s < n && !bias[..n][s].Fin?;
    assert s <= t && 0 <= t - s <= t;
    assert !Bias(A, G, y, h, t - s).Fin?;
  }

  lemma ScaledBiases(A: Arith, G: Geometry, y: Query, h: nat, t: nat, bias: Row, scaled: Row, n: nat)
    requires Lawful(A) && G.Valid() && y.Fits(G) && h < G.heads && t < n <= |bias| == |scaled|
    requires BiasWritten(A, G, y, h, t, bias, n) && AllFinite(bias[..n])
    requires forall s :: 0 <= s < n ==> scaled[s] == Mul(A.single, bias[s], y.tau)
    ensures AllFinite(scaled[..n]) <==> BiasesFinite(A, G, y, h, t)
  {
    hide Bias;
    if AllFinite(scaled[..n]) {
      forall gap | 0 <= gap <= t
        ensures Bias(A, G, y, h, gap).Fin? && Mul(A.single, Bias(A, G, y, h, gap), y.tau).Fin?
      {
        var s := t - gap;
        assert bias[..n][s].Fin? && scaled[..n][s].Fin?;
      }
    }
    if BiasesFinite(A, G, y, h, t) {
      forall s | 0 <= s < n
        ensures scaled[s].Fin?
      {
        if s <= t {
          var gap := t - s;
          assert 0 <= gap <= t;
          assert Mul(A.single, Bias(A, G, y, h, gap), y.tau).Fin?;
        } else {
          assert 0.0 * y.tau.v == 0.0;
        }
      }
    }
  }

  /** The score loop of inkling_attention_forward: every token of the prefix, masks included. */
  method FullScoresInto(A: Arith, G: Geometry, y: Query, h: nat, ks: seq<Row>, t: nat, scores: array<Float>,
                        bias: array<Float>)
    requires G.Valid() && y.Fits(G) && h < G.heads && Widths(ks, G.KeyWidth()) && t < |ks|
    requires |ks| <= scores.Length && |ks| <= bias.Length && scores != bias
    modifies scores, bias
    ensures scores[..|ks|] == FullScores(A, G, y, h, ks, t)
    ensures BiasWritten(A, G, y, h, t, bias[..], |ks|)
  {
    hide Bias, Score;
    for s := 0 to |ks|
      invariant BiasWritten(A, G, y, h, t, bias[..], s)
      invariant forall i :: 0 <= i < s ==> scores[i] == FullScore(A, G, y, h, ks, t, i)
    {
      ghost var before := bias[..];
      bias[s] := if s <= t then Bias(A, G, y, h, t - s) else ZERO;
      assert bias[..] == before[s := bias[s]];
      if Masked(G, t, s) {
        scores[s] := NegInf;
        continue;
      }
      scores[s] := Score(A, G, y, h, ks[s], t - s);
    }
  }

  /** The score loop of token_attention: past tokens only, keys read from the ring. */
  method RingScoresInto(A: Arith, G: Geometry, y: Query, h: nat, keys: array<Row>, t: nat, scores: array<Float>,
                        bias: array<Float>)
    requires G.Valid() && y.Fits(G) && h < G.heads && Widths(keys[..], G.KeyWidth()) && keys.Length > 0
    requires t < scores.Length && t < bias.Length && scores != bias
    modifies scores, bias
    ensures scores[..t + 1] == RingScores(A, G, y, h, keys[..], t)
    ensures BiasWritten(A, G, y, h, t, bias[..], t + 1)
  {
    hide Bias, Score;
    var start := Start(keys.Length, t);
    for s := 0 to t + 1
      invariant BiasWritten(A, G, y, h, t, bias[..], s)
      invariant forall i :: 0 <= i < s ==> scores[i] == RingScore(A, G, y, h, keys[..], t, i)
    {
      ghost var before := bias[..];
      bias[s] := Bias(A, G, y, h, t - s);
      assert bias[..] == before[s := bias[s]];
      if s < start {
        scores[s] := NegInf;
        continue;
      }
      var key := keys[s % keys.Length];
      assert key == keys[..][s % keys.Length];
      scores[s] := Score(A, G, y, h, key, t - s);
    }
  }

  /** One head of one token of the full-prefix attention. */
  method FullHeadInto(A: Arith, G: Geometry, y: Query, h: nat, ks: seq<Row>, vs: seq<Row>, t: nat,
                      scores: array<Float>, bias: array<Float>) returns (r: Option<Row>)
    requires Lawful(A) && G.Valid() && y.Fits(G) && h < G.heads && t < |ks| == |vs|
    requires Widths(ks, G.KeyWidth()) && Widths(vs, G.KeyWidth())
    requires |ks| <= scores.Length && |ks| <= bias.Length && scores != bias
    modifies scores, bias
    ensures r == FullHead(A, G, y, h, ks, vs, t)
  {
    hide BiasesFinite, FullScores, WeightedSum, Softmax.Softmax;
    var n := |ks|;
    FullScoresInto(A, G, y, h, ks, t, scores, bias);
    var ok := ScaleBias(A, G, y, h, t, bias, n);
    if !ok {
      return None;
    }
    ok := Softmax.SoftmaxInto(A, scores, n, scores);
    if !ok {
      return None;
    }
    var p := scores[..n];
    RowFits(G.KvHead(h), G.kvHeads, G.dim);
    r := Some(seq(G.dim, j requires 0 <= j < G.dim => WeightedSum(A, p, vs, Offset(G.KvHead(h), G.dim) + j, 0, t + 1)));
  }

  /** One head of one token of the incremental attention. */
  method RingHeadInto(A: Arith, G: Geometry, y: Query, h: nat, keys: array<Row>, values: array<Row>, t: nat,
                      scores: array<Float>, bias: array<Float>) returns (r: Option<Row>)
    requires Lawful(A) && G.Valid() && y.Fits(G) && h < G.heads
    requires 0 < keys.Length == values.Length
    requires Widths(keys[..], G.KeyWidth()) && Widths(values[..], G.KeyWidth())
    requires t < scores.Length && t < bias.Length && scores != bias
    modifies scores, bias
    ensures r == RingHead(A, G, y, h, keys[..], values[..], t)
  {
    hide BiasesFinite, RingScores, RingSum, Softmax.Softmax;
    RingScoresInto(A, G, y, h, keys, t, scores, bias);
    var ok := ScaleBias(A, G, y, h, t, bias, t + 1);
    if !ok {
      return None;
    }
    ok := Softmax.SoftmaxInto(A, scores, t + 1, scores);
    if !ok {
      return None;
    }
    var p, ring, start := scores[..t + 1], values[..], Start(keys.Length, t);
    RowFits(G.KvHead(h), G.kvHeads, G.dim);
    r := Some(seq(G.dim, j requires 0 <= j < G.dim =>
      RingSum(A, p, ring, Offset(G.KvHead(h), G.dim) + j, start, t + 1)));
  }

  /** The attention row of one token of the prefix. */
  method FullRow(A: Arith, G: Geometry, y: Query, ks: seq<Row>, vs: seq<Row>, t: nat, scores: array<Float>,
                 bias: array<Float>) returns (r: Option<Row>)
    requires Lawful(A) && G.Valid() && y.Fits(G) && t < |ks| == |vs|
    requires Widths(ks, G.KeyWidth()) && Widths(vs, G.KeyWidth())
    requires |ks| <= scores.Length && |ks| <= bias.Length && scores != bias
    modifies scores, bias
    ensures r == FullHeads(A, G, y, ks, vs, t, G.heads)
  {
    hide FullHead;
    var heads: Row := [];
    for h := 0 to G.heads
      invariant FullHeads(A, G, y, ks, vs, t, h) == Some(heads)
    {
      var head := FullHeadInto(A, G, y, h, ks, vs, t, scores, bias);
      if head.None? {
        HeadsFail(A, G, y, ks, vs, t, h + 1);
        return None;
      }
      heads := heads + head.value;
    }
    r := Some(heads);
  }

  lemma {:induction false} HeadsFail(A: Arith, G: Geometry, y: Query, ks: seq<Row>, vs: seq<Row>, t: nat, n: nat)
    requires G.Valid() && y.Fits(G) && t < |ks| == |vs| && n <= G.heads
    requires Widths(ks, G.KeyWidth()) && Widths(vs, G.KeyWidth())
    requires FullHeads(A, G, y, ks, vs, t, n).None?
    ensures FullHeads(A, G, y, ks, vs, t, G.heads).None?
    decreases G.heads - n
  {
    hide FullHead;
    if n < G.heads {
      HeadsFail(A, G, y, ks, vs, t, n + 1);
    }
  }

  /** The attention row of one token read from the rings. */
  method RingRow(A: Arith, G: Geometry, y: Query, keys: array<Row>, values: array<Row>, t: nat, scores: array<Float>,
                 bias: array<Float>) returns (r: Option<Row>)
    requires Lawful(A) && G.Valid() && y.Fits(G) && 0 < keys.Length == values.Length
    requires Widths(keys[..], G.KeyWidth()) && Widths(values[..], G.KeyWidth())
    requires t < scores.Length && t < bias.Length && scores != bias
    modifies scores, bias
    ensures r == RingHeads(A, G, y, keys[..], values[..], t, G.heads)
  {
    hide RingHead;
    var heads: Row := [];
    for h := 0 to G.heads
      invariant RingHeads(A, G, y, keys[..], values[..], t, h) == Some(heads)
    {
      var head := RingHeadInto(A, G, y, h, keys, values, t, scores, bias);
      if head.None? {
        RingHeadsFail(A, G, y, keys[..], values[..], t, h + 1);
        return None;
      }
      heads := heads + head.value;
    }
    r := Some(heads);
  }

  lemma {:induction false} RingHeadsFail(A: Arith, G: Geometry, y: Query, keys: seq<Row>, values: seq<Row>, t: nat,
                                         n: nat)
    requires G.Valid() && y.Fits(G) && 0 < |keys| == |values| && n <= G.heads
    requires Widths(keys, G.KeyWidth()) && Widths(values, G.KeyWidth())
    requires RingHeads(A, G, y, keys, values, t, n).None?
    ensures RingHeads(A, G, y, keys, values, t, G.heads).None?
    decreases G.heads - n
  {
    hide RingHead;
    if n < G.heads {
      RingHeadsFail(A, G, y, keys, values, t, n + 1);
    }
  }

  // ---------- Faults ----------

  /** Where a call may be hit: reading an embedding, or a stage of a layer that reads weights or allocates. */
  datatype Site =
    | Embedding | AttnNorm | Query | Key | Value | Relative | QueryNorm | KeyNorm | Output | MlpNorm | Experts | Logits

  /** The faults of one call, by token, layer and site.  They need not come again in the next call. */
  datatype Faults = Faults(hits: (nat, nat, Site) -> bool) {
    ghost predicate None() {
      forall t: nat, l: nat, site: Site :: !hits(t, l, site)
    }
  }

  /** The result is the specified one, or nothing because of a fault. */
  ghost predicate Delivers<T>(r: Option<T>, spec: Option<T>, faults: Faults) {
    r == spec || (r.None? && !faults.None())
  }

  /** A stage for one token. */
  method StageOne(f: Row -> Option<Row>, x: Row, faults: Faults, t: nat, l: nat, site: Site) returns (r: Option<Row>)
    ensures Delivers(r, f(x), faults)
  {
    r := if faults.hits(t, l, site) then None else f(x);
  }

  // ---------- Stages of the full pass ----------

  method MapStage(f: Row -> Option<Row>, xs: seq<Row>, faults: Faults, l: nat, site: Site) returns (r: Option<seq<Row>>)
    ensures Delivers(r, MapRows(f, xs), faults)
  {
    var out: seq<Row> := [];
    for t := 0 to |xs|
      invariant MapRows(f, xs[..t]) == Some(out)
    {
      assert xs[..t + 1][..t] == xs[..t];
      var y := StageOne(f, xs[t], faults, t, l, site);
      if y.None? {
        if f(xs[t]).None? {
          MapFails(f, xs, t + 1);
        }
        return None;
      }
      out := out + [y.value];
    }
    assert xs[..|xs|] == xs;
    r := Some(out);
  }

  lemma {:induction false} MapFails(f: Row -> Option<Row>, xs: seq<Row>, n: nat)
    requires n <= |xs| && MapRows(f, xs[..n]).None?
    ensures MapRows(f, xs).None?
    decreases |xs| - n
  {
    if n == |xs| {
      assert xs[..n] == xs;
    } else {
      assert xs[..n + 1][..n] == xs[..n];
      MapFails(f, xs, n + 1);
    }
  }

  method QueryStage(A: Arith, L: Layer, qs: seq<Row>, rs: seq<Row>) returns (r: Option<seq<Query>>)
    requires |qs| == |rs| && Widths(qs, L.G.QueryWidth()) && Widths(rs, L.G.RelativeWidth())
    ensures r == Queries(A, L, qs, rs)
  {
    hide MakeQuery;
    var out: seq<Query> := [];
    for t := 0 to |qs|
      invariant Queries(A, L, qs[..t], rs[..t]) == Some(out)
    {
      assert qs[..t + 1][..t] == qs[..t] && rs[..t + 1][..t] == rs[..t];
      var y := MakeQuery(A, L, qs[t], rs[t], t);
      if y.None? {
        QueriesFail(A, L, qs, rs, t + 1);
        return None;
      }
      out := out + [y.value];
    }
    assert qs[..|qs|] == qs && rs[..|rs|] == rs;
    r := Some(out);
  }

  lemma {:induction false} QueriesFail(A: Arith, L: Layer, qs: seq<Row>, rs: seq<Row>, n: nat)
    requires n <= |qs| == |rs| && Widths(qs, L.G.QueryWidth()) && Widths(rs, L.G.RelativeWidth())
    requires Queries(A, L, qs[..n], rs[..n]).None?
    ensures Queries(A, L, qs, rs).None?
    decreases |qs| - n
  {
    hide MakeQuery;
    if n == |qs| {
      assert qs[..n] == qs && rs[..n] == rs;
    } else {
      assert qs[..n + 1][..n] == qs[..n] && rs[..n + 1][..n] == rs[..n];
      QueriesFail(A, L, qs, rs, n + 1);
    }
  }

  method AddStage(A: Arith, xs: seq<Row>, ys: seq<Row>, width: nat) returns (r: Option<seq<Row>>)
    requires |xs| == |ys| && Widths(xs, width) && Widths(ys, width)
    ensures r == AddRows(A, xs, ys, width)
  {
    hide AddRow;
    var out: seq<Row> := [];
    for t := 0 to |xs|
      invariant AddRows(A, xs[..t], ys[..t], width) == Some(out)
    {
      assert xs[..t + 1][..t] == xs[..t] && ys[..t + 1][..t] == ys[..t];
      var y := AddRow(A, xs[t], ys[t]);
      if y.None? {
        AddFails(A, xs, ys, width, t + 1);
        return None;
      }
      out := out + [y.value];
    }
    assert xs[..|xs|] == xs && ys[..|ys|] == ys;
    r := Some(out);
  }

  lemma {:induction false} AddFails(A: Arith, xs: seq<Row>, ys: seq<Row>, width: nat, n: nat)
    requires n <= |xs| == |ys| && Widths(xs, width) && Widths(ys, width)
    requires AddRows(A, xs[..n], ys[..n], width).None?
    ensures AddRows(A, xs, ys, width).None?
    decreases |xs| - n
  {
    hide AddRow;
    if n == |xs| {
      assert xs[..n] == xs && ys[..n] == ys;
    } else {
      assert xs[..n + 1][..n] == xs[..n] && ys[..n + 1][..n] == ys[..n];
      AddFails(A, xs, ys, width, n + 1);
    }
  }

  method HeadStage(A: Arith, G: Geometry, ys: seq<Query>, ks: seq<Row>, vs: seq<Row>, scores: array<Float>,
                   bias: array<Float>) returns (r: Option<seq<Row>>)
    requires Lawful(A) && G.Valid() && |ys| == |ks| == |vs| && QueriesFit(G, ys)
    requires Widths(ks, G.KeyWidth()) && Widths(vs, G.KeyWidth())
    requires |ks| <= scores.Length && |ks| <= bias.Length && scores != bias
    modifies scores, bias
    ensures r == HeadRows(A, G, ys, ks, vs, |ys|)
  {
    hide FullHeads;
    var out: seq<Row> := [];
    for t := 0 to |ys|
      invariant HeadRows(A, G, ys, ks, vs, t) == Some(out)
    {
      var row := FullRow(A, G, ys[t], ks, vs, t, scores, bias);
      if row.None? {
        HeadRowsFail(A, G, ys, ks, vs, t + 1);
        return None;
      }
      out := out + [row.value];
    }
    r := Some(out);
  }

  lemma {:induction false} HeadRowsFail(A: Arith, G: Geometry, ys: seq<Query>, ks: seq<Row>, vs: seq<Row>, n: nat)
    requires G.Valid() && n <= |ys| == |ks| == |vs| && QueriesFit(G, ys)
    requires Widths(ks, G.KeyWidth()) && Widths(vs, G.KeyWidth())
    requires HeadRows(A, G, ys, ks, vs, n).None?
    ensures HeadRows(A, G, ys, ks, vs, |ys|).None?
    decreases |ys| - n
  {
    hide FullHeads;
    if n < |ys| {
      HeadRowsFail(A, G, ys, ks, vs, n + 1);
    }
  }

  /** inkling_attention_forward from position 0. */
  method AttentionForward(A: Arith, L: Layer, hidden: nat, xs: seq<Row>, scores: array<Float>, bias: array<Float>,
                          faults: Faults, l: nat)
    returns (r: Option<seq<Row>>)
    requires Lawful(A) && L.Valid(hidden) && |xs| <= scores.Length && |xs| <= bias.Length && scores != bias
    modifies scores, bias
    ensures Delivers(r, FullAttention(A, L, hidden, xs), faults)
  {
    hide MapRows, Conv, Queries, HeadRows;
    hide Faults.None;
    var width := L.G.KeyWidth();
    var q0 := MapStage(L.q, xs, faults, l, Site.Query);
    var kRaw := MapStage(L.k, xs, faults, l, Key);
    var vRaw := MapStage(L.v, xs, faults, l, Value);
    var rs := MapStage(L.r, xs, faults, l, Relative);
    if q0.None? || kRaw.None? || vRaw.None? || rs.None? {
      return None;
    }
    var kc, vs := Conv(A, L.kConv, Zeros(width), kRaw.value), Conv(A, L.vConv, Zeros(width), vRaw.value);
    if kc.None? || vs.None? {
      return None;
    }
    var qs := MapStage(L.qNorm, q0.value, faults, l, QueryNorm);
    var ks := MapStage(L.kNorm, kc.value, faults, l, KeyNorm);
    if qs.None? || ks.None? {
      return None;
    }
    var ys := QueryStage(A, L, qs.value, rs.value);
    if ys.None? {
      return None;
    }
    var heads := HeadStage(A, L.G, ys.value, ks.value, vs.value, scores, bias);
    if heads.None? {
      return None;
    }
    r := MapStage(L.o, heads.value, faults, l, Output);
  }

  /** inkling_layer_forward. */
  method LayerForward(A: Arith, L: Layer, hidden: nat, xs: seq<Row>, scores: array<Float>, bias: array<Float>,
                      faults: Faults, l: nat)
    returns (r: Option<seq<Row>>)
    requires Lawful(A) && L.Valid(hidden) && Widths(xs, hidden)
    requires |xs| <= scores.Length && |xs| <= bias.Length && scores != bias
    modifies scores, bias
    ensures Delivers(r, FullLayer(A, L, hidden, xs), faults)
  {
    hide Faults.None;
    hide MapRows, Conv, FullAttention, AddRows;
    var normed := MapStage(L.attnNorm, xs, faults, l, AttnNorm);
    if normed.None? {
      return None;
    }
    var attn := AttentionForward(A, L, hidden, normed.value, scores, bias, faults, l);
    if attn.None? {
      return None;
    }
    var convolved := Conv(A, L.attnConv, Zeros(hidden), attn.value);
    if convolved.None? {
      return None;
    }
    var posts := AddStage(A, xs, convolved.value, hidden);
    if posts.None? {
      return None;
    }
    r := MlpForward(A, L, hidden, posts.value, faults, l);
  }

  /** The MLP half of inkling_layer_forward. */
  method MlpForward(A: Arith, L: Layer, hidden: nat, posts: seq<Row>, faults: Faults, l: nat)
    returns (r: Option<seq<Row>>)
    requires L.Valid(hidden) && Widths(posts, hidden)
    ensures r.Some? ==> FullMlp(A, L, hidden, posts).Some? && r.value == FullMlp(A, L, hidden, posts).value.1
    ensures r.None? ==> FullMlp(A, L, hidden, posts).None? || !faults.None()
  {
    hide Faults.None;
    hide MapRows, Conv, AddRows;
    var normed := MapStage(L.mlpNorm, posts, faults, l, MlpNorm);
    if normed.None? {
      return None;
    }
    var mlp := MapStage(L.mlp, normed.value, faults, l, Experts);
    if mlp.None? {
      return None;
    }
    var convolved := Conv(A, L.mlpConv, Zeros(hidden), mlp.value);
    if convolved.None? {
      return None;
    }
    r := AddStage(A, posts, convolved.value, hidden);
  }

  // ---------- One token through one layer ----------

  /** The projections and convolutions of token_attention: both histories move on. */
  method ProjectOne(A: Arith, L: Layer, hidden: nat, b: LayerBuffers, t: nat, x: Row, faults: Faults, l: nat)
    returns (ok: bool, q: Row, k: Row, v: Row, rel: Row, ghost kRaw: Row, ghost vRaw: Row)
    requires L.Valid(hidden) && b.Valid(L.G, hidden)
    modifies b`keyHistory, b`valueHistory
    ensures b.Valid(L.G, hidden)
    ensures !ok ==> ProjectToken(A, L, hidden, old(b.keyHistory), old(b.valueHistory), t, x).None? || !faults.None()
    ensures ok ==> |q| == L.G.QueryWidth() && |rel| == L.G.RelativeWidth() && |k| == |v| == L.G.KeyWidth()
    ensures ok ==> b.keyHistory == Push(old(b.keyHistory), kRaw) && b.valueHistory == Push(old(b.valueHistory), vRaw)
    ensures ok ==> var y := MakeQuery(A, L, q, rel, t);
                   ProjectToken(A, L, hidden, old(b.keyHistory), old(b.valueHistory), t, x)
                   == if y.None? then None else Some(TokenStreams(kRaw, vRaw, k, v, y.value))
  {
    hide ConvOne, MakeQuery;
    hide Faults.None;
    ok, q, k, v, rel, kRaw, vRaw := false, [], [], [], [], [], [];
    var q0 := StageOne(L.q, x, faults, t, l, Site.Query);
    var k0 := StageOne(L.k, x, faults, t, l, Key);
    var v0 := StageOne(L.v, x, faults, t, l, Value);
    var r0 := StageOne(L.r, x, faults, t, l, Relative);
    if q0.None? || k0.None? || v0.None? || r0.None? {
      return;
    }
    kRaw, vRaw, rel := k0.value, v0.value, r0.value;
    var kc := ConvOne(A, L.kConv, b.keyHistory, k0.value);
    if kc.None? {
      return;
    }
    b.keyHistory := Push(b.keyHistory, k0.value);
    var vc := ConvOne(A, L.vConv, b.valueHistory, v0.value);
    if vc.None? {
      return;
    }
    b.valueHistory := Push(b.valueHistory, v0.value);
    var qn := StageOne(L.qNorm, q0.value, faults, t, l, QueryNorm);
    var kn := StageOne(L.kNorm, kc.value, faults, t, l, KeyNorm);
    if qn.None? || kn.None? {
      return;
    }
    ok, q, k, v := true, qn.value, kn.value, vc.value;
  }

  /** token_attention: updates the key and value histories and slot `t % capacity` of both rings. */
  method AttendToken(A: Arith, L: Layer, hidden: nat, b: LayerBuffers, t: nat, x: Row, scores: array<Float>,
                     bias: array<Float>, faults: Faults, l: nat) returns (r: Option<Row>)
    requires Lawful(A) && L.Valid(hidden) && b.Valid(L.G, hidden) && b.capacity > 0
    requires t < scores.Length && t < bias.Length && scores != bias
    modifies b, b.keys, b.values, scores, bias
    ensures b.Valid(L.G, hidden)
    ensures b.attnHistory == old(b.attnHistory) && b.mlpHistory == old(b.mlpHistory)
    ensures r.None? ==> TokenAttention(A, L, hidden, old(b.View()), t, x).None? || !faults.None()
    ensures r.Some? ==> TokenAttention(A, L, hidden, old(b.View()), t, x) == Some((r.value, b.View()))
  {
    hide ConvOne, MakeQuery, RingHeads, ProjectToken;
    hide Faults.None;
    var ok, q, k, v, rel;
    ghost var kRaw, vRaw;
    ok, q, k, v, rel, kRaw, vRaw := ProjectOne(A, L, hidden, b, t, x, faults, l);
    if !ok {
      return None;
    }
    var slot := t % b.capacity;
    b.keys[slot] := k;
    b.values[slot] := v;
    var y := MakeQuery(A, L, q, rel, t);
    if y.None? {
      return None;
    }
    var heads := RingRow(A, L.G, y.value, b.keys, b.values, t, scores, bias);
    if heads.None? {
      return None;
    }
    r := StageOne(L.o, heads.value, faults, t, l, Output);
  }

  /** token_layer. */
  method LayerToken(A: Arith, L: Layer, hidden: nat, b: LayerBuffers, t: nat, x: Row, scores: array<Float>,
                    bias: array<Float>, faults: Faults, l: nat) returns (r: Option<Row>)
    requires Lawful(A) && L.Valid(hidden) && b.Valid(L.G, hidden) && b.capacity > 0 && |x| == hidden
    requires t < scores.Length && t < bias.Length && scores != bias
    modifies b, b.keys, b.values, scores, bias
    ensures b.Valid(L.G, hidden)
    ensures r.None? ==> TokenLayer(A, L, hidden, old(b.View()), t, x).None? || !faults.None()
    ensures r.Some? ==> TokenLayer(A, L, hidden, old(b.View()), t, x) == Some((r.value, b.View()))
  {
    hide ConvOne, TokenAttention, AddRow;
    hide Faults.None;
    var normed := StageOne(L.attnNorm, x, faults, t, l, AttnNorm);
    if normed.None? {
      return None;
    }
    var attn := AttendToken(A, L, hidden, b, t, normed.value, scores, bias, faults, l);
    if attn.None? {
      return None;
    }
    var convolved := ConvOne(A, L.attnConv, b.attnHistory, attn.value);
    if convolved.None? {
      return None;
    }
    b.attnHistory := Push(b.attnHistory, attn.value);
    var post := AddRow(A, x, convolved.value);
    if post.None? {
      return None;
    }
    r := MlpToken(A, L, hidden, b, t, post.value, faults, l);
  }

  /** The MLP half of token_layer. */
  method MlpToken(A: Arith, L: Layer, hidden: nat, b: LayerBuffers, t: nat, post: Row, faults: Faults, l: nat)
    returns (r: Option<Row>)
    requires L.Valid(hidden) && b.Valid(L.G, hidden) && |post| == hidden
    modifies b`mlpHistory
    ensures b.Valid(L.G, hidden)
    ensures r.None? ==> TokenMlp(A, L, hidden, old(b.mlpHistory), post).None? || !faults.None()
    ensures r.Some? ==>
              && TokenMlp(A, L, hidden, old(b.mlpHistory), post).Some?
              && var (mlp, out) := TokenMlp(A, L, hidden, old(b.mlpHistory), post).value;
              r.value == out && b.mlpHistory == Push(old(b.mlpHistory), mlp)
  {
    hide ConvOne, AddRow;
    hide Faults.None;
    var normed := StageOne(L.mlpNorm, post, faults, t, l, MlpNorm);
    if normed.None? {
      return None;
    }
    var mlp := StageOne(L.mlp, normed.value, faults, t, l, Experts);
    if mlp.None? {
      return None;
    }
    var convolved := ConvOne(A, L.mlpConv, b.mlpHistory, mlp.value);
    if convolved.None? {
      return None;
    }
    b.mlpHistory := Push(b.mlpHistory, mlp.value);
    r := AddRow(A, post, convolved.value);
  }

  // ---------- The context ----------

  class Context {
    const S: Setup
    const layers: seq<LayerBuffers>
    const scores: array<Float>
    const bias: array<Float>
    var valid: bool
    var position: nat
    var tokensProcessed: nat

    ghost const Repr: set<object>

    /** The buffers are distinct objects, all in `Repr`. */
    ghost predicate Separate() {
      && {this, scores, bias} <= Repr && scores != bias
      && (forall l :: 0 <= l < |layers| ==> layers[l].Own() <= Repr - {this, scores, bias})
      && (forall i, j :: 0 <= i < j < |layers| ==> layers[i].Own() !! layers[j].Own())
    }

    ghost predicate LayerValid(l: nat)
      requires Separate() && l < |layers| && l < |S.M.layers|
      reads Repr
    {
      assert layers[l].Own() <= Repr;
      layers[l].Valid(S.M.layers[l].G, S.M.hidden) && layers[l].capacity == S.M.Capacity(S.capacity, l)
    }

    ghost predicate Valid()
      reads this, Repr
      ensures Valid() ==> Separate() && S.Valid()
      ensures Valid() && S.incremental ==> |layers| == |S.M.layers|
    {
      && S.Valid() && Separate()
      && scores.Length == bias.Length == S.capacity
      && |layers| == (if S.incremental then |S.M.layers| else 0)
      && (forall l :: 0 <= l < |layers| ==> LayerValid(l))
      && tokensProcessed <= UINT64_MAX
    }

    ghost function LayerView(l: nat): LayerState
      requires Separate() && l < |layers|
      reads Repr
    {
      assert layers[l].Own() <= Repr;
      layers[l].View()
    }

    ghost function States(): (r: seq<LayerState>)
      requires Separate()
      reads Repr
      ensures |r| == |layers|
    {
      seq(|layers|, l requires 0 <= l < |layers| && Separate() reads Repr => LayerView(l))
    }

    ghost function View(): Machine
      requires Separate()
      reads this, Repr
    {
      Machine(valid, position, States())
    }

    lemma ViewShape()
      requires Valid()
      ensures Shape(S, View())
    {
      forall l | 0 <= l < |layers|
        ensures S.incremental ==> States()[l].Fits(S.M.layers[l].G, S.M.hidden, S.M.Capacity(S.capacity, l))
      {
        assert LayerValid(l);
      }
    }

    constructor (setup: Setup, buffers: seq<LayerBuffers>, own: set<object>, some: array<Float>, other: array<Float>)
      ensures S == setup && layers == buffers && scores == some && bias == other
      ensures valid == setup.incremental && position == 0 && tokensProcessed == 0
      ensures Repr == own + {this, some, other}
    {
      S, layers, scores, bias := setup, buffers, some, other;
      valid, position, tokensProcessed := setup.incremental, 0, 0;
      Repr := own + {this, some, other};
    }

    /** What touches one layer's objects, and nothing else, leaves the other layers alone. */
    twostate lemma OtherLayers(l: nat)
      requires Separate() && l < |layers| <= |S.M.layers|
      requires forall o: object :: o in Repr && o !in layers[l].Own() && o !in {this, scores, bias} ==> unchanged(o)
      ensures forall i :: 0 <= i < |layers| && i != l ==> LayerView(i) == old(LayerView(i))
      ensures forall i :: 0 <= i < |layers| && i != l ==> LayerValid(i) == old(LayerValid(i))
    {
      forall i | 0 <= i < |layers| && i != l
        ensures LayerView(i) == old(LayerView(i)) && LayerValid(i) == old(LayerValid(i))
      {
        assert layers[i].Own() <= Repr - {this, scores, bias};
        assert layers[i].Own() !! layers[l].Own();
        assert layers[i] in layers[i].Own() && layers[i].keys in layers[i].Own() && layers[i].values in layers[i].Own();
      }
    }

    /** inkling_context_reset: the histories are zeroed, the rings are left as they are. */
    method Reset()
      requires Valid()
      modifies Repr
      ensures Valid() && tokensProcessed == old(tokensProcessed)
      ensures S.incremental ==> View() == Machine(true, 0, ClearStates(S.M, old(States())))
    {
      if S.incremental {
        ClearLayers();
        Restart(true, 0);
      }
    }

    /** Set the position and the validity flag; the buffers do not change. */
    method Restart(ok: bool, t: nat)
      requires Valid()
      modifies this`valid, this`position
      ensures Valid() && valid == ok && position == t && States() == old(States())
    {
      valid, position := ok, t;
      assert forall l :: 0 <= l < |layers| ==> LayerValid(l) == old(LayerValid(l)) && LayerView(l) == old(LayerView(l));
    }

    method ClearLayers()
      requires Valid() && |layers| == |S.M.layers|
      modifies Repr - {this}
      ensures Valid() && States() == ClearStates(S.M, old(States()))
    {
      hide *;
      ghost var before := old(States());
      ghost var cleared := ClearStates(S.M, before);
      for l := 0 to |layers|
        invariant Valid() && Separate() && States() == cleared[..l] + before[l..]
      {
        ClearLayer(l);
        UpdateMovesCut(cleared, before, l);
      }
    }

    method ClearLayer(l: nat)
      requires Valid() && l < |layers|
      modifies Repr - {this}
      ensures Valid() && States() == old(States())[l := ClearState(S.M.layers[l], S.M.hidden, old(States())[l])]
    {
      assert LayerValid(l) && layers[l] in layers[l].Own() && layers[l].Own() <= Repr - {this, scores, bias};
      layers[l].Clear(S.M.layers[l], S.M.hidden);
      OtherLayers(l);
      assert LayerValid(l);
    }

    // ---------- One token ----------

    /** Layer `l` of token_forward. */
    method RunLayer(l: nat, t: nat, x: Row, faults: Faults) returns (r: Option<Row>)
      requires Valid() && S.incremental && l < |layers| && t < S.capacity && |x| == S.M.hidden
      modifies Repr - {this}
      ensures Valid()
      ensures States()[l].Fits(S.M.layers[l].G, S.M.hidden, S.M.Capacity(S.capacity, l))
      ensures var before := old(States())[l];
              && before.Fits(S.M.layers[l].G, S.M.hidden, |before.keys|)
              && (r.None? ==> TokenLayer(S.M.A, S.M.layers[l], S.M.hidden, before, t, x).None? || !faults.None())
              && (r.Some? ==>
                    && TokenLayer(S.M.A, S.M.layers[l], S.M.hidden, before, t, x).Some?
                    && var (y, after) := TokenLayer(S.M.A, S.M.layers[l], S.M.hidden, before, t, x).value;
                    r.value == y && States() == old(States())[l := after])
    {
      hide TokenLayer;
      hide Faults.None;
      assert LayerValid(l) && layers[l].Own() <= Repr - {this, scores, bias};
      assert layers[l] in layers[l].Own() && layers[l].keys in layers[l].Own() && layers[l].values in layers[l].Own();
      r := LayerToken(S.M.A, S.M.layers[l], S.M.hidden, layers[l], t, x, scores, bias, faults, l);
      OtherLayers(l);
      assert LayerValid(l);
    }

    /** The layers of token_forward. */
    method RunLayers(t: nat, x: Row, faults: Faults) returns (r: Option<Row>)
      requires Valid() && S.incremental && t < S.capacity && |x| == S.M.hidden
      requires StatesFit(S.M, S.capacity, States())
      modifies Repr - {this}
      ensures Valid()
      ensures var run := TokenThrough(S.M, S.capacity, old(States()), t, x, |S.M.layers|);
              && (r.None? ==> run.None? || !faults.None())
              && (r.Some? ==> run == Some((r.value, States())))
    {
      hide Valid, Separate, States, TokenLayer, TokenThrough;
      hide Faults.None;
      ghost var before := States();
      var current := x;
      ThroughNone(S.M, S.capacity, before, t, x);
      for l := 0 to |layers|
        invariant Valid() && |current| == S.M.hidden
        invariant TokenThrough(S.M, S.capacity, before, t, x, l) == Some((current, States()))
      {
        ghost var now := States();
        var y := RunLayer(l, t, current, faults);
        ThroughOne(S.M, S.capacity, before, t, x, l, current, now);
        if y.None? {
          if faults.None() {
            ThroughStops(S.M, S.capacity, before, t, x, l + 1);
          }
          return None;
        }
        current := y.value;
      }
      r := Some(current);
    }

    /** token_forward; `wanted` says whether the caller asks for logits. */
    method RunToken(id: nat, wanted: bool, faults: Faults) returns (ok: bool, row: Row)
      requires Valid() && S.incremental && position < S.capacity
      requires StatesFit(S.M, S.capacity, States())
      modifies Repr
      ensures Valid() && valid == old(valid)
      ensures var run := TokenForward(S.M, S.capacity, old(States()), old(position), id);
              && (ok ==> run.Some? && (wanted ==> S.M.unembed(run.value.0).Some?))
              && (!ok ==> run.None? || (wanted && S.M.unembed(run.value.0).None?) || !faults.None())
              && (ok ==> States() == run.value.1 && position == old(position) + 1)
              && (ok ==> row == if wanted then S.M.unembed(run.value.0).value else run.value.0)
      ensures tokensProcessed == (if ok then Saturate(old(tokensProcessed) + 1) else old(tokensProcessed))
    {
      hide TokenThrough;
      var x := if faults.hits(position, 0, Embedding) then None else S.M.embed(id);
      if x.None? {
        return false, [];
      }
      var y := RunLayers(position, x.value, faults);
      if y.None? {
        return false, [];
      }
      row := y.value;
      if wanted {
        var logits := StageOne(S.M.unembed, row, faults, position, 0, Logits);
        if logits.None? {
          return false, [];
        }
        row := logits.value;
      }
      Count(1);
      Restart(valid, position + 1);
      ok := true;
    }

    /** Add to tokens_processed, stopping at the maximum. */
    method Count(amount: nat)
      requires Valid()
      modifies this`tokensProcessed
      ensures Valid() && States() == old(States())
      ensures tokensProcessed == Saturate(old(tokensProcessed) + amount)
    {
      tokensProcessed := if amount > UINT64_MAX - tokensProcessed then UINT64_MAX else tokensProcessed + amount;
      assert forall l :: 0 <= l < |layers| ==> LayerValid(l) == old(LayerValid(l)) && LayerView(l) == old(LayerView(l));
    }

    /** sequence_failure: nothing may continue from here. */
    method Invalidate()
      requires Valid()
      modifies this`valid, this`position
      ensures Valid() && Invalidated(S, View())
    {
      if S.incremental {
        Restart(false, 0);
        ViewShape();
      }
    }

    // ---------- The calls ----------

    /** inkling_context_position: the number of tokens carried, 0 after a failure and without incremental mode. */
    method Position() returns (t: nat)
      requires Valid()
      ensures forall ids :: Represents(S, View(), Some(ids)) ==> t == |ids|
      ensures Represents(S, View(), None) ==> t == 0
    {
      hide Carries, Shape;
      t := if S.incremental && valid then position else 0;
    }

    /** The token loop of inkling_prefill, from cleared states. */
    method RunPrompt(ids: Ids, faults: Faults) returns (r: Option<Row>)
      requires Valid() && S.incremental && 0 < |ids| <= S.capacity && position == 0 && valid
      requires StatesFit(S.M, S.capacity, States())
      modifies Repr
      ensures Valid()
      ensures var run := PromptLogits(S, old(States()), ids);
              && (r.None? ==> run.None? || !faults.None())
              && (r.Some? ==> run == Some((r.value, States())) && position == |ids| && valid)
      ensures r.Some? ==> tokensProcessed == Saturate(old(tokensProcessed) + |ids|)
    {
      hide TokenForward;
      hide Faults.None;
      ghost var before, counted := States(), tokensProcessed;
      var row: Row := [];
      for i := 0 to |ids|
        invariant Valid() && valid && position == i && StatesFit(S.M, S.capacity, States())
        invariant tokensProcessed == Saturate(counted + i)
        invariant i < |ids| ==> Consume(S.M, S.capacity, before, ids[..i]) == Some((row, States()))
        invariant i == |ids| ==> PromptLogits(S, before, ids) == Some((row, States()))
      {
        assert ids[..i + 1][..i] == ids[..i];
        assert ids[..|ids|] == ids;
        var ok;
        ok, row := RunToken(ids[i], i + 1 == |ids|, faults);
        if !ok {
          if Consume(S.M, S.capacity, before, ids[..i + 1]).None? {
            ConsumeStops(S.M, S.capacity, before, ids, i + 1);
          }
          return None;
        }
      }
      r := Some(row);
    }

    /** inkling_prefill. */
    method CallPrefill(ids: Ids, room: nat, faults: Faults) returns (out: Outcome)
      requires Valid()
      modifies Repr
      ensures Valid() && Shape(S, old(View())) && Step(S, old(View()), Prefill(ids, room), !faults.None(), out, View())
      ensures out.Success? ==> tokensProcessed == Saturate(old(tokensProcessed) + |ids|)
    {
      hide PromptLogits;
      hide Faults.None;
      ViewShape();
      Reset();
      ViewShape();
      if !PrefillAccepts(S, ids, room) {
        Invalidate();
        return Failure;
      }
      var row := RunPrompt(ids, faults);
      if row.None? {
        Invalidate();
        return Failure;
      }
      out := Success([row.value]);
    }

    /** inkling_decode. */
    method CallDecode(id: nat, room: nat, faults: Faults) returns (out: Outcome)
      requires Valid()
      modifies Repr
      ensures Valid() && Shape(S, old(View())) && Step(S, old(View()), Decode(id, room), !faults.None(), out, View())
      ensures out.Success? ==> tokensProcessed == Saturate(old(tokensProcessed) + 1)
    {
      hide TokenForward;
      hide Faults.None;
      ViewShape();
      if !DecodeAccepts(S, valid, position, id, room) {
        Invalidate();
        return Failure;
      }
      var ok, row := RunToken(id, true, faults);
      if !ok {
        Invalidate();
        return Failure;
      }
      out := Success([row]);
    }

    /** The embeddings of forward_rows. */
    method EmbedStage(ids: Ids, faults: Faults) returns (r: Option<seq<Row>>)
      requires S.M.Valid()
      ensures Delivers(r, EmbedAll(S.M, ids), faults)
    {
      var xs: seq<Row> := [];
      for t := 0 to |ids|
        invariant EmbedAll(S.M, ids[..t]) == Some(xs)
      {
        assert ids[..t + 1][..t] == ids[..t];
        var x := if faults.hits(t, 0, Embedding) then None else S.M.embed(ids[t]);
        if x.None? {
          if S.M.embed(ids[t]).None? {
            EmbedStops(S.M, ids, t + 1);
          }
          return None;
        }
        xs := xs + [x.value];
      }
      assert ids[..|ids|] == ids;
      r := Some(xs);
    }

    /** The layers of forward_rows. */
    method ForwardLayers(ids: Ids, faults: Faults) returns (r: Option<seq<Row>>)
      requires Valid() && |ids| <= S.capacity
      modifies scores, bias
      ensures Valid() && States() == old(States())
      ensures Delivers(r, Through(S.M, ids, |S.M.layers|), faults)
    {
      hide Lawful, Yields, LayerStages, FullLayer;
      hide Faults.None;
      var embedded := EmbedStage(ids, faults);
      if embedded.None? {
        if EmbedAll(S.M, ids).None? {
          ThroughFails(S.M, ids, |S.M.layers|);
        }
        return None;
      }
      var xs := embedded.value;
      for l := 0 to |S.M.layers|
        invariant Valid() && States() == old(States())
        invariant Through(S.M, ids, l) == Some(xs)
      {
        var ys := LayerForward(S.M.A, S.M.layers[l], S.M.hidden, xs, scores, bias, faults, l);
        ScratchOnly();
        if ys.None? {
          if faults.None() {
            FullStops(S.M, ids, l + 1);
          }
          return None;
        }
        xs := ys.value;
      }
      r := Some(xs);
    }

    /** Writing the score and bias buffers does not touch the layers. */
    twostate lemma ScratchOnly()
      requires old(Valid())
      requires forall o: object :: o in Repr && o !in {scores, bias} ==> unchanged(o)
      ensures Valid() && States() == old(States())
    {
      forall l | 0 <= l < |layers|
        ensures LayerView(l) == old(LayerView(l)) && LayerValid(l) == old(LayerValid(l))
      {
        assert layers[l].Own() <= Repr - {this, scores, bias};
        assert layers[l] in layers[l].Own() && layers[l].keys in layers[l].Own() && layers[l].values in layers[l].Own();
      }
    }

    /** forward_rows: inkling_forward, or inkling_forward_last when `last` is set. */
    method CallForward(ids: Ids, last: bool, room: nat, faults: Faults) returns (out: Outcome)
      requires Valid()
      modifies Repr
      ensures Valid() && Shape(S, old(View()))
      ensures Step(S, old(View()), Forward(ids, last, room), !faults.None(), out, View())
      ensures out.Success? ==> tokensProcessed == Saturate(old(tokensProcessed) + |ids|)
    {
      hide Through;
      hide Faults.None;
      ViewShape();
      Reset();
      ViewShape();
      if !ForwardAccepts(S, ids, last, room) {
        return Failure;
      }
      var xs := ForwardLayers(ids, faults);
      if xs.None? {
        return Failure;
      }
      var rows := MapStage(S.M.unembed, if last then xs.value[|ids| - 1..] else xs.value, faults, 0, Logits);
      if rows.None? {
        return Failure;
      }
      Count(|ids|);
      out := Success(rows.value);
    }
  }

  lemma ThroughNone(M: Model, C: nat, states: seq<LayerState>, t: nat, x: Row)
    requires M.Valid() && StatesFit(M, C, states) && |x| == M.hidden
    ensures TokenThrough(M, C, states, t, x, 0) == Some((x, states))
  {
  }

  lemma ThroughOne(M: Model, C: nat, states: seq<LayerState>, t: nat, x: Row, l: nat, y: Row, now: seq<LayerState>)
    requires M.Valid() && StatesFit(M, C, states) && |x| == M.hidden && l < |M.layers|
    requires TokenThrough(M, C, states, t, x, l) == Some((y, now))
    ensures TokenThrough(M, C, states, t, x, l + 1) == TokenAt(M, C, now, t, y, l)
  {
  }

  lemma {:induction false} ThroughStops(M: Model, C: nat, states: seq<LayerState>, t: nat, x: Row, n: nat)
    requires M.Valid() && StatesFit(M, C, states) && |x| == M.hidden && n <= |M.layers|
    requires TokenThrough(M, C, states, t, x, n).None?
    ensures TokenThrough(M, C, states, t, x, |M.layers|).None?
    decreases |M.layers| - n
  {
    hide Lawful, Yields, TokenLayer, StatesFit;
    hide Model.Valid;
    if n < |M.layers| {
      ThroughStops(M, C, states, t, x, n + 1);
    }
  }

  lemma {:induction false} ConsumeStops(M: Model, C: nat, states: seq<LayerState>, ids: Ids, n: nat)
    requires M.Valid() && StatesFit(M, C, states) && n <= |ids| && Consume(M, C, states, ids[..n]).None?
    ensures Consume(M, C, states, ids).None?
    decreases |ids| - n
  {
    hide TokenForward;
    if n == |ids| {
      assert ids[..n] == ids;
    } else {
      assert ids[..n + 1][..n] == ids[..n];
      ConsumeStops(M, C, states, ids, n + 1);
    }
  }

  lemma {:induction false} EmbedStops(M: Model, ids: Ids, n: nat)
    requires M.Valid() && n <= |ids| && EmbedAll(M, ids[..n]).None?
    ensures EmbedAll(M, ids).None?
    decreases |ids| - n
  {
    if n == |ids| {
      assert ids[..n] == ids;
    } else {
      assert ids[..n + 1][..n] == ids[..n];
      EmbedStops(M, ids, n + 1);
    }
  }

  lemma {:induction false} FullStops(M: Model, ids: Ids, n: nat)
    requires M.Valid() && n <= |M.layers| && Through(M, ids, n).None?
    ensures Through(M, ids, |M.layers|).None?
    decreases |M.layers| - n
  {
    hide FullLayer;
    if n < |M.layers| {
      FullStops(M, ids, n + 1);
    }
  }

  lemma UpdateMovesCut<T>(done: seq<T>, todo: seq<T>, l: nat)
    requires l < |done| == |todo|
    ensures (done[..l] + todo[l..])[l := done[l]] == done[..l + 1] + todo[l + 1..]
  {
  }

  /** A layer of sequence_create. */
  ghost predicate BufferCreated(S: Setup, b: LayerBuffers, l: nat)
    requires l < |S.M.layers|
    reads b, b.keys, b.values
  {
    var G := S.M.layers[l].G;
    && b.Valid(G, S.M.hidden) && b.capacity == S.M.Capacity(S.capacity, l)
    && b.keyHistory == b.valueHistory == Zeros(G.KeyWidth())
    && b.attnHistory == b.mlpHistory == Zeros(S.M.hidden)
  }

  /** sequence_create: one ring pair and four histories for every layer. */
  method SequenceCreate(S: Setup) returns (buffers: seq<LayerBuffers>, own: set<object>)
    requires S.Valid()
    ensures |buffers| == |S.M.layers| && fresh(own)
    ensures forall l :: 0 <= l < |buffers| ==> buffers[l].Own() <= own && BufferCreated(S, buffers[l], l)
    ensures forall i, j :: 0 <= i < j < |buffers| ==> buffers[i].Own() !! buffers[j].Own()
  {
    hide Lawful, Yields;
    buffers, own := [], {};
    for l := 0 to |S.M.layers|
      invariant |buffers| == l && fresh(own)
      invariant forall i :: 0 <= i < l ==> buffers[i].Own() <= own && BufferCreated(S, buffers[i], i)
      invariant forall i, j :: 0 <= i < j < l ==> buffers[i].Own() !! buffers[j].Own()
    {
      var b := new LayerBuffers(S.M.layers[l].G, S.M.hidden, S.M.Capacity(S.capacity, l));
      buffers := buffers + [b];
      own := own + b.Own();
    }
  }

  /** inkling_context_create_with_options, after its checks. */
  method Create(S: Setup) returns (c: Context)
    requires S.Valid()
    ensures c.Valid() && c.S == S && fresh(c.Repr)
    ensures c.valid == S.incremental && c.position == 0 && c.tokensProcessed == 0
    ensures S.incremental ==> Cleared(S.M, S.capacity, c.States())
  {
    hide Lawful, Yields;
    var scores, bias := new Float[S.capacity](_ => ZERO), new Float[S.capacity](_ => ZERO);
    var buffers: seq<LayerBuffers>, own: set<object> := [], {};
    if S.incremental {
      buffers, own := SequenceCreate(S);
    }
    c := new Context(S, buffers, own, scores, bias);
    assert c.Separate();
    assert forall l :: 0 <= l < |buffers| ==> BufferCreated(S, buffers[l], l) && c.LayerView(l) == buffers[l].View();
  }
}
