/** One token's attention in its two forms.

    `FullHeads` is the reference: scores against every token of the prefix, with the future and the
    positions outside a local window masked.  `RingHeads` is the incremental form: scores over the past
    only, keys and values read from ring buffers.  `HeadsAgree` says they are the same row.
*/
module Attention {
  import opened Wrappers
  import opened Arithmetic
  import opened Carrier
  import Softmax

  /** The shape of a layer's attention and its table of relative logits (`[relDim, extent]`). */
  datatype Geometry = Geometry(heads: nat, kvHeads: nat, dim: nat, relDim: nat, extent: nat, window: nat,
                               relative: Row)
  {
    predicate Valid() {
      && 0 < kvHeads <= heads && heads % kvHeads == 0
      && |relative| == Offset(relDim, extent)
    }

    function QueryWidth(): nat { Offset(heads, dim) }

    function KeyWidth(): nat { Offset(kvHeads, dim) }

    function RelativeWidth(): nat { Offset(heads, relDim) }

    /** The key/value head that query head `h` reads. */
    function KvHead(h: nat): (kv: nat)
      requires Valid() && h < heads
      ensures kv < kvHeads
    {
      KvHeadFits(h);
      h / (heads / kvHeads)
    }

    lemma KvHeadFits(h: nat)
      requires Valid() && h < heads
      ensures heads / kvHeads > 0 && 0 <= h / (heads / kvHeads) < kvHeads
    {
      var group := heads / kvHeads;
      assert heads == kvHeads * group;
      QuotientBound(h, group, kvHeads);
    }
  }

  /** What one token asks: its scaled queries, its relative features and its scaling factor. */
  datatype Query = Query(q: Row, r: Row, tau: Float) {
    predicate Fits(G: Geometry) {
      |q| == G.QueryWidth() && |r| == G.RelativeWidth() && tau.Fin?
    }
  }

  // ---------- Inner products ----------

  /** `n` products of `x[xo..]` and `y[yo..]`, added in order. */
  function Dot(A: Arith, x: Row, xo: nat, y: Row, yo: nat, n: nat): Float
    requires xo + n <= |x| && yo + n <= |y|
  {
    if n == 0 then ZERO
    else Add(A.single, Dot(A, x, xo, y, yo, n - 1), Mul(A.single, x[xo + n - 1], y[yo + n - 1]))
  }

  /** The first `n` terms of the relative bias at distance `gap`. */
  function BiasSum(A: Arith, G: Geometry, r: Row, ro: nat, gap: nat, n: nat): Float
    requires G.Valid() && gap < G.extent && n <= G.relDim && ro + n <= |r|
  {
    if n == 0 then ZERO
    else
      RowFits(n - 1, G.relDim, G.extent);
      Add(A.single, BiasSum(A, G, r, ro, gap, n - 1),
          Mul(A.single, r[ro + n - 1], G.relative[Offset(n - 1, G.extent) + gap]))
  }

  /** The relative bias of head `h` at distance `gap`; zero beyond the extent. */
  function Bias(A: Arith, G: Geometry, y: Query, h: nat, gap: nat): Float
    requires G.Valid() && y.Fits(G) && h < G.heads
  {
    RowFits(h, G.heads, G.relDim);
    if gap < G.extent then BiasSum(A, G, y.r, Offset(h, G.relDim), gap, G.relDim) else ZERO
  }

  /** The unmasked score of head `h` against a key row. */
  function Score(A: Arith, G: Geometry, y: Query, h: nat, key: Row, gap: nat): Float
    requires G.Valid() && y.Fits(G) && h < G.heads && |key| == G.KeyWidth()
  {
    RowFits(h, G.heads, G.dim);
    RowFits(G.KvHead(h), G.kvHeads, G.dim);
    var dot := Dot(A, y.q, Offset(h, G.dim), key, Offset(G.KvHead(h), G.dim), G.dim);
    Add(A.single, Div(A.single, dot, Fin(G.dim as real)), Mul(A.single, Bias(A, G, y, h, gap), y.tau))
  }

  /** Both the bias and the scaled bias are finite at every distance up to `t`. */
  predicate BiasesFinite(A: Arith, G: Geometry, y: Query, h: nat, t: nat)
    requires G.Valid() && y.Fits(G) && h < G.heads
  {
    forall gap :: 0 <= gap <= t ==>
      Bias(A, G, y, h, gap).Fin? && Mul(A.single, Bias(A, G, y, h, gap), y.tau).Fin?
  }

  // ---------- The full-prefix form ----------

  predicate Masked(G: Geometry, t: nat, s: nat) {
    s > t || (G.window != 0 && t - s >= G.window)
  }

  /** The score of token `t` against token `s` of the prefix. */
  function FullScore(A: Arith, G: Geometry, y: Query, h: nat, ks: seq<Row>, t: nat, s: nat): Float
    requires G.Valid() && y.Fits(G) && h < G.heads && Widths(ks, G.KeyWidth()) && s < |ks|
  {
    if Masked(G, t, s) then NegInf else Score(A, G, y, h, ks[s], t - s)
  }

  function FullScores(A: Arith, G: Geometry, y: Query, h: nat, ks: seq<Row>, t: nat): (r: Row)
    requires G.Valid() && y.Fits(G) && h < G.heads && Widths(ks, G.KeyWidth())
    ensures |r| == |ks|
  {
    seq(|ks|, s requires 0 <= s < |ks| => FullScore(A, G, y, h, ks, t, s))
  }

  /** Column `c` of the values, weighted by the probabilities of the positions `lo <= s < hi`. */
  function WeightedSum(A: Arith, p: Row, vs: seq<Row>, c: nat, lo: nat, hi: nat): Float
    requires hi <= |p| && hi <= |vs| && (forall s :: 0 <= s < hi ==> c < |vs[s]|)
  {
    if hi <= lo then ZERO
    else Add(A.single, WeightedSum(A, p, vs, c, lo, hi - 1), Mul(A.single, p[hi - 1], vs[hi - 1][c]))
  }

  function FullHead(A: Arith, G: Geometry, y: Query, h: nat, ks: seq<Row>, vs: seq<Row>, t: nat): (r: Option<Row>)
    requires G.Valid() && y.Fits(G) && h < G.heads && t < |ks| == |vs|
    requires Widths(ks, G.KeyWidth()) && Widths(vs, G.KeyWidth())
    ensures r.Some? ==> |r.value| == G.dim
  {
    if !BiasesFinite(A, G, y, h, t) then None
    else
      var p :- Softmax.Softmax(A, FullScores(A, G, y, h, ks, t));
      RowFits(G.KvHead(h), G.kvHeads, G.dim);
      Some(seq(G.dim, j requires 0 <= j < G.dim => WeightedSum(A, p, vs, Offset(G.KvHead(h), G.dim) + j, 0, t + 1)))
  }

  /** The first `n` heads, one after the other. */
  function FullHeads(A: Arith, G: Geometry, y: Query, ks: seq<Row>, vs: seq<Row>, t: nat, n: nat): (r: Option<Row>)
    requires G.Valid() && y.Fits(G) && n <= G.heads && t < |ks| == |vs|
    requires Widths(ks, G.KeyWidth()) && Widths(vs, G.KeyWidth())
    ensures r.Some? ==> |r.value| == Offset(n, G.dim)
  {
    if n == 0 then Some([])
    else
      var front :- FullHeads(A, G, y, ks, vs, t, n - 1);
      var head :- FullHead(A, G, y, n - 1, ks, vs, t);
      Some(front + head)
  }

  // ---------- The ring-buffer form ----------

  /** The first position a ring of this capacity still holds when token `t` is read. */
  function Start(capacity: nat, t: nat): nat {
    if t + 1 > capacity then t + 1 - capacity else 0
  }

  function RingScore(A: Arith, G: Geometry, y: Query, h: nat, keys: seq<Row>, t: nat, s: nat): Float
    requires G.Valid() && y.Fits(G) && h < G.heads && Widths(keys, G.KeyWidth()) && |keys| > 0 && s <= t
  {
    if s < Start(|keys|, t) then NegInf else Score(A, G, y, h, keys[s % |keys|], t - s)
  }

  function RingScores(A: Arith, G: Geometry, y: Query, h: nat, keys: seq<Row>, t: nat): (r: Row)
    requires G.Valid() && y.Fits(G) && h < G.heads && Widths(keys, G.KeyWidth()) && |keys| > 0
    ensures |r| == t + 1
  {
    seq(t + 1, s requires 0 <= s < t + 1 => RingScore(A, G, y, h, keys, t, s))
  }

  function RingSum(A: Arith, p: Row, values: seq<Row>, c: nat, lo: nat, hi: nat): Float
    requires hi <= |p| && |values| > 0 && (forall s :: 0 <= s < |values| ==> c < |values[s]|)
  {
    if hi <= lo then ZERO
    else Add(A.single, RingSum(A, p, values, c, lo, hi - 1), Mul(A.single, p[hi - 1], values[(hi - 1) % |values|][c]))
  }

  function RingHead(A: Arith, G: Geometry, y: Query, h: nat, keys: seq<Row>, values: seq<Row>, t: nat): (r: Option<Row>)
    requires G.Valid() && y.Fits(G) && h < G.heads && 0 < |keys| == |values|
    requires Widths(keys, G.KeyWidth()) && Widths(values, G.KeyWidth())
    ensures r.Some? ==> |r.value| == G.dim
  {
    if !BiasesFinite(A, G, y, h, t) then None
    else
      var p :- Softmax.Softmax(A, RingScores(A, G, y, h, keys, t));
      RowFits(G.KvHead(h), G.kvHeads, G.dim);
      Some(seq(G.dim, j requires 0 <= j < G.dim =>
        RingSum(A, p, values, Offset(G.KvHead(h), G.dim) + j, Start(|keys|, t), t + 1)))
  }

  function RingHeads(A: Arith, G: Geometry, y: Query, keys: seq<Row>, values: seq<Row>, t: nat, n: nat)
    : (r: Option<Row>)
    requires G.Valid() && y.Fits(G) && n <= G.heads && 0 < |keys| == |values|
    requires Widths(keys, G.KeyWidth()) && Widths(values, G.KeyWidth())
    ensures r.Some? ==> |r.value| == Offset(n, G.dim)
  {
    if n == 0 then Some([])
    else
      var front :- RingHeads(A, G, y, keys, values, t, n - 1);
      var head :- RingHead(A, G, y, n - 1, keys, values, t);
      Some(front + head)
  }

  // ---------- The two forms agree ----------

  /** The capacity sequence_create gives a layer's ring. */
  function RingCapacity(window: nat, contextCapacity: nat): nat {
    if window != 0 && window < contextCapacity then window else contextCapacity
  }

  /** With that capacity the ring forgets exactly what the window masks. */
  lemma StartIsMask(G: Geometry, contextCapacity: nat, t: nat, s: nat)
    requires s <= t < contextCapacity
    ensures Masked(G, t, s) <==> s < Start(RingCapacity(G.window, contextCapacity), t)
  {
  }

  /** Slot `s % capacity` holds token `s`, for the positions `lo <= s < hi`. */
  predicate Holds(ring: seq<Row>, rows: seq<Row>, lo: nat, hi: nat)
    requires |ring| > 0 && hi <= |rows|
  {
    forall s :: lo <= s < hi ==> ring[s % |ring|] == rows[s]
  }

  /** Positions of probability zero contribute nothing, because the values are finite. */
  lemma {:induction false} ZeroWeights(A: Arith, p: Row, vs: seq<Row>, c: nat, hi: nat)
    requires Lawful(A) && hi <= |p| && hi <= |vs|
    requires forall s :: 0 <= s < hi ==> c < |vs[s]| && vs[s][c].Fin? && p[s] == ZERO
    ensures WeightedSum(A, p, vs, c, 0, hi) == ZERO
  {
    if hi == 0 {
    } else {
      ZeroWeights(A, p, vs, c, hi - 1);
      var v := vs[hi - 1][c].v;
      assert 0.0 * v == 0.0;
    }
  }

  /** Leading zero weights can be skipped, and the rest can be read from the ring. */
  lemma {:induction false} SumsAgree(A: Arith, p: Row, vs: seq<Row>, q: Row, values: seq<Row>, c: nat, lo: nat, hi: nat)
    requires Lawful(A) && lo <= hi <= |p| && hi <= |vs| && |values| > 0 && hi <= |q|
    requires forall s :: 0 <= s < hi ==> c < |vs[s]| && vs[s][c].Fin? && p[s] == q[s]
    requires forall s :: 0 <= s < lo ==> p[s] == ZERO
    requires forall s :: 0 <= s < |values| ==> c < |values[s]|
    requires Holds(values, vs, lo, hi)
    ensures WeightedSum(A, p, vs, c, 0, hi) == RingSum(A, q, values, c, lo, hi)
  {
    hide Add, Mul;
    if lo == hi {
      ZeroWeights(A, p, vs, c, hi);
    } else {
      SumsAgree(A, p, vs, q, values, c, lo, hi - 1);
      assert values[(hi - 1) % |values|] == vs[hi - 1];
    }
  }

  /** The full scores are the ring's scores followed by one mask per future token. */
  lemma ScoresAgree(A: Arith, G: Geometry, y: Query, h: nat, ks: seq<Row>, keys: seq<Row>, t: nat)
    requires G.Valid() && y.Fits(G) && h < G.heads && t < |ks| && |keys| > 0
    requires Widths(ks, G.KeyWidth()) && Widths(keys, G.KeyWidth())
    requires forall s :: 0 <= s <= t ==> (Masked(G, t, s) <==> s < Start(|keys|, t))
    requires Holds(keys, ks, Start(|keys|, t), t + 1)
    ensures FullScores(A, G, y, h, ks, t) ==
            RingScores(A, G, y, h, keys, t) + seq(|ks| - (t + 1), _ => NegInf)
  {
    hide Score;
    var full, ring := FullScores(A, G, y, h, ks, t), RingScores(A, G, y, h, keys, t);
    forall s | 0 <= s < |ks|
      ensures full[s] == (ring + seq(|ks| - (t + 1), _ => NegInf))[s]
    {
      if s <= t && s >= Start(|keys|, t) {
        assert keys[s % |keys|] == ks[s];
      }
    }
  }

  lemma HeadAgrees(A: Arith, G: Geometry, y: Query, h: nat, ks: seq<Row>, vs: seq<Row>, keys: seq<Row>,
                   values: seq<Row>, t: nat)
    requires Lawful(A) && G.Valid() && y.Fits(G) && h < G.heads && t < |ks| == |vs| && 0 < |keys| == |values|
    requires Widths(ks, G.KeyWidth()) && Widths(vs, G.KeyWidth()) && FiniteRows(vs)
    requires Widths(keys, G.KeyWidth()) && Widths(values, G.KeyWidth())
    requires forall s :: 0 <= s <= t ==> (Masked(G, t, s) <==> s < Start(|keys|, t))
    requires Holds(keys, ks, Start(|keys|, t), t + 1) && Holds(values, vs, Start(|keys|, t), t + 1)
    ensures FullHead(A, G, y, h, ks, vs, t) == RingHead(A, G, y, h, keys, values, t)
  {
    hide BiasesFinite, Masked, WeightedSum, RingSum;
    if BiasesFinite(A, G, y, h, t) {
      var scores := RingScores(A, G, y, h, keys, t);
      ScoresAgree(A, G, y, h, ks, keys, t);
      Softmax.SoftmaxTrailingMasks(A, scores, |ks| - (t + 1));
      if Softmax.Softmax(A, scores).Some? {
        ProbabilitiesAgree(A, G, y, h, ks, vs, keys, values, t);
      }
    }
  }

  lemma ProbabilitiesAgree(A: Arith, G: Geometry, y: Query, h: nat, ks: seq<Row>, vs: seq<Row>, keys: seq<Row>,
                           values: seq<Row>, t: nat)
    requires Lawful(A) && G.Valid() && y.Fits(G) && h < G.heads && t < |ks| == |vs| && 0 < |keys| == |values|
    requires Widths(ks, G.KeyWidth()) && Widths(vs, G.KeyWidth()) && FiniteRows(vs)
    requires Widths(keys, G.KeyWidth()) && Widths(values, G.KeyWidth())
    requires Holds(values, vs, Start(|keys|, t), t + 1)
    requires FullScores(A, G, y, h, ks, t) == RingScores(A, G, y, h, keys, t) + seq(|ks| - (t + 1), _ => NegInf)
    requires Softmax.Softmax(A, RingScores(A, G, y, h, keys, t)).Some?
    requires Softmax.Softmax(A, FullScores(A, G, y, h, ks, t)).Some?
    requires Softmax.Softmax(A, FullScores(A, G, y, h, ks, t)).value ==
             Softmax.Softmax(A, RingScores(A, G, y, h, keys, t)).value + seq(|ks| - (t + 1), _ => ZERO)
    requires BiasesFinite(A, G, y, h, t)
    ensures FullHead(A, G, y, h, ks, vs, t) == RingHead(A, G, y, h, keys, values, t)
  {
    hide BiasesFinite, Masked, Score, WeightedSum, RingSum, Softmax.Softmax;
    var scores := RingScores(A, G, y, h, keys, t);
    var p, q := Softmax.Softmax(A, FullScores(A, G, y, h, ks, t)).value, Softmax.Softmax(A, scores).value;
    var start, kv := Start(|keys|, t), G.KvHead(h);
    forall s | 0 <= s < start && s <= t
      ensures p[s] == ZERO
    {
      assert scores[s] == NegInf;
      Softmax.MaskedProbability(A, scores, s);
    }
    RowFits(kv, G.kvHeads, G.dim);
    var full, ring := FullHead(A, G, y, h, ks, vs, t), RingHead(A, G, y, h, keys, values, t);
    assert full.Some? && ring.Some?;
    forall j | 0 <= j < G.dim
      ensures full.value[j] == ring.value[j]
    {
      assert forall s :: 0 <= s < |vs| ==> AllFinite(vs[s]);
      SumsAgree(A, p, vs, q, values, Offset(kv, G.dim) + j, start, t + 1);
    }
    assert full.value == ring.value;
  }

  /** The heads of a token read from the ring are its heads in the full prefix, however long the prefix is. */
  lemma {:induction false} HeadsAgree(A: Arith, G: Geometry, y: Query, ks: seq<Row>, vs: seq<Row>, keys: seq<Row>,
                                      values: seq<Row>, contextCapacity: nat, t: nat, n: nat)
    requires Lawful(A) && G.Valid() && y.Fits(G) && n <= G.heads && t < |ks| == |vs| && t < contextCapacity
    requires |keys| == |values| == RingCapacity(G.window, contextCapacity)
    requires Widths(ks, G.KeyWidth()) && Widths(vs, G.KeyWidth()) && FiniteRows(vs)
    requires Widths(keys, G.KeyWidth()) && Widths(values, G.KeyWidth())
    requires Holds(keys, ks, Start(|keys|, t), t + 1) && Holds(values, vs, Start(|keys|, t), t + 1)
    ensures FullHeads(A, G, y, ks, vs, t, n) == RingHeads(A, G, y, keys, values, t, n)
  {
    hide FullHead, RingHead;
    if n == 0 {
    } else {
      HeadsAgree(A, G, y, ks, vs, keys, values, contextCapacity, t, n - 1);
      forall s | 0 <= s <= t
        ensures Masked(G, t, s) <==> s < Start(|keys|, t)
      {
        StartIsMask(G, contextCapacity, t, s);
      }
      HeadAgrees(A, G, y, n - 1, ks, vs, keys, values, t);
    }
  }

  // ---------- Causality of the full form ----------

  lemma {:induction false} SumPrefix(A: Arith, p: Row, vs: seq<Row>, p': Row, vs': seq<Row>, c: nat, hi: nat)
    requires hi <= |p| && hi <= |vs| && hi <= |p'| && hi <= |vs'|
    requires forall s :: 0 <= s < hi ==> c < |vs[s]| && p[s] == p'[s] && vs[s] == vs'[s]
    ensures WeightedSum(A, p, vs, c, 0, hi) == WeightedSum(A, p', vs', c, 0, hi)
  {
    hide Add, Mul;
    if hi == 0 {
    } else {
      SumPrefix(A, p, vs, p', vs', c, hi - 1);
    }
  }

  /** Tokens after `t` do not change its head: their scores are masked. */
  lemma HeadCausal(A: Arith, G: Geometry, y: Query, h: nat, ks: seq<Row>, vs: seq<Row>, ks': seq<Row>, vs': seq<Row>,
                   t: nat)
    requires Lawful(A) && G.Valid() && y.Fits(G) && h < G.heads && t < |ks| == |vs| && |ks'| == |vs'|
    requires ks <= ks' && vs <= vs'
    requires Widths(ks', G.KeyWidth()) && Widths(vs', G.KeyWidth())
    requires Widths(ks, G.KeyWidth()) && Widths(vs, G.KeyWidth())
    ensures FullHead(A, G, y, h, ks', vs', t) == FullHead(A, G, y, h, ks, vs, t)
  {
    hide BiasesFinite, Score, WeightedSum, Softmax.Softmax;
    var short, long := FullScores(A, G, y, h, ks, t), FullScores(A, G, y, h, ks', t);
    var extra := |ks'| - |ks|;
    assert long == short + seq(extra, _ => NegInf);
    Softmax.SoftmaxTrailingMasks(A, short, extra);
    if BiasesFinite(A, G, y, h, t) && Softmax.Softmax(A, short).Some? {
      var p, p' := Softmax.Softmax(A, short).value, Softmax.Softmax(A, long).value;
      var kv := G.KvHead(h);
      RowFits(kv, G.kvHeads, G.dim);
      var before, after := FullHead(A, G, y, h, ks, vs, t), FullHead(A, G, y, h, ks', vs', t);
      assert before.Some? && after.Some?;
      forall j | 0 <= j < G.dim
        ensures after.value[j] == before.value[j]
      {
        SumPrefix(A, p, vs, p', vs', Offset(kv, G.dim) + j, t + 1);
      }
      assert after.value == before.value;
    }
  }

  lemma {:induction false} HeadsCausal(A: Arith, G: Geometry, y: Query, ks: seq<Row>, vs: seq<Row>, ks': seq<Row>,
                                       vs': seq<Row>, t: nat, n: nat)
    requires Lawful(A) && G.Valid() && y.Fits(G) && n <= G.heads && t < |ks| == |vs| && |ks'| == |vs'|
    requires ks <= ks' && vs <= vs'
    requires Widths(ks', G.KeyWidth()) && Widths(vs', G.KeyWidth())
    requires Widths(ks, G.KeyWidth()) && Widths(vs, G.KeyWidth())
    ensures FullHeads(A, G, y, ks', vs', t, n) == FullHeads(A, G, y, ks, vs, t, n)
  {
    hide FullHead;
    if n == 0 {
    } else {
      HeadsCausal(A, G, y, ks, vs, ks', vs', t, n - 1);
      HeadCausal(A, G, y, n - 1, ks, vs, ks', vs', t);
    }
  }
}
