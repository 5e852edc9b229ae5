/** The model in its two loop orders.

    `Through` runs layer after layer over all tokens; `TokenThrough` runs one token through all layers.
    `TokenStep` exchanges the loops, and `ConsumeIsFull` lifts it to a whole prefix.
*/
module Forward {
  import opened Wrappers
  import opened Carrier
  import opened ShortConv
  import opened Attention
  import opened Layer

  /** A bound model.  `embed` reads and normalises the embedding row of a token id; `unembed` is the final
      norm, the logit scaling and the output projection. */
  datatype Model = Model(
    A: Arith, layers: seq<Layer>, hidden: nat, vocab: nat, width: nat, maxLength: nat, complete: bool,
    embed: nat -> Option<Row>, unembed: Row -> Option<Row>)
  {
    ghost predicate Valid() {
      && Lawful(A)
      && (forall l :: 0 <= l < |layers| ==> layers[l].Valid(hidden))
      && (forall id :: embed(id).Some? ==> |embed(id).value| == hidden)
      && Yields(unembed, width)
      && width <= vocab
    }

    function Capacity(contextCapacity: nat, l: nat): nat
      requires l < |layers|
    {
      RingCapacity(layers[l].G.window, contextCapacity)
    }
  }

  type Ids = seq<nat>

  // ---------- Layer by layer ----------

  ghost function EmbedAll(M: Model, ids: Ids): (r: Option<seq<Row>>)
    requires M.Valid()
    ensures r.Some? ==> |r.value| == |ids| && Widths(r.value, M.hidden)
  {
    if ids == [] then Some([])
    else
      var front :- EmbedAll(M, ids[..|ids| - 1]);
      var x :- M.embed(ids[|ids| - 1]);
      Some(front + [x])
  }

  /** The hidden rows of a prefix after the first `n` layers. */
  ghost function Through(M: Model, ids: Ids, n: nat): (r: Option<seq<Row>>)
    requires M.Valid() && n <= |M.layers|
    ensures r.Some? ==> |r.value| == |ids| && Widths(r.value, M.hidden)
  {
    if n == 0 then EmbedAll(M, ids)
    else
      var xs :- Through(M, ids, n - 1);
      FullLayer(M.A, M.layers[n - 1], M.hidden, xs)
  }

  /** The rows forward_rows returns: all of them, or the last one only. */
  ghost function FullForward(M: Model, ids: Ids, last: bool): (r: Option<seq<Row>>)
    requires M.Valid() && ids != []
    ensures r.Some? ==> |r.value| == (if last then 1 else |ids|) && Widths(r.value, M.width)
  {
    var xs :- Through(M, ids, |M.layers|);
    MapRows(M.unembed, if last then xs[|ids| - 1..] else xs)
  }

  // ---------- Token by token ----------

  ghost predicate StatesFit(M: Model, contextCapacity: nat, states: seq<LayerState>) {
    && |states| == |M.layers|
    && forall l :: 0 <= l < |states| ==> states[l].Fits(M.layers[l].G, M.hidden, M.Capacity(contextCapacity, l))
  }

  /** One token through layer `l`: its hidden row, and the states with that layer updated. */
  ghost function TokenAt(M: Model, C: nat, states: seq<LayerState>, t: nat, x: Row, l: nat)
    : (r: Option<(Row, seq<LayerState>)>)
    requires M.Valid() && StatesFit(M, C, states) && |x| == M.hidden && l < |M.layers|
    ensures r.Some? ==> |r.value.0| == M.hidden && StatesFit(M, C, r.value.1)
    ensures r.Some? ==> r.value.1[l + 1..] == states[l + 1..]
  {
    var (y, layer) :- TokenLayer(M.A, M.layers[l], M.hidden, states[l], t, x);
    Some((y, states[l := layer]))
  }

  /** One token through the first `n` layers: its hidden row, and the states with those layers updated. */
  ghost function TokenThrough(M: Model, C: nat, states: seq<LayerState>, t: nat, x: Row, n: nat)
    : (r: Option<(Row, seq<LayerState>)>)
    requires M.Valid() && StatesFit(M, C, states) && |x| == M.hidden && n <= |M.layers|
    ensures r.Some? ==> |r.value.0| == M.hidden && StatesFit(M, C, r.value.1)
    ensures r.Some? ==> r.value.1[n..] == states[n..]
  {
    if n == 0 then Some((x, states))
    else
      var (y, next) :- TokenThrough(M, C, states, t, x, n - 1);
      assert next[n - 1..][1..] == next[n..] && states[n - 1..][1..] == states[n..];
      TokenAt(M, C, next, t, y, n - 1)
  }

  /** One token: embed it and run it through every layer. */
  ghost function TokenForward(M: Model, C: nat, states: seq<LayerState>, t: nat, id: nat)
    : (r: Option<(Row, seq<LayerState>)>)
    requires M.Valid() && StatesFit(M, C, states)
    ensures r.Some? ==> |r.value.0| == M.hidden && StatesFit(M, C, r.value.1)
  {
    var x :- M.embed(id);
    TokenThrough(M, C, states, t, x, |M.layers|)
  }

  /** The tokens of a prompt one after the other from position 0: the last hidden row and the states. */
  ghost function Consume(M: Model, C: nat, states: seq<LayerState>, ids: Ids): (r: Option<(Row, seq<LayerState>)>)
    requires M.Valid() && StatesFit(M, C, states)
    ensures r.Some? ==> StatesFit(M, C, r.value.1) && (ids != [] ==> |r.value.0| == M.hidden)
  {
    if ids == [] then Some(([], states))
    else
      var (_, next) :- Consume(M, C, states, ids[..|ids| - 1]);
      TokenForward(M, C, next, |ids| - 1, ids[|ids| - 1])
  }

  // ---------- What the states mean ----------

  /** The states carry the prefix `ids`: each layer's state summarises that layer's input in the full pass. */
  ghost predicate Carries(M: Model, C: nat, ids: Ids, states: seq<LayerState>)
    requires M.Valid()
  {
    StatesFit(M, C, states) && Through(M, ids, |M.layers|).Some? && CarriesUpTo(M, C, ids, states, |states|)
  }

  ghost predicate CarriesUpTo(M: Model, C: nat, ids: Ids, states: seq<LayerState>, n: nat)
    requires M.Valid() && n <= |states| == |M.layers|
  {
    forall l :: 0 <= l < n ==> LayerCarries(M, C, ids, states, l)
  }

  ghost predicate LayerCarries(M: Model, C: nat, ids: Ids, states: seq<LayerState>, l: nat)
    requires M.Valid() && l < |states| == |M.layers|
  {
    && Through(M, ids, l).Some?
    && Summarises(M.A, M.layers[l], M.hidden, M.Capacity(C, l), Through(M, ids, l).value, states[l])
  }

  /** Histories at zero; the rings may hold anything. */
  ghost predicate Cleared(M: Model, C: nat, states: seq<LayerState>)
    requires M.Valid()
  {
    && StatesFit(M, C, states)
    && forall l :: 0 <= l < |states| ==>
         && states[l].keyHistory == states[l].valueHistory == Zeros(M.layers[l].G.KeyWidth())
         && states[l].attnHistory == states[l].mlpHistory == Zeros(M.hidden)
  }

  lemma {:induction false} ThroughNothing(M: Model, n: nat)
    requires M.Valid() && n <= |M.layers|
    ensures Through(M, [], n) == Some([])
  {
    hide Lawful, Yields;
    if n == 0 {
    } else {
      ThroughNothing(M, n - 1);
      NothingThroughLayer(M.A, M.layers[n - 1], M.hidden);
    }
  }

  lemma NothingThroughLayer(A: Arith, L: Layer, hidden: nat)
    requires L.Valid(hidden)
    ensures LayerStages(A, L, hidden, []) == Some(Stages([], [], [], []))
    ensures ProjectAll(A, L, hidden, []) == Some(Streams([], [], [], [], []))
  {
    var width := L.G.KeyWidth();
    assert Outputs(A, L.kConv, Zeros(width), []) == [] && Outputs(A, L.vConv, Zeros(width), []) == [];
    assert Outputs(A, L.attnConv, Zeros(hidden), []) == [] && Outputs(A, L.mlpConv, Zeros(hidden), []) == [];
  }

  /** A cleared state carries the empty prefix, whatever the rings hold. */
  lemma ClearedCarriesNothing(M: Model, C: nat, states: seq<LayerState>)
    requires M.Valid() && Cleared(M, C, states)
    ensures Carries(M, C, [], states)
  {
    hide Lawful, Yields;
    ThroughNothing(M, |M.layers|);
    forall l | 0 <= l < |states|
      ensures LayerCarries(M, C, [], states, l)
    {
      ThroughNothing(M, l);
      NothingThroughLayer(M.A, M.layers[l], M.hidden);
      assert states[l].Fits(M.layers[l].G, M.hidden, M.Capacity(C, l));
    }
  }

  // ---------- The loop exchange ----------

  /** One token through `n` layers agrees with the full pass over the longer prefix: it succeeds exactly when
      the full pass gets that far, gives its last row, and leaves the first `n` states carrying that prefix. */
  ghost predicate TokenAgrees(M: Model, C: nat, ids: Ids, states: seq<LayerState>, id: nat, n: nat)
    requires M.Valid() && StatesFit(M, C, states) && n <= |M.layers| && M.embed(id).Some?
  {
    var one, more := TokenThrough(M, C, states, |ids|, M.embed(id).value, n), Through(M, ids + [id], n);
    && (one.Some? <==> more.Some?)
    && (one.Some? ==> Through(M, ids, n).Some? && more.value == Through(M, ids, n).value + [one.value.0])
    && (one.Some? ==> CarriesUpTo(M, C, ids + [id], one.value.1, n))
  }

  lemma {:induction false} TokenStep(M: Model, C: nat, ids: Ids, states: seq<LayerState>, id: nat, n: nat)
    requires M.Valid() && Carries(M, C, ids, states) && |ids| < C && n <= |M.layers| && M.embed(id).Some?
    ensures TokenAgrees(M, C, ids, states, id, n)
  {
    hide TokenAgrees, TokenThrough, Through, LayerCarries, Lawful, Yields;
    if n == 0 {
      TokenStepNone(M, C, ids, states, id);
    } else {
      TokenStep(M, C, ids, states, id, n - 1);
      ThroughPrefix(M, ids, n - 1);
      ThroughPrefix(M, ids, n);
      TokenStepNext(M, C, ids, states, id, n - 1);
    }
  }

  lemma TokenStepNone(M: Model, C: nat, ids: Ids, states: seq<LayerState>, id: nat)
    requires M.Valid() && StatesFit(M, C, states) && Through(M, ids, |M.layers|).Some? && M.embed(id).Some?
    ensures TokenAgrees(M, C, ids, states, id, 0)
  {
    hide FullLayer, TokenLayer, LayerCarries, Lawful, Yields;
    ThroughPrefix(M, ids, 0);
    assert (ids + [id])[..|ids|] == ids;
  }

  lemma TokenStepNext(M: Model, C: nat, ids: Ids, states: seq<LayerState>, id: nat, l: nat)
    requires M.Valid() && StatesFit(M, C, states) && |ids| < C && l < |M.layers| && M.embed(id).Some?
    requires LayerCarries(M, C, ids, states, l) && TokenAgrees(M, C, ids, states, id, l)
    requires Through(M, ids, l).Some? && Through(M, ids, l + 1).Some?
    ensures TokenAgrees(M, C, ids, states, id, l + 1)
  {
    hide TokenLayer, FullLayer, LayerCarries, Lawful, Yields;
    var before := TokenThrough(M, C, states, |ids|, M.embed(id).value, l);
    if before.Some? {
      var (y, next) := before.value;
      assert next[l..][0] == states[l..][0];
      TokenStepLayer(M, C, ids, states, id, l, y, next);
      var one := TokenLayer(M.A, M.layers[l], M.hidden, next[l], |ids|, y);
      if one.Some? {
        CarriesNext(M, C, ids + [id], next, next[l := one.value.1], l);
      }
    }
  }

  lemma CarriesNext(M: Model, C: nat, ids: Ids, states: seq<LayerState>, states': seq<LayerState>, l: nat)
    requires M.Valid() && l < |states| == |states'| == |M.layers| && CarriesUpTo(M, C, ids, states, l)
    requires states'[..l] == states[..l] && LayerCarries(M, C, ids, states', l)
    ensures CarriesUpTo(M, C, ids, states', l + 1)
  {
    hide LayerCarries;
    forall i | 0 <= i < l + 1
      ensures LayerCarries(M, C, ids, states', i)
    {
      if i < l {
        assert states'[i] == states'[..l][i] == states[i];
        CarriesFrame(M, C, ids, states, states', i);
      }
    }
  }

  lemma CarriesFrame(M: Model, C: nat, ids: Ids, states: seq<LayerState>, states': seq<LayerState>, l: nat)
    requires M.Valid() && l < |states| == |states'| == |M.layers| && states[l] == states'[l]
    requires LayerCarries(M, C, ids, states, l)
    ensures LayerCarries(M, C, ids, states', l)
  {
    hide Summarises;
  }

  /** Layer `l` of the step. */
  lemma TokenStepLayer(M: Model, C: nat, ids: Ids, states: seq<LayerState>, id: nat, l: nat, y: Row,
                       next: seq<LayerState>)
    requires M.Valid() && StatesFit(M, C, states) && StatesFit(M, C, next) && |ids| < C && l < |M.layers|
    requires |y| == M.hidden && next[l] == states[l] && LayerCarries(M, C, ids, states, l)
    requires Through(M, ids, l + 1).Some?
    requires Through(M, ids + [id], l) == Some(Through(M, ids, l).value + [y])
    ensures var one, more := TokenLayer(M.A, M.layers[l], M.hidden, next[l], |ids|, y), Through(M, ids + [id], l + 1);
            && (one.Some? <==> more.Some?)
            && (one.Some? ==> more.value == Through(M, ids, l + 1).value + [one.value.0])
            && (one.Some? ==> LayerCarries(M, C, ids + [id], next[l := one.value.1], l))
  {
    hide TokenLayer, FullLayer, Summarises;
    LayerStep(M.A, M.layers[l], M.hidden, C, Through(M, ids, l).value, y, states[l]);
  }

  /** A prefix that passes every layer passes the first `n`. */
  lemma {:induction false} ThroughPrefix(M: Model, ids: Ids, n: nat)
    requires M.Valid() && n <= |M.layers| && Through(M, ids, |M.layers|).Some?
    ensures Through(M, ids, n).Some?
    decreases |M.layers| - n
  {
    hide Lawful, Yields, FullLayer;
    if n < |M.layers| {
      ThroughPrefix(M, ids, n + 1);
    }
  }

  /** One token from states that carry `ids`. */
  lemma TokenForwardStep(M: Model, C: nat, ids: Ids, states: seq<LayerState>, id: nat)
    requires M.Valid() && Carries(M, C, ids, states) && |ids| < C
    ensures var one, more := TokenForward(M, C, states, |ids|, id), Through(M, ids + [id], |M.layers|);
            && (one.Some? <==> more.Some?)
            && (one.Some? ==> more.value == Through(M, ids, |M.layers|).value + [one.value.0])
            && (one.Some? ==> Carries(M, C, ids + [id], one.value.1))
  {
    hide TokenThrough, LayerCarries;
    var longer := ids + [id];
    if M.embed(id).Some? {
      TokenStep(M, C, ids, states, id, |M.layers|);
    } else {
      assert longer[..|ids|] == ids;
      assert EmbedAll(M, longer).None?;
      ThroughFails(M, longer, |M.layers|);
    }
  }

  lemma {:induction false} ThroughFails(M: Model, ids: Ids, n: nat)
    requires M.Valid() && n <= |M.layers| && EmbedAll(M, ids).None?
    ensures Through(M, ids, n).None?
  {
    hide FullLayer;
    if n == 0 {
    } else {
      ThroughFails(M, ids, n - 1);
    }
  }

  /** Causality of the whole model: dropping the last token drops the last row and nothing else. */
  lemma {:induction false} ThroughFront(M: Model, ids: Ids, n: nat)
    requires M.Valid() && n <= |M.layers| && ids != [] && Through(M, ids, n).Some?
    ensures Through(M, Front(ids), n) == Some(Front(Through(M, ids, n).value))
  {
    hide FullLayer;
    if n == 0 {
    } else {
      ThroughFront(M, ids, n - 1);
      LayerFront(M.A, M.layers[n - 1], M.hidden, Through(M, ids, n - 1).value);
    }
  }

  /** The token-by-token pass over a prompt is the layer-by-layer pass: it succeeds on the same prompts, ends
      with the same last row, and leaves the states that carry the prompt. */
  lemma {:induction false} ConsumeIsFull(M: Model, C: nat, states: seq<LayerState>, ids: Ids)
    requires M.Valid() && Cleared(M, C, states) && |ids| <= C
    ensures var run, full := Consume(M, C, states, ids), Through(M, ids, |M.layers|);
            && (run.Some? <==> full.Some?)
            && (run.Some? ==> Carries(M, C, ids, run.value.1))
            && (run.Some? && ids != [] ==> full.value[|ids| - 1] == run.value.0)
  {
    hide TokenForward, LayerCarries;
    if ids == [] {
      ClearedCarriesNothing(M, C, states);
    } else {
      var front, last := Front(ids), ids[|ids| - 1];
      assert ids == front + [last];
      ConsumeIsFull(M, C, states, front);
      if Through(M, ids, |M.layers|).Some? {
        ThroughFront(M, ids, |M.layers|);
      }
      if Consume(M, C, states, front).Some? {
        TokenForwardStep(M, C, front, Consume(M, C, states, front).value.1, last);
      }
    }
  }
}
