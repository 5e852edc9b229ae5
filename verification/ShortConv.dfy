/** The depthwise causal convolution inkling_conv4.

    The meaning is given on rows (one row per token): `Conv` is the closed form over the carried
    history, `History` what the call leaves behind.  `Conv4` is the in-place loop over flat buffers.
*/
module ShortConv {
  import opened Wrappers
  import opened Arithmetic
  import opened Carrier

  /** The four taps of one channel, oldest first. */
  datatype Kernel = Kernel(k0: Float, k1: Float, k2: Float, k3: Float)

  predicate FiniteKernels(kernels: seq<Kernel>) {
    forall c :: 0 <= c < |kernels| ==>
      kernels[c].k0.Fin? && kernels[c].k1.Fin? && kernels[c].k2.Fin? && kernels[c].k3.Fin?
  }

  /** One output sample: the taps oldest first, then the input residual. */
  function Cell(A: Arith, k: Kernel, h0: Float, h1: Float, h2: Float, x: Float): Float {
    var s := Add(A.single, ZERO, Mul(A.single, h0, k.k0));
    var s := Add(A.single, s, Mul(A.single, h1, k.k1));
    var s := Add(A.single, s, Mul(A.single, h2, k.k2));
    var s := Add(A.single, s, Mul(A.single, x, k.k3));
    Add(A.single, s, x)
  }

  function CellRow(A: Arith, kernels: seq<Kernel>, h0: Row, h1: Row, h2: Row, x: Row): (r: Row)
    requires |h0| == |h1| == |h2| == |x| == |kernels|
    ensures |r| == |kernels|
  {
    seq(|kernels|, c requires 0 <= c < |kernels| => Cell(A, kernels[c], h0[c], h1[c], h2[c], x[c]))
  }

  /** Output row `t`, read from the inputs preceded by the three history rows. */
  function RowAt(A: Arith, kernels: seq<Kernel>, history: seq<Row>, xs: seq<Row>, t: nat): (r: Row)
    requires |history| == 3 && t < |xs|
    requires Widths(history, |kernels|) && Widths(xs, |kernels|)
    ensures |r| == |kernels|
  {
    var padded := history + xs;
    CellRow(A, kernels, padded[t], padded[t + 1], padded[t + 2], padded[t + 3])
  }

  function Outputs(A: Arith, kernels: seq<Kernel>, history: seq<Row>, xs: seq<Row>): (r: seq<Row>)
    requires |history| == 3
    requires Widths(history, |kernels|) && Widths(xs, |kernels|)
    ensures |r| == |xs| && Widths(r, |kernels|)
  {
    seq(|xs|, t requires 0 <= t < |xs| => RowAt(A, kernels, history, xs, t))
  }

  /** The convolution of a whole call, or None when a value on the way is not finite. */
  function Conv(A: Arith, kernels: seq<Kernel>, history: seq<Row>, xs: seq<Row>): (r: Option<seq<Row>>)
    requires |history| == 3
    requires Widths(history, |kernels|) && Widths(xs, |kernels|)
    ensures r.Some? ==> |r.value| == |xs| && Widths(r.value, |kernels|) && FiniteRows(r.value)
  {
    if FiniteRows(history) && FiniteRows(xs) && FiniteKernels(kernels) &&
       FiniteRows(Outputs(A, kernels, history, xs))
    then Some(Outputs(A, kernels, history, xs))
    else None
  }

  /** The last three inputs. */
  function History(history: seq<Row>, xs: seq<Row>): (r: seq<Row>)
    requires |history| == 3
    ensures |r| == 3
    ensures forall width :: Widths(history, width) && Widths(xs, width) ==> Widths(r, width)
  {
    (history + xs)[|xs|..]
  }

  // ---------- Chunking ----------

  /** Carrying the history across two calls is the same as one call on the concatenation. */
  lemma ConvChunks(A: Arith, kernels: seq<Kernel>, history: seq<Row>, xs: seq<Row>, ys: seq<Row>)
    requires |history| == 3
    requires Widths(history, |kernels|) && Widths(xs, |kernels|) && Widths(ys, |kernels|)
    ensures History(history, xs + ys) == History(History(history, xs), ys)
    ensures Conv(A, kernels, history, xs + ys).Some? <==>
              Conv(A, kernels, history, xs).Some? && Conv(A, kernels, History(history, xs), ys).Some?
    ensures Conv(A, kernels, history, xs + ys).Some? ==>
              Conv(A, kernels, history, xs + ys).value ==
              Conv(A, kernels, history, xs).value + Conv(A, kernels, History(history, xs), ys).value
  {
    var mid := History(history, xs);
    OutputChunks(A, kernels, history, xs, ys);
    var first, second := Outputs(A, kernels, history, xs), Outputs(A, kernels, mid, ys);
    FiniteConcat(xs, ys);
    FiniteConcat(first, second);
    assert mid == (history + xs)[|xs|..];
    assert FiniteRows(history) && FiniteRows(xs) ==> FiniteRows(mid);
  }

  lemma OutputChunks(A: Arith, kernels: seq<Kernel>, history: seq<Row>, xs: seq<Row>, ys: seq<Row>)
    requires |history| == 3
    requires Widths(history, |kernels|) && Widths(xs, |kernels|) && Widths(ys, |kernels|)
    ensures History(history, xs + ys) == History(History(history, xs), ys)
    ensures Outputs(A, kernels, history, xs + ys) ==
              Outputs(A, kernels, history, xs) + Outputs(A, kernels, History(history, xs), ys)
  {
    var mid := History(history, xs);
    var padded := history + (xs + ys);
    assert forall i :: 0 <= i < 3 + |ys| ==> (mid + ys)[i] == padded[|xs| + i];
    assert forall i :: 0 <= i < 3 + |xs| ==> (history + xs)[i] == padded[i];
    forall t | 0 <= t < |xs + ys|
      ensures Outputs(A, kernels, history, xs + ys)[t] ==
                (Outputs(A, kernels, history, xs) + Outputs(A, kernels, mid, ys))[t]
    {
      if t >= |xs| {
        var u := t - |xs|;
        assert padded[|xs| + u] == (mid + ys)[u];
        assert padded[|xs| + (u + 1)] == (mid + ys)[u + 1];
        assert padded[|xs| + (u + 2)] == (mid + ys)[u + 2];
        assert padded[|xs| + (u + 3)] == (mid + ys)[u + 3];
      }
    }
  }

  lemma FiniteConcat(xs: seq<Row>, ys: seq<Row>)
    ensures FiniteRows(xs + ys) <==> FiniteRows(xs) && FiniteRows(ys)
  {
    if FiniteRows(xs + ys) {
      forall t | 0 <= t < |xs| ensures AllFinite(xs[t]) {
        assert (xs + ys)[t] == xs[t];
      }
      forall t | 0 <= t < |ys| ensures AllFinite(ys[t]) {
        assert (xs + ys)[|xs| + t] == ys[t];
      }
    }
  }

  function Flatten(chunks: seq<seq<Row>>): (r: seq<Row>) {
    if chunks == [] then [] else Flatten(chunks[..|chunks| - 1]) + chunks[|chunks| - 1]
  }

  predicate ChunkWidths(chunks: seq<seq<Row>>, width: nat) {
    forall i :: 0 <= i < |chunks| ==> Widths(chunks[i], width)
  }

  lemma FlattenWidths(chunks: seq<seq<Row>>, width: nat)
    requires ChunkWidths(chunks, width)
    ensures Widths(Flatten(chunks), width)
  {
    if chunks != [] {
      FlattenWidths(chunks[..|chunks| - 1], width);
    }
  }

  /** A run of calls, one per chunk, each continuing with the history the one before left. */
  function ConvRun(A: Arith, kernels: seq<Kernel>, history: seq<Row>, chunks: seq<seq<Row>>)
    : (r: Option<(seq<Row>, seq<Row>)>)
    requires |history| == 3 && Widths(history, |kernels|) && ChunkWidths(chunks, |kernels|)
    ensures r.Some? ==> |r.value.1| == 3 && Widths(r.value.1, |kernels|)
  {
    if chunks == [] then Some(([], history))
    else
      var (out, h) :- ConvRun(A, kernels, history, chunks[..|chunks| - 1]);
      var more :- Conv(A, kernels, h, chunks[|chunks| - 1]);
      Some((out + more, History(h, chunks[|chunks| - 1])))
  }

  /** Any way of cutting a sequence into calls gives the outputs and the state of the single call. */
  lemma {:induction false} ConvRunIsOneCall(A: Arith, kernels: seq<Kernel>, history: seq<Row>, chunks: seq<seq<Row>>)
    requires |history| == 3 && Widths(history, |kernels|) && ChunkWidths(chunks, |kernels|)
    requires FiniteRows(history) && FiniteKernels(kernels)
    ensures Widths(Flatten(chunks), |kernels|)
    ensures var whole := Conv(A, kernels, history, Flatten(chunks));
            var run := ConvRun(A, kernels, history, chunks);
            && (run.Some? <==> whole.Some?)
            && (run.Some? ==> run.value == (whole.value, History(history, Flatten(chunks))))
  {
    FlattenWidths(chunks, |kernels|);
    if chunks == [] {
      assert History(history, []) == history;
      assert Outputs(A, kernels, history, []) == [];
    } else {
      var front, last := chunks[..|chunks| - 1], chunks[|chunks| - 1];
      FlattenWidths(front, |kernels|);
      ConvRunIsOneCall(A, kernels, history, front);
      ConvChunks(A, kernels, history, Flatten(front), last);
    }
  }

  // ---------- The loop over flat buffers ----------

  function RowOf(flat: Row, t: nat, tokens: nat, channels: nat): (r: Row)
    requires t < tokens && Offset(tokens, channels) <= |flat|
    ensures |r| == channels
  {
    RowFits(t, tokens, channels);
    flat[Offset(t, channels)..Offset(t, channels) + channels]
  }

  /** A `[tokens, channels]` buffer as rows. */
  function Rows(flat: Row, tokens: nat, channels: nat): (r: seq<Row>)
    requires Offset(tokens, channels) <= |flat|
    ensures |r| == tokens && Widths(r, channels)
  {
    seq(tokens, t requires 0 <= t < tokens => RowOf(flat, t, tokens, channels))
  }

  /** The `[channels, 3]` state as three rows. */
  function StateRows(state: Row, channels: nat): (r: seq<Row>)
    requires channels * 3 <= |state|
    ensures |r| == 3 && Widths(r, channels)
  {
    seq(3, i requires 0 <= i < 3 => seq(channels, c requires 0 <= c < channels => state[c * 3 + i]))
  }

  /** Sample `n` of channel `c`: the three state samples first, then the inputs. */
  function Sample(state: Row, xs: Row, channels: nat, tokens: nat, c: nat, n: nat): Float
    requires channels * 3 <= |state| && Offset(tokens, channels) <= |xs|
    requires c < channels && n < tokens + 3
  {
    if n < 3 then state[c * 3 + n]
    else
      RowFits(n - 3, tokens, channels);
      xs[Offset(n - 3, channels) + c]
  }

  lemma SampleIsPadded(state: Row, xs: Row, channels: nat, tokens: nat, c: nat, n: nat)
    requires channels * 3 <= |state| && Offset(tokens, channels) <= |xs|
    requires c < channels && n < tokens + 3
    ensures (StateRows(state, channels) + Rows(xs, tokens, channels))[n][c] ==
            Sample(state, xs, channels, tokens, c, n)
  {
    if n >= 3 {
      RowFits(n - 3, tokens, channels);
    }
  }

  function OutputAt(A: Arith, kernels: seq<Kernel>, state: Row, xs: Row, tokens: nat, t: nat, c: nat): Float
    requires |kernels| * 3 <= |state| && Offset(tokens, |kernels|) <= |xs|
    requires t < tokens && c < |kernels|
  {
    var n := |kernels|;
    Cell(A, kernels[c], Sample(state, xs, n, tokens, c, t), Sample(state, xs, n, tokens, c, t + 1),
         Sample(state, xs, n, tokens, c, t + 2), Sample(state, xs, n, tokens, c, t + 3))
  }

  /** What the flat loop writes at token `t`, channel `c` is the element of the row specification. */
  lemma OutputsMatch(A: Arith, kernels: seq<Kernel>, state: Row, xs: Row, tokens: nat, t: nat, c: nat)
    requires |kernels| * 3 <= |state| && Offset(tokens, |kernels|) <= |xs|
    requires t < tokens && c < |kernels|
    ensures Outputs(A, kernels, StateRows(state, |kernels|), Rows(xs, tokens, |kernels|))[t][c] ==
            OutputAt(A, kernels, state, xs, tokens, t, c)
  {
    hide Cell, Sample;
    var n := |kernels|;
    SampleIsPadded(state, xs, n, tokens, c, t);
    SampleIsPadded(state, xs, n, tokens, c, t + 1);
    SampleIsPadded(state, xs, n, tokens, c, t + 2);
    SampleIsPadded(state, xs, n, tokens, c, t + 3);
  }

  /** Rows are finite exactly when the flat buffer is. */
  lemma {:induction false} FiniteFlat(flat: Row, tokens: nat, channels: nat)
    requires Offset(tokens, channels) <= |flat|
    ensures FiniteRows(Rows(flat, tokens, channels)) <==> AllFinite(flat[..Offset(tokens, channels)])
  {
    if tokens == 0 {
    } else {
      var n, m := Offset(tokens - 1, channels), Offset(tokens, channels);
      FiniteFlat(flat, tokens - 1, channels);
      var rows, last := Rows(flat, tokens, channels), RowOf(flat, tokens - 1, tokens, channels);
      assert rows == Rows(flat, tokens - 1, channels) + [last];
      FiniteConcat(Rows(flat, tokens - 1, channels), [last]);
      assert FiniteRows([last]) <==> AllFinite([last][0]);
      assert flat[..m] == flat[..n] + last;
    }
  }

  lemma FiniteState(state: Row, channels: nat)
    requires channels * 3 <= |state|
    ensures FiniteRows(StateRows(state, channels)) <==> AllFinite(state[..channels * 3])
  {
    var rows := StateRows(state, channels);
    if FiniteRows(rows) {
      forall i | 0 <= i < channels * 3 ensures state[i].Fin? {
        var c, j := i / 3, i % 3;
        assert AllFinite(rows[j]) && rows[j][c] == state[i];
      }
    }
  }

  /** The three state samples of channel `c` are samples `n`, `n + 1` and `n + 2`. */
  predicate ChannelCarries(state: Row, state0: Row, xs0: Row, channels: nat, tokens: nat, c: nat, n: nat)
    requires channels * 3 <= |state0| && channels * 3 <= |state| && Offset(tokens, channels) <= |xs0|
    requires c < channels && n <= tokens
  {
    && state[c * 3] == Sample(state0, xs0, channels, tokens, c, n)
    && state[c * 3 + 1] == Sample(state0, xs0, channels, tokens, c, n + 1)
    && state[c * 3 + 2] == Sample(state0, xs0, channels, tokens, c, n + 2)
  }

  predicate ChannelsCarry(state: Row, state0: Row, xs0: Row, channels: nat, tokens: nat, lo: nat, hi: nat, n: nat)
    requires channels * 3 <= |state0| && channels * 3 <= |state| && Offset(tokens, channels) <= |xs0|
    requires hi <= channels && n <= tokens
  {
    forall c :: lo <= c < hi ==> ChannelCarries(state, state0, xs0, channels, tokens, c, n)
  }

  /** When every channel carries sample `tokens`, the state is the history of the call. */
  lemma CarriedState(state: Row, state0: Row, xs0: Row, channels: nat, tokens: nat)
    requires channels * 3 <= |state0| && channels * 3 <= |state| && Offset(tokens, channels) <= |xs0|
    requires ChannelsCarry(state, state0, xs0, channels, tokens, 0, channels, tokens)
    ensures StateRows(state, channels) == History(StateRows(state0, channels), Rows(xs0, tokens, channels))
  {
    var left, right := StateRows(state, channels), History(StateRows(state0, channels), Rows(xs0, tokens, channels));
    forall i | 0 <= i < 3 ensures left[i] == right[i] {
      forall c | 0 <= c < channels ensures left[i][c] == right[i][c] {
        CarriedSample(state, state0, xs0, channels, tokens, c, i);
      }
    }
  }

  lemma CarriedSample(state: Row, state0: Row, xs0: Row, channels: nat, tokens: nat, c: nat, i: nat)
    requires channels * 3 <= |state0| && channels * 3 <= |state| && Offset(tokens, channels) <= |xs0|
    requires c < channels && i < 3 && ChannelCarries(state, state0, xs0, channels, tokens, c, tokens)
    ensures StateRows(state, channels)[i][c] ==
            History(StateRows(state0, channels), Rows(xs0, tokens, channels))[i][c]
  {
    hide Sample;
    var n := tokens + i;
    SampleIsPadded(state0, xs0, channels, tokens, c, n);
    assert state[c * 3 + i] == Sample(state0, xs0, channels, tokens, c, n);
    assert StateRows(state, channels)[i][c] == state[c * 3 + i];
  }

  lemma InitiallyCarried(state0: Row, xs0: Row, channels: nat, tokens: nat)
    requires channels * 3 <= |state0| && Offset(tokens, channels) <= |xs0|
    ensures ChannelsCarry(state0, state0, xs0, channels, tokens, 0, channels, 0)
  {
  }

  method FinitePrefix(a: array<Float>, n: nat) returns (finite: bool)
    requires n <= a.Length
    ensures finite <==> AllFinite(a[..n])
  {
    for i := 0 to n
      invariant AllFinite(a[..i])
    {
      if !a[i].Fin? {
        assert !AllFinite(a[..n]) by { assert a[..n][i] == a[i]; }
        return false;
      }
    }
    finite := true;
  }

  method FiniteTaps(kernels: seq<Kernel>) returns (finite: bool)
    ensures finite <==> FiniteKernels(kernels)
  {
    for c := 0 to |kernels|
      invariant FiniteKernels(kernels[..c])
    {
      if !(kernels[c].k0.Fin? && kernels[c].k1.Fin? && kernels[c].k2.Fin? && kernels[c].k3.Fin?) {
        return false;
      }
    }
    assert kernels[..|kernels|] == kernels;
    finite := true;
  }

  /** Drop the oldest sample of channel `c` and append the current input. */
  method ShiftState(state: array<Float>, c: nat, current: Float, ghost n: nat, ghost tokens: nat, ghost t: nat,
                    ghost state0: Row, ghost xs0: Row)
    requires c < n && n * 3 <= state.Length && |state0| == state.Length && Offset(tokens, n) <= |xs0| && t < tokens
    requires ChannelsCarry(state[..], state0, xs0, n, tokens, 0, c, t + 1)
    requires ChannelsCarry(state[..], state0, xs0, n, tokens, c, n, t)
    requires current == Sample(state0, xs0, n, tokens, c, t + 3)
    modifies state
    ensures ChannelsCarry(state[..], state0, xs0, n, tokens, 0, c + 1, t + 1)
    ensures ChannelsCarry(state[..], state0, xs0, n, tokens, c + 1, n, t)
  {
    ghost var before, next := state[..], t + 1;
    assert ChannelCarries(before, state0, xs0, n, tokens, c, t);
    state[c * 3] := state[c * 3 + 1];
    state[c * 3 + 1] := state[c * 3 + 2];
    state[c * 3 + 2] := current;
    ghost var after := state[..];
    assert ChannelCarries(after, state0, xs0, n, tokens, c, next);
    forall d | 0 <= d < c ensures ChannelCarries(after, state0, xs0, n, tokens, d, next) {
      assert ChannelCarries(before, state0, xs0, n, tokens, d, next);
    }
    forall d | c + 1 <= d < n ensures ChannelCarries(after, state0, xs0, n, tokens, d, t) {
      assert ChannelCarries(before, state0, xs0, n, tokens, d, t);
    }
  }

  /** One channel of one token: compute the sum and, when it is finite, shift the state. */
  method ConvChannel(A: Arith, x: array<Float>, ghost tokens: nat, ghost t: nat, base: nat, c: nat,
                     kernels: seq<Kernel>, state: array<Float>, ghost state0: Row,
                     ghost xs0: Row) returns (sum: Float)
    requires t < tokens && c < |kernels| && base == Offset(t, |kernels|)
    requires |state0| == state.Length && |xs0| == x.Length
    requires Offset(tokens, |kernels|) <= x.Length && base + |kernels| <= Offset(tokens, |kernels|)
    requires |kernels| * 3 <= state.Length && state != x
    requires ChannelsCarry(state[..], state0, xs0, |kernels|, tokens, 0, c, t + 1)
    requires ChannelsCarry(state[..], state0, xs0, |kernels|, tokens, c, |kernels|, t)
    requires x[base + c] == xs0[base + c]
    modifies state
    ensures sum == Outputs(A, kernels, StateRows(state0, |kernels|), Rows(xs0, tokens, |kernels|))[t][c]
    ensures sum.Fin? ==> ChannelsCarry(state[..], state0, xs0, |kernels|, tokens, 0, c + 1, t + 1)
    ensures sum.Fin? ==> ChannelsCarry(state[..], state0, xs0, |kernels|, tokens, c + 1, |kernels|, t)
  {
    hide Cell, ChannelCarries, Outputs;
    var current := x[base + c];
    ReadState(state[..], c, current, kernels, A, tokens, t, state0, xs0);
    OutputsMatch(A, kernels, state0, xs0, tokens, t, c);
    sum := Cell(A, kernels[c], state[c * 3], state[c * 3 + 1], state[c * 3 + 2], current);
    if sum.Fin? {
      ShiftState(state, c, current, |kernels|, tokens, t, state0, xs0);
    }
  }

  /** One token of the loop: all channels of the row that starts at `base`. */
  method ConvToken(A: Arith, x: array<Float>, ghost tokens: nat, ghost t: nat, base: nat, kernels: seq<Kernel>,
                   state: array<Float>, out: array<Float>, ghost state0: Row, ghost xs0: Row) returns (ok: bool)
    requires t < tokens && base == Offset(t, |kernels|) && base + |kernels| <= Offset(tokens, |kernels|)
    requires |state0| == state.Length && |xs0| == x.Length
    requires Offset(tokens, |kernels|) <= x.Length && Offset(tokens, |kernels|) <= out.Length
    requires |kernels| * 3 <= state.Length && state != x && state != out
    requires ChannelsCarry(state[..], state0, xs0, |kernels|, tokens, 0, |kernels|, t)
    requires forall i :: base <= i < base + |kernels| ==> x[i] == xs0[i]
    modifies state, out
    ensures forall i :: 0 <= i < out.Length && !(base <= i < base + |kernels|) ==> out[i] == old(out[i])
    ensures var row := Outputs(A, kernels, StateRows(state0, |kernels|), Rows(xs0, tokens, |kernels|))[t];
            && (ok <==> AllFinite(row))
            && (ok ==> out[base..base + |kernels|] == row)
    ensures ok ==> ChannelsCarry(state[..], state0, xs0, |kernels|, tokens, 0, |kernels|, t + 1)
  {
    hide Outputs, ChannelCarries, StateRows, Rows;
    ghost var n := |kernels|;
    ghost var row := Outputs(A, kernels, StateRows(state0, n), Rows(xs0, tokens, n))[t];
    for c := 0 to |kernels|
      invariant ChannelsCarry(state[..], state0, xs0, n, tokens, 0, c, t + 1)
      invariant ChannelsCarry(state[..], state0, xs0, n, tokens, c, n, t)
      invariant forall i :: base + c <= i < base + n ==> x[i] == xs0[i]
      invariant out[base..base + c] == row[..c] && AllFinite(row[..c])
      invariant forall i :: 0 <= i < out.Length && !(base <= i < base + c) ==> out[i] == old(out[i])
    {
      var sum := ConvChannel(A, x, tokens, t, base, c, kernels, state, state0, xs0);
      if !sum.Fin? {
        assert !row[c].Fin?;
        return false;
      }
      out[base + c] := sum;
      assert row[..c + 1] == row[..c] + [sum];
    }
    assert row[..n] == row;
    ok := true;
  }

  /** The loop body computes the specified cell from what the state carries. */
  lemma ReadState(state: Row, c: nat, current: Float, kernels: seq<Kernel>, A: Arith, tokens: nat, t: nat,
                  state0: Row, xs0: Row)
    requires c < |kernels| && |kernels| * 3 <= |state| == |state0|
    requires Offset(tokens, |kernels|) <= |xs0| && t < tokens
    requires Offset(t, |kernels|) + c < |xs0| && current == xs0[Offset(t, |kernels|) + c]
    requires ChannelsCarry(state, state0, xs0, |kernels|, tokens, c, |kernels|, t)
    ensures current == Sample(state0, xs0, |kernels|, tokens, c, t + 3)
    ensures Cell(A, kernels[c], state[c * 3], state[c * 3 + 1], state[c * 3 + 2], current) ==
            OutputAt(A, kernels, state0, xs0, tokens, t, c)
  {
    assert ChannelCarries(state, state0, xs0, |kernels|, tokens, c, t);
  }

  /** The loop over tokens, after the finiteness checks. */
  method ConvTokens(A: Arith, x: array<Float>, tokens: nat, kernels: seq<Kernel>, state: array<Float>,
                    out: array<Float>) returns (ok: bool)
    requires Offset(tokens, |kernels|) <= x.Length && Offset(tokens, |kernels|) <= out.Length
    requires |kernels| * 3 <= state.Length && state != x && state != out
    modifies state, out
    ensures forall i :: Offset(tokens, |kernels|) <= i < out.Length ==> out[i] == old(out[i])
    ensures var outputs := Outputs(A, kernels, StateRows(old(state[..]), |kernels|),
                                   Rows(old(x[..]), tokens, |kernels|));
            && (ok <==> FiniteRows(outputs))
            && (ok ==> Rows(out[..], tokens, |kernels|) == outputs)
    ensures ok ==> ChannelsCarry(state[..], old(state[..]), old(x[..]), |kernels|, tokens, 0, |kernels|, tokens)
  {
    hide Outputs, ChannelCarries;
    var n := |kernels|;
    ghost var state0, xs0 := state[..], x[..];
    ghost var outputs := Outputs(A, kernels, StateRows(state0, n), Rows(xs0, tokens, n));
    InitiallyCarried(state0, xs0, n, tokens);
    var base := 0;
    for t := 0 to tokens
      invariant base == Offset(t, n) <= Offset(tokens, n)
      invariant ChannelsCarry(state[..], state0, xs0, n, tokens, 0, n, t)
      invariant forall i :: base <= i < Offset(tokens, n) ==> x[i] == xs0[i]
      invariant Rows(out[..], t, n) == outputs[..t] && FiniteRows(outputs[..t])
      invariant forall i :: Offset(tokens, n) <= i < out.Length ==> out[i] == old(out[i])
    {
      RowFits(t, tokens, n);
      ghost var before := out[..];
      var written := ConvToken(A, x, tokens, t, base, kernels, state, out, state0, xs0);
      if !written {
        return false;
      }
      RowAppended(before, out[..], t, n);
      base := base + n;
    }
    assert outputs[..tokens] == outputs;
    ok := true;
  }

  /** Writing row `t` leaves the rows before it alone. */
  lemma RowAppended(before: Row, out: Row, t: nat, channels: nat)
    requires Offset(t, channels) + channels <= |before| == |out|
    requires forall i :: 0 <= i < Offset(t, channels) ==> out[i] == before[i]
    ensures Offset(t + 1, channels) == Offset(t, channels) + channels
    ensures Rows(out, t + 1, channels) ==
            Rows(before, t, channels) + [out[Offset(t, channels)..Offset(t, channels) + channels]]
  {
    forall u | 0 <= u < t ensures RowOf(out, u, t + 1, channels) == RowOf(before, u, t, channels) {
      RowFits(u, t, channels);
    }
  }

  /** inkling_conv4.  `out` may be `x` itself; the state is a buffer of its own. */
  method Conv4(A: Arith, x: array<Float>, tokens: nat, kernels: seq<Kernel>, state: array<Float>,
               out: array<Float>) returns (ok: bool)
    requires Offset(tokens, |kernels|) <= x.Length && Offset(tokens, |kernels|) <= out.Length
    requires |kernels| * 3 <= state.Length && state != x && state != out
    modifies state, out
    ensures ok <==>
            (tokens > 0 && |kernels| > 0 &&
             Conv(A, kernels, StateRows(old(state[..]), |kernels|), Rows(old(x[..]), tokens, |kernels|)).Some?)
    ensures ok ==>
              Rows(out[..], tokens, |kernels|) ==
              Conv(A, kernels, StateRows(old(state[..]), |kernels|), Rows(old(x[..]), tokens, |kernels|)).value
    ensures ok ==>
              StateRows(state[..], |kernels|) ==
              History(StateRows(old(state[..]), |kernels|), Rows(old(x[..]), tokens, |kernels|))
    ensures forall i :: Offset(tokens, |kernels|) <= i < out.Length ==> out[i] == old(out[i])
  {
    var n := |kernels|;
    if tokens == 0 || n == 0 {
      return false;
    }
    ghost var state0, xs0 := state[..], x[..];
    FiniteFlat(xs0, tokens, n);
    FiniteState(state0, n);
    assert xs0[..Offset(tokens, n)] == x[..Offset(tokens, n)] && state0[..n * 3] == state[..n * 3];
    var xFinite := FinitePrefix(x, Offset(tokens, n));
    var tapsFinite := FiniteTaps(kernels);
    var stateFinite := FinitePrefix(state, n * 3);
    if !xFinite || !tapsFinite || !stateFinite {
      return false;
    }
    ok := ConvTokens(A, x, tokens, kernels, state, out);
    if ok {
      CarriedState(state[..], state0, xs0, n, tokens);
    }
  }
}
