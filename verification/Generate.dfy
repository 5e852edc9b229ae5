/** Generation: sample a token, append it, ask for the next row.

    `Replay` recomputes the full prefix for every token.  The method `Generate` follows the C loop, which
    either does the same or prefills once and then decodes; it is proved to return what `Replay` returns in
    both modes, or to fail when a fault hits one of its calls.
*/
module Generate {
  import opened Wrappers
  import opened Carrier
  import opened Layer
  import opened Forward
  import opened Sequence
  import opened Runtime
  import opened Counters

  datatype Options = Options(maxNewTokens: nat, temperature: real, topK: nat, topP: real, seed: nat)

  datatype StopReason = StopLength | StopContext | StopEos

  /** The generated ids, why generation stopped, and the sampler state it ended with. */
  datatype Generation = Generation(ids: Ids, stop: StopReason, state: nat)

  /** Sampling as a deterministic step: a logit row, the effective options and the sampler state give an id
      below the width and the next state, or fail. */
  datatype Sampler = Sampler(sample: (Row, Options, nat) -> Option<(nat, nat)>, eos: nat) {
    ghost predicate Valid(width: nat) {
      forall row, options, state ::
        sample(row, options, state).Some? && |row| == width ==> sample(row, options, state).value.0 < width
    }
  }

  /** inkling_generate_options. */
  function Normalise(options: Options, width: nat): (r: Option<Options>)
    ensures r.Some? ==> 1 <= r.value.topK <= width
  {
    if width == 0 || width > UINT32_MAX || options.temperature < 0.0 || options.topP <= 0.0 || options.topP > 1.0
    then None
    else if options.temperature == 0.0 then Some(options.(temperature := 0.0, topK := 1, topP := 1.0))
    else if options.topK == 0 || options.topK > width then Some(options.(topK := width))
    else Some(options)
  }

  /** Which options are accepted and what becomes of them: temperature 0 takes the best token, whatever filters were
      asked for; a count of 0 or beyond the width means all tokens. */
  lemma Normalised(options: Options, width: nat)
    ensures Normalise(options, width).Some? <==>
              0 < width <= 0xFFFF_FFFF && options.temperature >= 0.0 && 0.0 < options.topP <= 1.0
    ensures Normalise(options, width).Some? && options.temperature == 0.0 ==>
              Normalise(options, width).value == Options(options.maxNewTokens, 0.0, 1, 1.0, options.seed)
    ensures Normalise(options, width).Some? && options.temperature > 0.0 ==>
              var r := Normalise(options, width).value;
              && r == options.(topK := r.topK)
              && (if 1 <= options.topK <= width then r.topK == options.topK else r.topK == width)
  {
  }

  /** The samplers agree when one token is kept and no mass is cut off. */
  ghost predicate AgreeOnBest(a: Sampler, b: Sampler) {
    a.eos == b.eos
    && forall row, options: Options, state ::
         options.topK == 1 && options.topP == 1.0 ==> a.sample(row, options, state) == b.sample(row, options, state)
  }

  lemma {:induction false} BestReplay(S: Setup, a: Sampler, b: Sampler, effective: Options, prompt: Ids, required: nat,
                                      generated: Ids, state: nat)
    requires S.Valid() && prompt != [] && |generated| <= required && AgreeOnBest(a, b)
    requires effective.topK == 1 && effective.topP == 1.0
    ensures Replay(S, a, effective, prompt, required, generated, state) ==
            Replay(S, b, effective, prompt, required, generated, state)
    decreases required - |generated|
  {
    hide LastRow;
    if |generated| < required && LastRow(S, prompt + generated).Success? {
      var row := LastRow(S, prompt + generated).rows[0];
      assert a.sample(row, effective, state) == b.sample(row, effective, state);
      var sampled := a.sample(row, effective, state);
      if sampled.Some? {
        var (token, next) := sampled.value;
        if token != a.eos && |generated| + 1 != effective.maxNewTokens {
          BestReplay(S, a, b, effective, prompt, required, generated + [token], next);
        }
      }
    }
  }

  /** At temperature 0 every sample of a run keeps one token and cuts nothing off, and the filters asked for do not
      matter. */
  lemma GreedyRun(S: Setup, a: Sampler, b: Sampler, prompt: Ids, options: Options, other: Options, room: nat)
    requires S.Valid() && AgreeOnBest(a, b) && options.temperature == 0.0
    requires 0.0 < options.topP <= 1.0 && 0.0 < other.topP <= 1.0
    requires other == options.(topK := other.topK, topP := other.topP)
    ensures GenerateSpec(S, a, prompt, options, room) == GenerateSpec(S, b, prompt, other, room)
  {
    hide Replay;
    Normalised(options, S.M.width);
    Normalised(other, S.M.width);
    if Accepts(S.M, S.capacity, prompt, options, room) {
      BestReplay(S, a, b, Normalise(options, S.M.width).value, prompt,
                 Required(S.M, S.capacity, prompt, options), [], options.seed);
    }
  }

  function Min(a: nat, b: nat): nat {
    if a < b then a else b
  }

  /** How many tokens fit: the prompt and the generated ids together. */
  function Usable(M: Model, capacity: nat): nat {
    var longest := if M.complete then M.maxLength else 0;
    Min(capacity, longest)
  }

  function Required(M: Model, capacity: nat, prompt: Ids, options: Options): nat
    requires |prompt| <= Usable(M, capacity)
  {
    Min(Usable(M, capacity) - |prompt|, options.maxNewTokens)
  }

  /** The checks before the loop; `room` is the caller's output capacity. */
  predicate Accepts(M: Model, capacity: nat, prompt: Ids, options: Options, room: nat) {
    && M.complete && prompt != [] && Normalise(options, M.width).Some?
    && |prompt| + options.maxNewTokens <= SIZE_MAX
    && |prompt| <= Usable(M, capacity)
    && room >= Required(M, capacity, prompt, options)
    && KnownIds(M, prompt)
  }

  // ---------- The reference ----------

  /** Generate from here on, recomputing the full prefix for every token. */
  ghost function Replay(S: Setup, sampler: Sampler, effective: Options, prompt: Ids, required: nat, generated: Ids,
                        state: nat): (r: Option<Generation>)
    requires S.Valid() && prompt != [] && |generated| <= required
    decreases required - |generated|
  {
    if |generated| == required then Some(Generation(generated, StopContext, state))
    else
      match LastRow(S, prompt + generated)
      case Failure => None
      case Success(rows) =>
        var (token, next) :- sampler.sample(rows[0], effective, state);
        var more := generated + [token];
        if token == sampler.eos then Some(Generation(more, StopEos, next))
        else if |more| == effective.maxNewTokens then Some(Generation(more, StopLength, next))
        else Replay(S, sampler, effective, prompt, required, more, next)
  }

  /** inkling_generate: None on failure. */
  ghost function GenerateSpec(S: Setup, sampler: Sampler, prompt: Ids, options: Options, room: nat): Option<Generation>
    requires S.Valid()
  {
    if !Accepts(S.M, S.capacity, prompt, options, room) then None
    else if options.maxNewTokens == 0 then Some(Generation([], StopLength, options.seed))
    else
      Replay(S, sampler, Normalise(options, S.M.width).value, prompt,
             Required(S.M, S.capacity, prompt, options), [], options.seed)
  }

  // ---------- What generation promises ----------

  predicate NoEos(ids: Ids, eos: nat) {
    forall i :: 0 <= i < |ids| ==> ids[i] != eos
  }

  /** The stop rules: a generated EOS is kept and ends the run; otherwise the requested count; otherwise the
      context.  Nothing before the last id is an EOS. */
  predicate StopsRight(g: Generation, eos: nat, required: nat, maxNew: nat) {
    && |g.ids| <= required
    && (g.ids != [] ==> NoEos(g.ids[..|g.ids| - 1], eos))
    && (g.stop == StopEos <==> g.ids != [] && g.ids[|g.ids| - 1] == eos)
    && (g.stop == StopLength <==> g.stop != StopEos && |g.ids| == maxNew)
    && (g.stop == StopContext <==> g.stop != StopEos && |g.ids| == required < maxNew)
  }

  lemma {:induction false} ReplayStops(S: Setup, sampler: Sampler, effective: Options, prompt: Ids, required: nat,
                                       generated: Ids, state: nat)
    requires S.Valid() && prompt != [] && |generated| <= required <= effective.maxNewTokens
    requires |generated| < effective.maxNewTokens && NoEos(generated, sampler.eos)
    ensures var g := Replay(S, sampler, effective, prompt, required, generated, state);
            g.Some? ==> StopsRight(g.value, sampler.eos, required, effective.maxNewTokens)
    decreases required - |generated|
  {
    hide LastRow;
    if |generated| < required && LastRow(S, prompt + generated).Success? {
      var sampled := sampler.sample(LastRow(S, prompt + generated).rows[0], effective, state);
      if sampled.Some? {
        var (token, next) := sampled.value;
        var more := generated + [token];
        if token != sampler.eos && |more| < effective.maxNewTokens {
          ReplayStops(S, sampler, effective, prompt, required, more, next);
        }
      }
    }
  }

  /** Stops follow EOS > length > context, and the run never outgrows the usable length. */
  lemma GenerationStops(S: Setup, sampler: Sampler, prompt: Ids, options: Options, room: nat)
    requires S.Valid() && GenerateSpec(S, sampler, prompt, options, room).Some?
    ensures var g := GenerateSpec(S, sampler, prompt, options, room).value;
            && |prompt| <= Usable(S.M, S.capacity)
            && StopsRight(g, sampler.eos, Required(S.M, S.capacity, prompt, options), options.maxNewTokens)
            && |prompt| + |g.ids| <= Usable(S.M, S.capacity) && |g.ids| <= room
            && |prompt| + |g.ids| <= S.capacity && |prompt| + |g.ids| <= S.M.maxLength
            && (g.stop == StopContext ==> |prompt| + |g.ids| == S.capacity || |prompt| + |g.ids| == S.M.maxLength)
  {
    if options.maxNewTokens > 0 {
      var required := Required(S.M, S.capacity, prompt, options);
      ReplayStops(S, sampler, Normalise(options, S.M.width).value, prompt, required, [], options.seed);
    }
  }

  /** The mode of the context does not enter into the answer. */
  lemma {:induction false} ReplayIgnoresMode(M: Model, capacity: nat, sampler: Sampler, effective: Options,
                                             prompt: Ids, required: nat, generated: Ids, state: nat)
    requires Setup(M, capacity, true).Valid() && prompt != [] && |generated| <= required
    ensures Setup(M, capacity, false).Valid()
    ensures Replay(Setup(M, capacity, true), sampler, effective, prompt, required, generated, state) ==
            Replay(Setup(M, capacity, false), sampler, effective, prompt, required, generated, state)
    decreases required - |generated|
  {
    hide FullForward;
    var S := Setup(M, capacity, true);
    if |generated| < required && LastRow(S, prompt + generated).Success? {
      var sampled := sampler.sample(LastRow(S, prompt + generated).rows[0], effective, state);
      if sampled.Some? {
        var (token, next) := sampled.value;
        if token != sampler.eos && |generated| + 1 != effective.maxNewTokens {
          ReplayIgnoresMode(M, capacity, sampler, effective, prompt, required, generated + [token], next);
        }
      }
    }
  }

  /** Incremental and full-prefix generation give the same ids, stop reason and final sampler state, and fail
      on the same calls. */
  lemma ModesAgree(M: Model, capacity: nat, sampler: Sampler, prompt: Ids, options: Options, room: nat)
    requires Setup(M, capacity, true).Valid()
    ensures Setup(M, capacity, false).Valid()
    ensures GenerateSpec(Setup(M, capacity, true), sampler, prompt, options, room) ==
            GenerateSpec(Setup(M, capacity, false), sampler, prompt, options, room)
  {
    hide Replay;
    if Accepts(M, capacity, prompt, options, room) {
      ReplayIgnoresMode(M, capacity, sampler, Normalise(options, M.width).value, prompt,
                        Required(M, capacity, prompt, options), [], options.seed);
    }
  }

  // ---------- How many tokens are processed ----------

  /** Tokens run through the layers to generate `g` ids from `p` prompt ids. */
  function Work(incremental: bool, p: nat, g: nat): nat
    requires p > 0
  {
    if g == 0 then 0
    else if incremental then p + g - 1
    else Work(incremental, p, g - 1) + p + (g - 1)
  }

  /** p + g - 1 incrementally, g·p + g(g - 1)/2 with full recomputation. */
  lemma {:induction false} WorkClosedForm(p: nat, g: nat)
    requires p > 0
    ensures g > 0 ==> Work(true, p, g) == p + g - 1
    ensures Work(false, p, g) == g * p + g * (g - 1) / 2
  {
    if g == 0 {
    } else {
      WorkClosedForm(p, g - 1);
      assert g * p == (g - 1) * p + p;
      assert g * (g - 1) == (g - 1) * (g - 2) + 2 * (g - 1);
    }
  }

  // ---------- The loop ----------

  /** The recomputed row, or a failure that a fault may have caused. */
  ghost predicate Answered(S: Setup, prefix: Ids, faults: Faults, out: Outcome)
    requires S.Valid() && prefix != []
  {
    out == LastRow(S, prefix) || (out.Failure? && !faults.None())
  }

  /** No fault hits any call of a generation; `faults(g)` are those of the call for the id with index `g`. */
  ghost predicate Undisturbed(faults: nat -> Faults) {
    forall g: nat :: faults(g).None()
  }

  /** Ask for the row after the prefix: a full pass, or a prefill for the first id and decodes after it. */
  method NextRow(c: Context, prompt: Ids, generated: Ids, faults: Faults) returns (out: Outcome)
    requires c.Valid() && prompt != [] && |prompt| + |generated| <= c.S.capacity
    requires c.S.M.complete && KnownIds(c.S.M, prompt + generated)
    requires generated != [] ==> Represents(c.S, c.View(), Previous(c.S, prompt, generated))
    modifies c.Repr
    ensures c.Valid() && Answered(c.S, prompt + generated, faults, out)
    ensures out.Success? ==> Represents(c.S, c.View(), Previous(c.S, prompt, generated + [0]))
    ensures out.Success? ==>
              c.tokensProcessed == Saturate(old(c.tokensProcessed) +
                                            (if c.S.incremental && generated != [] then 1 else |prompt| + |generated|))
  {
    hide Answered, Represents, KnownIds;
    assert (generated + [0])[..|generated|] == generated;
    if !c.S.incremental {
      out := FullRow(c, prompt + generated, faults);
    } else if generated == [] {
      assert prompt + generated == prompt;
      out := FirstRow(c, prompt, faults);
    } else {
      assert prompt + generated == (prompt + Front(generated)) + [generated[|generated| - 1]];
      out := LaterRow(c, prompt + Front(generated), generated[|generated| - 1], faults);
    }
  }

  method FullRow(c: Context, prefix: Ids, faults: Faults) returns (out: Outcome)
    requires c.Valid() && !c.S.incremental && 0 < |prefix| <= c.S.capacity
    requires c.S.M.complete && KnownIds(c.S.M, prefix)
    modifies c.Repr
    ensures c.Valid() && Answered(c.S, prefix, faults, out)
    ensures out.Success? ==> Represents(c.S, c.View(), None)
    ensures out.Success? ==> c.tokensProcessed == Saturate(old(c.tokensProcessed) + |prefix|)
  {
    hide LastRow, Step, FullForward;
    hide Faults.None;
    ghost var before := c.View();
    c.ViewShape();
    out := c.CallForward(prefix, true, c.S.M.width, faults);
    ResettingStepRefines(c.S, before, Sequence.Forward(prefix, true, c.S.M.width), !faults.None(), out, c.View());
    ForwardIsLastRow(c.S, prefix);
  }

  method FirstRow(c: Context, prompt: Ids, faults: Faults) returns (out: Outcome)
    requires c.Valid() && c.S.incremental && 0 < |prompt| <= c.S.capacity
    requires c.S.M.complete && KnownIds(c.S.M, prompt)
    modifies c.Repr
    ensures c.Valid() && Answered(c.S, prompt, faults, out)
    ensures out.Success? ==> Represents(c.S, c.View(), Some(prompt))
    ensures out.Success? ==> c.tokensProcessed == Saturate(old(c.tokensProcessed) + |prompt|)
  {
    hide LastRow, Step, Represents;
    hide Faults.None;
    ghost var before := c.View();
    c.ViewShape();
    out := c.CallPrefill(prompt, c.S.M.width, faults);
    ResettingStepRefines(c.S, before, Prefill(prompt, c.S.M.width), !faults.None(), out, c.View());
  }

  /** Every decode of the loop meets its position and capacity conditions. */
  method LaterRow(c: Context, consumed: Ids, id: nat, faults: Faults) returns (out: Outcome)
    requires c.Valid() && c.S.incremental && |consumed| < c.S.capacity
    requires c.S.M.complete && KnownIds(c.S.M, consumed + [id])
    requires Represents(c.S, c.View(), Some(consumed))
    modifies c.Repr
    ensures c.Valid() && Answered(c.S, consumed + [id], faults, out)
    ensures out.Success? ==> Represents(c.S, c.View(), Some(consumed + [id]))
    ensures out.Success? ==> c.tokensProcessed == Saturate(old(c.tokensProcessed) + 1)
  {
    hide LastRow, Step, Represents;
    hide Faults.None;
    ghost var before := c.View();
    c.ViewShape();
    out := c.CallDecode(id, c.S.M.width, faults);
    StepRefines(c.S, before, Some(consumed), Decode(id, c.S.M.width), !faults.None(), out, c.View());
    assert (consumed + [id])[|consumed|] == id;
  }

  /** What the context carries when the last of `generated` has been sampled but not yet consumed. */
  function Previous(S: Setup, prompt: Ids, generated: Ids): Option<Ids>
    requires generated != []
  {
    if S.incremental then Some(prompt + generated[..|generated| - 1]) else None
  }

  lemma ForwardIsLastRow(S: Setup, ids: Ids)
    requires S.Valid() && !S.incremental && S.M.complete && 0 < |ids| <= S.capacity && KnownIds(S.M, ids)
    ensures Recompute(S, None, Sequence.Forward(ids, true, S.M.width)) == (LastRow(S, ids), None)
  {
    hide FullForward;
  }

  /** inkling_generate: the ids, stop reason and final sampler state are those of the reference, in both modes; a
      fault can only make it fail. */
  method Generate(c: Context, sampler: Sampler, prompt: Ids, options: Options, room: nat, faults: nat -> Faults)
    returns (r: Option<Generation>)
    requires c.Valid() && sampler.Valid(c.S.M.width)
    modifies c.Repr
    ensures c.Valid()
    ensures r == GenerateSpec(c.S, sampler, prompt, options, room) || (r.None? && !Undisturbed(faults))
    ensures r.Some? ==>
              c.tokensProcessed == Saturate(old(c.tokensProcessed) + Work(c.S.incremental, |prompt|, |r.value.ids|))
  {
    hide Replay;
    if !Accepts(c.S.M, c.S.capacity, prompt, options, room) {
      return None;
    }
    if options.maxNewTokens == 0 {
      return Some(Generation([], StopLength, options.seed));
    }
    r := Loop(c, sampler, Normalise(options, c.S.M.width).value, prompt,
              Required(c.S.M, c.S.capacity, prompt, options), options.seed, faults);
  }

  /** Two contexts of one model and capacity, one that recomputes and one that is incremental, generate from the same
      prompt: the ids, stop reasons, final sampler states and failures agree, whatever the contexts did before.  The
      tokens processed are the closed forms of the two modes. */
  method BothModes(full: Context, incremental: Context, sampler: Sampler, prompt: Ids, options: Options, room: nat,
                   fullFaults: nat -> Faults, faults: nat -> Faults)
    returns (a: Option<Generation>, b: Option<Generation>)
    requires full.Valid() && incremental.Valid() && full.Repr !! incremental.Repr
    requires !full.S.incremental && incremental.S == full.S.(incremental := true) && sampler.Valid(full.S.M.width)
    modifies full.Repr, incremental.Repr
    ensures full.Valid() && incremental.Valid()
    ensures Undisturbed(fullFaults) && Undisturbed(faults) ==> a == b
    ensures a.Some? && b.Some? ==> a == b
    ensures a.Some? && b.Some? ==>
              var p, g := |prompt|, |a.value.ids|;
              && full.tokensProcessed == Saturate(old(full.tokensProcessed) + g * p + g * (g - 1) / 2)
              && incremental.tokensProcessed ==
                 Saturate(old(incremental.tokensProcessed) + if g == 0 then 0 else p + g - 1)
  {
    hide GenerateSpec, Undisturbed, Work;
    ghost var counted := incremental.tokensProcessed;
    a := Generate(full, sampler, prompt, options, room, fullFaults);
    b := Generate(incremental, sampler, prompt, options, room, faults);
    ModesAgree(full.S.M, full.S.capacity, sampler, prompt, options, room);
    assert Setup(full.S.M, full.S.capacity, true) == incremental.S && Setup(full.S.M, full.S.capacity, false) == full.S;
    if a.Some? && b.Some? {
      AcceptsPrompt(full.S, sampler, prompt, options, room);
      WorkClosedForm(|prompt|, |a.value.ids|);
      WorkOfNone(|prompt|);
    }
  }

  lemma AcceptsPrompt(S: Setup, sampler: Sampler, prompt: Ids, options: Options, room: nat)
    requires S.Valid() && GenerateSpec(S, sampler, prompt, options, room).Some?
    ensures prompt != []
  {
    hide Replay;
  }

  lemma WorkOfNone(p: nat)
    requires p > 0
    ensures Work(true, p, 0) == Work(false, p, 0) == 0
  {
  }

  /** One round: the next row, then the next id. */
  method Extend(c: Context, sampler: Sampler, effective: Options, prompt: Ids, generated: Ids, state: nat,
                faults: Faults)
    returns (r: Option<(nat, nat)>)
    requires c.Valid() && sampler.Valid(c.S.M.width) && prompt != [] && c.S.M.complete
    requires |prompt| + |generated| <= c.S.capacity && KnownIds(c.S.M, prompt + generated)
    requires generated != [] ==> Represents(c.S, c.View(), Previous(c.S, prompt, generated))
    modifies c.Repr
    ensures c.Valid()
    ensures var row := LastRow(c.S, prompt + generated);
            || r == (if row.Success? then sampler.sample(row.rows[0], effective, state) else None)
            || (r.None? && !faults.None())
    ensures r.Some? ==>
              && KnownIds(c.S.M, prompt + (generated + [r.value.0]))
              && Represents(c.S, c.View(), Previous(c.S, prompt, generated + [r.value.0]))
              && c.tokensProcessed ==
                 Saturate(old(c.tokensProcessed) + Work(c.S.incremental, |prompt|, |generated| + 1)
                          - Work(c.S.incremental, |prompt|, |generated|))
  {
    hide LastRow, Represents, Work, KnownIds, Setup.Valid;
    hide Faults.None;
    var out := NextRow(c, prompt, generated, faults);
    if out.Failure? {
      return None;
    }
    r := sampler.sample(out.rows[0], effective, state);
    if r.Some? {
      SampledIsKnown(c.S, sampler, effective, prompt, generated, state, out.rows[0], r.value.0);
      WorkStep(c.S.incremental, |prompt|, |generated|);
    }
  }

  /** A sampled id is a known one, and what the context carries does not depend on it. */
  lemma SampledIsKnown(S: Setup, sampler: Sampler, effective: Options, prompt: Ids, generated: Ids, state: nat,
                       row: Row, token: nat)
    requires S.Valid() && sampler.Valid(S.M.width) && |row| == S.M.width && KnownIds(S.M, prompt + generated)
    requires sampler.sample(row, effective, state).Some? && sampler.sample(row, effective, state).value.0 == token
    ensures KnownIds(S.M, prompt + (generated + [token]))
    ensures Previous(S, prompt, generated + [token]) == Previous(S, prompt, generated + [0])
  {
    assert token < S.M.width <= S.M.vocab;
    assert prompt + (generated + [token]) == (prompt + generated) + [token];
    assert (generated + [token])[..|generated|] == (generated + [0])[..|generated|];
  }

  lemma WorkStep(incremental: bool, p: nat, g: nat)
    requires p > 0
    ensures Work(incremental, p, g + 1) - Work(incremental, p, g) == if incremental && g > 0 then 1 else p + g
  {
  }

  lemma ReplayTurn(S: Setup, sampler: Sampler, effective: Options, prompt: Ids, required: nat, generated: Ids,
                   state: nat)
    requires S.Valid() && prompt != [] && |generated| < required
    ensures var row := LastRow(S, prompt + generated);
            var sampled := if row.Success? then sampler.sample(row.rows[0], effective, state) else None;
            Replay(S, sampler, effective, prompt, required, generated, state) ==
            if sampled.None? then None
            else
              var (token, next) := sampled.value;
              var more := generated + [token];
              if token == sampler.eos then Some(Generation(more, StopEos, next))
              else if |more| == effective.maxNewTokens then Some(Generation(more, StopLength, next))
              else Replay(S, sampler, effective, prompt, required, more, next)
  {
    hide LastRow;
  }

  lemma ReplayEnds(S: Setup, sampler: Sampler, effective: Options, prompt: Ids, required: nat, generated: Ids,
                   state: nat)
    requires S.Valid() && prompt != [] && |generated| == required
    ensures Replay(S, sampler, effective, prompt, required, generated, state) ==
            Some(Generation(generated, StopContext, state))
  {
  }

  method Loop(c: Context, sampler: Sampler, effective: Options, prompt: Ids, required: nat, seed: nat,
              faults: nat -> Faults)
    returns (r: Option<Generation>)
    requires c.Valid() && sampler.Valid(c.S.M.width) && prompt != [] && c.S.M.complete
    requires |prompt| + required <= c.S.capacity && KnownIds(c.S.M, prompt)
    modifies c.Repr
    ensures c.Valid()
    ensures r == Replay(c.S, sampler, effective, prompt, required, [], seed) || (r.None? && !Undisturbed(faults))
    ensures r.Some? ==>
              c.tokensProcessed == Saturate(old(c.tokensProcessed) + Work(c.S.incremental, |prompt|, |r.value.ids|))
  {
    hide LastRow, Represents, KnownIds, Previous, Lawful, Yields, Replay, Work;
    hide Faults.None;
    WorkOfNone(|prompt|);
    var generated: Ids, state := [], seed;
    assert prompt + [] == prompt;
    ghost var counted := c.tokensProcessed;
    while |generated| < required
      invariant c.Valid() && |generated| <= required && KnownIds(c.S.M, prompt + generated)
      invariant generated != [] ==> Represents(c.S, c.View(), Previous(c.S, prompt, generated))
      invariant Replay(c.S, sampler, effective, prompt, required, [], seed) ==
                Replay(c.S, sampler, effective, prompt, required, generated, state)
      invariant c.tokensProcessed == Saturate(counted + Work(c.S.incremental, |prompt|, |generated|))
      decreases required - |generated|
    {
      var sampled := Extend(c, sampler, effective, prompt, generated, state, faults(|generated|));
      if faults(|generated|).None() || sampled.Some? {
        ReplayTurn(c.S, sampler, effective, prompt, required, generated, state);
      }
      if sampled.None? {
        return None;
      }
      var token := sampled.value.0;
      WorkGrows(c.S.incremental, |prompt|, |generated|);
      generated, state := generated + [token], sampled.value.1;
      if token == sampler.eos {
        return Some(Generation(generated, StopEos, state));
      }
      if |generated| == effective.maxNewTokens {
        return Some(Generation(generated, StopLength, state));
      }
    }
    ReplayEnds(c.S, sampler, effective, prompt, required, generated, state);
    r := Some(Generation(generated, StopContext, state));
  }

  lemma WorkGrows(incremental: bool, p: nat, g: nat)
    requires p > 0
    ensures Work(incremental, p, g + 1) >= Work(incremental, p, g)
  {
  }
}
