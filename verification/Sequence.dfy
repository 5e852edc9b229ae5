/** The incremental session as a state machine: reset, forward, prefill and decode in any order.

    The machine keeps rings and histories.  `Recompute` keeps nothing but the list of tokens consumed since
    the last reset and recomputes the full prefix for every answer.  A call may also be hit by a fault, such as
    a failed read, that is gone when the next call comes.  `StepRefines` and `RunRefines` show that every answer
    of the machine is the recomputed one or the failure of a faulty call, and that it goes on from there as a
    machine that carries exactly the tokens of the session.
*/
module Sequence {
  import opened Wrappers
  import opened Carrier
  import opened ShortConv
  import opened Attention
  import opened Layer
  import opened Forward

  /** What a context is created with. */
  datatype Setup = Setup(M: Model, capacity: nat, incremental: bool) {
    ghost predicate Valid() {
      M.Valid() && 0 < capacity <= M.maxLength
    }
  }

  /** A model of one local layer with one head, whose rows have one element. */
  function Tiny(): Setup {
    Setup(Model(Arith(Exact, Exact, GrowthExp), [TinyLayer()], 1, 1, 1, 4, true, (id: nat) => Some([ONE]), Keep), 4,
          true)
  }

  /** What is required of a model can be met. */
  lemma TinyIsValid()
    ensures Tiny().Valid() && Tiny().incremental && Tiny().M.complete && |Tiny().M.layers| == 1
  {
    hide Lawful;
    TinyArithmetic();
    TinyLayerIsValid();
  }

  lemma TinyArithmetic()
    ensures Lawful(Arith(Exact, Exact, GrowthExp))
  {
    hide LawfulRounding, LawfulExp;
    ExactIsLawful();
    GrowthIsLawful();
  }

  datatype Machine = Machine(valid: bool, position: nat, states: seq<LayerState>)

  /** A call.  `room` is the caller's logits_count. */
  datatype Op =
    | Reset
    | Forward(ids: Ids, last: bool, room: nat)
    | Prefill(ids: Ids, room: nat)
    | Decode(id: nat, room: nat)

  datatype Outcome = Failure | Success(rows: seq<Row>)

  predicate KnownIds(M: Model, ids: Ids) {
    forall i :: 0 <= i < |ids| ==> ids[i] < M.vocab
  }

  predicate ForwardAccepts(S: Setup, ids: Ids, last: bool, room: nat) {
    && S.M.complete && ids != [] && |ids| <= S.capacity && |ids| <= S.M.maxLength
    && room >= (if last then 1 else |ids|) * S.M.width && KnownIds(S.M, ids)
  }

  predicate PrefillAccepts(S: Setup, ids: Ids, room: nat) {
    && S.incremental && S.M.complete && ids != [] && |ids| <= S.capacity && |ids| <= S.M.maxLength
    && room >= S.M.width && KnownIds(S.M, ids)
  }

  predicate DecodeAccepts(S: Setup, valid: bool, position: nat, id: nat, room: nat) {
    && S.incremental && valid && S.M.complete && room >= S.M.width && id < S.M.vocab
    && position < S.capacity && position < S.M.maxLength
  }

  // ---------- The machine ----------

  /** Zero the histories and leave the rings alone. */
  function ClearState(L: Layer, hidden: nat, st: LayerState): LayerState {
    st.(keyHistory := Zeros(L.G.KeyWidth()), valueHistory := Zeros(L.G.KeyWidth()),
        attnHistory := Zeros(hidden), mlpHistory := Zeros(hidden))
  }

  function ClearStates(M: Model, states: seq<LayerState>): (r: seq<LayerState>)
    requires |states| == |M.layers|
    ensures |r| == |states|
    ensures forall l :: 0 <= l < |states| ==> r[l] == ClearState(M.layers[l], M.hidden, states[l])
  {
    seq(|states|, l requires 0 <= l < |states| => ClearState(M.layers[l], M.hidden, states[l]))
  }

  lemma ClearStatesCleared(M: Model, C: nat, states: seq<LayerState>)
    requires M.Valid() && StatesFit(M, C, states)
    ensures StatesFit(M, C, ClearStates(M, states)) && Cleared(M, C, ClearStates(M, states))
  {
  }

  /** token_forward with logits. */
  ghost function TokenLogits(S: Setup, states: seq<LayerState>, t: nat, id: nat): (r: Option<(Row, seq<LayerState>)>)
    requires S.Valid() && StatesFit(S.M, S.capacity, states)
    ensures r.Some? ==> |r.value.0| == S.M.width && StatesFit(S.M, S.capacity, r.value.1)
  {
    var (x, next) :- TokenForward(S.M, S.capacity, states, t, id);
    var row :- S.M.unembed(x);
    Some((row, next))
  }

  /** A prompt from cleared states; only the last token computes logits. */
  ghost function PromptLogits(S: Setup, states: seq<LayerState>, ids: Ids): (r: Option<(Row, seq<LayerState>)>)
    requires S.Valid() && StatesFit(S.M, S.capacity, states) && ids != []
    ensures r.Some? ==> |r.value.0| == S.M.width && StatesFit(S.M, S.capacity, r.value.1)
  {
    var (x, next) :- Consume(S.M, S.capacity, states, ids);
    var row :- S.M.unembed(x);
    Some((row, next))
  }

  /** A prefill from whatever the machine holds: clear the histories, then run the prompt. */
  ghost function PrefillRun(S: Setup, m: Machine, ids: Ids): (r: Option<(Row, seq<LayerState>)>)
    requires S.Valid() && S.incremental && Shape(S, m) && ids != []
    ensures r.Some? ==> |r.value.0| == S.M.width && StatesFit(S.M, S.capacity, r.value.1)
  {
    ClearStatesCleared(S.M, S.capacity, m.states);
    PromptLogits(S, ClearStates(S.M, m.states), ids)
  }

  ghost predicate Shape(S: Setup, m: Machine)
    requires S.Valid()
  {
    S.incremental ==> StatesFit(S.M, S.capacity, m.states)
  }

  /** What inkling_context_reset leaves: a valid sequence at position 0. */
  ghost predicate ResetTo(S: Setup, m: Machine, m': Machine)
    requires S.Valid() && Shape(S, m)
  {
    S.incremental ==> m' == Machine(true, 0, ClearStates(S.M, m.states))
  }

  /** What sequence_failure leaves: nothing but the shape of the buffers is known. */
  ghost predicate Invalidated(S: Setup, m': Machine)
    requires S.Valid()
  {
    S.incremental ==> !m'.valid && m'.position == 0 && Shape(S, m')
  }

  /** A call that no fault hits: it answers `out` and leaves `m'`. */
  ghost predicate Computes(S: Setup, m: Machine, op: Op, out: Outcome, m': Machine)
    requires S.Valid() && Shape(S, m)
  {
    match op
    case Reset => out == Success([]) && ResetTo(S, m, m')
    case Forward(ids, last, room) =>
      && ResetTo(S, m, m')
      && out == (if ForwardAccepts(S, ids, last, room) && FullForward(S.M, ids, last).Some?
                 then Success(FullForward(S.M, ids, last).value) else Failure)
    case Prefill(ids, room) =>
      if PrefillAccepts(S, ids, room) && PrefillRun(S, m, ids).Some? then
        var (row, next) := PrefillRun(S, m, ids).value;
        out == Success([row]) && m' == Machine(true, |ids|, next)
      else out == Failure && Invalidated(S, m')
    case Decode(id, room) =>
      if DecodeAccepts(S, m.valid, m.position, id, room) && TokenLogits(S, m.states, m.position, id).Some? then
        var (row, next) := TokenLogits(S, m.states, m.position, id).value;
        out == Success([row]) && m' == Machine(true, m.position + 1, next)
      else out == Failure && Invalidated(S, m')
  }

  /** A call that a fault ends early, wherever it was: a forward has reset before, a prefill or a decode gives the
      sequence up. */
  ghost predicate Breaks(S: Setup, m: Machine, op: Op, out: Outcome, m': Machine)
    requires S.Valid() && Shape(S, m)
  {
    match op
    case Reset => false
    case Forward(_, _, _) => out == Failure && ResetTo(S, m, m')
    case _ => out == Failure && Invalidated(S, m')
  }

  /** One call of the runtime; `faulty` says that a fault may hit it. */
  ghost predicate Step(S: Setup, m: Machine, op: Op, faulty: bool, out: Outcome, m': Machine)
    requires S.Valid() && Shape(S, m)
  {
    Computes(S, m, op, out, m') || (faulty && Breaks(S, m, op, out, m'))
  }

  // ---------- The abstract session ----------

  /** The answer a full recomputation of `ids` gives for its last token. */
  ghost function LastRow(S: Setup, ids: Ids): (r: Outcome)
    requires S.Valid() && ids != []
    ensures r.Success? ==> |r.rows| == 1 && |r.rows[0]| == S.M.width
  {
    var full := FullForward(S.M, ids, true);
    if full.Some? then Success(full.value) else Failure
  }

  /** The session without buffers: `consumed` is the token list since the last reset, or None when a failed
      call has invalidated it (or the context is not incremental). */
  ghost function Recompute(S: Setup, consumed: Option<Ids>, op: Op): (Outcome, Option<Ids>)
    requires S.Valid()
  {
    var restart := Restarted(S);
    match op
    case Reset => (Success([]), restart)
    case Forward(ids, last, room) =>
      (if ForwardAccepts(S, ids, last, room) && FullForward(S.M, ids, last).Some?
       then Success(FullForward(S.M, ids, last).value) else Failure, restart)
    case Prefill(ids, room) =>
      if PrefillAccepts(S, ids, room) && LastRow(S, ids).Success? then (LastRow(S, ids), Some(ids))
      else (Failure, None)
    case Decode(id, room) =>
      if consumed.Some? && DecodeAccepts(S, true, |consumed.value|, id, room) &&
         LastRow(S, consumed.value + [id]).Success?
      then (LastRow(S, consumed.value + [id]), Some(consumed.value + [id]))
      else (Failure, None)
  }

  /** The session after a reset. */
  function Restarted(S: Setup): Option<Ids> {
    if S.incremental then Some([]) else None
  }

  /** What a prefill refuses: a context that is not incremental, a model that is not complete, no tokens, too many,
      an unknown one, or too little room. */
  lemma RefusedPrefill(S: Setup, consumed: Option<Ids>, ids: Ids, room: nat)
    requires S.Valid()
    requires !S.incremental || !S.M.complete || ids == [] || |ids| > S.capacity || room < S.M.width
             || exists i :: 0 <= i < |ids| && ids[i] >= S.M.vocab
    ensures Recompute(S, consumed, Prefill(ids, room)) == (Failure, None)
  {
    hide LastRow;
  }

  /** What a decode refuses: also a session that is gone or full. */
  lemma RefusedDecode(S: Setup, consumed: Option<Ids>, id: nat, room: nat)
    requires S.Valid()
    requires !S.incremental || !S.M.complete || id >= S.M.vocab || room < S.M.width
             || consumed.None? || |consumed.value| >= S.capacity
    ensures Recompute(S, consumed, Decode(id, room)) == (Failure, None)
  {
    hide LastRow;
  }

  /** What a forward refuses; it has restarted the session all the same. */
  lemma RefusedForward(S: Setup, consumed: Option<Ids>, ids: Ids, last: bool, room: nat)
    requires S.Valid()
    requires !S.M.complete || ids == [] || |ids| > S.capacity || room < (if last then 1 else |ids|) * S.M.width
             || exists i :: 0 <= i < |ids| && ids[i] >= S.M.vocab
    ensures Recompute(S, consumed, Forward(ids, last, room)) == (Failure, Restarted(S))
  {
    hide FullForward;
  }

  /** The answers that are right: the recomputed one, or a failure when a fault may have hit the call. */
  ghost predicate Allowed(S: Setup, consumed: Option<Ids>, op: Op, faulty: bool, out: Outcome)
    requires S.Valid()
  {
    out == Recompute(S, consumed, op).0 || (faulty && !op.Reset? && out == Failure)
  }

  /** The session after a call that answered `out`. */
  ghost function After(S: Setup, consumed: Option<Ids>, op: Op, out: Outcome): Option<Ids>
    requires S.Valid()
  {
    if out.Success? then Recompute(S, consumed, op).1
    else if op.Forward? then Restarted(S)
    else None
  }

  /** The machine represents the abstract session. */
  ghost predicate Represents(S: Setup, m: Machine, consumed: Option<Ids>)
    requires S.Valid()
  {
    if !S.incremental then consumed.None?
    else
      && Shape(S, m)
      && (m.valid <==> consumed.Some?)
      && m.position == (if consumed.Some? then |consumed.value| else 0)
      && (consumed.Some? ==> |consumed.value| <= S.capacity && Carries(S.M, S.capacity, consumed.value, m.states))
  }

  // ---------- Refinement ----------

  /** The last row of a full pass, from the last hidden row. */
  lemma LastRowFromHidden(S: Setup, ids: Ids)
    requires S.Valid() && ids != []
    ensures var xs := Through(S.M, ids, |S.M.layers|);
            LastRow(S, ids) ==
            (if xs.Some? && S.M.unembed(xs.value[|ids| - 1]).Some?
             then Success([S.M.unembed(xs.value[|ids| - 1]).value]) else Failure)
  {
    hide Through, MapRows, Lawful, Yields;
    var xs := Through(S.M, ids, |S.M.layers|);
    if xs.Some? {
      var x := xs.value[|ids| - 1];
      assert xs.value[|ids| - 1..] == [x];
      MapOne(S.M.unembed, x);
    }
  }

  lemma MapOne(f: Row -> Option<Row>, x: Row)
    ensures MapRows(f, [x]) == if f(x).Some? then Some([f(x).value]) else None
  {
    assert [x][..0] == [];
    assert MapRows(f, [x][..0]) == Some([]);
    if f(x).Some? {
      assert [] + [f(x).value] == [f(x).value];
    }
  }

  /** A prefill answers as the full recomputation does and then carries the prompt. */
  lemma PrefillStep(S: Setup, states: seq<LayerState>, ids: Ids)
    requires S.Valid() && Cleared(S.M, S.capacity, states) && ids != [] && |ids| <= S.capacity
    ensures var run := PromptLogits(S, states, ids);
            && LastRow(S, ids) == (if run.Some? then Success([run.value.0]) else Failure)
            && (run.Some? ==> Carries(S.M, S.capacity, ids, run.value.1))
  {
    hide Consume, Through, LastRow, Carries, Cleared;
    ConsumeIsFull(S.M, S.capacity, states, ids);
    LastRowFromHidden(S, ids);
  }

  /** A decode answers as the full recomputation of the longer prefix does. */
  lemma DecodeStep(S: Setup, states: seq<LayerState>, ids: Ids, id: nat)
    requires S.Valid() && Carries(S.M, S.capacity, ids, states) && |ids| < S.capacity
    ensures var one := TokenLogits(S, states, |ids|, id);
            && LastRow(S, ids + [id]) == (if one.Some? then Success([one.value.0]) else Failure)
            && (one.Some? ==> Carries(S.M, S.capacity, ids + [id], one.value.1))
  {
    hide TokenForward, Through, LastRow, CarriesUpTo;
    TokenForwardStep(S.M, S.capacity, ids, states, id);
    LastRowFromHidden(S, ids + [id]);
  }

  /** A call that no fault hits: the machine answers as the session does and represents its next state. */
  lemma ComputesRefines(S: Setup, m: Machine, consumed: Option<Ids>, op: Op, out: Outcome, m': Machine)
    requires S.Valid() && Represents(S, m, consumed) && Shape(S, m) && Computes(S, m, op, out, m')
    ensures out == Recompute(S, consumed, op).0
    ensures Represents(S, m', Recompute(S, consumed, op).1)
  {
    hide PromptLogits, TokenLogits, LastRow, Carries, FullForward;
    if S.incremental {
      var cleared := ClearStates(S.M, m.states);
      ClearStatesCleared(S.M, S.capacity, m.states);
      ClearedCarriesNothing(S.M, S.capacity, cleared);
      match op
      case Reset =>
      case Forward(_, _, _) =>
      case Prefill(ids, room) =>
        if PrefillAccepts(S, ids, room) {
          PrefillStep(S, cleared, ids);
        }
      case Decode(id, room) =>
        if DecodeAccepts(S, m.valid, m.position, id, room) {
          DecodeStep(S, m.states, consumed.value, id);
        }
    }
  }

  /** The same for a call that resets, from any machine, even after a failure. */
  lemma ResettingComputesRefines(S: Setup, m: Machine, op: Op, out: Outcome, m': Machine)
    requires S.Valid() && Shape(S, m) && Resets(op) && Computes(S, m, op, out, m')
    ensures out == Recompute(S, None, op).0
    ensures Represents(S, m', Recompute(S, None, op).1)
  {
    hide PromptLogits, LastRow, Carries, FullForward;
    if S.incremental {
      var cleared := ClearStates(S.M, m.states);
      ClearStatesCleared(S.M, S.capacity, m.states);
      ClearedCarriesNothing(S.M, S.capacity, cleared);
      if op.Prefill? && PrefillAccepts(S, op.ids, op.room) {
        PrefillStep(S, cleared, op.ids);
      }
    }
  }

  /** A call that a fault ends leaves a restarted session or none, from any machine. */
  lemma BreaksRefines(S: Setup, m: Machine, consumed: Option<Ids>, op: Op, out: Outcome, m': Machine)
    requires S.Valid() && Shape(S, m) && Breaks(S, m, op, out, m')
    ensures out == Failure && !op.Reset? && Represents(S, m', After(S, consumed, op, Failure))
  {
    hide Carries;
    if S.incremental {
      ClearStatesCleared(S.M, S.capacity, m.states);
      ClearedCarriesNothing(S.M, S.capacity, ClearStates(S.M, m.states));
    }
  }

  /** A recomputed failure leaves the session that a fault leaves. */
  lemma AfterRecompute(S: Setup, consumed: Option<Ids>, op: Op)
    requires S.Valid()
    ensures After(S, consumed, op, Recompute(S, consumed, op).0) == Recompute(S, consumed, op).1
  {
    hide LastRow, FullForward;
  }

  /** One call, whether a fault hits it or not: the answer is allowed and the machine represents the session after
      it. */
  lemma StepRefines(S: Setup, m: Machine, consumed: Option<Ids>, op: Op, faulty: bool, out: Outcome, m': Machine)
    requires S.Valid() && Represents(S, m, consumed) && Shape(S, m) && Step(S, m, op, faulty, out, m')
    ensures Allowed(S, consumed, op, faulty, out)
    ensures Represents(S, m', After(S, consumed, op, out))
  {
    hide Computes, Breaks, Recompute, Represents, After;
    if Computes(S, m, op, out, m') {
      ComputesRefines(S, m, consumed, op, out, m');
      AfterRecompute(S, consumed, op);
    } else {
      BreaksRefines(S, m, consumed, op, out, m');
    }
  }

  /** A call that resets needs no history: all this holds from any machine, even after a failure. */
  lemma ResettingStepRefines(S: Setup, m: Machine, op: Op, faulty: bool, out: Outcome, m': Machine)
    requires S.Valid() && Shape(S, m) && Resets(op) && Step(S, m, op, faulty, out, m')
    ensures Allowed(S, None, op, faulty, out)
    ensures Represents(S, m', After(S, None, op, out))
  {
    hide Computes, Breaks, Recompute, Represents, After;
    if Computes(S, m, op, out, m') {
      ResettingComputesRefines(S, m, op, out, m');
      AfterRecompute(S, None, op);
    } else {
      BreaksRefines(S, m, None, op, out, m');
    }
  }

  predicate Resets(op: Op) {
    !op.Decode?
  }

  // ---------- Runs ----------

  /** A run of the machine: `ms[i]` answers `outs[i]` to `ops[i]` and becomes `ms[i + 1]`; `faults[i]` says whether a
      fault may hit that call. */
  ghost predicate Run(S: Setup, ms: seq<Machine>, ops: seq<Op>, faults: seq<bool>, outs: seq<Outcome>)
    requires S.Valid()
  {
    && |ms| == |ops| + 1 && |outs| == |faults| == |ops|
    && (forall i :: 0 <= i < |ms| ==> Shape(S, ms[i]))
    && (forall i :: 0 <= i < |ops| ==> Step(S, ms[i], ops[i], faults[i], outs[i], ms[i + 1]))
  }

  /** The session after calls that gave these answers. */
  ghost function Session(S: Setup, consumed: Option<Ids>, ops: seq<Op>, outs: seq<Outcome>): Option<Ids>
    requires S.Valid() && |outs| == |ops|
  {
    if ops == [] then consumed
    else
      var n := |ops| - 1;
      After(S, Session(S, consumed, ops[..n], outs[..n]), ops[n], outs[n])
  }

  lemma RunFront(S: Setup, ms: seq<Machine>, ops: seq<Op>, faults: seq<bool>, outs: seq<Outcome>, n: nat)
    requires S.Valid() && Run(S, ms, ops, faults, outs) && n <= |ops|
    ensures Run(S, ms[..n + 1], ops[..n], faults[..n], outs[..n])
  {
    hide Step, Shape;
    var front := ms[..n + 1];
    assert forall i :: 0 <= i < |front| ==> front[i] == ms[i];
  }

  /** Over any interleaving of calls, with faults wherever they may come, the machine carries exactly the tokens
      consumed since the last reset. */
  lemma {:induction false} RunRepresents(S: Setup, consumed: Option<Ids>, ms: seq<Machine>, ops: seq<Op>,
                                         faults: seq<bool>, outs: seq<Outcome>)
    requires S.Valid() && Run(S, ms, ops, faults, outs) && Represents(S, ms[0], consumed)
    ensures Represents(S, ms[|ops|], Session(S, consumed, ops, outs))
  {
    hide Step, After, Represents, Shape, Allowed;
    if ops == [] {
    } else {
      var n := |ops| - 1;
      RunFront(S, ms, ops, faults, outs, n);
      RunRepresents(S, consumed, ms[..n + 1], ops[..n], faults[..n], outs[..n]);
      StepRefines(S, ms[n], Session(S, consumed, ops[..n], outs[..n]), ops[n], faults[n], outs[n], ms[n + 1]);
    }
  }

  /** Every answer is allowed where it is given. */
  ghost predicate AllAllowed(S: Setup, consumed: Option<Ids>, ops: seq<Op>, faults: seq<bool>, outs: seq<Outcome>)
    requires S.Valid() && |outs| == |faults| == |ops|
  {
    forall i :: 0 <= i < |ops| ==> Allowed(S, Session(S, consumed, ops[..i], outs[..i]), ops[i], faults[i], outs[i])
  }

  /** Every answer of a run is the full recomputation of the tokens consumed since the last reset, or the failure of a
      call that a fault may have hit; and after every call the machine carries exactly the tokens of the session. */
  lemma RunRefines(S: Setup, consumed: Option<Ids>, ms: seq<Machine>, ops: seq<Op>, faults: seq<bool>,
                   outs: seq<Outcome>)
    requires S.Valid() && Run(S, ms, ops, faults, outs) && Represents(S, ms[0], consumed)
    ensures AllAllowed(S, consumed, ops, faults, outs)
    ensures forall i :: 0 <= i <= |ops| ==> Represents(S, ms[i], Session(S, consumed, ops[..i], outs[..i]))
  {
    hide Step, After, Represents, Shape, Allowed;
    forall i | 0 <= i <= |ops|
      ensures Represents(S, ms[i], Session(S, consumed, ops[..i], outs[..i]))
      ensures i < |ops| ==> Allowed(S, Session(S, consumed, ops[..i], outs[..i]), ops[i], faults[i], outs[i])
    {
      RunFront(S, ms, ops, faults, outs, i);
      RunRepresents(S, consumed, ms[..i + 1], ops[..i], faults[..i], outs[..i]);
      if i < |ops| {
        StepRefines(S, ms[i], Session(S, consumed, ops[..i], outs[..i]), ops[i], faults[i], outs[i], ms[i + 1]);
      }
    }
  }

  /** The answers and the final state of the session that no fault hits. */
  ghost function CleanRun(S: Setup, consumed: Option<Ids>, ops: seq<Op>): (r: (seq<Outcome>, Option<Ids>))
    requires S.Valid()
    ensures |r.0| == |ops|
  {
    if ops == [] then ([], consumed)
    else
      var (outs, before) := CleanRun(S, consumed, ops[..|ops| - 1]);
      var (out, after) := Recompute(S, before, ops[|ops| - 1]);
      (outs + [out], after)
  }

  /** Without faults the answers are those of full recomputation. */
  lemma {:induction false} CleanRunRefines(S: Setup, consumed: Option<Ids>, ms: seq<Machine>, ops: seq<Op>,
                                           faults: seq<bool>, outs: seq<Outcome>)
    requires S.Valid() && Run(S, ms, ops, faults, outs) && Represents(S, ms[0], consumed) && true !in faults
    ensures outs == CleanRun(S, consumed, ops).0
    ensures Session(S, consumed, ops, outs) == CleanRun(S, consumed, ops).1
    ensures Represents(S, ms[|ops|], CleanRun(S, consumed, ops).1)
  {
    hide Step, Recompute, Represents, Shape, After;
    if ops == [] {
    } else {
      var n := |ops| - 1;
      RunFront(S, ms, ops, faults, outs, n);
      CleanRunRefines(S, consumed, ms[..n + 1], ops[..n], faults[..n], outs[..n]);
      var before := CleanRun(S, consumed, ops[..n]).1;
      assert !faults[n];
      StepRefines(S, ms[n], before, ops[n], faults[n], outs[n], ms[n + 1]);
      AfterRecompute(S, before, ops[n]);
      assert outs == outs[..n] + [outs[n]];
    }
  }

  /** A cleared machine represents the empty session, so every run may start there. */
  lemma FreshMachine(S: Setup, m: Machine)
    requires S.Valid() && S.incremental && m.valid && m.position == 0 && Cleared(S.M, S.capacity, m.states)
    ensures Represents(S, m, Some([]))
  {
    hide Carries;
    ClearedCarriesNothing(S.M, S.capacity, m.states);
  }

  /** In any run, once a prefill or a decode has failed, for whatever reason, every decode fails, faults gone or not,
      up to the next call that resets. */
  lemma {:induction false} FailureBlocksDecode(S: Setup, ms: seq<Machine>, ops: seq<Op>, faults: seq<bool>,
                                               outs: seq<Outcome>, i: nat, j: nat)
    requires S.Valid() && Run(S, ms, ops, faults, outs) && i < j < |ops|
    requires (ops[i].Prefill? || ops[i].Decode?) && outs[i] == Failure
    requires forall k :: i < k <= j ==> !Resets(ops[k])
    ensures outs[j] == Failure && (S.incremental ==> !ms[j].valid && !ms[j + 1].valid && ms[j + 1].position == 0)
    decreases j
  {
    hide PrefillRun, TokenLogits, Shape;
    if i + 1 == j {
      assert Step(S, ms[i], ops[i], faults[i], outs[i], ms[i + 1]);
    } else {
      FailureBlocksDecode(S, ms, ops, faults, outs, i, j - 1);
    }
    assert Step(S, ms[j], ops[j], faults[j], outs[j], ms[j + 1]);
  }

  /** When the fault is gone a prefill works again: whatever failed before, it answers as recomputation does and the
      machine carries its prompt. */
  lemma PrefillRecovers(S: Setup, m: Machine, ids: Ids, room: nat, out: Outcome, m': Machine)
    requires S.Valid() && Shape(S, m) && Step(S, m, Prefill(ids, room), false, out, m')
    requires PrefillAccepts(S, ids, room) && LastRow(S, ids).Success?
    ensures out == LastRow(S, ids) && Represents(S, m', Some(ids))
  {
    hide Step, LastRow, Represents;
    ResettingStepRefines(S, m, Prefill(ids, room), false, out, m');
  }

  /** Two machines that carry the same tokens have the same histories and agree on every ring slot that a
      later token can read. */
  lemma SameTokensSameState(S: Setup, ids: Ids, a: seq<LayerState>, b: seq<LayerState>, l: nat)
    requires S.Valid() && l < |S.M.layers|
    requires Forward.Carries(S.M, S.capacity, ids, a) && Forward.Carries(S.M, S.capacity, ids, b)
    ensures a[l].keyHistory == b[l].keyHistory && a[l].valueHistory == b[l].valueHistory
    ensures a[l].attnHistory == b[l].attnHistory && a[l].mlpHistory == b[l].mlpHistory
    ensures var capacity := S.M.Capacity(S.capacity, l);
            forall s :: Start(capacity, |ids|) <= s < |ids| ==>
              a[l].keys[s % capacity] == b[l].keys[s % capacity] &&
              a[l].values[s % capacity] == b[l].values[s % capacity]
  {
    hide ProjectAll, LayerStages;
    assert LayerCarries(S.M, S.capacity, ids, a, l) && LayerCarries(S.M, S.capacity, ids, b, l);
  }

  // ---------- The split-point theorem ----------

  /** Prefill the first `n` tokens, then decode the others one by one. */
  function SplitOps(ids: Ids, n: nat, room: nat): (ops: seq<Op>)
    requires 0 < n <= |ids|
    ensures |ops| == |ids| - n + 1
  {
    [Prefill(ids[..n], room)] + seq(|ids| - n, i requires 0 <= i < |ids| - n => Decode(ids[n + i], room))
  }

  /** Row `t` of the all-rows forward is what a full pass over the first `t + 1` tokens answers. */
  lemma {:induction false} RowOfPrefix(S: Setup, ids: Ids, t: nat)
    requires S.Valid() && t < |ids| && FullForward(S.M, ids, false).Some?
    ensures LastRow(S, ids[..t + 1]) == Success([FullForward(S.M, ids, false).value[t]])
    decreases |ids|
  {
    hide Through, LastRow;
    var n := |S.M.layers|;
    var xs := Through(S.M, ids, n).value;
    if t + 1 == |ids| {
      assert ids[..t + 1] == ids;
      LastRowFromHidden(S, ids);
    } else {
      ThroughFront(S.M, ids, n);
      assert MapRows(S.M.unembed, Front(xs)) == Some(Front(FullForward(S.M, ids, false).value));
      RowOfPrefix(S, Front(ids), t);
      assert Front(ids)[..t + 1] == ids[..t + 1];
    }
  }

  /** One answer per row from row `from` on. */
  function Answers(rows: seq<Row>, from: nat): (r: seq<Outcome>)
    requires from <= |rows|
    ensures |r| == |rows| - from
  {
    seq(|rows| - from, i requires 0 <= i < |rows| - from => Success([rows[from + i]]))
  }

  /** The session answers a split prompt with the rows of the full-prefix forward. */
  lemma {:induction false} SplitRecomputed(S: Setup, consumed: Option<Ids>, ids: Ids, n: nat, room: nat)
    requires S.Valid() && S.incremental && S.M.complete && 0 < n <= |ids| <= S.capacity
    requires KnownIds(S.M, ids) && room >= S.M.width
    requires FullForward(S.M, ids, false).Some?
    ensures CleanRun(S, consumed, SplitOps(ids, n, room)) ==
            (Answers(FullForward(S.M, ids, false).value, n - 1), Some(ids))
    decreases |ids|
  {
    hide LastRow, FullForward, Recompute, KnownIds;
    var rows := FullForward(S.M, ids, false).value;
    var ops := SplitOps(ids, n, room);
    if n == |ids| {
      LastPrefill(S, consumed, ids, room);
      assert ids[..n] == ids;
      assert ops == [Prefill(ids, room)];
      RunOfOne(S, consumed, ops[0]);
      assert Answers(rows, n - 1) == [Success([rows[n - 1]])];
    } else {
      var front := Front(ids);
      SplitSnoc(ids, n, room);
      FrontRows(S, ids);
      FrontKnown(S.M, ids);
      SplitRecomputed(S, consumed, front, n, room);
      LastDecode(S, ids, room);
      AnswersSnoc(rows, n - 1);
      hide SplitOps, Answers;
    }
  }

  lemma SplitSnoc(ids: Ids, n: nat, room: nat)
    requires 0 < n < |ids|
    ensures var ops := SplitOps(ids, n, room);
            ops[..|ops| - 1] == SplitOps(Front(ids), n, room) && ops[|ops| - 1] == Decode(ids[|ids| - 1], room)
  {
    assert Front(ids)[..n] == ids[..n];
  }

  lemma AnswersSnoc(rows: seq<Row>, from: nat)
    requires from < |rows|
    ensures Answers(rows, from) == Answers(Front(rows), from) + [Success([rows[|rows| - 1]])]
  {
  }

  /** For every model, token list and split point: the prefill and each decode of a machine answer the corresponding
      row of the full-prefix forward, although local layers keep only the last `min(window, capacity)` tokens.  With
      faults, each answer is that row or a failure. */
  lemma SplitMatchesForward(S: Setup, consumed: Option<Ids>, ids: Ids, n: nat, room: nat, ms: seq<Machine>,
                            faults: seq<bool>, outs: seq<Outcome>)
    requires S.Valid() && S.incremental && S.M.complete && 0 < n <= |ids| <= S.capacity
    requires KnownIds(S.M, ids) && room >= S.M.width
    requires FullForward(S.M, ids, false).Some?
    requires Run(S, ms, SplitOps(ids, n, room), faults, outs) && Represents(S, ms[0], consumed)
    ensures var rows := FullForward(S.M, ids, false).value;
            && (forall i :: 0 <= i < |outs| ==> outs[i] == Failure || outs[i] == Success([rows[n - 1 + i]]))
            && (true !in faults ==> outs == Answers(rows, n - 1) && Represents(S, ms[|ids| - n + 1], Some(ids)))
  {
    hide Run, Represents, FullForward, KnownIds, SplitOps, CleanRun, AllAllowed, Session;
    var ops := SplitOps(ids, n, room);
    if true !in faults {
      SplitRecomputed(S, consumed, ids, n, room);
      CleanRunRefines(S, consumed, ms, ops, faults, outs);
    }
    RunLengths(S, ms, ops, faults, outs);
    RunRefines(S, consumed, ms, ops, faults, outs);
    forall i | 0 <= i < |outs|
      ensures outs[i] == Failure || outs[i] == Success([FullForward(S.M, ids, false).value[n - 1 + i]])
    {
      SplitSession(S, consumed, ids, n, room, outs, faults, i);
    }
  }

  lemma RunLengths(S: Setup, ms: seq<Machine>, ops: seq<Op>, faults: seq<bool>, outs: seq<Outcome>)
    requires S.Valid() && Run(S, ms, ops, faults, outs)
    ensures |ms| == |ops| + 1 && |outs| == |faults| == |ops|
  {
  }

  /** The session on the way through a split prompt: the tokens so far, or nothing once a call has failed. */
  lemma {:induction false} SplitSession(S: Setup, consumed: Option<Ids>, ids: Ids, n: nat, room: nat,
                                        outs: seq<Outcome>, faults: seq<bool>, i: nat)
    requires S.Valid() && S.incremental && S.M.complete && 0 < n <= |ids| <= S.capacity
    requires KnownIds(S.M, ids) && room >= S.M.width && FullForward(S.M, ids, false).Some?
    requires |outs| == |faults| == |ids| - n + 1 && i < |outs|
    requires AllAllowed(S, consumed, SplitOps(ids, n, room), faults, outs)
    ensures outs[i] == Failure || outs[i] == Success([FullForward(S.M, ids, false).value[n - 1 + i]])
    ensures Session(S, consumed, SplitOps(ids, n, room)[..i + 1], outs[..i + 1])
         == if outs[i].Success? then Some(ids[..n + i]) else None
  {
    hide LastRow, FullForward, KnownIds, Allowed, After, AllAllowed, Session, SplitOps, PrefillAccepts, DecodeAccepts;
    var ops := SplitOps(ids, n, room);
    var t := n - 1 + i;
    var row := FullForward(S.M, ids, false).value[t];
    RowOfPrefix(S, ids, t);
    SplitAccepts(S, ids, n, room, i);
    var before := Session(S, consumed, ops[..i], outs[..i]);
    AllowedAt(S, consumed, ops, faults, outs, i);
    if i == 0 {
      PrefillTurn(S, before, ids[..n], room, row, faults[0], outs[0]);
    } else {
      SplitSession(S, consumed, ids, n, room, outs, faults, i - 1);
      assert ids[..t] + [ids[t]] == ids[..t + 1];
      DecodeTurn(S, before, ids[..t], ids[t], room, row, faults[i], outs[i]);
    }
  }

  lemma AllowedAt(S: Setup, consumed: Option<Ids>, ops: seq<Op>, faults: seq<bool>, outs: seq<Outcome>, i: nat)
    requires S.Valid() && |outs| == |faults| == |ops| && AllAllowed(S, consumed, ops, faults, outs) && i < |ops|
    ensures Allowed(S, Session(S, consumed, ops[..i], outs[..i]), ops[i], faults[i], outs[i])
    ensures Session(S, consumed, ops[..i + 1], outs[..i + 1])
         == After(S, Session(S, consumed, ops[..i], outs[..i]), ops[i], outs[i])
  {
    hide Allowed, After;
    assert ops[..i + 1][..i] == ops[..i] && outs[..i + 1][..i] == outs[..i];
  }

  /** The call at turn `i` of a split prompt, and that its arguments are accepted. */
  lemma SplitAccepts(S: Setup, ids: Ids, n: nat, room: nat, i: nat)
    requires S.Valid() && S.incremental && S.M.complete && 0 < n <= |ids| <= S.capacity
    requires KnownIds(S.M, ids) && room >= S.M.width && i <= |ids| - n
    ensures var op := SplitOps(ids, n, room)[i];
            if i == 0 then op == Prefill(ids[..n], room) && PrefillAccepts(S, ids[..n], room)
            else op == Decode(ids[n - 1 + i], room) && DecodeAccepts(S, true, n - 1 + i, ids[n - 1 + i], room)
  {
  }

  lemma PrefillTurn(S: Setup, consumed: Option<Ids>, prompt: Ids, room: nat, row: Row, faulty: bool, out: Outcome)
    requires S.Valid() && PrefillAccepts(S, prompt, room) && LastRow(S, prompt) == Success([row])
    requires Allowed(S, consumed, Prefill(prompt, room), faulty, out)
    ensures out == Failure || out == Success([row])
    ensures After(S, consumed, Prefill(prompt, room), out) == if out.Success? then Some(prompt) else None
  {
    hide LastRow;
  }

  lemma DecodeTurn(S: Setup, consumed: Option<Ids>, prefix: Ids, id: nat, room: nat, row: Row, faulty: bool,
                   out: Outcome)
    requires S.Valid() && DecodeAccepts(S, true, |prefix|, id, room) && LastRow(S, prefix + [id]) == Success([row])
    requires consumed.Some? ==> consumed.value == prefix
    requires Allowed(S, consumed, Decode(id, room), faulty, out)
    ensures out == Failure || out == Success([row])
    ensures After(S, consumed, Decode(id, room), out) == if out.Success? then Some(prefix + [id]) else None
  {
    hide LastRow;
  }

  lemma RunOfOne(S: Setup, consumed: Option<Ids>, op: Op)
    requires S.Valid()
    ensures CleanRun(S, consumed, [op]) == ([Recompute(S, consumed, op).0], Recompute(S, consumed, op).1)
  {
    hide Recompute;
    assert [op][..|[op]| - 1] == [];
    var out := Recompute(S, consumed, op).0;
    assert [] + [out] == [out];
  }

  lemma FrontKnown(M: Model, ids: Ids)
    requires ids != [] && KnownIds(M, ids)
    ensures KnownIds(M, Front(ids))
  {
  }

  lemma LastPrefill(S: Setup, consumed: Option<Ids>, ids: Ids, room: nat)
    requires S.Valid() && S.incremental && S.M.complete && 0 < |ids| <= S.capacity
    requires KnownIds(S.M, ids) && room >= S.M.width && FullForward(S.M, ids, false).Some?
    ensures Recompute(S, consumed, Prefill(ids, room)) ==
            (Success([FullForward(S.M, ids, false).value[|ids| - 1]]), Some(ids))
  {
    hide LastRow, FullForward;
    RowOfPrefix(S, ids, |ids| - 1);
    assert ids[..|ids|] == ids;
  }

  lemma LastDecode(S: Setup, ids: Ids, room: nat)
    requires S.Valid() && S.incremental && S.M.complete && 1 < |ids| <= S.capacity
    requires KnownIds(S.M, ids) && room >= S.M.width && FullForward(S.M, ids, false).Some?
    ensures Recompute(S, Some(Front(ids)), Decode(ids[|ids| - 1], room)) ==
            (Success([FullForward(S.M, ids, false).value[|ids| - 1]]), Some(ids))
  {
    hide LastRow, FullForward;
    RowOfPrefix(S, ids, |ids| - 1);
    assert ids[..|ids|] == ids;
    assert Front(ids) + [ids[|ids| - 1]] == ids;
  }

  lemma FrontRows(S: Setup, ids: Ids)
    requires S.Valid() && |ids| > 1 && FullForward(S.M, ids, false).Some?
    ensures FullForward(S.M, Front(ids), false) == Some(Front(FullForward(S.M, ids, false).value))
  {
    hide Through;
    ThroughFront(S.M, ids, |S.M.layers|);
  }
}
