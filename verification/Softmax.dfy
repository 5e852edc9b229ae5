/** Softmax over attention scores (inkling_softmax), and what a masked score contributes to it. */
module Softmax {
  import opened Wrappers
  import opened Carrier

  /** No score is NaN or +inf; -inf is a mask. */
  predicate Usable(scores: Row) {
    forall i :: 0 <= i < |scores| ==> !scores[i].NaN? && !scores[i].PosInf?
  }

  /** The running maximum, starting at -inf. */
  function Maximum(scores: Row): Float {
    if scores == [] then NegInf
    else
      var m := Maximum(scores[..|scores| - 1]);
      var x := scores[|scores| - 1];
      if Less(m, x) then x else m
  }

  /** `(float)exp((double)x - maximum)` */
  function Weight(A: Arith, score: Float, maximum: Float): Float {
    Cast(A.single, A.exp(Sub(A.double, score, maximum)))
  }

  /** The weights added left to right in double precision. */
  function Total(A: Arith, scores: Row, maximum: Float): Float {
    if scores == [] then ZERO
    else
      Add(A.double, Total(A, scores[..|scores| - 1], maximum), Weight(A, scores[|scores| - 1], maximum))
  }

  function Probability(A: Arith, score: Float, maximum: Float, total: Float): Float {
    Cast(A.single, Div(A.double, Weight(A, score, maximum), total))
  }

  function Softmax(A: Arith, scores: Row): (r: Option<Row>)
    ensures r.Some? ==> |r.value| == |scores|
  {
    var m := Maximum(scores);
    if !Usable(scores) || m == NegInf then None
    else Some(seq(|scores|, i requires 0 <= i < |scores| => Probability(A, scores[i], m, Total(A, scores, m))))
  }

  // ---------- What the pieces mean ----------

  lemma {:induction false} MaximumIsGreatest(scores: Row)
    requires Usable(scores)
    ensures forall i :: 0 <= i < |scores| ==> AtMost(scores[i], Maximum(scores))
    ensures scores == [] || Maximum(scores) in scores
    ensures Maximum(scores).NegInf? || Maximum(scores).Fin?
  {
    if scores == [] {
    } else {
      MaximumIsGreatest(scores[..|scores| - 1]);
    }
  }

  /** A score that does not exceed the maximum has a weight in [0, 1]; the maximum itself weighs 1 and a mask 0. */
  lemma WeightRange(A: Arith, score: Float, maximum: Float)
    requires Lawful(A) && maximum.Fin? && AtMost(score, maximum)
    ensures var w := Weight(A, score, maximum); w.Fin? && 0.0 <= w.v <= 1.0
    ensures score == maximum ==> Weight(A, score, maximum) == ONE
    ensures score == NegInf ==> Weight(A, score, maximum) == ZERO
  {
    if score.Fin? {
      var gap := score.v - maximum.v;
      assert score.v + -maximum.v == gap;
      assert AtMost(A.double(gap), A.double(0.0));
      var e := A.exp(A.double(gap));
      assert e.Fin? && 0.0 <= e.v <= 1.0 by {
        if A.double(gap).Fin? {
          assert A.double(gap).v <= 0.0;
          assert A.exp(Fin(A.double(gap).v)).Fin?;
        }
      }
      assert AtMost(A.single(0.0), A.single(e.v)) && AtMost(A.single(e.v), A.single(1.0));
      if score == maximum {
        assert gap == 0.0;
      }
    }
  }

  /** The total is a value of the format, or infinite, and at least the weight 1 of the maximum. */
  lemma {:induction false} TotalRange(A: Arith, scores: Row, maximum: Float)
    requires Lawful(A) && maximum.Fin?
    requires forall i :: 0 <= i < |scores| ==> AtMost(scores[i], maximum)
    ensures var t := Total(A, scores, maximum);
            t == PosInf || (t.Fin? && t.v >= (if maximum in scores then 1.0 else 0.0) && A.double(t.v) == t)
  {
    if scores == [] {
    } else {
      var front, x := scores[..|scores| - 1], scores[|scores| - 1];
      TotalRange(A, front, maximum);
      WeightRange(A, x, maximum);
      assert scores == front + [x];
      hide Weight;
      OneWeightMore(A, Total(A, front, maximum), Weight(A, x, maximum));
    }
  }

  /** A weight more keeps the total in the format and does not make it smaller, nor smaller than the weight 1. */
  lemma OneWeightMore(A: Arith, t: Float, w: Float)
    requires LawfulRounding(A.double) && w.Fin? && 0.0 <= w.v <= 1.0
    requires t == PosInf || (t.Fin? && t.v >= 0.0 && A.double(t.v) == t)
    ensures var s := Add(A.double, t, w);
            && (s == PosInf || (s.Fin? && s.v >= 0.0 && A.double(s.v) == s)) && AtMost(t, s)
            && (w == ONE ==> AtMost(ONE, s))
  {
    AddIsRounded(A.double, t, w);
    if t.Fin? {
      assert AtMost(A.double(t.v), A.double(t.v + w.v));
      assert w == ONE ==> AtMost(A.double(1.0), A.double(t.v + w.v));
    }
  }

  /** The total never decreases. */
  lemma {:induction false} TotalGrows(A: Arith, scores: Row, maximum: Float, n: nat)
    requires Lawful(A) && maximum.Fin? && n <= |scores|
    requires forall i :: 0 <= i < |scores| ==> AtMost(scores[i], maximum)
    ensures AtMost(Total(A, scores[..n], maximum), Total(A, scores, maximum))
    decreases |scores|
  {
    if n == |scores| {
      assert scores[..n] == scores;
      TotalRange(A, scores, maximum);
    } else {
      var front, x := scores[..|scores| - 1], scores[|scores| - 1];
      assert front[..n] == scores[..n];
      TotalGrows(A, front, maximum, n);
      TotalRange(A, front, maximum);
      WeightRange(A, x, maximum);
      hide Weight;
      OneWeightMore(A, Total(A, front, maximum), Weight(A, x, maximum));
    }
  }

  /** As long as whole numbers are exact up to the number of scores, the total is finite and at most that number. */
  lemma {:induction false} TotalIsFinite(A: Arith, scores: Row, maximum: Float)
    requires Lawful(A) && maximum.Fin? && ExactWhole(A.double) && |scores| <= EXACT_WHOLE
    requires forall i :: 0 <= i < |scores| ==> AtMost(scores[i], maximum)
    ensures var t := Total(A, scores, maximum); t.Fin? && 0.0 <= t.v <= |scores| as real
  {
    if scores == [] {
    } else {
      var n := |scores| - 1;
      TotalIsFinite(A, scores[..n], maximum);
      TotalRange(A, scores, maximum);
      WeightRange(A, scores[n], maximum);
      hide Weight, Lawful;
      StaysFinite(A, Total(A, scores[..n], maximum), Weight(A, scores[n], maximum), n);
    }
  }

  lemma StaysFinite(A: Arith, t: Float, w: Float, n: nat)
    requires LawfulRounding(A.double) && ExactWhole(A.double) && n < EXACT_WHOLE
    requires t.Fin? && 0.0 <= t.v <= n as real && w.Fin? && 0.0 <= w.v <= 1.0
    ensures var s := Add(A.double, t, w); s.Fin? && 0.0 <= s.v <= (n + 1) as real
  {
    assert IsExact(A.double, n + 1);
    assert AtMost(A.double(0.0), A.double(t.v + w.v)) && AtMost(A.double(t.v + w.v), A.double((n + 1) as real));
  }

  /** A mask adds nothing to the total, and its probability is zero. */
  lemma TotalMaskedSnoc(A: Arith, scores: Row)
    requires Lawful(A) && Softmax(A, scores).Some?
    ensures var m := Maximum(scores);
            && Total(A, scores + [NegInf], m) == Total(A, scores, m)
            && Probability(A, NegInf, m, Total(A, scores, m)) == ZERO
  {
    var m, more := Maximum(scores), scores + [NegInf];
    assert more[..|more| - 1] == scores;
    MaximumIsGreatest(scores);
    TotalRange(A, scores, m);
    WeightRange(A, NegInf, m);
    var t := Total(A, scores, m);
    AddZero(A.double, t);
    if t.Fin? {
      assert 0.0 / t.v == 0.0;
    }
  }

  /** Appending one masked score adds one zero probability and changes nothing else. */
  lemma SoftmaxMaskedSnoc(A: Arith, scores: Row)
    requires Lawful(A)
    ensures Softmax(A, scores + [NegInf]).Some? <==> Softmax(A, scores).Some?
    ensures Softmax(A, scores).Some? ==>
              Softmax(A, scores + [NegInf]).value == Softmax(A, scores).value + [ZERO]
  {
    MaximumMaskedSnoc(scores);
    if Softmax(A, scores).Some? {
      TotalMaskedSnoc(A, scores);
      hide Usable, Maximum, Total, Probability;
      assert Softmax(A, scores + [NegInf]).value == Softmax(A, scores).value + [ZERO];
    }
  }

  lemma MaximumMaskedSnoc(scores: Row)
    ensures Usable(scores + [NegInf]) <==> Usable(scores)
    ensures Maximum(scores + [NegInf]) == Maximum(scores)
  {
    var more := scores + [NegInf];
    assert more[..|more| - 1] == scores;
    assert forall i :: 0 <= i < |scores| ==> more[i] == scores[i];
  }

  /** The masked-softmax lemma: any number of trailing masks is invisible. */
  lemma {:induction false} SoftmaxTrailingMasks(A: Arith, scores: Row, count: nat)
    requires Lawful(A)
    ensures var masked := scores + seq(count, _ => NegInf);
            && (Softmax(A, masked).Some? <==> Softmax(A, scores).Some?)
            && (Softmax(A, scores).Some? ==>
                  Softmax(A, masked).value == Softmax(A, scores).value + seq(count, _ => ZERO))
  {
    hide Softmax;
    var masked := scores + seq(count, _ => NegInf);
    if count == 0 {
      assert masked == scores;
      if Softmax(A, scores).Some? {
        assert Softmax(A, scores).value + seq(count, _ => ZERO) == Softmax(A, scores).value;
      }
    } else {
      var fewer := scores + seq(count - 1, _ => NegInf);
      SoftmaxTrailingMasks(A, scores, count - 1);
      SoftmaxMaskedSnoc(A, fewer);
      assert masked == fewer + [NegInf];
      if Softmax(A, scores).Some? {
        assert seq(count, _ => ZERO) == seq(count - 1, _ => ZERO) + [ZERO];
      }
    }
  }

  /** A masked position has probability exactly zero. */
  lemma MaskedProbability(A: Arith, scores: Row, i: nat)
    requires Lawful(A) && i < |scores| && scores[i] == NegInf
    requires Softmax(A, scores).Some?
    ensures Softmax(A, scores).value[i] == ZERO
  {
    var m := Maximum(scores);
    MaximumIsGreatest(scores);
    TotalRange(A, scores, m);
    WeightRange(A, NegInf, m);
    var t := Total(A, scores, m);
    if t.Fin? {
      assert 0.0 / t.v == 0.0;
    }
  }

  // ---------- The loops ----------

  /** The first loop: reject NaN and +inf, find the maximum. */
  method ScanMaximum(x: array<Float>, n: nat) returns (ok: bool, maximum: Float)
    requires n <= x.Length
    ensures ok <==> Usable(x[..n])
    ensures ok ==> maximum == Maximum(x[..n])
  {
    maximum := NegInf;
    for i := 0 to n
      invariant maximum == Maximum(x[..i]) && Usable(x[..i])
    {
      assert x[..i + 1][..i] == x[..i];
      if x[i].NaN? || x[i].PosInf? {
        assert !Usable(x[..n]) by { assert x[..n][i] == x[i]; }
        return false, NaN;
      }
      if Less(maximum, x[i]) {
        maximum := x[i];
      }
    }
    ok := true;
  }

  lemma TotalNext(A: Arith, scores: Row, maximum: Float, i: nat)
    requires i < |scores|
    ensures Total(A, scores[..i + 1], maximum) ==
            Add(A.double, Total(A, scores[..i], maximum), Weight(A, scores[i], maximum))
  {
    hide Weight, Add;
    assert scores[..i + 1][..i] == scores[..i];
  }

  lemma TotalOfNone(A: Arith, maximum: Float)
    ensures Total(A, [], maximum) == ZERO
  {
  }

  /** The second loop: store the weights and add them up. */
  method StoreWeights(A: Arith, x: array<Float>, n: nat, out: array<Float>, maximum: Float)
    returns (sum: Float)
    requires n <= x.Length && n <= out.Length
    modifies out
    ensures sum == Total(A, old(x[..n]), maximum)
    ensures forall j :: 0 <= j < n ==> out[j] == Weight(A, old(x[j]), maximum)
    ensures forall j :: n <= j < out.Length ==> out[j] == old(out[j])
  {
    hide Total, Weight;
    ghost var scores := x[..n];
    sum := ZERO;
    TotalOfNone(A, maximum);
    assert scores[..0] == [];
    for i := 0 to n
      invariant sum == Total(A, scores[..i], maximum)
      invariant forall j :: 0 <= j < i ==> out[j] == Weight(A, scores[j], maximum)
      invariant forall j :: i <= j < n ==> x[j] == scores[j]
      invariant forall j :: n <= j < out.Length ==> out[j] == old(out[j])
    {
      TotalNext(A, scores, maximum, i);
      out[i] := Weight(A, x[i], maximum);
      sum := Add(A.double, sum, out[i]);
    }
    assert scores[..n] == scores;
  }

  /** inkling_softmax: `out` may be the array that holds the scores; failure writes nothing. */
  method SoftmaxInto(A: Arith, x: array<Float>, n: nat, out: array<Float>) returns (ok: bool)
    requires n <= x.Length && n <= out.Length
    modifies out
    ensures ok <==> Softmax(A, old(x[..n])).Some?
    ensures ok ==> out[..n] == Softmax(A, old(x[..n])).value
    ensures forall i :: n <= i < out.Length ==> out[i] == old(out[i])
    ensures !ok ==> out[..] == old(out[..])
  {
    ghost var scores := x[..n];
    var maximum;
    ok, maximum := ScanMaximum(x, n);
    if !ok || maximum == NegInf {
      return false;
    }
    var sum := StoreWeights(A, x, n, out, maximum);
    for i := 0 to n
      invariant forall j :: 0 <= j < i ==> out[j] == Probability(A, scores[j], maximum, sum)
      invariant forall j :: i <= j < n ==> out[j] == Weight(A, scores[j], maximum)
      invariant forall j :: n <= j < out.Length ==> out[j] == old(out[j])
    {
      out[i] := Cast(A.single, Div(A.double, out[i], sum));
    }
    assert out[..n] == Softmax(A, scores).value;
  }
}
