/** What the probabilities of inkling_softmax are. */
module SoftmaxValues {
  import opened Wrappers
  import opened Carrier
  import opened RealMath
  import opened Weights = Softmax

  /** The weight of a score as a real number: exp(score - maximum), and 0 for a mask. */
  ghost function Power(A: Arith, score: Float, maximum: real): real {
    if score.Fin? && A.exp(Fin(score.v - maximum)).Fin? then A.exp(Fin(score.v - maximum)).v else 0.0
  }

  // ---------- With rounding ----------

  /** One finite score has probability one. */
  lemma OneScore(A: Arith, x: Float)
    requires Lawful(A) && x.Fin?
    ensures Softmax(A, [x]) == Some([ONE])
  {
    EqualScores(A, x, 1);
    assert seq(1, _ => x) == [x];
    assert Evenly(A, 1) == ONE by {
      assert 1.0 / 1.0 == 1.0;
    }
    assert seq(1, _ => Evenly(A, 1)) == [ONE];
  }

  /** 1/n, rounded as the code rounds it. */
  function Evenly(A: Arith, n: nat): Float
    requires n > 0
  {
    Cast(A.single, A.double(1.0 / n as real))
  }

  /** `n` equal finite scores share the probability evenly, as long as double precision has the number `n`. */
  lemma EqualScores(A: Arith, x: Float, n: nat)
    requires Lawful(A) && x.Fin? && 0 < n && (n == 1 || (ExactWhole(A.double) && n <= EXACT_WHOLE))
    ensures Softmax(A, seq(n, _ => x)) == Some(seq(n, _ => Evenly(A, n)))
  {
    var scores: Row := seq(n, _ => x);
    MaximumOfEqual(x, n);
    EqualTotal(A, x, n);
    WeightRange(A, x, x);
    var r := Softmax(A, scores);
    assert r.Some?;
    forall i | 0 <= i < n
      ensures r.value[i] == Evenly(A, n)
    {
      assert scores[i] == x;
    }
    assert r.value == seq(n, _ => Evenly(A, n));
  }

  lemma {:induction false} MaximumOfEqual(x: Float, n: nat)
    requires x.Fin? && n > 0
    ensures Maximum(seq(n, _ => x)) == x
  {
    var scores: Row := seq(n, _ => x);
    assert scores[..n - 1] == seq(n - 1, _ => x);
    if n > 1 {
      MaximumOfEqual(x, n - 1);
    }
  }

  lemma {:induction false} EqualTotal(A: Arith, x: Float, n: nat)
    requires Lawful(A) && x.Fin? && (n <= 1 || (ExactWhole(A.double) && n <= EXACT_WHOLE))
    ensures Total(A, seq(n, _ => x), x) == Fin(n as real)
  {
    hide Lawful, Weight, ExactWhole;
    if n == 0 {
    } else {
      var scores: Row := seq(n, _ => x);
      assert scores[..n - 1] == seq(n - 1, _ => x);
      EqualTotal(A, x, n - 1);
      WeightRange(A, x, x);
      OneMore(A, n);
    }
  }

  lemma OneMore(A: Arith, n: nat)
    requires Lawful(A) && 0 < n && (n == 1 || (ExactWhole(A.double) && n <= EXACT_WHOLE))
    ensures Add(A.double, Fin((n - 1) as real), ONE) == Fin(n as real)
  {
    if n > 1 {
      assert IsExact(A.double, n);
    }
    assert (n - 1) as real + 1.0 == n as real;
  }

  // ---------- Without rounding ----------

  ghost function Powers(A: Arith, scores: Row, maximum: real): nat -> real {
    (i: nat) => if i < |scores| then Power(A, scores[i], maximum) else 0.0
  }

  /** The sum of the weights. */
  ghost function Norm(A: Arith, scores: Row, maximum: real): real {
    Sum(|scores|, Powers(A, scores, maximum))
  }

  lemma ExactWeight(A: Arith, score: Float, maximum: Float)
    requires Unrounded(A) && maximum.Fin? && AtMost(score, maximum)
    ensures Weight(A, score, maximum) == Fin(Power(A, score, maximum.v)) && 0.0 <= Power(A, score, maximum.v)
    ensures score == maximum ==> Power(A, score, maximum.v) == 1.0
  {
    hide Unrounded;
    if score.Fin? {
      PowerRange(A, score.v, maximum.v);
      Operations(A, score, maximum);
      Operations(A, A.exp(Fin(score.v - maximum.v)), ZERO);
    } else {
      MaskedPower(A);
      Operations(A, ZERO, ZERO);
    }
  }

  lemma PowerRange(A: Arith, score: real, maximum: real)
    requires Unrounded(A) && score <= maximum
    ensures var e := A.exp(Fin(score - maximum)); e.Fin? && 0.0 <= e.v <= 1.0 && (score == maximum ==> e == ONE)
  {
    assert score - maximum <= 0.0;
    assert score == maximum ==> Fin(score - maximum) == ZERO;
  }

  lemma MaskedPower(A: Arith)
    requires Unrounded(A)
    ensures A.exp(NegInf) == ZERO
  {
  }

  lemma {:induction false} ExactTotal(A: Arith, scores: Row, maximum: Float)
    requires Unrounded(A) && maximum.Fin? && forall i :: 0 <= i < |scores| ==> AtMost(scores[i], maximum)
    ensures Total(A, scores, maximum) == Fin(Norm(A, scores, maximum.v))
  {
    hide Unrounded, Weight, Power;
    if scores == [] {
    } else {
      var n := |scores| - 1;
      ExactTotal(A, scores[..n], maximum);
      ExactWeight(A, scores[n], maximum);
      NormSnoc(A, scores[..n], scores[n], maximum.v);
      assert scores == scores[..n] + [scores[n]];
      Operations(A, Total(A, scores[..n], maximum), Weight(A, scores[n], maximum));
    }
  }

  lemma NormSnoc(A: Arith, scores: Row, x: Float, maximum: real)
    ensures Norm(A, scores + [x], maximum) == Norm(A, scores, maximum) + Power(A, x, maximum)
  {
    hide Power;
    var all := scores + [x];
    SumEqual(|scores|, Powers(A, all, maximum), Powers(A, scores, maximum));
  }

  /** A probability is the weight divided by the sum of all weights, which is at least one. */
  lemma ExactProbability(A: Arith, scores: Row, i: nat)
    requires Unrounded(A) && Softmax(A, scores).Some? && i < |scores|
    ensures Maximum(scores).Fin?
    ensures var m := Maximum(scores).v;
            Norm(A, scores, m) >= 1.0 && Softmax(A, scores).value[i] == Fin(Power(A, scores[i], m) / Norm(A, scores, m))
  {
    hide Unrounded, Weight, Power, Norm, Total;
    var maximum := Maximum(scores);
    MaximumIsGreatest(scores);
    ExactTotal(A, scores, maximum);
    NormAtLeastOne(A, scores);
    ExactWeight(A, scores[i], maximum);
    Operations(A, Weight(A, scores[i], maximum), Total(A, scores, maximum));
    Operations(A, Fin(Power(A, scores[i], maximum.v) / Norm(A, scores, maximum.v)), ZERO);
  }

  lemma NormAtLeastOne(A: Arith, scores: Row)
    requires Unrounded(A) && Softmax(A, scores).Some?
    ensures Maximum(scores).Fin? && Norm(A, scores, Maximum(scores).v) >= 1.0
  {
    hide Unrounded, Power, Weight, Total;
    MaximumIsGreatest(scores);
    var maximum := Maximum(scores);
    var f := Powers(A, scores, maximum.v);
    forall i | 0 <= i < |scores|
      ensures f(i) >= 0.0 && (scores[i] == maximum ==> f(i) == 1.0)
    {
      ExactWeight(A, scores[i], maximum);
    }
    SumGrows(|scores|, f);
    var k :| 0 <= k < |scores| && scores[k] == maximum;
    assert f(k) == 1.0;
  }

  /** The probabilities sum to one. */
  lemma ProbabilitiesSumToOne(A: Arith, scores: Row)
    requires Unrounded(A) && Softmax(A, scores).Some?
    ensures var p := Softmax(A, scores).value; AllFinite(p) && Sum(|p|, Entries(p)) == 1.0
  {
    hide Unrounded, Power, Softmax, Norm, Powers, Entries;
    SoftmaxShape(A, scores);
    NormAtLeastOne(A, scores);
    var p, m := Softmax(A, scores).value, Maximum(scores).v;
    var norm := Norm(A, scores, m);
    forall i | 0 <= i < |p|
      ensures p[i].Fin? && Entries(p)(i) * norm == Powers(A, scores, m)(i)
    {
      ExactProbability(A, scores, i);
      ShareOf(A, scores, p, m, norm, i);
    }
    SumScaled(|p|, Entries(p), Powers(A, scores, m), norm);
    NormIsSum(A, scores, m);
    OnlyOne(Sum(|p|, Entries(p)), norm);
  }

  lemma NormIsSum(A: Arith, scores: Row, m: real)
    ensures Norm(A, scores, m) == Sum(|scores|, Powers(A, scores, m))
  {
  }

  lemma ShareOf(A: Arith, scores: Row, p: Row, m: real, norm: real, i: nat)
    requires |p| == |scores| && i < |p| && norm >= 1.0 && p[i] == Fin(Power(A, scores[i], m) / norm)
    ensures Entries(p)(i) * norm == Powers(A, scores, m)(i)
  {
    hide Power;
    Quotient(Power(A, scores[i], m), norm);
  }

  /** Two probabilities are in proportion to the exponentials of their scores. */
  lemma ProbabilitiesInProportion(A: Arith, scores: Row, i: nat, j: nat)
    requires Unrounded(A) && Softmax(A, scores).Some? && i < |scores| && j < |scores|
    ensures Maximum(scores).Fin?
    ensures var p, m := Softmax(A, scores).value, Maximum(scores).v;
            && p[i].Fin? && p[j].Fin?
            && p[i].v * Power(A, scores[j], m) == p[j].v * Power(A, scores[i], m)
  {
    hide Unrounded, Power, Softmax, Norm;
    SoftmaxShape(A, scores);
    ExactProbability(A, scores, i);
    ExactProbability(A, scores, j);
    var m := Maximum(scores).v;
    Shares(Power(A, scores[i], m), Power(A, scores[j], m), Norm(A, scores, m));
  }

  lemma Shares(v: real, w: real, norm: real)
    requires norm >= 1.0
    ensures v / norm * w == w / norm * v
  {
    Quotient(v, norm);
    Quotient(w, norm);
    Proportion(v / norm, w / norm, v, w, norm);
  }

  lemma SoftmaxShape(A: Arith, scores: Row)
    requires Softmax(A, scores).Some?
    ensures |Softmax(A, scores).value| == |scores|
  {
  }

  lemma Quotient(w: real, norm: real)
    requires norm >= 1.0
    ensures w / norm * norm == w
  {
  }

  lemma OnlyOne(s: real, norm: real)
    requires norm >= 1.0 && s * norm == norm
    ensures s == 1.0
  {
    assert (s - 1.0) * norm == 0.0;
  }

  lemma Proportion(p: real, q: real, v: real, w: real, norm: real)
    requires p * norm == v && q * norm == w
    ensures p * w == q * v
  {
    assert p * (q * norm) == q * (p * norm);
  }
}
