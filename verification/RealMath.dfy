/** Arithmetic without rounding, and sums of reals: what the float code is compared with when its results are to be said
    outright.
*/
module RealMath {
  import opened Carrier

  /** Nothing is rounded; the exponential meets its laws. */
  ghost predicate Unrounded(A: Arith) {
    (forall a: real :: A.single(a) == Fin(a)) && (forall a: real :: A.double(a) == Fin(a)) && LawfulExp(A.exp)
  }

  lemma UnroundedIsLawful(A: Arith)
    requires Unrounded(A)
    ensures Lawful(A)
  {
    UnroundedFormat(A.single);
    UnroundedFormat(A.double);
  }

  lemma UnroundedFormat(round: Rounding)
    requires forall a: real :: round(a) == Fin(a)
    ensures LawfulRounding(round)
  {
    forall a: real, b: real | a <= b
      ensures AtMost(round(a), round(b))
    {
    }
  }

  /** There is such arithmetic. */
  lemma UnroundedExists()
    ensures Unrounded(Arith(Exact, Exact, GrowthExp))
  {
    GrowthIsLawful();
    hide LawfulExp, GrowthExp;
  }

  /** The operations of both formats on finite operands. */
  lemma Operations(A: Arith, x: Float, y: Float)
    requires Unrounded(A) && x.Fin? && y.Fin?
    ensures Add(A.single, x, y) == Fin(x.v + y.v) && Mul(A.single, x, y) == Fin(x.v * y.v)
    ensures Add(A.double, x, y) == Fin(x.v + y.v) && Sub(A.double, x, y) == Fin(x.v - y.v)
    ensures y.v != 0.0 ==> Div(A.single, x, y) == Fin(x.v / y.v) && Div(A.double, x, y) == Fin(x.v / y.v)
    ensures Cast(A.single, x) == x
  {
    hide LawfulExp;
    assert x.v - y.v == x.v + -y.v;
  }

  /** f(0) + ... + f(n - 1). */
  function Sum(n: nat, f: nat -> real): real {
    if n == 0 then 0.0 else Sum(n - 1, f) + f(n - 1)
  }

  lemma {:induction false} SumEqual(n: nat, f: nat -> real, g: nat -> real)
    requires forall i :: 0 <= i < n ==> f(i) == g(i)
    ensures Sum(n, f) == Sum(n, g)
  {
    if n == 0 {
    } else {
      SumEqual(n - 1, f, g);
    }
  }

  lemma {:induction false} SumScaled(n: nat, f: nat -> real, g: nat -> real, k: real)
    requires forall i :: 0 <= i < n ==> f(i) * k == g(i)
    ensures Sum(n, f) * k == Sum(n, g)
  {
    if n == 0 {
    } else {
      SumScaled(n - 1, f, g, k);
      assert (Sum(n - 1, f) + f(n - 1)) * k == Sum(n - 1, f) * k + f(n - 1) * k;
    }
  }

  lemma {:induction false} SumOfNone(n: nat, f: nat -> real)
    requires forall i :: 0 <= i < n ==> f(i) == 0.0
    ensures Sum(n, f) == 0.0
  {
    if n == 0 {
    } else {
      SumOfNone(n - 1, f);
    }
  }

  lemma {:induction false} SumOfOne(n: nat, f: nat -> real, k: nat)
    requires k < n && forall i :: 0 <= i < n && i != k ==> f(i) == 0.0
    ensures Sum(n, f) == f(k)
  {
    if k == n - 1 {
      SumOfNone(n - 1, f);
    } else {
      SumOfOne(n - 1, f, k);
    }
  }

  lemma {:induction false} SumGrows(n: nat, f: nat -> real)
    requires forall i :: 0 <= i < n ==> f(i) >= 0.0
    ensures Sum(n, f) >= 0.0 && forall i :: 0 <= i < n ==> f(i) <= Sum(n, f)
  {
    if n == 0 {
    } else {
      SumGrows(n - 1, f);
    }
  }

  /** Element `i` of a row of finite numbers. */
  function At(row: Row, i: nat): real {
    if i < |row| && row[i].Fin? then row[i].v else 0.0
  }

  function Entries(row: Row): nat -> real {
    (i: nat) => At(row, i)
  }
}
