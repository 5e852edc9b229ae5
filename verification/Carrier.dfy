/** The numbers the runtime computes with.

    A `Float` is an IEEE value without the sign of zero: a finite real, an infinity or NaN.  Every
    operation on finite operands is exact and then rounded, and the rounding function is a parameter,
    so overflow to an infinity is modelled.  `Lawful` collects the facts about rounding and about
    `exp` that IEEE arithmetic has and that the proofs use; `ExactArithmeticIsLawful` shows that they
    can be met.
*/
module Carrier {
  import opened Wrappers

  datatype Float = NaN | NegInf | PosInf | Fin(v: real)

  type Row = seq<Float>

  type Rounding = real -> Float

  /** The two formats the runtime uses and the exponential of the C library. */
  datatype Arith = Arith(single: Rounding, double: Rounding, exp: Float -> Float)

  const ZERO: Float := Fin(0.0)
  const ONE: Float := Fin(1.0)

  // ---------- Comparison and arithmetic ----------

  /** `x < y` as in C: false when either side is NaN. */
  predicate Less(x: Float, y: Float) {
    match (x, y)
    case (Fin(a), Fin(b)) => a < b
    case (NegInf, Fin(_)) => true
    case (NegInf, PosInf) => true
    case (Fin(_), PosInf) => true
    case _ => false
  }

  predicate AtMost(x: Float, y: Float) {
    Less(x, y) || (x == y && !x.NaN?)
  }

  predicate Positive(x: Float) {
    x.PosInf? || (x.Fin? && x.v > 0.0)
  }

  function Negate(x: Float): Float {
    match x
    case NaN => NaN
    case NegInf => PosInf
    case PosInf => NegInf
    case Fin(v) => Fin(-v)
  }

  function Add(round: Rounding, x: Float, y: Float): Float {
    if x.NaN? || y.NaN? then NaN
    else if x.Fin? && y.Fin? then round(x.v + y.v)
    else if x.Fin? then y
    else if y.Fin? || x == y then x
    else NaN
  }

  function Sub(round: Rounding, x: Float, y: Float): Float {
    Add(round, x, Negate(y))
  }

  function Mul(round: Rounding, x: Float, y: Float): Float {
    if x.NaN? || y.NaN? then NaN
    else if x.Fin? && y.Fin? then round(x.v * y.v)
    else if x == ZERO || y == ZERO then NaN
    else if Positive(x) == Positive(y) then PosInf
    else NegInf
  }

  function Div(round: Rounding, x: Float, y: Float): Float {
    if x.NaN? || y.NaN? || (!x.Fin? && !y.Fin?) then NaN
    else if !y.Fin? then ZERO
    else if x == ZERO && y == ZERO then NaN
    else if !x.Fin? || y == ZERO then if Positive(x) == (y == ZERO || Positive(y)) then PosInf else NegInf
    else round(x.v / y.v)
  }

  /** Conversion to another format. */
  function Cast(round: Rounding, x: Float): Float {
    if x.Fin? then round(x.v) else x
  }

  predicate AllFinite(xs: Row) {
    forall i :: 0 <= i < |xs| ==> xs[i].Fin?
  }

  predicate FiniteRows(rows: seq<Row>) {
    forall t :: 0 <= t < |rows| ==> AllFinite(rows[t])
  }

  predicate Widths(rows: seq<Row>, width: nat) {
    forall t :: 0 <= t < |rows| ==> |rows[t]| == width
  }

  // ---------- Laws ----------

  ghost predicate LawfulRounding(round: Rounding) {
    && round(0.0) == ZERO
    && round(1.0) == ONE
    && (forall a: real :: !round(a).NaN?)
    && (forall a: real :: round(a).Fin? ==> round(round(a).v) == round(a))
    && (forall a: real, b: real :: a <= b ==> AtMost(round(a), round(b)))
  }

  ghost predicate LawfulExp(exp: Float -> Float) {
    && exp(NegInf) == ZERO
    && exp(ZERO) == ONE
    && (forall g: real :: g <= 0.0 ==> exp(Fin(g)).Fin? && 0.0 <= exp(Fin(g)).v <= 1.0)
  }

  ghost predicate Increasing(exp: Float -> Float) {
    forall a: real, b: real :: a < b ==> Less(exp(Fin(a)), exp(Fin(b))) && Less(ZERO, exp(Fin(a)))
  }

  ghost predicate Lawful(A: Arith) {
    LawfulRounding(A.single) && LawfulRounding(A.double) && LawfulExp(A.exp)
  }

  /** Double precision has every whole number up to this one. */
  const EXACT_WHOLE: nat := 0x20_0000_0000_0000

  predicate IsExact(round: Rounding, k: nat) {
    round(k as real) == Fin(k as real)
  }

  ghost predicate ExactWhole(round: Rounding) {
    forall k: nat :: k <= EXACT_WHOLE ==> IsExact(round, k)
  }

  /** A positive function that increases, is 1 at zero, and comes as near to zero as one likes. */
  function Growth(x: real): (y: real)
    ensures y > 0.0 && (x <= 0.0 ==> y <= 1.0)
  {
    if x <= 0.0 then 1.0 / (1.0 - x) else 1.0 + x
  }

  lemma ReciprocalFalls(c: real, d: real)
    requires 0.0 < c < d
    ensures 1.0 / d < 1.0 / c
  {
    var x, y := 1.0 / c, 1.0 / d;
    assert x * c == 1.0 && y * d == 1.0;
    assert y * c < y * d;
    assert (x - y) * c > 0.0;
  }

  lemma GrowthIncreases(a: real, b: real)
    requires a < b
    ensures Growth(a) < Growth(b)
  {
    if b <= 0.0 {
      ReciprocalFalls(1.0 - b, 1.0 - a);
    }
  }

  /** The laws are consistent: exact real arithmetic meets them, with an exponential that is positive and increases. */
  lemma ExactArithmeticIsLawful()
    ensures exists A: Arith :: Lawful(A) && ExactWhole(A.double) && Increasing(A.exp)
  {
    hide LawfulRounding, LawfulExp, ExactWhole, Increasing;
    ExactIsLawful();
    GrowthIsLawful();
    GrowthIsIncreasing();
    assert Lawful(Arith(Exact, Exact, GrowthExp)) && ExactWhole(Exact) && Increasing(GrowthExp);
  }

  function Exact(a: real): Float {
    Fin(a)
  }

  function GrowthExp(x: Float): Float {
    if x.Fin? then Fin(Growth(x.v)) else if x.NegInf? then ZERO else x
  }

  lemma ExactIsLawful()
    ensures LawfulRounding(Exact) && ExactWhole(Exact)
  {
    assert forall a: real, b: real :: a <= b ==> AtMost(Exact(a), Exact(b));
  }

  lemma GrowthIsLawful()
    ensures LawfulExp(GrowthExp)
  {
    assert Growth(0.0) == 1.0;
    hide Growth;
    assert forall g: real :: g <= 0.0 ==> GrowthExp(Fin(g)) == Fin(Growth(g));
  }

  lemma GrowthAtTwo(a: real, b: real)
    requires a < b
    ensures Less(GrowthExp(Fin(a)), GrowthExp(Fin(b))) && Less(ZERO, GrowthExp(Fin(a)))
  {
    GrowthIncreases(a, b);
  }

  lemma GrowthIsIncreasing()
    ensures Increasing(GrowthExp)
  {
    hide Less, Growth;
    forall a: real, b: real | a < b
      ensures Less(GrowthExp(Fin(a)), GrowthExp(Fin(b))) && Less(ZERO, GrowthExp(Fin(a)))
    {
      GrowthAtTwo(a, b);
    }
  }

  /** Adding zero to a value that is already in the format leaves it alone. */
  lemma AddZero(round: Rounding, x: Float)
    requires LawfulRounding(round)
    requires x.Fin? ==> round(x.v) == x
    ensures Add(round, x, ZERO) == x
  {
    if x.Fin? {
      assert x.v + 0.0 == x.v;
    }
  }

  /** A rounded sum is in the format. */
  lemma AddIsRounded(round: Rounding, x: Float, y: Float)
    requires LawfulRounding(round)
    ensures var s := Add(round, x, y); s.Fin? ==> round(s.v) == s
  {
    if x.Fin? && y.Fin? {
      var a := x.v + y.v;
      assert round(a).Fin? ==> round(round(a).v) == round(a);
    }
  }
}
