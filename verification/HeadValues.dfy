/** What the attention heads are: which key/value columns a query head reads, and the value of every element.

    Query heads come in groups of `heads / kvHeads`; group `g` reads the columns from `g * dim` on.  The statements here
    do not use `Geometry.KvHead`.
*/
module HeadValues {
  import opened Wrappers
  import opened Arithmetic
  import opened Carrier
  import opened RealMath
  import opened Attention
  import opened SoftmaxValues
  import Softmax

  // ---------- Groups ----------

  function Group(G: Geometry): nat
    requires G.Valid()
  {
    G.heads / G.kvHeads
  }

  /** Head `i` of group `g`. */
  function Head(G: Geometry, g: nat, i: nat): nat
    requires G.Valid()
  {
    g * Group(G) + i
  }

  /** Element `j` of head `h` in a row of heads, and of key/value head `h` in a row of keys or values. */
  function Place(G: Geometry, h: nat, j: nat): nat {
    h * G.dim + j
  }

  /** Head `i` of group `g` is a head, and its key/value head is `g`. */
  lemma HeadOfGroup(G: Geometry, g: nat, i: nat)
    requires G.Valid() && g < G.kvHeads && i < Group(G)
    ensures Head(G, g, i) < G.heads && G.KvHead(Head(G, g, i)) == g
    ensures Offset(g, G.dim) == Place(G, g, 0) && Place(G, g, 0) + G.dim <= G.KeyWidth()
  {
    var group := Group(G);
    assert G.heads == G.kvHeads * group;
    GroupBound(g, i, group, G.kvHeads);
    G.KvHeadFits(g * group + i);
    GroupQuotient(g, i, group);
    OffsetIsProduct(g, G.dim);
    RowFits(g, G.kvHeads, G.dim);
  }

  lemma PlaceShift(G: Geometry, h: nat, j: nat)
    ensures Place(G, h, j) == Place(G, h, 0) + j
  {
  }

  lemma GroupBound(g: nat, i: nat, group: nat, count: nat)
    requires g < count && i < group
    ensures g * group + i < count * group
  {
    RowFits(g, count, group);
    OffsetIsProduct(g, group);
    OffsetIsProduct(count, group);
  }

  lemma GroupQuotient(g: nat, i: nat, group: nat)
    requires i < group
    ensures (g * group + i) / group == g
  {
    var q := (g * group + i) / group;
    assert (g * group + i) == q * group + (g * group + i) % group;
    assert (g - q) * group == (g * group + i) % group - i;
    OnlyZero(g - q, group, (g * group + i) % group - i);
  }

  /** The heads lie one after another. */
  lemma {:induction false} HeadSlice(A: Arith, G: Geometry, y: Query, ks: seq<Row>, vs: seq<Row>, t: nat, n: nat,
                                     h: nat)
    requires G.Valid() && y.Fits(G) && h < n <= G.heads && t < |ks| == |vs|
    requires Widths(ks, G.KeyWidth()) && Widths(vs, G.KeyWidth())
    requires FullHeads(A, G, y, ks, vs, t, n).Some?
    ensures FullHead(A, G, y, h, ks, vs, t).Some? && Offset(h, G.dim) + G.dim <= Offset(n, G.dim)
    ensures FullHeads(A, G, y, ks, vs, t, n).value[Offset(h, G.dim)..Offset(h, G.dim) + G.dim]
         == FullHead(A, G, y, h, ks, vs, t).value
  {
    hide FullHead;
    RowFits(h, n, G.dim);
    if h < n - 1 {
      HeadSlice(A, G, y, ks, vs, t, n - 1, h);
    }
  }

  lemma {:induction false} RingSlice(A: Arith, G: Geometry, y: Query, keys: seq<Row>, values: seq<Row>, t: nat, n: nat,
                                     h: nat)
    requires G.Valid() && y.Fits(G) && h < n <= G.heads && 0 < |keys| == |values|
    requires Widths(keys, G.KeyWidth()) && Widths(values, G.KeyWidth())
    requires RingHeads(A, G, y, keys, values, t, n).Some?
    ensures RingHead(A, G, y, h, keys, values, t).Some? && Offset(h, G.dim) + G.dim <= Offset(n, G.dim)
    ensures RingHeads(A, G, y, keys, values, t, n).value[Offset(h, G.dim)..Offset(h, G.dim) + G.dim]
         == RingHead(A, G, y, h, keys, values, t).value
  {
    hide RingHead;
    RowFits(h, n, G.dim);
    if h < n - 1 {
      RingSlice(A, G, y, keys, values, t, n - 1, h);
    }
  }

  // ---------- Locality ----------

  /** The rows agree on `n` columns from `from` on. */
  predicate AgreeOn(rows: seq<Row>, others: seq<Row>, from: nat, n: nat) {
    && |rows| == |others|
    && forall s :: 0 <= s < |rows| ==> SameColumns(rows[s], others[s], from, n)
  }

  predicate SameColumns(row: Row, other: Row, from: nat, n: nat) {
    from + n <= |row| && from + n <= |other| && forall c :: from <= c < from + n ==> row[c] == other[c]
  }

  lemma {:induction false} DotLocal(A: Arith, x: Row, xo: nat, y: Row, z: Row, yo: nat, n: nat, width: nat)
    requires xo + n <= |x| && n <= width && SameColumns(y, z, yo, width)
    ensures Dot(A, x, xo, y, yo, n) == Dot(A, x, xo, z, yo, n)
  {
    hide Add, Mul;
    if n == 0 {
    } else {
      DotLocal(A, x, xo, y, z, yo, n - 1, width);
    }
  }

  lemma ScoreLocal(A: Arith, G: Geometry, y: Query, g: nat, i: nat, key: Row, other: Row, gap: nat)
    requires G.Valid() && y.Fits(G) && g < G.kvHeads && i < Group(G) && Head(G, g, i) < G.heads
    requires |key| == |other| == G.KeyWidth() && SameColumns(key, other, Place(G, g, 0), G.dim)
    ensures Score(A, G, y, Head(G, g, i), key, gap) == Score(A, G, y, Head(G, g, i), other, gap)
  {
    hide Bias, Add, Mul, Div, Dot, Place, Head, Group;
    var h := Head(G, g, i);
    HeadOfGroup(G, g, i);
    RowFits(h, G.heads, G.dim);
    DotLocal(A, y.q, Offset(h, G.dim), key, other, Place(G, g, 0), G.dim, G.dim);
  }

  lemma {:induction false} SumLocal(A: Arith, p: Row, vs: seq<Row>, others: seq<Row>, c: nat, lo: nat, hi: nat)
    requires hi <= |p| && hi <= |vs| && hi <= |others|
    requires forall s :: 0 <= s < hi ==> c < |vs[s]| && c < |others[s]| && vs[s][c] == others[s][c]
    ensures WeightedSum(A, p, vs, c, lo, hi) == WeightedSum(A, p, others, c, lo, hi)
  {
    hide Add, Mul;
    if hi <= lo {
    } else {
      SumLocal(A, p, vs, others, c, lo, hi - 1);
    }
  }

  lemma {:induction false} RingSumLocal(A: Arith, p: Row, values: seq<Row>, others: seq<Row>, c: nat, lo: nat, hi: nat)
    requires hi <= |p| && 0 < |values| == |others|
    requires forall s :: 0 <= s < |values| ==> c < |values[s]| && c < |others[s]| && values[s][c] == others[s][c]
    ensures RingSum(A, p, values, c, lo, hi) == RingSum(A, p, others, c, lo, hi)
  {
    hide Add, Mul;
    if hi <= lo {
    } else {
      RingSumLocal(A, p, values, others, c, lo, hi - 1);
    }
  }

  /** A head of group `g` sees nothing of the keys and values but the group's columns. */
  lemma HeadLocal(A: Arith, G: Geometry, y: Query, g: nat, i: nat, ks: seq<Row>, vs: seq<Row>, ks': seq<Row>,
                  vs': seq<Row>, t: nat)
    requires G.Valid() && y.Fits(G) && g < G.kvHeads && i < Group(G) && Head(G, g, i) < G.heads
    requires t < |ks| == |vs| && |ks'| == |vs'|
    requires Widths(ks, G.KeyWidth()) && Widths(vs, G.KeyWidth())
    requires Widths(ks', G.KeyWidth()) && Widths(vs', G.KeyWidth())
    requires AgreeOn(ks, ks', Place(G, g, 0), G.dim) && AgreeOn(vs, vs', Place(G, g, 0), G.dim)
    ensures FullHead(A, G, y, Head(G, g, i), ks, vs, t) == FullHead(A, G, y, Head(G, g, i), ks', vs', t)
  {
    hide BiasesFinite, Score, WeightedSum, Softmax.Softmax, Masked, Place, Head, Group;
    var h := Head(G, g, i);
    HeadOfGroup(G, g, i);
    forall s | 0 <= s < |ks|
      ensures FullScore(A, G, y, h, ks, t, s) == FullScore(A, G, y, h, ks', t, s)
    {
      assert SameColumns(ks[s], ks'[s], Place(G, g, 0), G.dim);
      if !Masked(G, t, s) {
        MaskedInside(G, t, s);
        ScoreLocal(A, G, y, g, i, ks[s], ks'[s], t - s);
      }
    }
    assert FullScores(A, G, y, h, ks, t) == FullScores(A, G, y, h, ks', t);
    var p := Softmax.Softmax(A, FullScores(A, G, y, h, ks, t));
    if BiasesFinite(A, G, y, h, t) && p.Some? {
      var a, b := FullHead(A, G, y, h, ks, vs, t), FullHead(A, G, y, h, ks', vs', t);
      forall j | 0 <= j < G.dim
        ensures a.value[j] == b.value[j]
      {
        PlaceShift(G, g, j);
        forall s | 0 <= s < |vs|
          ensures vs[s][Place(G, g, j)] == vs'[s][Place(G, g, j)]
        {
          assert SameColumns(vs[s], vs'[s], Place(G, g, 0), G.dim);
        }
        SumLocal(A, p.value, vs, vs', Place(G, g, j), 0, t + 1);
      }
      assert a.value == b.value;
    }
  }

  lemma MaskedInside(G: Geometry, t: nat, s: nat)
    requires !Masked(G, t, s)
    ensures s <= t
  {
  }

  lemma RingHeadLocal(A: Arith, G: Geometry, y: Query, g: nat, i: nat, keys: seq<Row>, values: seq<Row>,
                      keys': seq<Row>, values': seq<Row>, t: nat)
    requires G.Valid() && y.Fits(G) && g < G.kvHeads && i < Group(G) && Head(G, g, i) < G.heads
    requires 0 < |keys| == |values| && |keys'| == |values'|
    requires Widths(keys, G.KeyWidth()) && Widths(values, G.KeyWidth())
    requires Widths(keys', G.KeyWidth()) && Widths(values', G.KeyWidth())
    requires AgreeOn(keys, keys', Place(G, g, 0), G.dim) && AgreeOn(values, values', Place(G, g, 0), G.dim)
    ensures RingHead(A, G, y, Head(G, g, i), keys, values, t) == RingHead(A, G, y, Head(G, g, i), keys', values', t)
  {
    hide BiasesFinite, Score, RingSum, Softmax.Softmax, Place, Head, Group;
    var h := Head(G, g, i);
    HeadOfGroup(G, g, i);
    forall s | 0 <= s <= t
      ensures RingScore(A, G, y, h, keys, t, s) == RingScore(A, G, y, h, keys', t, s)
    {
      assert SameColumns(keys[s % |keys|], keys'[s % |keys|], Place(G, g, 0), G.dim);
      ScoreLocal(A, G, y, g, i, keys[s % |keys|], keys'[s % |keys|], t - s);
    }
    assert RingScores(A, G, y, h, keys, t) == RingScores(A, G, y, h, keys', t);
    var p := Softmax.Softmax(A, RingScores(A, G, y, h, keys, t));
    if BiasesFinite(A, G, y, h, t) && p.Some? {
      var a, b := RingHead(A, G, y, h, keys, values, t), RingHead(A, G, y, h, keys', values', t);
      forall j | 0 <= j < G.dim
        ensures a.value[j] == b.value[j]
      {
        PlaceShift(G, g, j);
        forall s | 0 <= s < |values|
          ensures values[s][Place(G, g, j)] == values'[s][Place(G, g, j)]
        {
          assert SameColumns(values[s], values'[s], Place(G, g, 0), G.dim);
        }
        RingSumLocal(A, p.value, values, values', Place(G, g, j), Start(|keys|, t), t + 1);
      }
      assert a.value == b.value;
    }
  }

  /** Element `(g * group + i) * dim + j` of a row of heads is element `j` of that head. */
  lemma ElementPlace(G: Geometry, g: nat, i: nat, j: nat)
    requires G.Valid() && g < G.kvHeads && i < Group(G) && j < G.dim
    ensures Head(G, g, i) < G.heads && Offset(Head(G, g, i), G.dim) == Place(G, Head(G, g, i), 0)
    ensures Place(G, Head(G, g, i), j) < G.QueryWidth()
  {
    HeadOfGroup(G, g, i);
    OffsetIsProduct(Head(G, g, i), G.dim);
    RowFits(Head(G, g, i), G.heads, G.dim);
  }

  lemma HeadElement(A: Arith, G: Geometry, y: Query, ks: seq<Row>, vs: seq<Row>, t: nat, h: nat, j: nat)
    requires G.Valid() && y.Fits(G) && h < G.heads && j < G.dim && t < |ks| == |vs|
    requires Widths(ks, G.KeyWidth()) && Widths(vs, G.KeyWidth())
    requires FullHeads(A, G, y, ks, vs, t, G.heads).Some? && Place(G, h, j) < G.QueryWidth()
    requires Offset(h, G.dim) == Place(G, h, 0)
    ensures FullHead(A, G, y, h, ks, vs, t).Some?
    ensures FullHeads(A, G, y, ks, vs, t, G.heads).value[Place(G, h, j)] == FullHead(A, G, y, h, ks, vs, t).value[j]
  {
    hide FullHead, FullHeads, Place;
    HeadSlice(A, G, y, ks, vs, t, G.heads, h);
    PlaceShift(G, h, j);
    InSlice(FullHeads(A, G, y, ks, vs, t, G.heads).value, Place(G, h, 0), G.dim, j);
  }

  lemma RingElement(A: Arith, G: Geometry, y: Query, keys: seq<Row>, values: seq<Row>, t: nat, h: nat, j: nat)
    requires G.Valid() && y.Fits(G) && h < G.heads && j < G.dim && 0 < |keys| == |values|
    requires Widths(keys, G.KeyWidth()) && Widths(values, G.KeyWidth())
    requires RingHeads(A, G, y, keys, values, t, G.heads).Some? && Place(G, h, j) < G.QueryWidth()
    requires Offset(h, G.dim) == Place(G, h, 0)
    ensures RingHead(A, G, y, h, keys, values, t).Some?
    ensures RingHeads(A, G, y, keys, values, t, G.heads).value[Place(G, h, j)]
         == RingHead(A, G, y, h, keys, values, t).value[j]
  {
    hide RingHead, RingHeads, Place;
    RingSlice(A, G, y, keys, values, t, G.heads, h);
    PlaceShift(G, h, j);
    InSlice(RingHeads(A, G, y, keys, values, t, G.heads).value, Place(G, h, 0), G.dim, j);
  }

  /** Two prefixes that agree on the columns of group `g` give the same elements for all heads of the group. */
  lemma GroupIsLocal(A: Arith, G: Geometry, y: Query, g: nat, i: nat, j: nat, ks: seq<Row>, vs: seq<Row>,
                     ks': seq<Row>, vs': seq<Row>, t: nat)
    requires G.Valid() && y.Fits(G) && g < G.kvHeads && i < Group(G) && j < G.dim
    requires t < |ks| == |vs| && |ks'| == |vs'|
    requires Widths(ks, G.KeyWidth()) && Widths(vs, G.KeyWidth())
    requires Widths(ks', G.KeyWidth()) && Widths(vs', G.KeyWidth())
    requires AgreeOn(ks, ks', Place(G, g, 0), G.dim) && AgreeOn(vs, vs', Place(G, g, 0), G.dim)
    ensures Place(G, Head(G, g, i), j) < G.QueryWidth()
    ensures var a, b := FullHeads(A, G, y, ks, vs, t, G.heads), FullHeads(A, G, y, ks', vs', t, G.heads);
            a.Some? && b.Some? ==>
              a.value[Place(G, Head(G, g, i), j)] == b.value[Place(G, Head(G, g, i), j)]
  {
    hide FullHead, FullHeads, Place, Head, Group, SameColumns, Geometry.Valid;
    ElementPlace(G, g, i, j);
    HeadLocal(A, G, y, g, i, ks, vs, ks', vs', t);
    if FullHeads(A, G, y, ks, vs, t, G.heads).Some? && FullHeads(A, G, y, ks', vs', t, G.heads).Some? {
      HeadElement(A, G, y, ks, vs, t, Head(G, g, i), j);
      HeadElement(A, G, y, ks', vs', t, Head(G, g, i), j);
    }
  }

  lemma InSlice(s: Row, from: nat, n: nat, j: nat)
    requires j < n && from + n <= |s|
    ensures s[from..from + n][j] == s[from + j]
  {
  }

  /** The same for the ring buffers. */
  lemma RingGroupIsLocal(A: Arith, G: Geometry, y: Query, g: nat, i: nat, j: nat, keys: seq<Row>, values: seq<Row>,
                         keys': seq<Row>, values': seq<Row>, t: nat)
    requires G.Valid() && y.Fits(G) && g < G.kvHeads && i < Group(G) && j < G.dim
    requires 0 < |keys| == |values| && |keys'| == |values'|
    requires Widths(keys, G.KeyWidth()) && Widths(values, G.KeyWidth())
    requires Widths(keys', G.KeyWidth()) && Widths(values', G.KeyWidth())
    requires AgreeOn(keys, keys', Place(G, g, 0), G.dim) && AgreeOn(values, values', Place(G, g, 0), G.dim)
    ensures Place(G, Head(G, g, i), j) < G.QueryWidth()
    ensures var a, b := RingHeads(A, G, y, keys, values, t, G.heads), RingHeads(A, G, y, keys', values', t, G.heads);
            a.Some? && b.Some? ==>
              a.value[Place(G, Head(G, g, i), j)] == b.value[Place(G, Head(G, g, i), j)]
  {
    hide RingHead, RingHeads, Place, Head, Group, SameColumns, Geometry.Valid;
    ElementPlace(G, g, i, j);
    RingHeadLocal(A, G, y, g, i, keys, values, keys', values', t);
    if RingHeads(A, G, y, keys, values, t, G.heads).Some? && RingHeads(A, G, y, keys', values', t, G.heads).Some? {
      RingElement(A, G, y, keys, values, t, Head(G, g, i), j);
      RingElement(A, G, y, keys', values', t, Head(G, g, i), j);
    }
  }

  // ---------- One token ----------

  /** Every element is a value of the single format. */
  predicate InFormat(A: Arith, row: Row) {
    forall c :: 0 <= c < |row| ==> row[c].Fin? && A.single(row[c].v) == row[c]
  }

  /** The first token attends to itself alone: every head of group `g` is the group's part of the value row. */
  lemma FirstToken(A: Arith, G: Geometry, y: Query, ks: seq<Row>, vs: seq<Row>, g: nat, i: nat, j: nat)
    requires Lawful(A) && G.Valid() && y.Fits(G) && 0 < |ks| == |vs| && g < G.kvHeads && i < Group(G) && j < G.dim
    requires Widths(ks, G.KeyWidth()) && Widths(vs, G.KeyWidth()) && InFormat(A, vs[0])
    requires FullHeads(A, G, y, ks, vs, 0, G.heads).Some?
    ensures Place(G, Head(G, g, i), j) < G.QueryWidth() && Place(G, g, j) < G.KeyWidth()
    ensures FullHeads(A, G, y, ks, vs, 0, G.heads).value[Place(G, Head(G, g, i), j)] == vs[0][Place(G, g, j)]
  {
    hide FullHead, FullHeads, Lawful, InFormat, Place, Head, Group, Geometry.Valid;
    PlaceShift(G, g, j);
    HeadOfGroup(G, g, i);
    ElementPlace(G, g, i, j);
    HeadsCausal(A, G, y, ks[..1], vs[..1], ks, vs, 0, G.heads);
    HeadElement(A, G, y, ks[..1], vs[..1], 0, Head(G, g, i), j);
    FirstHead(A, G, y, g, i, ks[..1], vs[..1], j);
  }

  lemma FirstHead(A: Arith, G: Geometry, y: Query, g: nat, i: nat, ks: seq<Row>, vs: seq<Row>, j: nat)
    requires Lawful(A) && G.Valid() && y.Fits(G) && |ks| == |vs| == 1 && g < G.kvHeads && i < Group(G) && j < G.dim
    requires Widths(ks, G.KeyWidth()) && Widths(vs, G.KeyWidth()) && InFormat(A, vs[0])
    requires Head(G, g, i) < G.heads && Place(G, g, 0) + G.dim <= G.KeyWidth()
    requires FullHead(A, G, y, Head(G, g, i), ks, vs, 0).Some?
    ensures FullHead(A, G, y, Head(G, g, i), ks, vs, 0).value[j] == vs[0][Place(G, g, j)]
  {
    hide BiasesFinite, Score, Softmax.Softmax, Lawful, InFormat, WeightedSum, Place, Head, Group;
    PlaceShift(G, g, j);
    var h := Head(G, g, i);
    HeadOfGroup(G, g, i);
    var scores := FullScores(A, G, y, h, ks, 0);
    OneProbability(A, scores);
    FormatAt(A, vs[0], Place(G, g, j));
    OneTerm(A, [ONE], vs, Place(G, g, j));
  }

  lemma FormatAt(A: Arith, row: Row, c: nat)
    requires InFormat(A, row) && c < |row|
    ensures row[c].Fin? && A.single(row[c].v) == row[c]
  {
  }

  lemma OneProbability(A: Arith, scores: Row)
    requires Lawful(A) && |scores| == 1 && Softmax.Softmax(A, scores).Some?
    ensures Softmax.Softmax(A, scores) == Some([ONE])
  {
    hide Lawful;
    assert scores[..0] == [];
    assert Softmax.Maximum(scores[..0]) == NegInf;
    assert scores[0].Fin?;
    assert scores == [scores[0]];
    OneScore(A, scores[0]);
  }

  lemma OneTerm(A: Arith, p: Row, vs: seq<Row>, c: nat)
    requires Lawful(A) && p == [ONE] && |vs| == 1 && c < |vs[0]| && vs[0][c].Fin? && A.single(vs[0][c].v) == vs[0][c]
    ensures WeightedSum(A, p, vs, c, 0, 1) == vs[0][c]
  {
    var v := vs[0][c].v;
    assert WeightedSum(A, p, vs, c, 0, 0) == ZERO;
    assert 1.0 * v == v && 0.0 + v == v;
  }

  // ---------- Every token, without rounding ----------

  /** x[xo + i] * y[yo + i] */
  function Products(x: Row, xo: nat, y: Row, yo: nat): nat -> real {
    (i: nat) => At(x, xo + i) * At(y, yo + i)
  }

  lemma ProductAt(x: Row, xo: nat, y: Row, yo: nat, i: nat)
    requires xo + i < |x| && yo + i < |y| && AllFinite(x) && AllFinite(y)
    ensures x[xo + i].Fin? && y[yo + i].Fin? && Products(x, xo, y, yo)(i) == x[xo + i].v * y[yo + i].v
  {
    var a, b := x[xo + i].v, y[yo + i].v;
    assert At(x, xo + i) == a && At(y, yo + i) == b;
  }

  lemma {:induction false} ExactDot(A: Arith, x: Row, xo: nat, y: Row, yo: nat, n: nat)
    requires Unrounded(A) && xo + n <= |x| && yo + n <= |y| && AllFinite(x) && AllFinite(y)
    ensures Dot(A, x, xo, y, yo, n) == Fin(Sum(n, Products(x, xo, y, yo)))
  {
    hide Unrounded, Add, Mul, Products;
    if n == 0 {
    } else {
      ExactDot(A, x, xo, y, yo, n - 1);
      ProductAt(x, xo, y, yo, n - 1);
      Operations(A, x[xo + n - 1], y[yo + n - 1]);
      Operations(A, Dot(A, x, xo, y, yo, n - 1), Mul(A.single, x[xo + n - 1], y[yo + n - 1]));
    }
  }

  /** Feature `i` of head `h` times its relative logit at distance `gap`. */
  function BiasTerms(G: Geometry, r: Row, h: nat, gap: nat): nat -> real {
    (i: nat) => At(r, h * G.relDim + i) * At(G.relative, i * G.extent + gap)
  }

  lemma {:induction false} ExactBiasSum(A: Arith, G: Geometry, r: Row, h: nat, gap: nat, n: nat)
    requires Unrounded(A) && G.Valid() && gap < G.extent && n <= G.relDim && Offset(h, G.relDim) + G.relDim <= |r|
    requires AllFinite(r) && AllFinite(G.relative)
    ensures BiasSum(A, G, r, Offset(h, G.relDim), gap, n) == Fin(Sum(n, BiasTerms(G, r, h, gap)))
  {
    hide Unrounded, Add, Mul, Geometry.Valid, Offset, BiasTerms;
    if n == 0 {
    } else {
      ExactBiasSum(A, G, r, h, gap, n - 1);
      BiasPlace(G, n - 1, gap);
      var ro, at := Offset(h, G.relDim), Offset(n - 1, G.extent) + gap;
      BiasTerm(G, r, h, gap, n - 1);
      assert r[ro + n - 1].Fin? && G.relative[at].Fin?;
      Operations(A, r[ro + n - 1], G.relative[at]);
      Operations(A, BiasSum(A, G, r, ro, gap, n - 1), Mul(A.single, r[ro + n - 1], G.relative[at]));
    }
  }

  lemma BiasPlace(G: Geometry, i: nat, gap: nat)
    requires G.Valid() && i < G.relDim && gap < G.extent
    ensures Offset(i, G.extent) + gap < |G.relative|
  {
    RowFits(i, G.relDim, G.extent);
  }

  lemma BiasTerm(G: Geometry, r: Row, h: nat, gap: nat, i: nat)
    ensures BiasTerms(G, r, h, gap)(i) == At(r, Offset(h, G.relDim) + i) * At(G.relative, Offset(i, G.extent) + gap)
  {
    OffsetIsProduct(h, G.relDim);
    OffsetIsProduct(i, G.extent);
  }

  /** The relative bias of head `h` at a distance; nothing beyond the extent. */
  function RealBias(G: Geometry, r: Row, h: nat, gap: nat): real {
    if gap < G.extent then Sum(G.relDim, BiasTerms(G, r, h, gap)) else 0.0
  }

  /** The score of head `h` on a key whose group is `g`: the inner product over the dimension, and the scaled bias. */
  function RealScore(G: Geometry, y: Query, h: nat, g: nat, key: Row, gap: nat): real
    requires y.tau.Fin? && G.dim > 0
  {
    Sum(G.dim, Products(y.q, h * G.dim, key, g * G.dim)) / G.dim as real + RealBias(G, y.r, h, gap) * y.tau.v
  }

  /** All numbers of the query and of the table are finite, and a head has elements. */
  predicate FiniteQuery(G: Geometry, y: Query) {
    AllFinite(y.q) && AllFinite(y.r) && AllFinite(G.relative) && y.tau.Fin? && G.dim > 0
  }

  lemma ExactBias(A: Arith, G: Geometry, y: Query, h: nat, gap: nat)
    requires Unrounded(A) && G.Valid() && y.Fits(G) && FiniteQuery(G, y) && h < G.heads
    ensures Bias(A, G, y, h, gap) == Fin(RealBias(G, y.r, h, gap))
    ensures Mul(A.single, Bias(A, G, y, h, gap), y.tau) == Fin(RealBias(G, y.r, h, gap) * y.tau.v)
  {
    hide Unrounded, BiasSum, BiasTerms, Mul;
    RowFits(h, G.heads, G.relDim);
    if gap < G.extent {
      ExactBiasSum(A, G, y.r, h, gap, G.relDim);
    }
    Operations(A, Bias(A, G, y, h, gap), y.tau);
  }

  lemma ExactScore(A: Arith, G: Geometry, y: Query, g: nat, i: nat, key: Row, gap: nat)
    requires Unrounded(A) && G.Valid() && y.Fits(G) && FiniteQuery(G, y) && g < G.kvHeads && i < Group(G)
    requires |key| == G.KeyWidth() && AllFinite(key) && Head(G, g, i) < G.heads
    ensures Score(A, G, y, Head(G, g, i), key, gap) == Fin(RealScore(G, y, Head(G, g, i), g, key, gap))
  {
    hide Unrounded, Bias, RealBias, Dot, Products, Add, Mul, Div, Head, Group, Geometry.Valid, Place, Sum;
    var h := Head(G, g, i);
    HeadOfGroup(G, g, i);
    ExactBias(A, G, y, h, gap);
    RowFits(h, G.heads, G.dim);
    OffsetIsProduct(h, G.dim);
    ExactDot(A, y.q, Offset(h, G.dim), key, Offset(g, G.dim), G.dim);
    PlaceStart(G, g);
    Averaged(A, Sum(G.dim, Products(y.q, h * G.dim, key, g * G.dim)), G.dim, RealBias(G, y.r, h, gap) * y.tau.v);
  }

  lemma Averaged(A: Arith, dot: real, n: nat, bias: real)
    requires Unrounded(A) && n > 0
    ensures Add(A.single, Div(A.single, Fin(dot), Fin(n as real)), Fin(bias)) == Fin(dot / n as real + bias)
  {
    hide Unrounded, Add, Div;
    Operations(A, Fin(dot), Fin(n as real));
    Operations(A, Fin(dot / n as real), Fin(bias));
  }

  lemma PlaceStart(G: Geometry, g: nat)
    ensures Place(G, g, 0) == g * G.dim
  {
  }

  /** Token `t` sees token `s`: not in the future, and in the window of a local layer. */
  predicate Sees(G: Geometry, t: nat, s: nat) {
    s <= t && (G.window == 0 || t - s < G.window)
  }

  /** The weight of token `s` before the division: exp of the score less `m` where it is seen, else nothing. */
  ghost function Pull(A: Arith, G: Geometry, y: Query, h: nat, g: nat, ks: seq<Row>, t: nat, m: real, s: nat): real
    requires y.tau.Fin? && G.dim > 0
  {
    if s < |ks| && Sees(G, t, s) then Power(A, Fin(RealScore(G, y, h, g, ks[s], t - s)), m) else 0.0
  }

  ghost function Pulls(A: Arith, G: Geometry, y: Query, h: nat, g: nat, ks: seq<Row>, t: nat, m: real): nat -> real
    requires y.tau.Fin? && G.dim > 0
  {
    (s: nat) => Pull(A, G, y, h, g, ks, t, m, s)
  }

  /** The weight of token `s` times its value in column `c`. */
  ghost function Pulled(A: Arith, G: Geometry, y: Query, h: nat, g: nat, ks: seq<Row>, vs: seq<Row>, t: nat, m: real,
                        c: nat): nat -> real
    requires y.tau.Fin? && G.dim > 0
  {
    (s: nat) => if s < |vs| then Pull(A, G, y, h, g, ks, t, m, s) * At(vs[s], c) else 0.0
  }

  /** `m` is the greatest score that token `t` sees. */
  ghost predicate Greatest(G: Geometry, y: Query, h: nat, g: nat, ks: seq<Row>, t: nat, m: real)
    requires y.tau.Fin? && G.dim > 0
  {
    && (exists s :: 0 <= s < |ks| && Sees(G, t, s) && RealScore(G, y, h, g, ks[s], t - s) == m)
    && (forall s :: 0 <= s < |ks| && Sees(G, t, s) ==> RealScore(G, y, h, g, ks[s], t - s) <= m)
  }

  lemma ExactFullScore(A: Arith, G: Geometry, y: Query, g: nat, i: nat, ks: seq<Row>, t: nat, s: nat)
    requires Unrounded(A) && G.Valid() && y.Fits(G) && FiniteQuery(G, y) && g < G.kvHeads && i < Group(G)
    requires Widths(ks, G.KeyWidth()) && FiniteRows(ks) && s < |ks| && Head(G, g, i) < G.heads
    ensures FullScore(A, G, y, Head(G, g, i), ks, t, s)
         == if Sees(G, t, s) then Fin(RealScore(G, y, Head(G, g, i), g, ks[s], t - s)) else NegInf
  {
    hide Unrounded, Score, RealScore, Head, Group, Geometry.Valid;
    if Sees(G, t, s) {
      ExactScore(A, G, y, g, i, ks[s], t - s);
    }
  }

  /** What softmax is given: the scores seen, and minus infinity for the others; the last one is always seen. */
  lemma ScoresSeen(A: Arith, G: Geometry, y: Query, g: nat, i: nat, ks: seq<Row>, t: nat)
    requires Unrounded(A) && G.Valid() && y.Fits(G) && FiniteQuery(G, y) && g < G.kvHeads && i < Group(G)
    requires Widths(ks, G.KeyWidth()) && FiniteRows(ks) && t < |ks| && Head(G, g, i) < G.heads
    ensures var scores := FullScores(A, G, y, Head(G, g, i), ks, t);
            && Softmax.Softmax(A, scores).Some? && Softmax.Maximum(scores).Fin?
            && Greatest(G, y, Head(G, g, i), g, ks, t, Softmax.Maximum(scores).v)
            && forall s :: 0 <= s < |ks| ==>
                             Power(A, scores[s], Softmax.Maximum(scores).v) ==
                             Pull(A, G, y, Head(G, g, i), g, ks, t, Softmax.Maximum(scores).v, s)
  {
    hide Unrounded, FullScore, RealScore, Head, Group, Geometry.Valid, Softmax.Maximum, FiniteRows, Widths;
    var h := Head(G, g, i);
    var scores := FullScores(A, G, y, h, ks, t);
    forall s | 0 <= s < |ks|
      ensures scores[s] == if Sees(G, t, s) then Fin(RealScore(G, y, h, g, ks[s], t - s)) else NegInf
    {
      ExactFullScore(A, G, y, g, i, ks, t, s);
    }
    Softmax.MaximumIsGreatest(scores);
    assert Sees(G, t, t) && AtMost(scores[t], Softmax.Maximum(scores));
    var k :| 0 <= k < |scores| && scores[k] == Softmax.Maximum(scores);
    assert Sees(G, t, k);
    forall s | 0 <= s < |ks| && Sees(G, t, s)
      ensures RealScore(G, y, h, g, ks[s], t - s) <= Softmax.Maximum(scores).v
    {
      assert AtMost(scores[s], Softmax.Maximum(scores));
    }
  }

  lemma {:induction false} ExactSum(A: Arith, p: Row, vs: seq<Row>, c: nat, hi: nat, f: nat -> real)
    requires Unrounded(A) && hi <= |p| && hi <= |vs| && AllFinite(p)
    requires forall s :: 0 <= s < hi ==> c < |vs[s]| && vs[s][c].Fin? && f(s) == p[s].v * vs[s][c].v
    ensures WeightedSum(A, p, vs, c, 0, hi) == Fin(Sum(hi, f))
  {
    hide Unrounded, Add, Mul;
    if hi == 0 {
    } else {
      ExactSum(A, p, vs, c, hi - 1, f);
      Operations(A, p[hi - 1], vs[hi - 1][c]);
      Operations(A, WeightedSum(A, p, vs, c, 0, hi - 1), Mul(A.single, p[hi - 1], vs[hi - 1][c]));
    }
  }

  /** A head in terms of real numbers: for every token of the prefix and every head of group `g`, the average of the
      group's value column over the tokens seen, weighted by the exponentials of their scores. */
  lemma ExactHead(A: Arith, G: Geometry, y: Query, g: nat, i: nat, ks: seq<Row>, vs: seq<Row>, t: nat)
    returns (m: real)
    requires Unrounded(A) && G.Valid() && y.Fits(G) && FiniteQuery(G, y) && g < G.kvHeads && i < Group(G)
    requires |ks| == |vs| == t + 1 && Widths(ks, G.KeyWidth()) && Widths(vs, G.KeyWidth())
    requires FiniteRows(ks) && FiniteRows(vs)
    ensures Head(G, g, i) < G.heads && FullHead(A, G, y, Head(G, g, i), ks, vs, t).Some?
    ensures Greatest(G, y, Head(G, g, i), g, ks, t, m)
    ensures var h := Head(G, g, i);
            var total := Sum(t + 1, Pulls(A, G, y, h, g, ks, t, m));
            && total >= 1.0
            && forall j :: 0 <= j < G.dim ==>
                             FullHead(A, G, y, h, ks, vs, t).value[j] ==
                             Fin(Sum(t + 1, Pulled(A, G, y, h, g, ks, vs, t, m, Place(G, g, j))) / total)
  {
    hide Unrounded, FullScores, Pull, Head, Group, Greatest, Softmax.Softmax, Softmax.Maximum, WeightedSum,
      FiniteRows, Place, Power, Geometry.Valid;
    var h := Head(G, g, i);
    HeadOfGroup(G, g, i);
    AllBiasesFinite(A, G, y, h, t);
    ScoresSeen(A, G, y, g, i, ks, t);
    var scores := FullScores(A, G, y, h, ks, t);
    m := Softmax.Maximum(scores).v;
    NormAtLeastOne(A, scores);
    SumEqual(t + 1, Powers(A, scores, m), Pulls(A, G, y, h, g, ks, t, m));
    forall j | 0 <= j < G.dim
      ensures FullHead(A, G, y, h, ks, vs, t).value[j] ==
              Fin(Sum(t + 1, Pulled(A, G, y, h, g, ks, vs, t, m, Place(G, g, j)))
                  / Sum(t + 1, Pulls(A, G, y, h, g, ks, t, m)))
    {
      PlaceShift(G, g, j);
      ExactElement(A, G, y, g, i, ks, vs, t, m, Place(G, g, j));
    }
  }

  lemma AllBiasesFinite(A: Arith, G: Geometry, y: Query, h: nat, t: nat)
    requires Unrounded(A) && G.Valid() && y.Fits(G) && FiniteQuery(G, y) && h < G.heads
    ensures BiasesFinite(A, G, y, h, t)
  {
    hide Unrounded, Bias, RealBias;
    forall gap | 0 <= gap <= t
      ensures Bias(A, G, y, h, gap).Fin? && Mul(A.single, Bias(A, G, y, h, gap), y.tau).Fin?
    {
      ExactBias(A, G, y, h, gap);
    }
  }

  /** Column `c` of the values, weighted by the probabilities. */
  lemma ExactElement(A: Arith, G: Geometry, y: Query, g: nat, i: nat, ks: seq<Row>, vs: seq<Row>, t: nat, m: real,
                     c: nat)
    requires Unrounded(A) && G.Valid() && y.Fits(G) && FiniteQuery(G, y) && g < G.kvHeads && i < Group(G)
    requires |ks| == |vs| == t + 1 && Widths(ks, G.KeyWidth()) && Widths(vs, G.KeyWidth())
    requires FiniteRows(ks) && FiniteRows(vs) && Head(G, g, i) < G.heads && c < G.KeyWidth()
    requires var scores := FullScores(A, G, y, Head(G, g, i), ks, t);
             Softmax.Softmax(A, scores).Some? && Softmax.Maximum(scores) == Fin(m)
    ensures var h := Head(G, g, i);
            var total := Sum(t + 1, Pulls(A, G, y, h, g, ks, t, m));
            && total >= 1.0
            && WeightedSum(A, Softmax.Softmax(A, FullScores(A, G, y, h, ks, t)).value, vs, c, 0, t + 1) ==
               Fin(Sum(t + 1, Pulled(A, G, y, h, g, ks, vs, t, m, c)) / total)
  {
    hide Unrounded, FullScores, Pull, Head, Group, Greatest, Softmax.Softmax, Softmax.Maximum, WeightedSum, Power,
      Geometry.Valid, Terms, Sum;
    var h := Head(G, g, i);
    var scores := FullScores(A, G, y, h, ks, t);
    var p := Softmax.Softmax(A, scores).value;
    ScoresSeen(A, G, y, g, i, ks, t);
    NormAtLeastOne(A, scores);
    SumEqual(t + 1, Powers(A, scores, m), Pulls(A, G, y, h, g, ks, t, m));
    var total := Norm(A, scores, m);
    ProbabilitiesSumToOne(A, scores);
    var f, pulled := Terms(p, vs, c), Pulled(A, G, y, h, g, ks, vs, t, m, c);
    forall s | 0 <= s < t + 1
      ensures c < |vs[s]| && vs[s][c].Fin? && f(s) == p[s].v * vs[s][c].v && f(s) * total == pulled(s)
    {
      assert AllFinite(vs[s]);
      ExactProbability(A, scores, s);
      TermScaled(p, vs, c, s, Pull(A, G, y, h, g, ks, t, m, s), total);
    }
    ExactSum(A, p, vs, c, t + 1, f);
    SumScaled(t + 1, f, pulled, total);
    Divided(Sum(t + 1, f), Sum(t + 1, pulled), total);
  }

  function Terms(p: Row, vs: seq<Row>, c: nat): nat -> real {
    (s: nat) => if s < |p| && s < |vs| then At(p, s) * At(vs[s], c) else 0.0
  }

  lemma TermScaled(p: Row, vs: seq<Row>, c: nat, s: nat, w: real, total: real)
    requires s < |p| && s < |vs| && c < |vs[s]| && vs[s][c].Fin? && total >= 1.0 && p[s] == Fin(w / total)
    ensures Terms(p, vs, c)(s) == p[s].v * vs[s][c].v && Terms(p, vs, c)(s) * total == w * At(vs[s], c)
  {
    Scaled(w, total, vs[s][c].v);
  }

  lemma Scaled(w: real, total: real, v: real)
    requires total >= 1.0
    ensures w / total * v * total == w * v
  {
    Quotient(w, total);
    assert w / total * v * total == w / total * total * v;
  }

  lemma Divided(x: real, sum: real, total: real)
    requires total >= 1.0 && x * total == sum
    ensures x == sum / total
  {
  }

  /** A relative bias that is not finite, scaled or not, at any distance up to `t` makes the head fail in both forms. */
  lemma OverflowFails(A: Arith, G: Geometry, y: Query, h: nat, ks: seq<Row>, vs: seq<Row>, keys: seq<Row>,
                      values: seq<Row>, t: nat, gap: nat)
    requires G.Valid() && y.Fits(G) && h < G.heads && t < |ks| == |vs| && 0 < |keys| == |values| && gap <= t
    requires Widths(ks, G.KeyWidth()) && Widths(vs, G.KeyWidth())
    requires Widths(keys, G.KeyWidth()) && Widths(values, G.KeyWidth())
    requires !Bias(A, G, y, h, gap).Fin? || !Mul(A.single, Bias(A, G, y, h, gap), y.tau).Fin?
    ensures FullHead(A, G, y, h, ks, vs, t).None? && RingHead(A, G, y, h, keys, values, t).None?
  {
    hide Bias, Mul, Softmax.Softmax;
    assert !BiasesFinite(A, G, y, h, t);
  }
}
