/** Spellings: a character of a JSON string may be written as itself, as a two-character escape, or as \u escapes with
    digits of either case.  All spellings denote the character, so texts that differ only in spelling parse to the same
    value.
*/
module JsonSpelling {
  import opened Octets
  import opened Wrappers
  import opened Pigeonhole
  import opened JsonGrammar
  import E = JsonExact
  import N = JsonNumber
  import J = JsonParser
  import S = JsonString
  import Utf8

  // ---------- The spellings of a character ----------

  /** The hexadecimal digit for a value, in small or in capital letters. */
  function HexDigit(v: nat, capital: bool): (b: Byte)
    requires v < 16
  {
    if v < 10 then 0x30 + v else if capital then 0x41 + (v - 10) else 0x61 + (v - 10)
  }

  /** Four hexadecimal digits, the most significant first. */
  function HexDigits(v: nat, capital: bool): (d: Bytes)
    requires v < 0x10000
    ensures |d| == 4
  {
    [HexDigit(v / 0x1000, capital), HexDigit(v / 0x100 % 0x10, capital), HexDigit(v / 0x10 % 0x10, capital),
     HexDigit(v % 0x10, capital)]
  }

  /** The letter escapes of section 7 of RFC 8259: \b \t \n \f \r, and the three bytes that stand for themselves. */
  const ESCAPES: map<nat, Byte> :=
    map[0x08 := 0x62, 0x09 := 0x74, 0x0a := 0x6e, 0x0c := 0x66, 0x0d := 0x72, 0x22 := 0x22, 0x5c := 0x5c, 0x2f := 0x2f]

  /** The unit is a way to write the character `c`. */
  ghost predicate Spells(u: S.Unit, c: nat) {
    && Utf8.Scalar(c)
    && (|| (u == S.Plain(c) && c >= 0x20 && c != S.QUOTE && c != S.BACKSLASH)
        || (c in ESCAPES && u == S.Short(ESCAPES[c]))
        || (c < 0x10000 && exists capital :: u == S.Hex(HexDigits(c, capital)))
        || (c >= 0x10000 && exists capital, capital' :: u == PairOf(c, capital, capital')))
  }

  /** The two escapes of a character outside the basic plane: ten bits each. */
  function PairOf(c: nat, capital: bool, capital': bool): S.Unit
    requires 0x10000 <= c <= 0x10ffff
  {
    S.Pair(HexDigits(0xd800 + (c - 0x10000) / 0x400, capital), HexDigits(0xdc00 + (c - 0x10000) % 0x400, capital'))
  }

  lemma DigitValue(v: nat, capital: bool)
    requires v < 16
    ensures S.IsHex(HexDigit(v, capital)) && S.HexValue(HexDigit(v, capital)) == v
  {
  }

  /** Four digits are read as the number that was written. */
  lemma DigitsValue(v: nat, capital: bool)
    requires v < 0x10000
    ensures S.Hex4(HexDigits(v, capital)) && S.Value4(HexDigits(v, capital)) == v
  {
    hide HexDigit, S.HexValue, S.IsHex;
    var d := HexDigits(v, capital);
    DigitValue(v / 0x1000, capital);
    DigitValue(v / 0x100 % 0x10, capital);
    DigitValue(v / 0x10 % 0x10, capital);
    DigitValue(v % 0x10, capital);
    assert S.Hex4(d);
    ValueOfFour(d);
    Digits16(v);
  }

  lemma ValueOfFour(d: Bytes)
    requires S.Hex4(d)
    ensures S.Value4(d)
         == ((S.HexValue(d[0]) * 16 + S.HexValue(d[1])) * 16 + S.HexValue(d[2])) * 16 + S.HexValue(d[3])
  {
    hide S.HexValue;
    assert d[..3][..2] == d[..2] && d[..2][..1] == d[..1] && d[..1][..0] == [];
    assert S.HexNumber(d[..1]) == S.HexValue(d[0]);
    assert S.HexNumber(d[..2]) == S.HexNumber(d[..1]) * 16 + S.HexValue(d[1]);
    assert S.HexNumber(d[..3]) == S.HexNumber(d[..2]) * 16 + S.HexValue(d[2]);
    assert d[..4] == d;
  }

  lemma Digits16(v: nat)
    ensures ((v / 0x1000 * 16 + v / 0x100 % 0x10) * 16 + v / 0x10 % 0x10) * 16 + v % 0x10 == v
  {
    assert v / 0x100 / 0x10 == v / 0x1000 && v / 0x10 / 0x10 == v / 0x100;
  }

  /** Every spelling of a character is a unit of the grammar and denotes the character. */
  lemma SpellingDenotes(u: S.Unit, c: nat)
    requires Spells(u, c)
    ensures S.ValidUnit(u) && S.UnitScalar(u) == c
  {
    hide S.Value4, HexDigits;
    if c < 0x10000 && exists capital :: u == S.Hex(HexDigits(c, capital)) {
      var capital :| u == S.Hex(HexDigits(c, capital));
      DigitsValue(c, capital);
    } else if c >= 0x10000 && exists capital, capital' :: u == PairOf(c, capital, capital') {
      var capital, capital' :| u == PairOf(c, capital, capital');
      DigitsValue(0xd800 + (c - 0x10000) / 0x400, capital);
      DigitsValue(0xdc00 + (c - 0x10000) % 0x400, capital');
    }
  }

  /** Each letter escape denotes what its \u escape denotes; the escapes of the quotation mark, the backslash and the
      solidus denote the byte itself. */
  lemma LetterEscapes()
    ensures S.UnitScalar(S.Short(0x62)) == 0x0008 && S.UnitScalar(S.Short(0x74)) == 0x0009
    ensures S.UnitScalar(S.Short(0x6e)) == 0x000a && S.UnitScalar(S.Short(0x66)) == 0x000c
    ensures S.UnitScalar(S.Short(0x72)) == 0x000d
    ensures S.UnitScalar(S.Short(0x22)) == 0x22 && S.UnitScalar(S.Short(0x5c)) == 0x5c
    ensures S.UnitScalar(S.Short(0x2f)) == 0x2f
  {
  }

  // ---------- Trees that differ in spelling ----------

  /** Two units that spell the same character, or the same unit. */
  ghost predicate Alike(u: S.Unit, v: S.Unit) {
    u == v || exists c :: Spells(u, c) && Spells(v, c)
  }

  ghost predicate AlikeUnits(us: seq<S.Unit>, vs: seq<S.Unit>) {
    |us| == |vs| && forall i :: 0 <= i < |us| ==> Alike(us[i], vs[i])
  }

  /** The same tree but for the spelling of its strings and the blanks between its tokens. */
  ghost predicate Respelled(x: Syntax, y: Syntax) {
    match (x, y)
    case (Quoted(us), Quoted(vs)) => AlikeUnits(us, vs)
    case (Bracketed(_, es), Bracketed(_, fs)) => RespelledElements(es, fs)
    case (Braced(_, ms), Braced(_, ns)) => RespelledMembers(ms, ns)
    case _ => x == y && !x.Quoted? && !x.Bracketed? && !x.Braced?
  }

  ghost predicate RespelledElements(es: Elements, fs: Elements) {
    match (es, fs)
    case (Elements(i, es'), Elements(j, fs')) => Respelled(i.value, j.value) && RespelledElements(es', fs')
    case (NoElements, NoElements) => true
    case _ => false
  }

  ghost predicate RespelledMembers(ms: Members, ns: Members) {
    match (ms, ns)
    case (Members(_, k, _, i, ms'), Members(_, l, _, j, ns')) =>
      AlikeUnits(k, l) && Respelled(i.value, j.value) && RespelledMembers(ms', ns')
    case (NoMembers, NoMembers) => true
    case _ => false
  }

  lemma AlikeUnit(u: S.Unit, v: S.Unit)
    requires Alike(u, v) && S.ValidUnit(u)
    ensures S.ValidUnit(v) && S.UnitScalar(v) == S.UnitScalar(u)
  {
    hide Spells, S.ValidUnit, S.UnitScalar;
    if u != v {
      var c :| Spells(u, c) && Spells(v, c);
      SpellingDenotes(u, c);
      SpellingDenotes(v, c);
    }
  }

  /** Strings that differ in spelling denote the same text. */
  lemma {:induction false} AlikeText(us: seq<S.Unit>, vs: seq<S.Unit>)
    requires AlikeUnits(us, vs) && S.ValidUnits(us)
    ensures S.ValidUnits(vs) && S.Denoted(vs) == S.Denoted(us)
  {
    hide Alike, S.ValidUnit, S.UnitScalar, Utf8.Encode;
    if us == [] {
    } else {
      AlikeUnit(us[0], vs[0]);
      AlikeText(us[1..], vs[1..]);
      assert forall i :: 0 < i < |vs| ==> vs[i] == vs[1..][i - 1];
    }
  }

  lemma SameMeaning(x: Syntax, y: Syntax)
    requires Respelled(x, y) && Grammatical(x) && Grammatical(y)
    ensures Meaning(y) == Meaning(x) && Nesting(y) == Nesting(x) && (Distinct(x) <==> Distinct(y))
    decreases x
  {
    hide AlikeUnits, S.ValidUnits, S.Denoted, Space, NoRepeats;
    match (x, y)
    case (Quoted(us), Quoted(vs)) =>
      AlikeText(us, vs);
    case (Bracketed(_, es), Bracketed(_, fs)) =>
      SameElements(es, fs);
    case (Braced(_, ms), Braced(_, ns)) =>
      SameMembers(ms, ns);
    case _ =>
  }

  lemma SameElements(es: Elements, fs: Elements)
    requires RespelledElements(es, fs) && GrammaticalElements(es) && GrammaticalElements(fs)
    ensures MeaningElements(fs) == MeaningElements(es) && NestingElements(fs) == NestingElements(es)
    ensures DistinctElements(es) <==> DistinctElements(fs)
    decreases es
  {
    hide Meaning, Nesting, Distinct, Grammatical, Respelled;
    if es.Elements? {
      SameMeaning(es.item.value, fs.item.value);
      SameElements(es.tail, fs.tail);
    }
  }

  lemma SameMembers(ms: Members, ns: Members)
    requires RespelledMembers(ms, ns) && GrammaticalMembers(ms) && GrammaticalMembers(ns)
    ensures MeaningMembers(ns) == MeaningMembers(ms) && NestingMembers(ns) == NestingMembers(ms)
    ensures (DistinctMembers(ms) <==> DistinctMembers(ns)) && Keys(ns) == Keys(ms)
    decreases ms
  {
    hide Meaning, Nesting, Distinct, Grammatical, Respelled, AlikeUnits, S.Denoted, S.ValidUnits;
    if ms.Members? {
      AlikeText(ms.key, ns.key);
      SameMeaning(ms.item.value, ns.item.value);
      SameMembers(ms.tail, ns.tail);
    }
  }

  /** Two documents that differ only in spelling and blanks. */
  ghost predicate SameDocument(d: Item, e: Item) {
    GrammaticalItem(d) && GrammaticalItem(e) && Respelled(d.value, e.value)
  }

  lemma SameAccepted(d: Item, e: Item)
    requires SameDocument(d, e)
    ensures E.Acceptable(d) <==> E.Acceptable(e)
    ensures Meaning(d.value) == Meaning(e.value)
  {
    hide Meaning, Nesting, Distinct, Grammatical, Respelled;
    SameMeaning(d.value, e.value);
  }

  /** The parser gives the same value for the texts of two documents that differ only in the spelling of characters and
      in blanks. */
  method ParseBoth(d: Item, e: Item) returns (a: Option<Value>, b: Option<Value>)
    requires SameDocument(d, e) && E.Acceptable(d)
    ensures a == b == Some(Meaning(d.value))
  {
    hide Meaning, E.Acceptable, E.DocumentText, SameDocument, GrammaticalItem;
    BothGrammatical(d, e);
    SameAccepted(d, e);
    a := J.Parse(E.DocumentText(d));
    b := J.Parse(E.DocumentText(e));
    Decided(d, a);
    Decided(e, b);
  }

  lemma BothGrammatical(d: Item, e: Item)
    requires SameDocument(d, e)
    ensures GrammaticalItem(d) && GrammaticalItem(e)
  {
  }

  lemma Decided(d: Item, r: Option<Value>)
    requires E.Acceptable(d) && J.Correct(E.DocumentText(d), r)
    ensures r == Some(Meaning(d.value))
  {
    hide Meaning, E.DocumentText, Distinct, Nesting;
  }

  /** A document with distinct keys is accepted exactly up to 256 levels. */
  lemma DepthLimit(d: Item)
    requires GrammaticalItem(d) && Distinct(d.value)
    ensures E.Acceptable(d) <==> Nesting(d.value) <= 256
  {
  }

  // ---------- Strings ----------

  /** Unit `i` spells character `i`. */
  ghost predicate SpellsAll(us: seq<S.Unit>, cs: seq<nat>) {
    |us| == |cs| && forall i :: 0 <= i < |us| ==> Spells(us[i], cs[i])
  }

  lemma {:induction false} SpelledText(us: seq<S.Unit>, cs: seq<nat>)
    requires SpellsAll(us, cs)
    ensures Utf8.Scalars(cs) && S.ValidUnits(us) && S.Denoted(us) == Utf8.EncodeAll(cs)
  {
    hide Spells, S.ValidUnit, S.UnitScalar, Utf8.Encode, Utf8.Scalar;
    if us == [] {
    } else {
      SpellingDenotes(us[0], cs[0]);
      SpelledText(us[1..], cs[1..]);
      assert forall i :: 0 < i < |us| ==> us[i] == us[1..][i - 1] && cs[i] == cs[1..][i - 1];
    }
  }

  /** A text in quotation marks, each character in any of its spellings: the result is the text in UTF-8. */
  method ParseSpelled(us: seq<S.Unit>, ghost cs: seq<nat>) returns (r: Option<Value>)
    requires SpellsAll(us, cs)
    ensures Utf8.Scalars(cs) && r == Some(String(Utf8.EncodeAll(cs)))
  {
    hide SpellsAll, E.DocumentText;
    SpelledText(us, cs);
    ghost var d := Item([], Quoted(us), []);
    StringDocument(us);
    r := J.Parse([S.QUOTE] + S.UnitsText(us));
    Decided(d, r);
  }

  lemma StringDocument(us: seq<S.Unit>)
    requires S.ValidUnits(us)
    ensures var d := Item([], Quoted(us), []);
            E.Acceptable(d) && E.DocumentText(d) == [S.QUOTE] + S.UnitsText(us)
  {
    hide S.ValidUnits, S.UnitsText;
    var none: Bytes, text := [], S.UnitsText(us);
    assert none + none == none && text + none == text && none + ([S.QUOTE] + text) == [S.QUOTE] + text;
    assert Written(Quoted(us), none) == [S.QUOTE] + (text + none);
  }

  // ---------- A document ----------

  /** {"a":[-1.5e+2,true,false,null,"\u0041\n"]} as bytes. */
  const SAMPLE: Bytes :=
    [0x7b] + ([0x22] + ([0x61, 0x22] + ([0x3a] + ([0x5b]
    + ([0x2d, 0x31, 0x2e, 0x35, 0x65, 0x2b, 0x32] + ([0x2c] + ([0x74, 0x72, 0x75, 0x65] + ([0x2c]
    + ([0x66, 0x61, 0x6c, 0x73, 0x65] + ([0x2c] + ([0x6e, 0x75, 0x6c, 0x6c] + ([0x2c]
    + ([0x22] + ([0x5c, 0x75, 0x30, 0x30, 0x34, 0x31, 0x5c, 0x6e, 0x22] + ([0x5d] + [0x7d])))))))))))))))

  function Bare(x: Syntax): Item {
    Item([], x, [])
  }

  function SampleNumber(): N.Number {
    N.Number(true, [0x31], Some([0x35]), Some(N.Exponent(0x65, [0x2b], [0x32])))
  }

  function SampleUnits(): seq<S.Unit> {
    [S.Hex([0x30, 0x30, 0x34, 0x31]), S.Short(0x6e)]
  }

  function SampleList(): Elements {
    Elements(Bare(Numeral(SampleNumber())), Elements(Bare(TrueWord), Elements(Bare(FalseWord), Elements(Bare(NullWord),
      Elements(Bare(Quoted(SampleUnits())), NoElements)))))
  }

  /** The tree of the sample. */
  function SampleTree(): Syntax {
    Braced([], Members([], [S.Plain(0x61)], [], Bare(Bracketed([], SampleList())), NoMembers))
  }

  /** The value of the sample. */
  function SampleValue(): Value {
    var number := Number([0x2d, 0x31, 0x2e, 0x35, 0x65, 0x2b, 0x32]);
    Object([Member([0x61], Array([number, Boolean(true), Boolean(false), Null, String([0x41, 0x0a])]))])
  }

  lemma SampleNumberText()
    ensures N.ValidNumber(SampleNumber()) && N.NumberText(SampleNumber()) == [0x2d, 0x31, 0x2e, 0x35, 0x65, 0x2b, 0x32]
  {
    var n := SampleNumber();
    assert N.ExponentText(n.exponent) == [0x65, 0x2b, 0x32] && N.FractionText(n.fraction) == [0x2e, 0x35];
    assert N.SignText(true) == [0x2d];
  }

  lemma SampleUnitsText()
    ensures S.ValidUnits(SampleUnits()) && S.Denoted(SampleUnits()) == [0x41, 0x0a]
    ensures S.UnitsText(SampleUnits()) == [0x5c, 0x75, 0x30, 0x30, 0x34, 0x31, 0x5c, 0x6e, 0x22]
  {
    var us := SampleUnits();
    assert HexDigits(0x41, false) == [0x30, 0x30, 0x34, 0x31];
    DigitsValue(0x41, false);
    hide S.Value4;
    assert us[1..] == [S.Short(0x6e)] && us[1..][1..] == [];
    assert S.UnitsText(us[1..]) == [0x5c, 0x6e, 0x22];
    assert S.Denoted(us[1..]) == [0x0a];
  }

  lemma SampleKeyText()
    ensures S.ValidUnits([S.Plain(0x61)]) && S.Denoted([S.Plain(0x61)]) == [0x61]
    ensures S.UnitsText([S.Plain(0x61)]) == [0x61, 0x22]
  {
    assert [S.Plain(0x61)][1..] == [];
  }

  /** No blanks: an item is written as its value. */
  lemma BareText(x: Syntax, rest: Bytes)
    requires Grammatical(x)
    ensures GrammaticalItem(Bare(x)) && WrittenItem(Bare(x), rest) == Written(x, rest)
  {
    hide Written, Grammatical;
    var none: Bytes := [];
    assert none + rest == rest && none + Written(x, none + rest) == Written(x, rest);
  }

  lemma SampleListText(rest: Bytes)
    ensures SampleList().Elements? && GrammaticalElements(SampleList())
    ensures WrittenElements(SampleList(), rest) ==
            [0x2d, 0x31, 0x2e, 0x35, 0x65, 0x2b, 0x32] + ([0x2c] + ([0x74, 0x72, 0x75, 0x65] + ([0x2c]
            + ([0x66, 0x61, 0x6c, 0x73, 0x65] + ([0x2c] + ([0x6e, 0x75, 0x6c, 0x6c] + ([0x2c]
            + ([0x22] + ([0x5c, 0x75, 0x30, 0x30, 0x34, 0x31, 0x5c, 0x6e, 0x22] + ([0x5d] + rest))))))))))
  {
    hide S.UnitsText, S.ValidUnits, N.NumberText, N.ValidNumber, S.Denoted;
    SampleNumberText();
    SampleUnitsText();
    var text := Quoted(SampleUnits());
    var e4 := Elements(Bare(text), NoElements);
    var e3 := Elements(Bare(NullWord), e4);
    var e2 := Elements(Bare(FalseWord), e3);
    var e1 := Elements(Bare(TrueWord), e2);
    BareText(text, [0x5d] + rest);
    assert GrammaticalElements(e4);
    BareText(NullWord, AfterElement(e4, rest));
    assert GrammaticalElements(e3);
    BareText(FalseWord, AfterElement(e3, rest));
    assert GrammaticalElements(e2);
    BareText(TrueWord, AfterElement(e2, rest));
    assert GrammaticalElements(e1);
    BareText(Numeral(SampleNumber()), AfterElement(e1, rest));
  }

  /** The parser on the sample: every kind of token and the value of each. */
  method ParseSample() returns (r: Option<Value>)
    ensures r == Some(SampleValue())
  {
    hide Meaning, E.Acceptable, E.DocumentText, SampleTree, SampleValue;
    SampleDocument();
    SampleMeaning();
    r := J.Parse(SAMPLE);
    Decided(Bare(SampleTree()), r);
  }

  lemma SampleDocument()
    ensures GrammaticalItem(Bare(SampleTree())) && E.DocumentText(Bare(SampleTree())) == SAMPLE
  {
    hide S.UnitsText, S.ValidUnits, S.Denoted, SampleList, WrittenElements;
    SampleKeyText();
    SampleListText([0x7d]);
    var none: Bytes, list := [], Bracketed([], SampleList());
    var key := [S.Plain(0x61)];
    var ms := Members([], key, [], Bare(list), NoMembers);
    assert [0x7d] + none == [0x7d];
    BareText(list, [0x7d]);
    var inside := Written(list, [0x7d]);
    assert inside == [0x5b] + WrittenElements(SampleList(), [0x7d]);
    assert none + ([0x3a] + inside) == [0x3a] + inside;
    assert WrittenKey(key, none, inside) == [0x22] + ([0x61, 0x22] + ([0x3a] + inside));
    assert none + WrittenKey(key, none, inside) == WrittenKey(key, none, inside);
    assert WrittenMembers(ms, none) == WrittenKey(key, none, inside);
    BareText(SampleTree(), none);
  }

  lemma SampleListMeaning()
    requires GrammaticalElements(SampleList())
    ensures MeaningElements(SampleList()) ==
            [Number([0x2d, 0x31, 0x2e, 0x35, 0x65, 0x2b, 0x32]), Boolean(true), Boolean(false), Null,
             String([0x41, 0x0a])]
    ensures DistinctElements(SampleList()) && NestingElements(SampleList()) == 1
  {
    hide S.UnitsText, N.NumberText, N.ValidNumber, S.Denoted, S.ValidUnits;
    SampleNumberText();
    SampleUnitsText();
    var e4 := Elements(Bare(Quoted(SampleUnits())), NoElements);
    var e3 := Elements(Bare(NullWord), e4);
    var e2 := Elements(Bare(FalseWord), e3);
    var e1 := Elements(Bare(TrueWord), e2);
    assert GrammaticalElements(e1) && GrammaticalElements(e2) && GrammaticalElements(e3) && GrammaticalElements(e4);
    assert MeaningElements(e4) == [String([0x41, 0x0a])] && DistinctElements(e4) && NestingElements(e4) == 1;
    assert MeaningElements(e3) == [Null, String([0x41, 0x0a])] && DistinctElements(e3) && NestingElements(e3) == 1;
    assert MeaningElements(e2) == [Boolean(false), Null, String([0x41, 0x0a])];
    assert DistinctElements(e2) && NestingElements(e2) == 1;
    assert MeaningElements(e1) == [Boolean(true), Boolean(false), Null, String([0x41, 0x0a])];
    assert DistinctElements(e1) && NestingElements(e1) == 1;
  }

  lemma SampleMeaning()
    requires GrammaticalItem(Bare(SampleTree()))
    ensures E.Acceptable(Bare(SampleTree())) && Meaning(SampleTree()) == SampleValue()
  {
    hide S.UnitsText, S.Denoted, S.ValidUnits, SampleList, MeaningElements, DistinctElements, NestingElements;
    SampleListText([]);
    SampleListMeaning();
    SampleKeyText();
    var ms := Members([], [S.Plain(0x61)], [], Bare(Bracketed([], SampleList())), NoMembers);
    assert MeaningMembers(ms) == [Member([0x61], Array(MeaningElements(SampleList())))];
    assert Keys(ms) == [[0x61]] && DistinctMembers(ms) && NestingMembers(ms) == 2;
  }
}
