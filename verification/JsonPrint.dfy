/** Canonical printing of JSON values, and the round trip through the reader.

    The printer writes no whitespace, escapes only what must be escaped, and is defined on exactly the values that the
    reader returns.
*/
module JsonPrint {
  import opened Octets
  import opened Wrappers
  import opened Pigeonhole
  import opened JsonGrammar
  import N = JsonNumber
  import S = JsonString
  import E = JsonExact
  import Utf8

  // ---------- Values that can be printed ----------

  /** The whole text is a number. */
  predicate NumberLike(t: Bytes) {
    t != [] && N.ReadNumber(t).Some? && N.ReadNumber(t).value.1 == []
  }

  predicate Printable(v: Value) {
    match v
    case Number(t) => NumberLike(t)
    case String(t) => Utf8.WellFormed(t)
    case Array(items) => PrintableItems(items)
    case Object(members) => PrintableMembers(members) && NoRepeats(KeysOf(members))
    case _ => true
  }

  predicate PrintableItems(items: seq<Value>) {
    items != [] ==> Printable(items[0]) && PrintableItems(items[1..])
  }

  predicate PrintableMembers(members: seq<Member>) {
    members != [] ==>
      Utf8.WellFormed(members[0].key) && Printable(members[0].value) && PrintableMembers(members[1..])
  }

  function KeysOf(members: seq<Member>): seq<Bytes> {
    if members == [] then [] else [members[0].key] + KeysOf(members[1..])
  }

  /** How deep the value is nested. */
  function Depth(v: Value): nat {
    match v
    case Array(items) => DepthItems(items)
    case Object(members) => DepthMembers(members)
    case _ => 0
  }

  function DepthItems(items: seq<Value>): nat {
    if items == [] then 0 else Max(1 + Depth(items[0]), DepthItems(items[1..]))
  }

  function DepthMembers(members: seq<Member>): nat {
    if members == [] then 0 else Max(1 + Depth(members[0].value), DepthMembers(members[1..]))
  }

  // ---------- Printing ----------

  function HexLetter(v: nat): (b: Byte)
    requires v < 16
    ensures S.IsHex(b) && S.HexValue(b) == v
  {
    if v < 10 then 0x30 + v else 0x61 + v - 10
  }

  /** One character: the quotation mark, the backslash and the control characters are escaped. */
  function PrintUnit(c: nat): (u: S.Unit)
    requires Utf8.Scalar(c)
    ensures S.ValidUnit(u) && S.UnitScalar(u) == c
  {
    if c == S.QUOTE || c == S.BACKSLASH then S.Short(c)
    else if c < 0x20 then ControlUnit(c)
    else S.Plain(c)
  }

  function ControlUnit(c: nat): (u: S.Unit)
    requires c < 0x20
    ensures S.ValidUnit(u) && S.UnitScalar(u) == c
  {
    var d: Bytes := [0x30, 0x30, HexLetter(c / 16), HexLetter(c % 16)];
    assert d[..3] == [0x30, 0x30, HexLetter(c / 16)] && d[..3][..2] == [0x30, 0x30] && d[..3][..2][..1] == [0x30];
    assert S.HexNumber([0x30]) == 0 by { assert [0x30 as Byte][..0] == []; }
    assert S.HexNumber(d[..3][..2]) == 0;
    assert S.HexNumber(d[..3]) == c / 16;
    S.Hex(d)
  }

  function PrintUnits(cs: seq<nat>): seq<S.Unit>
    requires Utf8.Scalars(cs)
  {
    if cs == [] then [] else [PrintUnit(cs[0])] + PrintUnits(cs[1..])
  }

  lemma {:induction false} UnitsPrinted(cs: seq<nat>)
    requires Utf8.Scalars(cs)
    ensures S.ValidUnits(PrintUnits(cs)) && S.Denoted(PrintUnits(cs)) == Utf8.EncodeAll(cs)
  {
    hide PrintUnit, S.ValidUnit, S.UnitScalar, Utf8.Encode, Utf8.Scalar;
    if cs == [] {
    } else {
      UnitsPrinted(cs[1..]);
      assert PrintUnits(cs)[1..] == PrintUnits(cs[1..]);
    }
  }

  /** A well-formed text as string units. */
  function PrintString(t: Bytes): (us: seq<S.Unit>)
    requires Utf8.WellFormed(t)
    ensures S.ValidUnits(us) && S.Denoted(us) == t
  {
    Utf8.DecodedIsScalars(t);
    UnitsPrinted(Utf8.DecodeAll(t));
    PrintUnits(Utf8.DecodeAll(t))
  }

  function Print(v: Value): Syntax
    requires Printable(v)
  {
    match v
    case Null => NullWord
    case Boolean(flag) => if flag then TrueWord else FalseWord
    case Number(t) => Numeral(N.ReadNumber(t).value.0)
    case String(t) => Quoted(PrintString(t))
    case Array(items) => Bracketed([], PrintItems(items))
    case Object(members) => Braced([], PrintMembers(members))
  }

  function PrintItems(items: seq<Value>): Elements
    requires PrintableItems(items)
  {
    if items == [] then NoElements else Elements(Item([], Print(items[0]), []), PrintItems(items[1..]))
  }

  function PrintMembers(members: seq<Member>): Members
    requires PrintableMembers(members)
  {
    if members == [] then NoMembers
    else Members([], PrintString(members[0].key), [], Item([], Print(members[0].value), []), PrintMembers(members[1..]))
  }

  // ---------- Printing is faithful ----------

  lemma NumberPrinted(t: Bytes)
    requires NumberLike(t)
    ensures N.ValidNumber(N.ReadNumber(t).value.0) && N.NumberText(N.ReadNumber(t).value.0) == t
  {
    N.ReadNumberSound(t);
  }

  lemma ValuePrinted(v: Value)
    requires Printable(v)
    ensures Grammatical(Print(v)) && Distinct(Print(v)) && Meaning(Print(v)) == v && Nesting(Print(v)) == Depth(v)
    decreases v
  {
    hide PrintString, N.ReadNumber, S.Denoted, S.ValidUnits, PrintItems, PrintMembers, NumberLike;
    match v
    case Number(t) => NumberPrinted(t);
    case Array(items) => ItemsPrinted(items);
    case Object(members) => MembersPrinted(members);
    case _ =>
  }

  lemma {:induction false} ItemsPrinted(items: seq<Value>)
    requires PrintableItems(items)
    ensures var es := PrintItems(items);
            && GrammaticalElements(es) && DistinctElements(es) && MeaningElements(es) == items
            && NestingElements(es) == DepthItems(items)
    decreases items
  {
    hide Print, Grammatical, Distinct, Meaning, Nesting, Printable, Depth;
    if items == [] {
    } else {
      ValuePrinted(items[0]);
      ItemsPrinted(items[1..]);
      assert items == [items[0]] + items[1..];
    }
  }

  lemma {:induction false} MembersPrinted(members: seq<Member>)
    requires PrintableMembers(members)
    ensures var ms := PrintMembers(members);
            && GrammaticalMembers(ms) && DistinctMembers(ms) && MeaningMembers(ms) == members
            && NestingMembers(ms) == DepthMembers(members) && Keys(ms) == KeysOf(members)
    decreases members
  {
    hide Print, Grammatical, Distinct, Meaning, Nesting, Printable, Depth, PrintString, S.Denoted, S.ValidUnits;
    if members == [] {
    } else {
      ValuePrinted(members[0].value);
      MembersPrinted(members[1..]);
      assert members == [members[0]] + members[1..];
    }
  }

  function PrintedText(v: Value): Bytes
    requires Printable(v)
  {
    ValuePrinted(v);
    E.DocumentText(Item([], Print(v), []))
  }

  /** Printing and reading again gives the value back. */
  lemma PrintThenRead(v: Value)
    requires Printable(v) && Depth(v) <= MAX_DEPTH
    ensures E.Read(PrintedText(v)).Some? && Grammatical(E.Read(PrintedText(v)).value.value)
    ensures Meaning(E.Read(PrintedText(v)).value.value) == v
  {
    hide E.Read, E.DocumentText, Grammatical, Distinct, Meaning, Nesting, Print, Printable, Depth;
    ValuePrinted(v);
    E.ReadComplete(Item([], Print(v), []));
  }

  // ---------- Every value that is read can be printed ----------

  lemma NumberIsLike(n: N.Number)
    requires N.ValidNumber(n)
    ensures NumberLike(N.NumberText(n))
  {
    N.ReadNumberComplete(n, []);
    assert N.NumberText(n) + [] == N.NumberText(n);
    assert n.whole != [];
  }

  lemma MeaningIsPrintable(x: Syntax)
    requires Grammatical(x) && Distinct(x)
    ensures Printable(Meaning(x)) && Depth(Meaning(x)) == Nesting(x)
    decreases x
  {
    hide NumberLike, N.NumberText, S.Denoted, MeaningElements, MeaningMembers;
    match x
    case Numeral(n) => NumberIsLike(n);
    case Quoted(us) => S.DenotedIsText(us);
    case Bracketed(_, es) => ElementsArePrintable(es);
    case Braced(_, ms) => MembersArePrintable(ms);
    case _ =>
  }

  lemma {:induction false} ElementsArePrintable(es: Elements)
    requires GrammaticalElements(es) && DistinctElements(es)
    ensures PrintableItems(MeaningElements(es)) && DepthItems(MeaningElements(es)) == NestingElements(es)
    decreases es
  {
    hide Grammatical, Distinct, Meaning, Nesting, Printable, Depth;
    if es.Elements? {
      MeaningIsPrintable(es.item.value);
      ElementsArePrintable(es.tail);
      assert MeaningElements(es)[1..] == MeaningElements(es.tail);
    }
  }

  lemma {:induction false} MembersArePrintable(ms: Members)
    requires GrammaticalMembers(ms) && DistinctMembers(ms)
    ensures PrintableMembers(MeaningMembers(ms)) && DepthMembers(MeaningMembers(ms)) == NestingMembers(ms)
    ensures KeysOf(MeaningMembers(ms)) == Keys(ms)
    decreases ms
  {
    hide Grammatical, Distinct, Meaning, Nesting, Printable, Depth, S.Denoted;
    if ms.Members? {
      MeaningIsPrintable(ms.item.value);
      MembersArePrintable(ms.tail);
      S.DenotedIsText(ms.key);
      assert MeaningMembers(ms)[1..] == MeaningMembers(ms.tail);
    }
  }

  /** Whatever is read can be printed, and the printed text is read as the same value. */
  lemma ReadThenPrint(text: Bytes)
    requires E.Read(text).Some?
    ensures Grammatical(E.Read(text).value.value)
    ensures var v := Meaning(E.Read(text).value.value);
            && Printable(v) && E.Read(PrintedText(v)).Some? && Grammatical(E.Read(PrintedText(v)).value.value)
            && Meaning(E.Read(PrintedText(v)).value.value) == v
  {
    hide E.Read, E.DocumentText, Grammatical, Distinct, Meaning, Nesting, Print, Printable, Depth;
    E.ReadSound(text);
    var x := E.Read(text).value.value;
    MeaningIsPrintable(x);
    PrintThenRead(Meaning(x));
  }
}
