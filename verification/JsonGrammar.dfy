/** The grammar of RFC 8259 as concrete syntax trees, and the reader's decisions as functions on the text.

    A tree holds everything that was written: whitespace, escapes, digits.  `Written` gives its text and `Meaning`
    the value it denotes.  The functions `Read...` decide what parse_value and its helpers decide.  The theorems:
    the reader accepts exactly the texts of trees with distinct keys and bounded nesting, and the tree of a text
    is unique.
*/
module JsonGrammar {
  import opened Octets
  import opened Wrappers
  import opened Pigeonhole
  import N = JsonNumber
  import S = JsonString

  // ---------- Values ----------

  datatype Value =
    | Null
    | Boolean(flag: bool)
    | Number(text: Bytes)
    | String(text: Bytes)
    | Array(items: seq<Value>)
    | Object(members: seq<Member>)

  datatype Member = Member(key: Bytes, value: Value)

  // ---------- Syntax trees ----------

  datatype Syntax =
    | NullWord
    | TrueWord
    | FalseWord
    | Numeral(number: N.Number)
    | Quoted(units: seq<S.Unit>)
    | Bracketed(space: Bytes, elements: Elements)
    | Braced(space: Bytes, members: Members)

  /** A value with the whitespace around it; a whole document has this form too. */
  datatype Item = Item(before: Bytes, value: Syntax, after: Bytes)

  /** Items separated by commas. */
  datatype Elements = NoElements | Elements(item: Item, tail: Elements)

  /** Keys and items separated by commas. */
  datatype Members =
    | NoMembers
    | Members(left: Bytes, key: seq<S.Unit>, right: Bytes, item: Item, tail: Members)

  const NULL: Bytes := [0x6e, 0x75, 0x6c, 0x6c]
  const TRUE: Bytes := [0x74, 0x72, 0x75, 0x65]
  const FALSE: Bytes := [0x66, 0x61, 0x6c, 0x73, 0x65]
  const COMMA: Byte := 0x2c
  const COLON: Byte := 0x3a
  const LEFT_BRACKET: Byte := 0x5b
  const RIGHT_BRACKET: Byte := 0x5d
  const LEFT_BRACE: Byte := 0x7b
  const RIGHT_BRACE: Byte := 0x7d
  const MAX_DEPTH: nat := 256

  predicate Blank(b: Byte) {
    b == 0x20 || b == 0x09 || b == 0x0a || b == 0x0d
  }

  predicate Space(s: Bytes) {
    forall i :: 0 <= i < |s| ==> Blank(s[i])
  }

  /** The grammar; distinct keys and the bound on nesting are separate. */
  predicate Grammatical(x: Syntax) {
    match x
    case Numeral(n) => N.ValidNumber(n)
    case Quoted(us) => S.ValidUnits(us)
    case Bracketed(space, es) => Space(space) && (es.Elements? ==> space == []) && GrammaticalElements(es)
    case Braced(space, ms) =>
      Space(space) && (ms.Members? ==> space == []) && GrammaticalMembers(ms)
    case _ => true
  }

  predicate GrammaticalItem(i: Item): (r: bool)
    ensures r ==> Grammatical(i.value)
  {
    Space(i.before) && Grammatical(i.value) && Space(i.after)
  }

  predicate GrammaticalElements(es: Elements) {
    es.Elements? ==> GrammaticalItem(es.item) && GrammaticalElements(es.tail)
  }

  predicate GrammaticalMembers(ms: Members) {
    ms.Members? ==>
      && Space(ms.left) && S.ValidUnits(ms.key) && Space(ms.right)
      && GrammaticalItem(ms.item) && GrammaticalMembers(ms.tail)
  }

  /** The decoded keys. */
  function Keys(ms: Members): seq<Bytes>
    requires GrammaticalMembers(ms)
  {
    if ms.NoMembers? then [] else [S.Denoted(ms.key)] + Keys(ms.tail)
  }

  /** No object has two members with the same decoded key. */
  predicate Distinct(x: Syntax)
    requires Grammatical(x)
  {
    match x
    case Bracketed(_, es) => DistinctElements(es)
    case Braced(_, ms) => DistinctMembers(ms) && NoRepeats(Keys(ms))
    case _ => true
  }

  predicate DistinctElements(es: Elements)
    requires GrammaticalElements(es)
  {
    es.Elements? ==> Distinct(es.item.value) && DistinctElements(es.tail)
  }

  predicate DistinctMembers(ms: Members)
    requires GrammaticalMembers(ms)
  {
    ms.Members? ==> Distinct(ms.item.value) && DistinctMembers(ms.tail)
  }

  function Max(a: nat, b: nat): nat {
    if a < b then b else a
  }

  /** How deep arrays and objects are nested around the innermost value. */
  function Nesting(x: Syntax): nat {
    match x
    case Bracketed(_, es) => NestingElements(es)
    case Braced(_, ms) => NestingMembers(ms)
    case _ => 0
  }

  function NestingElements(es: Elements): nat {
    if es.NoElements? then 0 else Max(1 + Nesting(es.item.value), NestingElements(es.tail))
  }

  function NestingMembers(ms: Members): nat {
    if ms.NoMembers? then 0 else Max(1 + Nesting(ms.item.value), NestingMembers(ms.tail))
  }

  /** The text of a tree, followed by `rest`. */
  function Written(x: Syntax, rest: Bytes): Bytes
    requires Grammatical(x)
    decreases x, 0
  {
    match x
    case NullWord => NULL + rest
    case TrueWord => TRUE + rest
    case FalseWord => FALSE + rest
    case Numeral(n) => N.NumberText(n) + rest
    case Quoted(us) => [S.QUOTE] + (S.UnitsText(us) + rest)
    case Bracketed(space, es) =>
      [LEFT_BRACKET] + (if es.NoElements? then space + ([RIGHT_BRACKET] + rest) else WrittenElements(es, rest))
    case Braced(space, ms) =>
      [LEFT_BRACE] + (if ms.NoMembers? then space + ([RIGHT_BRACE] + rest) else WrittenMembers(ms, rest))
  }

  function WrittenItem(i: Item, rest: Bytes): Bytes
    requires GrammaticalItem(i)
    decreases i, 0
  {
    i.before + Written(i.value, i.after + rest)
  }

  /** The elements and the closing bracket. */
  function WrittenElements(es: Elements, rest: Bytes): Bytes
    requires es.Elements? && GrammaticalElements(es)
    decreases es, 0
  {
    WrittenItem(es.item, AfterElement(es.tail, rest))
  }

  function AfterElement(es: Elements, rest: Bytes): Bytes
    requires GrammaticalElements(es)
    decreases es, 1
  {
    if es.NoElements? then [RIGHT_BRACKET] + rest else [COMMA] + WrittenElements(es, rest)
  }

  /** The key in quotation marks and the colon. */
  function WrittenKey(key: seq<S.Unit>, right: Bytes, rest: Bytes): Bytes
    requires S.ValidUnits(key)
  {
    [S.QUOTE] + (S.UnitsText(key) + (right + ([COLON] + rest)))
  }

  /** The members and the closing brace. */
  function WrittenMembers(ms: Members, rest: Bytes): Bytes
    requires ms.Members? && GrammaticalMembers(ms)
    decreases ms, 0
  {
    ms.left + WrittenKey(ms.key, ms.right, WrittenItem(ms.item, AfterMember(ms.tail, rest)))
  }

  function AfterMember(ms: Members, rest: Bytes): Bytes
    requires GrammaticalMembers(ms)
    decreases ms, 1
  {
    if ms.NoMembers? then [RIGHT_BRACE] + rest else [COMMA] + WrittenMembers(ms, rest)
  }

  /** The value a tree denotes. */
  function Meaning(x: Syntax): Value
    requires Grammatical(x)
  {
    match x
    case NullWord => Null
    case TrueWord => Boolean(true)
    case FalseWord => Boolean(false)
    case Numeral(n) => Number(N.NumberText(n))
    case Quoted(us) => String(S.Denoted(us))
    case Bracketed(_, es) => Array(MeaningElements(es))
    case Braced(_, ms) => Object(MeaningMembers(ms))
  }

  function MeaningElements(es: Elements): seq<Value>
    requires GrammaticalElements(es)
  {
    if es.NoElements? then [] else [Meaning(es.item.value)] + MeaningElements(es.tail)
  }

  function MeaningMembers(ms: Members): seq<Member>
    requires GrammaticalMembers(ms)
  {
    if ms.NoMembers? then [] else [Member(S.Denoted(ms.key), Meaning(ms.item.value))] + MeaningMembers(ms.tail)
  }

  // ---------- Whitespace ----------

  /** skip_whitespace: how many blanks are at the front. */
  function Blanks(s: Bytes): (n: nat)
    ensures n <= |s| && Space(s[..n]) && (n < |s| ==> !Blank(s[n]))
  {
    if s == [] || !Blank(s[0]) then 0
    else
      var n := Blanks(s[1..]);
      assert forall i :: 0 < i <= n ==> s[i] == s[1..][..n][i - 1];
      n + 1
  }

  function Skip(s: Bytes): (r: Bytes)
    ensures |r| <= |s| && s == s[..Blanks(s)] + r && (r != [] ==> !Blank(r[0]))
  {
    s[Blanks(s)..]
  }

  lemma {:induction false} BlanksAre(w: Bytes, rest: Bytes)
    requires Space(w) && (rest == [] || !Blank(rest[0]))
    ensures Blanks(w + rest) == |w| && (w + rest)[..|w|] == w && Skip(w + rest) == rest
  {
    if w == [] {
      assert w + rest == rest;
    } else {
      assert (w + rest)[1..] == w[1..] + rest;
      BlanksAre(w[1..], rest);
    }
  }

  // ---------- Reading ----------

  /** parse_literal. */
  function ReadWord(s: Bytes, word: Bytes, x: Syntax): Option<(Syntax, Bytes)> {
    if word <= s then Some((x, s[|word|..])) else None
  }

  /** parse_value after whitespace. */
  function ReadValue(s: Bytes, depth: nat): (r: Option<(Syntax, Bytes)>)
    ensures r.Some? ==> |r.value.1| < |s|
    decreases |s|, 1
  {
    if depth > MAX_DEPTH || s == [] then None
    else if s[0] == LEFT_BRACE then ReadObject(s, depth)
    else if s[0] == LEFT_BRACKET then ReadArray(s, depth)
    else ReadAtom(s)
  }

  /** parse_object, at the opening brace. */
  function ReadObject(s: Bytes, depth: nat): (r: Option<(Syntax, Bytes)>)
    requires s != []
    ensures r.Some? ==> |r.value.1| < |s|
    decreases |s|, 0
  {
    var t := Skip(s[1..]);
    if t != [] && t[0] == RIGHT_BRACE then Some((Braced(s[1..][..Blanks(s[1..])], NoMembers), t[1..]))
    else
      var r := ReadMembers(s[1..], depth, []);
      if r.None? then None else Some((Braced([], r.value.0), r.value.1))
  }

  /** parse_array, at the opening bracket. */
  function ReadArray(s: Bytes, depth: nat): (r: Option<(Syntax, Bytes)>)
    requires s != []
    ensures r.Some? ==> |r.value.1| < |s|
    decreases |s|, 0
  {
    var t := Skip(s[1..]);
    if t != [] && t[0] == RIGHT_BRACKET then Some((Bracketed(s[1..][..Blanks(s[1..])], NoElements), t[1..]))
    else
      var r := ReadElements(s[1..], depth);
      if r.None? then None else Some((Bracketed([], r.value.0), r.value.1))
  }

  /** The values without parts. */
  function ReadAtom(s: Bytes): (r: Option<(Syntax, Bytes)>)
    requires s != []
    ensures r.Some? ==> |r.value.1| < |s|
  {
    if s[0] == S.QUOTE then
      var r := S.ReadUnits(s[1..]);
      if r.None? then None else Some((Quoted(r.value.0), r.value.1))
    else if s[0] == TRUE[0] then ReadWord(s, TRUE, TrueWord)
    else if s[0] == FALSE[0] then ReadWord(s, FALSE, FalseWord)
    else if s[0] == NULL[0] then ReadWord(s, NULL, NullWord)
    else if s[0] == N.MINUS || N.Digit(s[0]) then
      var r := N.ReadNumber(s);
      if r.None? then None
      else
        N.ReadNumberSound(s);
        Some((Numeral(r.value.0), r.value.1))
    else None
  }

  /** A value and the whitespace on both sides. */
  function ReadItem(s: Bytes, depth: nat): (r: Option<(Item, Bytes)>)
    ensures r.Some? ==> |r.value.1| < |s|
    decreases |s|, 2
  {
    var v := ReadValue(Skip(s), depth);
    if v.None? then None
    else Some((Item(s[..Blanks(s)], v.value.0, v.value.1[..Blanks(v.value.1)]), Skip(v.value.1)))
  }

  /** The loop of parse_array. */
  function ReadElements(s: Bytes, depth: nat): (r: Option<(Elements, Bytes)>)
    ensures r.Some? ==> |r.value.1| < |s| && r.value.0.Elements?
    decreases |s|, 3
  {
    var item := ReadItem(s, depth + 1);
    if item.None? then None
    else
      var t := item.value.1;
      if t == [] then None
      else if t[0] == RIGHT_BRACKET then Some((Elements(item.value.0, NoElements), t[1..]))
      else if t[0] != COMMA then None
      else
        var more := ReadElements(t[1..], depth);
        if more.None? then None else Some((Elements(item.value.0, more.value.0), more.value.1))
  }

  /** A key, which must be new, and the colon. */
  function ReadKey(s: Bytes, seen: seq<Bytes>): (r: Option<(seq<S.Unit>, Bytes, Bytes)>)
    ensures r.Some? ==> |r.value.2| < |s|
  {
    if s == [] || s[0] != S.QUOTE then None
    else
      var key := S.ReadUnits(s[1..]);
      if key.None? then None
      else
        S.ReadUnitsSound(s[1..]);
        if S.Denoted(key.value.0) in seen then None
        else
          var t := Skip(key.value.1);
          if t == [] || t[0] != COLON then None
          else Some((key.value.0, key.value.1[..Blanks(key.value.1)], t[1..]))
  }

  lemma ReadKeySound(s: Bytes, seen: seq<Bytes>)
    requires ReadKey(s, seen).Some?
    ensures var (key, right, rest) := ReadKey(s, seen).value;
            && S.ValidUnits(key) && S.Denoted(key) !in seen && Space(right)
            && s == WrittenKey(key, right, rest)
  {
    hide Skip, Blanks, S.ReadUnits, S.UnitsText, S.Denoted;
    S.ReadUnitsSound(s[1..]);
    var (key, left) := S.ReadUnits(s[1..]).value;
    var t := Skip(left);
    assert s == [S.QUOTE] + s[1..] && t == [COLON] + t[1..];
  }

  /** The loop of parse_object. */
  function ReadMembers(s: Bytes, depth: nat, seen: seq<Bytes>): (r: Option<(Members, Bytes)>)
    ensures r.Some? ==> |r.value.1| < |s| && r.value.0.Members?
    decreases |s|, 3
  {
    var key := ReadKey(Skip(s), seen);
    if key.None? then None
    else
      ReadKeySound(Skip(s), seen);
      var (k, right, u) := key.value;
      var item := ReadItem(u, depth + 1);
      if item.None? then None
      else
        var t := item.value.1;
        if t == [] then None
        else if t[0] == RIGHT_BRACE then Some((Members(s[..Blanks(s)], k, right, item.value.0, NoMembers), t[1..]))
        else if t[0] != COMMA then None
        else
          var more := ReadMembers(t[1..], depth, seen + [S.Denoted(k)]);
          if more.None? then None
          else Some((Members(s[..Blanks(s)], k, right, item.value.0, more.value.0), more.value.1))
  }
}
