/** The reader accepts exactly the documents of RFC 8259 whose objects have distinct keys and whose nesting is at most
    256, and returns the value the document denotes.
*/
module JsonExact {
  import opened Octets
  import opened Wrappers
  import opened Pigeonhole
  import opened JsonGrammar
  import N = JsonNumber
  import S = JsonString

  // ---------- What is read was written ----------

  lemma AtomSound(s: Bytes)
    requires s != [] && ReadAtom(s).Some?
    ensures var (x, rest) := ReadAtom(s).value;
            Grammatical(x) && Distinct(x) && Nesting(x) == 0 && s == Written(x, rest)
  {
    if s[0] == S.QUOTE {
      S.ReadUnitsSound(s[1..]);
      assert s == [S.QUOTE] + s[1..];
    } else if s[0] == N.MINUS || N.Digit(s[0]) {
      N.ReadNumberSound(s);
    }
  }

  lemma ValueSound(s: Bytes, depth: nat)
    requires ReadValue(s, depth).Some?
    ensures var (x, rest) := ReadValue(s, depth).value;
            Grammatical(x) && Distinct(x) && depth + Nesting(x) <= MAX_DEPTH && s == Written(x, rest)
    decreases |s|, 1
  {
    hide ReadObject, ReadArray, ReadAtom, Grammatical, Distinct, Nesting, Written;
    if s[0] == LEFT_BRACE {
      ObjectSound(s, depth);
    } else if s[0] == LEFT_BRACKET {
      ArraySound(s, depth);
    } else {
      AtomSound(s);
    }
  }

  lemma ObjectSound(s: Bytes, depth: nat)
    requires s != [] && s[0] == LEFT_BRACE && depth <= MAX_DEPTH && ReadObject(s, depth).Some?
    ensures var (x, rest) := ReadObject(s, depth).value;
            Grammatical(x) && Distinct(x) && depth + Nesting(x) <= MAX_DEPTH && s == Written(x, rest)
    decreases |s|, 0
  {
    hide ReadMembers, WrittenMembers, Blanks, Skip, S.Denoted;
    var t := Skip(s[1..]);
    if t != [] && t[0] == RIGHT_BRACE {
      Opens(s, LEFT_BRACE, RIGHT_BRACE);
    } else {
      MembersSound(s[1..], depth, []);
      var (ms, rest) := ReadMembers(s[1..], depth, []).value;
      assert s == [LEFT_BRACE] + s[1..] && [] + Keys(ms) == Keys(ms);
    }
  }

  lemma ArraySound(s: Bytes, depth: nat)
    requires s != [] && s[0] == LEFT_BRACKET && depth <= MAX_DEPTH && ReadArray(s, depth).Some?
    ensures var (x, rest) := ReadArray(s, depth).value;
            Grammatical(x) && Distinct(x) && depth + Nesting(x) <= MAX_DEPTH && s == Written(x, rest)
    decreases |s|, 0
  {
    hide ReadElements, WrittenElements, Blanks, Skip;
    var t := Skip(s[1..]);
    if t != [] && t[0] == RIGHT_BRACKET {
      Opens(s, LEFT_BRACKET, RIGHT_BRACKET);
    } else {
      ElementsSound(s[1..], depth);
      assert s == [LEFT_BRACKET] + s[1..];
    }
  }

  /** An opening byte, blanks, a closing byte. */
  lemma Opens(s: Bytes, open: Byte, close: Byte)
    requires s != [] && s[0] == open && Skip(s[1..]) != [] && Skip(s[1..])[0] == close
    ensures s == [open] + (s[1..][..Blanks(s[1..])] + ([close] + Skip(s[1..])[1..]))
  {
    hide Blanks, Skip;
    var t := Skip(s[1..]);
    assert s == [open] + s[1..] && t == [close] + t[1..];
  }

  lemma ItemSound(s: Bytes, depth: nat)
    requires ReadItem(s, depth).Some?
    ensures var (i, rest) := ReadItem(s, depth).value;
            && GrammaticalItem(i) && Distinct(i.value) && depth + Nesting(i.value) <= MAX_DEPTH
            && s == WrittenItem(i, rest)
    decreases |s|, 2
  {
    hide ReadValue, Grammatical, Distinct, Written, Blanks, Skip, Nesting;
    ValueSound(Skip(s), depth);
  }

  lemma {:induction false} ElementsSound(s: Bytes, depth: nat)
    requires ReadElements(s, depth).Some?
    ensures var (es, rest) := ReadElements(s, depth).value;
            && GrammaticalElements(es) && DistinctElements(es) && depth + NestingElements(es) <= MAX_DEPTH
            && s == WrittenElements(es, rest)
    decreases |s|, 3
  {
    hide ReadItem, GrammaticalItem, Distinct, WrittenItem, Nesting;
    ItemSound(s, depth + 1);
    var t := ReadItem(s, depth + 1).value.1;
    assert t == [t[0]] + t[1..];
    if t[0] == COMMA {
      ElementsSound(t[1..], depth);
    }
  }

  lemma {:induction false} MembersSound(s: Bytes, depth: nat, seen: seq<Bytes>)
    requires ReadMembers(s, depth, seen).Some? && NoRepeats(seen)
    ensures var (ms, rest) := ReadMembers(s, depth, seen).value;
            && GrammaticalMembers(ms) && DistinctMembers(ms) && depth + NestingMembers(ms) <= MAX_DEPTH
            && NoRepeats(seen + Keys(ms)) && s == WrittenMembers(ms, rest)
    decreases |s|, 3
  {
    hide ReadItem, ReadKey, GrammaticalItem, Distinct, WrittenItem, WrittenKey, Blanks, Skip, Nesting, S.Denoted,
      NoRepeats;
    ReadKeySound(Skip(s), seen);
    var (k, right, u) := ReadKey(Skip(s), seen).value;
    ItemSound(u, depth + 1);
    var t := ReadItem(u, depth + 1).value.1;
    var key := S.Denoted(k);
    OneMore(seen, key);
    assert t == [t[0]] + t[1..];
    if t[0] == COMMA {
      MembersSound(t[1..], depth, seen + [key]);
      var more := ReadMembers(t[1..], depth, seen + [key]).value.0;
      assert seen + ([key] + Keys(more)) == seen + [key] + Keys(more);
    } else {
      assert seen + ([key] + []) == seen + [key];
    }
  }

  lemma OneMore(seen: seq<Bytes>, key: Bytes)
    requires NoRepeats(seen) && key !in seen
    ensures NoRepeats(seen + [key])
  {
  }

  // ---------- What is written is read ----------

  /** A value starts with a byte that is neither blank nor a closing bracket or brace. */
  lemma Starts(x: Syntax, rest: Bytes)
    requires Grammatical(x)
    ensures var s := Written(x, rest);
            s != [] && !Blank(s[0]) && s[0] != RIGHT_BRACKET && s[0] != RIGHT_BRACE
  {
    if x.Numeral? {
      var n := x.number;
      assert N.Digit(n.whole[0]);
      assert Written(x, rest)[0] == N.NumberText(n)[0];
      assert N.NumberText(n)[0] == if n.minus then N.MINUS else n.whole[0];
    }
  }

  /** What may follow an item: nothing, or a byte that is neither blank nor part of a number. */
  predicate Ends(rest: Bytes) {
    N.EndsNumber(rest) && (rest == [] || !Blank(rest[0]))
  }

  lemma EndsAfter(after: Bytes, rest: Bytes)
    requires Space(after) && Ends(rest)
    ensures N.EndsNumber(after + rest)
  {
    assert after != [] ==> (after + rest)[0] == after[0];
    assert after == [] ==> after + rest == rest;
  }

  lemma AtomComplete(x: Syntax, rest: Bytes)
    requires Grammatical(x) && N.EndsNumber(rest) && !x.Bracketed? && !x.Braced?
    ensures var s := Written(x, rest);
            && s != [] && s[0] != LEFT_BRACE && s[0] != LEFT_BRACKET
            && ReadAtom(s) == Some((x, rest))
  {
    var s := Written(x, rest);
    match x
    case Numeral(n) =>
      N.ReadNumberComplete(n, rest);
      NumberStarts(n, rest);
    case Quoted(us) =>
      S.ReadUnitsComplete(us, rest);
      assert s[1..] == S.UnitsText(us) + rest;
    case NullWord =>
      assert s[|NULL|..] == rest && NULL <= s;
    case TrueWord =>
      assert s[|TRUE|..] == rest && TRUE <= s;
    case FalseWord =>
      assert s[|FALSE|..] == rest && FALSE <= s;
  }

  lemma NumberStarts(n: N.Number, rest: Bytes)
    requires N.ValidNumber(n)
    ensures var s := N.NumberText(n) + rest; s != [] && (s[0] == N.MINUS || N.Digit(s[0]))
  {
    assert N.Digit(n.whole[0]);
    assert N.NumberText(n)[0] == if n.minus then N.MINUS else n.whole[0];
  }

  lemma ValueComplete(x: Syntax, rest: Bytes, depth: nat)
    requires Grammatical(x) && Distinct(x) && depth + Nesting(x) <= MAX_DEPTH && N.EndsNumber(rest)
    ensures ReadValue(Written(x, rest), depth) == Some((x, rest))
    decreases x, 1
  {
    hide ReadObject, ReadArray, ReadAtom;
    match x
    case Bracketed(_, _) =>
      ArrayComplete(x, rest, depth);
    case Braced(_, _) =>
      ObjectComplete(x, rest, depth);
    case _ =>
      AtomComplete(x, rest);
  }

  lemma ArrayComplete(x: Syntax, rest: Bytes, depth: nat)
    requires x.Bracketed? && Grammatical(x) && Distinct(x) && depth + Nesting(x) <= MAX_DEPTH
    ensures Written(x, rest) != [] && Written(x, rest)[0] == LEFT_BRACKET
    ensures ReadArray(Written(x, rest), depth) == Some((x, rest))
    decreases x, 0
  {
    hide ReadElements, WrittenElements, Blanks, Skip;
    if x.elements.NoElements? {
      EmptyComplete(LEFT_BRACKET, x.space, RIGHT_BRACKET, rest);
    } else {
      ElementsComplete(x.elements, rest, depth);
      assert Written(x, rest)[1..] == WrittenElements(x.elements, rest);
      ElementsOpen(x.elements, rest);
    }
  }

  lemma ObjectComplete(x: Syntax, rest: Bytes, depth: nat)
    requires x.Braced? && Grammatical(x) && Distinct(x) && depth + Nesting(x) <= MAX_DEPTH
    ensures Written(x, rest) != [] && Written(x, rest)[0] == LEFT_BRACE
    ensures ReadObject(Written(x, rest), depth) == Some((x, rest))
    decreases x, 0
  {
    hide ReadMembers, WrittenMembers, Blanks, Skip, S.Denoted;
    if x.members.NoMembers? {
      EmptyComplete(LEFT_BRACE, x.space, RIGHT_BRACE, rest);
    } else {
      assert [] + Keys(x.members) == Keys(x.members);
      MembersComplete(x.members, rest, depth, []);
      assert Written(x, rest)[1..] == WrittenMembers(x.members, rest);
      MembersOpen(x.members, rest);
    }
  }

  lemma EmptyComplete(open: Byte, space: Bytes, close: Byte, rest: Bytes)
    requires Space(space) && !Blank(close)
    ensures var s := [open] + (space + ([close] + rest));
            && s[1..][..Blanks(s[1..])] == space && Skip(s[1..]) != [] && Skip(s[1..])[0] == close
            && Skip(s[1..])[1..] == rest
  {
    var s := [open] + (space + ([close] + rest));
    assert s[1..] == space + ([close] + rest);
    BlanksAre(space, [close] + rest);
    assert ([close] + rest)[1..] == rest;
  }

  lemma ItemComplete(i: Item, rest: Bytes, depth: nat)
    requires GrammaticalItem(i) && Distinct(i.value) && depth + Nesting(i.value) <= MAX_DEPTH && Ends(rest)
    ensures ReadItem(WrittenItem(i, rest), depth) == Some((i, rest))
    decreases i, 0
  {
    hide ReadValue, Grammatical, Distinct, Written, Blanks, Skip, Nesting, N.EndsNumber;
    EndsAfter(i.after, rest);
    Starts(i.value, i.after + rest);
    BlanksAre(i.before, Written(i.value, i.after + rest));
    BlanksAre(i.after, rest);
    ValueComplete(i.value, i.after + rest, depth);
  }

  lemma ItemStarts(i: Item, rest: Bytes)
    requires GrammaticalItem(i)
    ensures var t := Skip(WrittenItem(i, rest)); t != [] && t[0] != RIGHT_BRACKET
  {
    hide Blanks, Written, Skip;
    Starts(i.value, i.after + rest);
    BlanksAre(i.before, Written(i.value, i.after + rest));
  }

  lemma ElementsOpen(es: Elements, rest: Bytes)
    requires es.Elements? && GrammaticalElements(es)
    ensures var t := Skip(WrittenElements(es, rest)); t != [] && t[0] != RIGHT_BRACKET
  {
    ItemStarts(es.item, AfterElement(es.tail, rest));
  }

  lemma MembersOpen(ms: Members, rest: Bytes)
    requires ms.Members? && GrammaticalMembers(ms)
    ensures var t := Skip(WrittenMembers(ms, rest)); t != [] && t[0] != RIGHT_BRACE
  {
    hide Blanks, WrittenItem, Skip;
    BlanksAre(ms.left, WrittenKey(ms.key, ms.right, WrittenItem(ms.item, AfterMember(ms.tail, rest))));
  }

  lemma {:induction false} ElementsComplete(es: Elements, rest: Bytes, depth: nat)
    requires es.Elements? && GrammaticalElements(es) && DistinctElements(es)
    requires depth + NestingElements(es) <= MAX_DEPTH
    ensures ReadElements(WrittenElements(es, rest), depth) == Some((es, rest))
    decreases es, 2
  {
    hide ReadItem, GrammaticalItem, Distinct, WrittenItem, Nesting;
    var t := AfterElement(es.tail, rest);
    ItemComplete(es.item, t, depth + 1);
    if es.tail.Elements? {
      ElementsComplete(es.tail, rest, depth);
      assert t[1..] == WrittenElements(es.tail, rest);
    } else {
      assert t[1..] == rest;
    }
  }

  lemma KeyComplete(key: seq<S.Unit>, right: Bytes, u: Bytes, seen: seq<Bytes>)
    requires S.ValidUnits(key) && Space(right) && S.Denoted(key) !in seen
    ensures ReadKey(WrittenKey(key, right, u), seen) == Some((key, right, u))
  {
    hide S.Denoted, S.UnitsText, S.ReadUnits, Blanks, Skip;
    var t := [COLON] + u;
    var left := right + t;
    var s := [S.QUOTE] + (S.UnitsText(key) + left);
    assert s[1..] == S.UnitsText(key) + left;
    S.ReadUnitsComplete(key, left);
    BlanksAre(right, t);
    assert t[1..] == u;
  }

  lemma {:induction false} MembersComplete(ms: Members, rest: Bytes, depth: nat, seen: seq<Bytes>)
    requires ms.Members? && GrammaticalMembers(ms) && DistinctMembers(ms) && NoRepeats(seen + Keys(ms))
    requires depth + NestingMembers(ms) <= MAX_DEPTH
    ensures ReadMembers(WrittenMembers(ms, rest), depth, seen) == Some((ms, rest))
    decreases ms, 2
  {
    hide ReadItem, ReadKey, GrammaticalItem, Distinct, WrittenItem, Blanks, Skip, Nesting, NoRepeats, S.Denoted,
      S.UnitsText, ReadValue, ReadElements, Written, WrittenElements, Grammatical, GrammaticalElements, NestingElements;
    var t := AfterMember(ms.tail, rest);
    var u := WrittenItem(ms.item, t);
    var key := S.Denoted(ms.key);
    NewKey(seen, key, Keys(ms.tail));
    BlanksAre(ms.left, WrittenKey(ms.key, ms.right, u));
    KeyComplete(ms.key, ms.right, u, seen);
    ItemComplete(ms.item, t, depth + 1);
    if ms.tail.Members? {
      MembersComplete(ms.tail, rest, depth, seen + [key]);
      assert t[1..] == WrittenMembers(ms.tail, rest);
    } else {
      assert t[1..] == rest;
    }
  }

  lemma NewKey(seen: seq<Bytes>, key: Bytes, more: seq<Bytes>)
    requires NoRepeats(seen + ([key] + more))
    ensures key !in seen && NoRepeats(seen + [key] + more)
  {
    var all := seen + ([key] + more);
    assert all == seen + [key] + more && all[|seen|] == key;
    assert forall i :: 0 <= i < |seen| ==> all[i] == seen[i];
  }

  // ---------- Documents ----------

  /** A document of the grammar whose objects have distinct keys and whose nesting is within the limit. */
  predicate Acceptable(d: Item) {
    GrammaticalItem(d) && Distinct(d.value) && Nesting(d.value) <= MAX_DEPTH
  }

  function DocumentText(d: Item): Bytes
    requires GrammaticalItem(d)
  {
    WrittenItem(d, [])
  }

  /** inkling_json_parse: one item and nothing after it. */
  function Read(text: Bytes): Option<Item> {
    var r := ReadItem(text, 0);
    if r.None? || r.value.1 != [] then None else Some(r.value.0)
  }

  /** Soundness: what is accepted is an acceptable document with this very text. */
  lemma ReadSound(text: Bytes)
    requires Read(text).Some?
    ensures Acceptable(Read(text).value) && DocumentText(Read(text).value) == text
  {
    hide ReadItem, WrittenItem, GrammaticalItem, Nesting, Distinct;
    ItemSound(text, 0);
  }

  /** Completeness and uniqueness: every acceptable document is read back exactly as it is. */
  lemma ReadComplete(d: Item)
    requires Acceptable(d)
    ensures Read(DocumentText(d)) == Some(d)
  {
    hide ReadItem, WrittenItem, GrammaticalItem, Nesting, Distinct;
    ItemComplete(d, [], 0);
  }

  /** The accepted texts are exactly the texts of acceptable documents. */
  lemma AcceptsExactly(text: Bytes)
    ensures Read(text).Some? <==> exists d :: Acceptable(d) && DocumentText(d) == text
  {
    hide DocumentText, Read;
    if Read(text).Some? {
      ReadSound(text);
    }
    if d :| Acceptable(d) && DocumentText(d) == text {
      ReadComplete(d);
    }
  }

  /** A text has at most one reading, so its value is determined. */
  lemma ReadingIsUnique(d: Item, e: Item)
    requires Acceptable(d) && Acceptable(e) && DocumentText(d) == DocumentText(e)
    ensures d == e
  {
    hide DocumentText, Read;
    ReadComplete(d);
    ReadComplete(e);
  }
}
