/** The cursor parser of inkling_json.c: one position that its methods move forward.  Each method is proved to decide
    and to return what the functions of JsonGrammar say about the text that was left.
*/
module JsonParser {
  import opened Octets
  import opened Wrappers
  import opened JsonGrammar
  import E = JsonExact
  import N = JsonNumber
  import P = Pigeonhole
  import S = JsonString
  import Utf8

  // ---------- The functions again, with values instead of trees ----------

  /** What parse_string returns from here to the closing quotation mark, and what is left. */
  ghost function UnitsOf(s: Bytes): Option<(Bytes, Bytes)> {
    if S.ReadUnits(s).None? then None
    else
      S.ReadUnitsSound(s);
      Some((S.Denoted(S.ReadUnits(s).value.0), S.ReadUnits(s).value.1))
  }

  ghost function Prefixed<T>(done: seq<T>, more: Option<(seq<T>, Bytes)>): Option<(seq<T>, Bytes)> {
    if more.None? then None else Some((done + more.value.0, more.value.1))
  }

  lemma PrefixedTwice<T>(a: seq<T>, b: seq<T>, more: Option<(seq<T>, Bytes)>)
    ensures Prefixed(a, Prefixed(b, more)) == Prefixed(a + b, more)
  {
    if more.Some? {
      assert a + (b + more.value.0) == a + b + more.value.0;
    }
  }

  lemma PrefixedNothing<T>(more: Option<(seq<T>, Bytes)>)
    ensures Prefixed([], more) == more
  {
    if more.Some? {
      assert [] + more.value.0 == more.value.0;
    }
  }

  lemma NextUnit(s: Bytes)
    requires s != [] && s[0] != S.QUOTE
    ensures S.ReadUnit(s).None? ==> UnitsOf(s).None?
    ensures S.ReadUnit(s).Some?
            ==> var (u, left) := S.ReadUnit(s).value;
                S.ValidUnit(u) && UnitsOf(s) == Prefixed(Utf8.Encode(S.UnitScalar(u)), UnitsOf(left))
  {
    hide S.ReadUnit, S.ValidUnit, S.UnitScalar, Utf8.Encode;
    if S.ReadUnit(s).Some? {
      S.ReadUnitSound(s);
      var (u, left) := S.ReadUnit(s).value;
      if S.ReadUnits(left).Some? {
        S.ReadUnitsSound(left);
        var us := S.ReadUnits(left).value.0;
        assert ([u] + us)[1..] == us;
      }
    }
  }

  ghost function ValueOf(s: Bytes, depth: nat): Option<(Value, Bytes)> {
    if ReadValue(s, depth).None? then None
    else
      E.ValueSound(s, depth);
      Some((Meaning(ReadValue(s, depth).value.0), ReadValue(s, depth).value.1))
  }

  ghost function ElementsOf(s: Bytes, depth: nat): Option<(seq<Value>, Bytes)> {
    if ReadElements(s, depth).None? then None
    else
      E.ElementsSound(s, depth);
      Some((MeaningElements(ReadElements(s, depth).value.0), ReadElements(s, depth).value.1))
  }

  ghost function MembersOf(s: Bytes, depth: nat, seen: seq<Bytes>): Option<(seq<Member>, Bytes)>
    requires P.NoRepeats(seen)
  {
    if ReadMembers(s, depth, seen).None? then None
    else
      E.MembersSound(s, depth, seen);
      Some((MeaningMembers(ReadMembers(s, depth, seen).value.0), ReadMembers(s, depth, seen).value.1))
  }

  lemma OneElement(i: Item)
    requires GrammaticalItem(i)
    ensures GrammaticalElements(Elements(i, NoElements))
    ensures MeaningElements(Elements(i, NoElements)) == [Meaning(i.value)]
  {
    hide Meaning;
    assert MeaningElements(NoElements) == [];
  }

  lemma OneMember(left: Bytes, key: seq<S.Unit>, right: Bytes, i: Item)
    requires Space(left) && S.ValidUnits(key) && Space(right) && GrammaticalItem(i)
    ensures GrammaticalMembers(Members(left, key, right, i, NoMembers))
    ensures MeaningMembers(Members(left, key, right, i, NoMembers)) == [Member(S.Denoted(key), Meaning(i.value))]
  {
    hide Meaning, S.Denoted;
    assert MeaningMembers(NoMembers) == [];
  }

  lemma EmptyMeanings(space: Bytes)
    requires Space(space)
    ensures Meaning(Bracketed(space, NoElements)) == Array([]) && Meaning(Braced(space, NoMembers)) == Object([])
  {
    assert MeaningElements(NoElements) == [] && MeaningMembers(NoMembers) == [];
  }

  lemma NextElement(s: Bytes, depth: nat)
    ensures var v := ValueOf(Skip(s), depth + 1);
            ElementsOf(s, depth)
            == if v.None? then None
               else
                 var t := Skip(v.value.1);
                 if t == [] then None
                 else if t[0] == RIGHT_BRACKET then Some(([v.value.0], t[1..]))
                 else if t[0] != COMMA then None
                 else Prefixed([v.value.0], ElementsOf(t[1..], depth))
  {
    hide ReadValue, Meaning, Skip, Blanks, Grammatical;
    var r := ReadValue(Skip(s), depth + 1);
    if r.Some? {
      E.ValueSound(Skip(s), depth + 1);
      var x, t := r.value.0, Skip(r.value.1);
      var item := ReadItem(s, depth + 1).value.0;
      OneElement(item);
      if t != [] && t[0] == RIGHT_BRACKET {
        assert ReadElements(s, depth) == Some((Elements(item, NoElements), t[1..]));
      } else if t != [] && t[0] == COMMA && ReadElements(t[1..], depth).Some? {
        E.ElementsSound(t[1..], depth);
        var more := ReadElements(t[1..], depth).value;
        assert ReadElements(s, depth) == Some((Elements(item, more.0), more.1));
        assert MeaningElements(Elements(item, more.0)) == [Meaning(x)] + MeaningElements(more.0);
        assert ElementsOf(s, depth) == Some(([Meaning(x)] + MeaningElements(more.0), more.1));
      } else {
        assert ReadElements(s, depth).None?;
      }
    } else {
      assert ReadItem(s, depth + 1).None?;
    }
  }

  lemma SkipTwice(s: Bytes)
    ensures Skip(Skip(s)) == Skip(s)
  {
    Settled(Skip(s));
  }

  lemma ElementsSkip(s: Bytes, depth: nat)
    ensures ElementsOf(Skip(s), depth) == ElementsOf(s, depth)
  {
    hide ValueOf, ElementsOf, Skip;
    SkipTwice(s);
    NextElement(s, depth);
    NextElement(Skip(s), depth);
  }

  lemma ArrayValue(s: Bytes, depth: nat)
    requires s != [] && s[0] == LEFT_BRACKET && depth <= MAX_DEPTH
    ensures var t := Skip(s[1..]);
            ValueOf(s, depth)
            == if t != [] && t[0] == RIGHT_BRACKET then Some((Array([]), t[1..]))
               else
                 var r := ElementsOf(t, depth);
                 if r.None? then None else Some((Array(r.value.0), r.value.1))
  {
    hide ReadElements, Skip, Blanks;
    EmptyMeanings(s[1..][..Blanks(s[1..])]);
    ElementsSkip(s[1..], depth);
    assert ReadValue(s, depth) == ReadArray(s, depth);
    if ReadElements(s[1..], depth).Some? {
      E.ElementsSound(s[1..], depth);
      assert Meaning(Bracketed([], ReadElements(s[1..], depth).value.0))
          == Array(MeaningElements(ReadElements(s[1..], depth).value.0));
    }
  }

  // Members.

  ghost function KeyOf(s: Bytes, seen: seq<Bytes>): Option<(Bytes, Bytes)> {
    if s == [] || s[0] != S.QUOTE || UnitsOf(s[1..]).None? || UnitsOf(s[1..]).value.0 in seen then None
    else
      var t := Skip(UnitsOf(s[1..]).value.1);
      if t == [] || t[0] != COLON then None else Some((UnitsOf(s[1..]).value.0, t[1..]))
  }

  lemma KeyCases(s: Bytes, seen: seq<Bytes>)
    ensures s == [] || s[0] != S.QUOTE || UnitsOf(s[1..]).None? ==> KeyOf(s, seen).None?
  {
    hide UnitsOf, Skip;
  }

  lemma KeyThen(s: Bytes, seen: seq<Bytes>, key: Bytes, left: Bytes)
    requires s != [] && s[0] == S.QUOTE && UnitsOf(s[1..]) == Some((key, left))
    ensures var t := Skip(left);
            KeyOf(s, seen)
            == if key in seen || t == [] || t[0] != COLON then None else Some((key, t[1..]))
  {
    hide UnitsOf, Skip;
  }

  lemma KeyIsKey(s: Bytes, seen: seq<Bytes>)
    ensures KeyOf(s, seen).Some? <==> ReadKey(s, seen).Some?
    ensures KeyOf(s, seen).Some?
            ==> var (k, right, u) := ReadKey(s, seen).value;
                S.ValidUnits(k) && KeyOf(s, seen) == Some((S.Denoted(k), u)) && S.Denoted(k) !in seen
  {
    hide Skip, Blanks, S.Denoted, S.ReadUnits;
    if ReadKey(s, seen).Some? {
      ReadKeySound(s, seen);
    }
  }

  lemma NextMember(s: Bytes, depth: nat, seen: seq<Bytes>)
    requires P.NoRepeats(seen)
    ensures var k := KeyOf(Skip(s), seen);
            k.Some? ==> P.NoRepeats(seen + [k.value.0])
    ensures var k := KeyOf(Skip(s), seen);
            MembersOf(s, depth, seen)
            == if k.None? then None
               else
                 var v := ValueOf(Skip(k.value.1), depth + 1);
                 if v.None? then None
                 else
                   var m, t := Member(k.value.0, v.value.0), Skip(v.value.1);
                   if t == [] then None
                   else if t[0] == RIGHT_BRACE then Some(([m], t[1..]))
                   else if t[0] != COMMA then None
                   else Prefixed([m], MembersOf(t[1..], depth, seen + [k.value.0]))
  {
    hide ReadValue, ReadKey, KeyOf, Meaning, Skip, Blanks, Grammatical, S.Denoted, P.NoRepeats, S.ValidUnits;
    KeyIsKey(Skip(s), seen);
    if ReadKey(Skip(s), seen).Some? {
      ReadKeySound(Skip(s), seen);
      var (units, right, u) := ReadKey(Skip(s), seen).value;
      var key := S.Denoted(units);
      E.OneMore(seen, key);
      var r := ReadValue(Skip(u), depth + 1);
      if r.Some? {
        E.ValueSound(Skip(u), depth + 1);
        var x, t := r.value.0, Skip(r.value.1);
        OneMember(Skip(s)[..0], units, right, ReadItem(u, depth + 1).value.0);
        OneMember(s[..Blanks(s)], units, right, ReadItem(u, depth + 1).value.0);
        if t != [] && t[0] == COMMA && ReadMembers(t[1..], depth, seen + [key]).Some? {
          E.MembersSound(t[1..], depth, seen + [key]);
        }
      }
    }
  }

  lemma MembersSkip(s: Bytes, depth: nat, seen: seq<Bytes>)
    requires P.NoRepeats(seen)
    ensures MembersOf(Skip(s), depth, seen) == MembersOf(s, depth, seen)
  {
    hide ValueOf, MembersOf, Skip, KeyOf, P.NoRepeats;
    SkipTwice(s);
    NextMember(s, depth, seen);
    NextMember(Skip(s), depth, seen);
  }

  lemma ObjectValue(s: Bytes, depth: nat)
    requires s != [] && s[0] == LEFT_BRACE && depth <= MAX_DEPTH
    ensures var t := Skip(s[1..]);
            ValueOf(s, depth)
            == if t != [] && t[0] == RIGHT_BRACE then Some((Object([]), t[1..]))
               else
                 var r := MembersOf(t, depth, []);
                 if r.None? then None else Some((Object(r.value.0), r.value.1))
  {
    hide ReadMembers, Skip, Blanks, S.Denoted;
    EmptyMeanings(s[1..][..Blanks(s[1..])]);
    MembersSkip(s[1..], depth, []);
    assert ReadValue(s, depth) == ReadObject(s, depth);
    if ReadMembers(s[1..], depth, []).Some? {
      E.MembersSound(s[1..], depth, []);
      assert Meaning(Braced([], ReadMembers(s[1..], depth, []).value.0))
          == Object(MeaningMembers(ReadMembers(s[1..], depth, []).value.0));
    }
  }

  lemma AtomValue(s: Bytes, depth: nat)
    requires s != [] && s[0] != LEFT_BRACE && s[0] != LEFT_BRACKET && depth <= MAX_DEPTH
    ensures ValueOf(s, depth).Some? <==> ReadAtom(s).Some?
    ensures ReadAtom(s).Some?
            ==> Grammatical(ReadAtom(s).value.0)
                && ValueOf(s, depth) == Some((Meaning(ReadAtom(s).value.0), ReadAtom(s).value.1))
  {
    hide ReadAtom;
    if ReadAtom(s).Some? {
      E.AtomSound(s);
    }
  }

  // ---------- The parser ----------

  class Parser {
    const text: Bytes
    var position: nat

    ghost predicate Valid()
      reads this
    {
      position <= |text|
    }

    ghost function Left(): Bytes
      requires Valid()
      reads this
    {
      text[position..]
    }

    constructor (text: Bytes)
      ensures Valid() && this.text == text && Left() == text
    {
      this.text := text;
      position := 0;
    }

    lemma Advance(n: nat)
      requires position + n <= |text|
      ensures Valid() && text[position + n..] == Left()[n..]
    {
    }

    /** skip_whitespace. */
    method SkipWhitespace()
      requires Valid()
      modifies this
      ensures Valid() && Left() == Skip(old(Left())) && position >= old(position)
    {
      hide Skip, Blanks;
      ghost var s := Left();
      while position < |text| && (text[position] == 0x20 || text[position] == 0x09 || text[position] == 0x0a
                                  || text[position] == 0x0d)
        invariant Valid() && position >= old(position) && Skip(Left()) == Skip(s)
        decreases |text| - position
      {
        SkipOne(Left());
        Advance(1);
        position := position + 1;
      }
      Settled(Left());
    }

    /** parse_hex4. */
    method ParseHex4() returns (ok: bool, value: nat)
      requires Valid()
      modifies this
      ensures Valid() && position >= old(position)
      ensures ok <==> |old(Left())| >= 4 && S.Hex4(old(Left())[..4])
      ensures ok ==> value == S.Value4(old(Left())[..4]) && Left() == old(Left())[4..]
      ensures ok ==> position == old(position) + 4
    {
      if |text| - position < 4 {
        return false, 0;
      }
      ghost var d := Left()[..4];
      value := 0;
      for index := 0 to 4
        invariant position == old(position) + index && Valid() && d == old(Left())[..4]
        invariant forall i :: 0 <= i < index ==> S.IsHex(d[i])
        invariant value == S.HexNumber(d[..index])
      {
        assert text[position] == d[index];
        if !S.IsHex(text[position]) {
          return false, 0;
        }
        assert d[..index + 1][..index] == d[..index];
        value := value * 16 + S.HexValue(text[position]);
        position := position + 1;
      }
      assert d[..4] == d;
      ok := true;
    }

    /** The \u case of parse_string, after the letter: one escape, or two that make a surrogate pair. */
    method ParseUnicode(ghost s: Bytes) returns (ok: bool, codepoint: nat)
      requires Valid() && position >= 2 && s == text[position - 2..] && s[0] == S.BACKSLASH
      modifies this
      ensures Valid() && position >= old(position)
      ensures ok <==> S.ReadEscape(s).Some?
      ensures ok ==> S.ValidUnit(S.ReadEscape(s).value.0) && codepoint == S.UnitScalar(S.ReadEscape(s).value.0)
                     && Left() == S.ReadEscape(s).value.1
    {
      hide S.Value4, S.HexNumber;
      assert Left() == s[2..] && s[2..][..|s| - 2] == s[2..];
      if |s| >= 6 {
        assert s[2..][..4] == s[2..6] && s[2..][4..] == s[6..];
      }
      ok, codepoint := ParseHex4();
      if !ok {
        return;
      }
      if 0xd800 <= codepoint <= 0xdbff {
        if |text| - position < 2 || text[position] != S.BACKSLASH || text[position + 1] != S.LETTER_U {
          return false, 0;
        }
        assert Left() == s[6..] && s[6] == text[position] && s[7] == text[position + 1];
        Advance(2);
        position := position + 2;
        assert Left() == s[8..];
        if |s| >= 12 {
          assert s[8..][..4] == s[8..12] && s[8..][4..] == s[12..];
        }
        var low;
        ok, low := ParseHex4();
        if !ok || low < 0xdc00 || low > 0xdfff {
          return false, 0;
        }
        codepoint := 0x10000 + (codepoint - 0xd800) * 0x400 + (low - 0xdc00);
      } else if 0xdc00 <= codepoint <= 0xdfff {
        return false, 0;
      }
    }

    /** One turn of the loop of parse_string: an escape, a character, or a longer sequence taken over as it is. */
    method ParseUnit(buffer: Bytes) returns (ok: bool, result: Bytes)
      requires Valid() && Left() != [] && Left()[0] != S.QUOTE
      modifies this
      ensures Valid() && position >= old(position)
      ensures ok <==> S.ReadUnit(old(Left())).Some?
      ensures ok ==> S.ValidUnit(S.ReadUnit(old(Left())).value.0) && Left() == S.ReadUnit(old(Left())).value.1
                     && result == buffer + Utf8.Encode(S.UnitScalar(S.ReadUnit(old(Left())).value.0))
    {
      hide S.ReadEscape, S.Value4, Utf8.SequenceLength, Utf8.Decode;
      ghost var s := Left();
      ok, result := false, buffer;
      var character := text[position];
      position := position + 1;
      assert s[0] == character && Left() == s[1..];
      if character == S.BACKSLASH {
        if position >= |text| {
          return;
        }
        var escape := text[position];
        position := position + 1;
        assert s[1] == escape && Left() == s[2..];
        if S.IsShort(escape) {
          return true, buffer + [S.ShortScalar(escape)];
        }
        if escape != S.LETTER_U {
          return;
        }
        var codepoint;
        ok, codepoint := ParseUnicode(s);
        if ok {
          result := buffer + Utf8.Encode(codepoint);
        }
        return;
      }
      if character < 0x20 {
        return;
      }
      if character < 0x80 {
        AsciiUnit(s);
        return true, buffer + [character];
      }
      position := position - 1;
      assert Left() == s;
      ok, result := ParseSequence(buffer);
    }

    /** A character of more than one byte is copied as it stands. */
    method ParseSequence(buffer: Bytes) returns (ok: bool, result: Bytes)
      requires Valid() && Left() != [] && Left()[0] >= 0x80
      modifies this
      ensures Valid() && position >= old(position)
      ensures ok <==> S.ReadUnit(old(Left())).Some?
      ensures ok ==> S.ValidUnit(S.ReadUnit(old(Left())).value.0) && Left() == S.ReadUnit(old(Left())).value.1
                     && result == buffer + Utf8.Encode(S.UnitScalar(S.ReadUnit(old(Left())).value.0))
    {
      hide S.ReadEscape, S.Value4, Utf8.SequenceLength, Utf8.Decode;
      ghost var s := Left();
      var count := SequenceAt();
      if count == 0 {
        return false, buffer;
      }
      S.PlainSound(s);
      Utf8.AcceptedIsEncoding(s);
      ok, result := true, buffer + text[position..position + count];
      assert text[position..position + count] == s[..count] && text[position + count..] == s[count..];
      position := position + count;
    }

    /** utf8_sequence_length at the cursor. */
    method SequenceAt() returns (count: nat)
      requires Valid() && Left() != []
      ensures count == Utf8.SequenceLength(Left()) && position + count <= |text|
    {
      count := Utf8.SequenceLength(text[position..]);
    }

    /** parse_string. */
    method ParseString() returns (ok: bool, result: Bytes)
      requires Valid()
      modifies this
      ensures Valid() && position >= old(position)
      ensures ok <==> old(Left()) != [] && old(Left())[0] == S.QUOTE && UnitsOf(old(Left())[1..]).Some?
      ensures ok ==> UnitsOf(old(Left())[1..]) == Some((result, Left())) && position > old(position)
    {
      hide UnitsOf, S.ReadUnit, S.ValidUnit, S.UnitScalar, Utf8.Encode;
      ok, result := false, [];
      if position >= |text| || text[position] != S.QUOTE {
        return;
      }
      ghost var s := Left()[1..];
      Advance(1);
      position := position + 1;
      PrefixedNothing(UnitsOf(s));
      while position < |text|
        invariant Valid() && position > old(position) && s == old(Left())[1..]
        invariant !ok && UnitsOf(s) == Prefixed(result, UnitsOf(Left()))
        decreases |text| - position
      {
        ghost var left := Left();
        assert left[0] == text[position];
        if text[position] == S.QUOTE {
          Closing(left);
          Advance(1);
          position := position + 1;
          assert result + [] == result;
          return true, result;
        }
        ghost var before, at := result, position;
        NextUnit(left);
        ok, result := ParseUnit(result);
        if !ok {
          return;
        }
        S.ReadUnitSound(left);
        ok := false;
        ghost var bytes := Utf8.Encode(S.UnitScalar(S.ReadUnit(left).value.0));
        PrefixedTwice(before, bytes, UnitsOf(Left()));
      }
      assert Left() == [];
      Unterminated();
    }

    /** A run of digits. */
    method SkipDigits()
      requires Valid()
      modifies this
      ensures Valid() && position == old(position) + N.Run(old(Left())) && Left() == old(Left())[N.Run(old(Left()))..]
    {
      ghost var s := Left();
      while position < |text| && N.Digit(text[position])
        invariant Valid() && position >= old(position) && s == old(Left())
        invariant position - old(position) + N.Run(Left()) == N.Run(s)
        decreases |text| - position
      {
        assert Left()[1..] == text[position + 1..] && Left()[0] == text[position];
        position := position + 1;
      }
      assert N.Run(Left()) == 0;
    }

    /** The integer part of parse_number. */
    method ParseWhole() returns (ok: bool)
      requires Valid() && Left() != []
      modifies this
      ensures Valid() && position >= old(position)
      ensures ok <==> N.ReadWhole(old(Left())).Some?
      ensures ok ==> Left() == N.ReadWhole(old(Left())).value.1
    {
      ghost var s := Left();
      assert s[0] == text[position];
      if text[position] == 0x30 {
        Advance(1);
        position := position + 1;
        if position < |text| && 0x30 <= text[position] <= 0x39 {
          assert s[1] == text[position];
          return false;
        }
        return true;
      }
      if 0x31 <= text[position] <= 0x39 {
        SkipDigits();
        return true;
      }
      return false;
    }

    /** The fraction of parse_number. */
    method ParseFraction() returns (ok: bool)
      requires Valid()
      modifies this
      ensures Valid() && position >= old(position)
      ensures ok <==> N.ReadFraction(old(Left())).Some?
      ensures ok ==> Left() == N.ReadFraction(old(Left())).value.1
    {
      ghost var s := Left();
      if position < |text| && text[position] == 0x2e {
        assert s[0] == text[position];
        Advance(1);
        position := position + 1;
        var fractionStart := position;
        SkipDigits();
        return position != fractionStart;
      }
      return true;
    }

    /** The exponent of parse_number. */
    method ParseExponent() returns (ok: bool)
      requires Valid()
      modifies this
      ensures Valid() && position >= old(position)
      ensures ok <==> N.ReadExponent(old(Left())).Some?
      ensures ok ==> Left() == N.ReadExponent(old(Left())).value.1
    {
      hide N.Run;
      ghost var s := Left();
      if position < |text| && (text[position] == 0x65 || text[position] == 0x45) {
        assert s[0] == text[position];
        Advance(1);
        position := position + 1;
        ParseSign(s);
        var exponentStart := position;
        SkipDigits();
        return position != exponentStart;
      }
      return true;
    }

    /** The optional sign of an exponent. */
    method ParseSign(ghost s: Bytes)
      requires Valid() && s != [] && Left() == s[1..]
      modifies this
      ensures Valid() && position >= old(position)
      ensures Left() == s[1 + (if |s| > 1 && (s[1] == N.PLUS || s[1] == N.MINUS) then 1 else 0)..]
    {
      assert position < |text| ==> s[1] == text[position];
      if position < |text| && (text[position] == 0x2b || text[position] == 0x2d) {
        Advance(1);
        position := position + 1;
      }
    }

    /** parse_number: the text of the number, as it was written. */
    method ParseNumber() returns (ok: bool, number: Bytes)
      requires Valid() && Left() != []
      modifies this
      ensures Valid() && position >= old(position)
      ensures ok <==> N.ReadNumber(old(Left())).Some?
      ensures ok ==> number == N.NumberText(N.ReadNumber(old(Left())).value.0)
                     && Left() == N.ReadNumber(old(Left())).value.1
    {
      hide N.ReadWhole, N.ReadFraction, N.ReadExponent, N.NumberText;
      ghost var s := Left();
      var start := position;
      ok, number := false, [];
      if text[position] == N.MINUS {
        Advance(1);
        position := position + 1;
        if position >= |text| {
          NothingWhole();
          return;
        }
      }
      assert Left() == if s[0] == N.MINUS then s[1..] else s;
      var part := ParseWhole();
      if !part {
        return;
      }
      part := ParseFraction();
      if !part {
        return;
      }
      part := ParseExponent();
      if !part {
        return;
      }
      N.ReadNumberSound(s);
      ok, number := true, text[start..position];
      assert s == number + Left();
    }

    /** parse_literal. */
    method ParseLiteral(literal: Bytes) returns (ok: bool)
      requires Valid()
      modifies this
      ensures Valid() && position >= old(position)
      ensures ok <==> literal <= old(Left())
      ensures ok ==> Left() == old(Left())[|literal|..]
    {
      if |text| - position < |literal| || text[position..position + |literal|] != literal {
        assert |literal| <= |Left()| ==> Left()[..|literal|] == text[position..position + |literal|];
        return false;
      }
      assert Left()[..|literal|] == literal;
      Advance(|literal|);
      position := position + |literal|;
      ok := true;
    }

    /** The cases of parse_value without parts. */
    method ParseAtom() returns (ok: bool, value: Value)
      requires Valid() && Left() != [] && Left()[0] != LEFT_BRACE && Left()[0] != LEFT_BRACKET
      modifies this
      ensures Valid() && position >= old(position)
      ensures ok <==> ReadAtom(old(Left())).Some?
      ensures ok ==> Grammatical(ReadAtom(old(Left())).value.0)
                     && value == Meaning(ReadAtom(old(Left())).value.0) && Left() == ReadAtom(old(Left())).value.1
    {
      hide S.ReadUnits, N.ReadNumber, N.NumberText, S.Denoted;
      ghost var s := Left();
      var character := text[position];
      assert character == s[0];
      ok, value := false, Null;
      if character == S.QUOTE {
        var decoded;
        ok, decoded := ParseString();
        value := String(decoded);
      } else if character == 0x74 {
        ok := ParseLiteral(TRUE);
        value := Boolean(true);
      } else if character == 0x66 {
        ok := ParseLiteral(FALSE);
        value := Boolean(false);
      } else if character == 0x6e {
        ok := ParseLiteral(NULL);
        value := Null;
      } else if character == 0x2d || 0x30 <= character <= 0x39 {
        var number;
        ok, number := ParseNumber();
        value := Number(number);
      }
      AtomGrammatical(s);
    }

    /** parse_value. */
    method ParseValue(depth: nat) returns (ok: bool, value: Value)
      requires Valid()
      modifies this
      ensures Valid() && position >= old(position)
      ensures ok <==> ValueOf(Skip(old(Left())), depth).Some?
      ensures ok ==> ValueOf(Skip(old(Left())), depth) == Some((value, Left()))
      decreases |text| - position, 1
    {
      hide ReadAtom, ReadObject, ReadArray, Meaning, Skip, ValueOf, Grammatical;
      ghost var s := Skip(Left());
      SkipWhitespace();
      ok, value := false, Null;
      if depth > MAX_DEPTH || position >= |text| {
        NoValue(s, depth);
        return;
      }
      var character := text[position];
      assert character == s[0];
      if character == LEFT_BRACE {
        ok, value := ParseObject(depth);
      } else if character == LEFT_BRACKET {
        ok, value := ParseArray(depth);
      } else {
        AtomValue(s, depth);
        ok, value := ParseAtom();
      }
    }

    /** parse_array. */
    method ParseArray(depth: nat) returns (ok: bool, value: Value)
      requires Valid() && Left() != [] && Left()[0] == LEFT_BRACKET && depth <= MAX_DEPTH
      modifies this
      ensures Valid() && position >= old(position)
      ensures ok <==> ValueOf(old(Left()), depth).Some?
      ensures ok ==> ValueOf(old(Left()), depth) == Some((value, Left()))
      decreases |text| - position, 0
    {
      hide Skip, ValueOf, ElementsOf;
      ArrayValue(Left(), depth);
      Advance(1);
      position := position + 1;
      SkipWhitespace();
      if position < |text| && text[position] == RIGHT_BRACKET {
        Advance(1);
        position := position + 1;
        return true, Array([]);
      }
      var items;
      ok, items := ParseElements(depth);
      value := Array(items);
    }

    /** The byte after an item and whitespace, if there is one. */
    method ParseSeparator() returns (character: Option<Byte>)
      requires Valid()
      modifies this
      ensures Valid() && position >= old(position)
      ensures character.None? <==> Skip(old(Left())) == []
      ensures character.Some? ==> character.value == Skip(old(Left()))[0] && Left() == Skip(old(Left()))[1..]
                                  && position > old(position)
    {
      hide Skip;
      SkipWhitespace();
      if position >= |text| {
        return None;
      }
      character := Some(text[position]);
      assert Left()[0] == text[position];
      Advance(1);
      position := position + 1;
    }

    /** The loop of parse_array. */
    method ParseElements(depth: nat) returns (ok: bool, items: seq<Value>)
      requires Valid()
      modifies this
      ensures Valid() && position >= old(position)
      ensures ok <==> ElementsOf(old(Left()), depth).Some?
      ensures ok ==> ElementsOf(old(Left()), depth) == Some((items, Left()))
      decreases |text| - position, 2
    {
      hide Skip, ValueOf, ElementsOf, Blank;
      ghost var s := Left();
      ok, items := false, [];
      PrefixedNothing(ElementsOf(s, depth));
      while true
        invariant Valid() && position >= old(position) && !ok
        invariant ElementsOf(s, depth) == Prefixed(items, ElementsOf(Left(), depth))
        decreases |text| - position
      {
        ghost var left := Left();
        NextElement(left, depth);
        var parsed, item := ParseValue(depth + 1);
        if !parsed {
          return;
        }
        ghost var before := items;
        items := items + [item];
        var character := ParseSeparator();
        if character == Some(RIGHT_BRACKET) {
          return true, items;
        }
        if character != Some(COMMA) {
          return;
        }
        PrefixedTwice(before, [item], ElementsOf(Left(), depth));
        ElementsSkip(Left(), depth);
        SkipWhitespace();
      }
    }

    /** parse_object. */
    method ParseObject(depth: nat) returns (ok: bool, value: Value)
      requires Valid() && Left() != [] && Left()[0] == LEFT_BRACE && depth <= MAX_DEPTH
      modifies this
      ensures Valid() && position >= old(position)
      ensures ok <==> ValueOf(old(Left()), depth).Some?
      ensures ok ==> ValueOf(old(Left()), depth) == Some((value, Left()))
      decreases |text| - position, 0
    {
      hide Skip, ValueOf, MembersOf;
      ObjectValue(Left(), depth);
      Advance(1);
      position := position + 1;
      SkipWhitespace();
      if position < |text| && text[position] == RIGHT_BRACE {
        Advance(1);
        position := position + 1;
        return true, Object([]);
      }
      SkipTwice(old(Left())[1..]);
      var members;
      ok, members := ParseMembers(depth);
      value := Object(members);
    }

    /** parse_string for a key, object_has_key, and the colon. */
    method ParseKey(members: seq<Member>) returns (ok: bool, key: Bytes)
      requires Valid()
      modifies this
      ensures Valid() && position >= old(position)
      ensures ok <==> KeyOf(old(Left()), KeysIn(members)).Some?
      ensures ok ==> KeyOf(old(Left()), KeysIn(members)) == Some((key, Left())) && position > old(position)
    {
      hide UnitsOf, Skip, KeysIn, KeyOf;
      ghost var s, seen := Left(), KeysIn(members);
      KeyCases(s, seen);
      ok, key := ParseString();
      if !ok {
        return;
      }
      KeyThen(s, seen, key, Left());
      var has := ObjectHasKey(members, key);
      if has {
        return false, key;
      }
      ok := ParseColon();
    }

    /** The colon after a key. */
    method ParseColon() returns (ok: bool)
      requires Valid()
      modifies this
      ensures Valid() && position >= old(position)
      ensures ok <==> Skip(old(Left())) != [] && Skip(old(Left()))[0] == COLON
      ensures ok ==> Left() == Skip(old(Left()))[1..] && position > old(position)
    {
      hide Skip;
      SkipWhitespace();
      ghost var t := Left();
      assert position < |text| ==> t[0] == text[position];
      if position >= |text| || text[position] != COLON {
        return false;
      }
      Advance(1);
      position := position + 1;
      ok := true;
    }

    /** The loop of parse_object. */
    method ParseMembers(depth: nat) returns (ok: bool, members: seq<Member>)
      requires Valid() && Skip(Left()) == Left()
      modifies this
      ensures Valid() && position >= old(position)
      ensures ok <==> MembersOf(old(Left()), depth, []).Some?
      ensures ok ==> MembersOf(old(Left()), depth, []) == Some((members, Left()))
      decreases |text| - position, 2
    {
      hide Skip, ValueOf, MembersOf, KeyOf, P.NoRepeats;
      ghost var s := Left();
      ok, members := false, [];
      NoKeys();
      PrefixedNothing(MembersOf(s, depth, []));
      while true
        invariant Valid() && position >= old(position) && !ok && Skip(Left()) == Left()
        invariant P.NoRepeats(KeysIn(members))
        invariant MembersOf(s, depth, []) == Prefixed(members, MembersOf(Left(), depth, KeysIn(members)))
        decreases |text| - position
      {
        NextMember(Left(), depth, KeysIn(members));
        var parsed, key := ParseKey(members);
        if !parsed {
          return;
        }
        var value;
        parsed, value := ParseValue(depth + 1);
        if !parsed {
          return;
        }
        ghost var before := members;
        var m := Member(key, value);
        KeysSnoc(members, m);
        members := members + [m];
        var character := ParseSeparator();
        if character == Some(RIGHT_BRACE) {
          return true, members;
        }
        if character != Some(COMMA) {
          return;
        }
        PrefixedTwice(before, [m], MembersOf(Left(), depth, KeysIn(members)));
        MembersSkip(Left(), depth, KeysIn(members));
        SkipTwice(Left());
        SkipWhitespace();
      }
    }
  }

  /** The keys of the members so far. */
  function KeysIn(members: seq<Member>): (r: seq<Bytes>)
    ensures |r| == |members| && forall i :: 0 <= i < |r| ==> r[i] == members[i].key
  {
    seq(|members|, i requires 0 <= i < |members| => members[i].key)
  }

  lemma KeysSnoc(members: seq<Member>, m: Member)
    ensures KeysIn(members + [m]) == KeysIn(members) + [m.key]
  {
  }

  lemma NoKeys()
    ensures KeysIn([]) == [] && P.NoRepeats<Bytes>([])
  {
  }

  /** object_has_key. */
  method ObjectHasKey(members: seq<Member>, key: Bytes) returns (has: bool)
    ensures has <==> key in KeysIn(members)
  {
    for index := 0 to |members|
      invariant forall i :: 0 <= i < index ==> members[i].key != key
    {
      if |members[index].key| == |key| && members[index].key == key {
        assert KeysIn(members)[index] == key;
        return true;
      }
    }
    has := false;
  }

  /** What the reader must return: a value exactly when the text is an acceptable document, and then what that
      document denotes. */
  ghost predicate Correct(text: Bytes, r: Option<Value>) {
    && (r.Some? <==> exists d :: E.Acceptable(d) && E.DocumentText(d) == text)
    && (forall d :: E.Acceptable(d) && E.DocumentText(d) == text ==> r == Some(Meaning(d.value)))
  }

  /** inkling_json_parse. */
  method Parse(text: Bytes) returns (r: Option<Value>)
    ensures Correct(text, r)
  {
    hide Correct, ValueOf, Skip;
    DocumentValue(text);
    var parser := new Parser(text);
    var ok, root := parser.ParseValue(0);
    if !ok {
      return None;
    }
    parser.SkipWhitespace();
    if parser.position != |text| {
      assert parser.Left() != [];
      return None;
    }
    assert parser.Left() == [];
    r := Some(root);
  }

  lemma DocumentValue(text: Bytes)
    ensures var v := ValueOf(Skip(text), 0);
            Correct(text, if v.None? || Skip(v.value.1) != [] then None else Some(v.value.0))
  {
    hide ReadValue, Skip, Blanks, E.DocumentText, Meaning;
    E.AcceptsExactly(text);
    forall d | E.Acceptable(d) && E.DocumentText(d) == text
      ensures ValueOf(Skip(text), 0).Some? && ValueOf(Skip(text), 0).value.0 == Meaning(d.value)
    {
      E.ReadComplete(d);
    }
  }

  lemma NothingWhole()
    ensures N.ReadWhole([]).None?
  {
  }

  lemma NoValue(s: Bytes, depth: nat)
    requires depth > MAX_DEPTH || s == []
    ensures ValueOf(s, depth).None?
  {
  }

  lemma AtomGrammatical(s: Bytes)
    requires s != []
    ensures ReadAtom(s).Some? ==> Grammatical(ReadAtom(s).value.0)
  {
    if ReadAtom(s).Some? {
      E.AtomSound(s);
    }
  }

  lemma AsciiUnit(s: Bytes)
    requires s != [] && 0x20 <= s[0] < 0x80 && s[0] != S.QUOTE && s[0] != S.BACKSLASH
    ensures S.ReadUnit(s) == Some((S.Plain(s[0]), s[1..])) && Utf8.Encode(s[0]) == [s[0]]
    ensures S.ValidUnit(S.Plain(s[0]))
  {
  }

  lemma Closing(s: Bytes)
    requires s != [] && s[0] == S.QUOTE
    ensures UnitsOf(s) == Some(([], s[1..]))
  {
  }

  lemma Unterminated()
    ensures UnitsOf([]).None?
  {
  }

  lemma SkipOne(s: Bytes)
    requires s != [] && Blank(s[0])
    ensures Skip(s[1..]) == Skip(s)
  {
    assert s[1..][Blanks(s[1..])..] == s[Blanks(s)..];
  }

  lemma Settled(s: Bytes)
    requires s == [] || !Blank(s[0])
    ensures Skip(s) == s
  {
  }
}
