/** JSON strings: the grammar of section 7 of RFC 8259, what a string denotes, and the reader's decisions.

    A string is a list of units: an unescaped character, a two-character escape, a \u escape, or a surrogate pair of
    \u escapes.  `ReadUnits` is what parse_string decides; it is shown to accept exactly the unit lists.
*/
module JsonString {
  import opened Octets
  import opened Wrappers
  import Utf8

  const QUOTE: Byte := 0x22
  const BACKSLASH: Byte := 0x5c
  const LETTER_U: Byte := 0x75

  // ---------- Hexadecimal digits ----------

  predicate IsHex(b: Byte) {
    0x30 <= b <= 0x39 || 0x61 <= b <= 0x66 || 0x41 <= b <= 0x46
  }

  /** hex_digit. */
  function HexValue(b: Byte): (v: nat)
    requires IsHex(b)
    ensures v < 16
  {
    if b <= 0x39 then b - 0x30 else if b >= 0x61 then b - 0x61 + 10 else b - 0x41 + 10
  }

  /** Four hexadecimal digits. */
  predicate Hex4(d: Bytes) {
    |d| == 4 && forall i :: 0 <= i < 4 ==> IsHex(d[i])
  }

  function HexNumber(d: Bytes): (v: nat)
    requires forall i :: 0 <= i < |d| ==> IsHex(d[i])
  {
    if d == [] then 0 else HexNumber(d[..|d| - 1]) * 16 + HexValue(d[|d| - 1])
  }

  function Value4(d: Bytes): (v: nat)
    requires Hex4(d)
    ensures v <= 0xffff
  {
    assert d[..3][..2][..1][..0] == [] && d[..3][..2] == d[..2] && d[..2][..1] == d[..1];
    assert HexNumber(d[..1]) == HexValue(d[0]) by { assert d[..1][..0] == []; }
    assert HexNumber(d[..2]) == HexNumber(d[..1]) * 16 + HexValue(d[1]);
    assert HexNumber(d[..3]) == HexNumber(d[..2]) * 16 + HexValue(d[2]);
    HexNumber(d)
  }

  predicate HighSurrogate(c: nat) {
    0xd800 <= c <= 0xdbff
  }

  predicate LowSurrogate(c: nat) {
    0xdc00 <= c <= 0xdfff
  }

  // ---------- Units ----------

  datatype Unit =
    | Plain(scalar: nat)
    | Short(letter: Byte)
    | Hex(digits: Bytes)
    | Pair(high: Bytes, low: Bytes)

  /** The letters of the two-character escapes: " \ / b f n r t. */
  predicate IsShort(b: Byte) {
    b == QUOTE || b == BACKSLASH || b == 0x2f || b == 0x62 || b == 0x66 || b == 0x6e || b == 0x72 || b == 0x74
  }

  function ShortScalar(b: Byte): (c: nat)
    requires IsShort(b)
    ensures c <= 0x7f
  {
    if b == 0x62 then 0x08
    else if b == 0x66 then 0x0c
    else if b == 0x6e then 0x0a
    else if b == 0x72 then 0x0d
    else if b == 0x74 then 0x09
    else b
  }

  predicate ValidUnit(u: Unit) {
    match u
    case Plain(c) => Utf8.Scalar(c) && c >= 0x20 && c != QUOTE && c != BACKSLASH
    case Short(b) => IsShort(b)
    case Hex(d) => Hex4(d) && !HighSurrogate(Value4(d)) && !LowSurrogate(Value4(d))
    case Pair(h, l) => Hex4(h) && Hex4(l) && HighSurrogate(Value4(h)) && LowSurrogate(Value4(l))
  }

  /** How a unit is written. */
  function UnitText(u: Unit): (r: Bytes)
    requires ValidUnit(u)
    ensures r != []
  {
    match u
    case Plain(c) => Utf8.Encode(c)
    case Short(b) => [BACKSLASH, b]
    case Hex(d) => [BACKSLASH, LETTER_U] + d
    case Pair(h, l) => [BACKSLASH, LETTER_U] + h + [BACKSLASH, LETTER_U] + l
  }

  /** The character a unit stands for. */
  function UnitScalar(u: Unit): (c: nat)
    requires ValidUnit(u)
    ensures Utf8.Scalar(c)
  {
    match u
    case Plain(c) => c
    case Short(b) => ShortScalar(b)
    case Hex(d) => Value4(d)
    case Pair(h, l) => 0x10000 + (Value4(h) - 0xd800) * 0x400 + (Value4(l) - 0xdc00)
  }

  predicate ValidUnits(us: seq<Unit>) {
    forall i :: 0 <= i < |us| ==> ValidUnit(us[i])
  }

  /** The units and the closing quotation mark. */
  function UnitsText(us: seq<Unit>): (r: Bytes)
    requires ValidUnits(us)
    ensures r != []
  {
    if us == [] then [QUOTE] else UnitText(us[0]) + UnitsText(us[1..])
  }

  /** The bytes the string denotes: its characters in UTF-8. */
  function Denoted(us: seq<Unit>): Bytes
    requires ValidUnits(us)
  {
    if us == [] then [] else Utf8.Encode(UnitScalar(us[0])) + Denoted(us[1..])
  }

  // ---------- Reading ----------

  /** One turn of the loop of parse_string, on what is left of the text. */
  function ReadUnit(s: Bytes): (r: Option<(Unit, Bytes)>)
    requires s != []
  {
    if s[0] == BACKSLASH then
      if |s| < 2 then None
      else if IsShort(s[1]) then Some((Short(s[1]), s[2..]))
      else if s[1] == LETTER_U then ReadEscape(s)
      else None
    else if s[0] < 0x20 || s[0] == QUOTE then None
    else if Utf8.SequenceLength(s) == 0 then None
    else Some((Plain(Utf8.Decode(s)), s[Utf8.SequenceLength(s)..]))
  }

  /** The \u case. */
  function ReadEscape(s: Bytes): (r: Option<(Unit, Bytes)>)
    requires |s| >= 2
  {
    if |s| < 6 || !Hex4(s[2..6]) then None
    else if HighSurrogate(Value4(s[2..6])) then
      if |s| < 12 || s[6] != BACKSLASH || s[7] != LETTER_U || !Hex4(s[8..12]) then None
      else if !LowSurrogate(Value4(s[8..12])) then None
      else Some((Pair(s[2..6], s[8..12]), s[12..]))
    else if LowSurrogate(Value4(s[2..6])) then None
    else Some((Hex(s[2..6]), s[6..]))
  }

  lemma ReadUnitSound(s: Bytes)
    requires s != [] && ReadUnit(s).Some?
    ensures var (u, rest) := ReadUnit(s).value; ValidUnit(u) && s == UnitText(u) + rest && |rest| < |s|
  {
    hide Value4, HexNumber, Utf8.SequenceLength, Utf8.Encode, Utf8.Decode;
    if s[0] != BACKSLASH {
      PlainSound(s);
    }
  }

  lemma PlainSound(s: Bytes)
    requires s != [] && s[0] != BACKSLASH && s[0] >= 0x20 && s[0] != QUOTE && Utf8.SequenceLength(s) > 0
    ensures ValidUnit(Plain(Utf8.Decode(s)))
    ensures s == UnitText(Plain(Utf8.Decode(s))) + s[Utf8.SequenceLength(s)..]
  {
    Utf8.AcceptedIsEncoding(s);
    assert s == s[..Utf8.SequenceLength(s)] + s[Utf8.SequenceLength(s)..];
  }

  lemma ReadUnitComplete(u: Unit, rest: Bytes)
    requires ValidUnit(u)
    ensures ReadUnit(UnitText(u) + rest) == Some((u, rest))
  {
    var s := UnitText(u) + rest;
    match u
    case Plain(c) =>
      PlainComplete(c, rest);
    case Short(b) =>
      assert s[2..] == rest;
    case Hex(d) =>
      assert s[2..6] == d && s[6..] == rest;
    case Pair(h, l) =>
      assert s[2..6] == h && s[8..12] == l && s[12..] == rest;
  }

  lemma PlainComplete(c: nat, rest: Bytes)
    requires ValidUnit(Plain(c))
    ensures ReadUnit(Utf8.Encode(c) + rest) == Some((Plain(c), rest))
  {
    hide ReadEscape, Utf8.Decode;
    var s := Utf8.Encode(c) + rest;
    Utf8.EncodingIsAccepted(c, rest);
    assert s[|Utf8.Encode(c)|..] == rest;
    assert s[0] == Utf8.Encode(c)[0];
  }

  /** The loop of parse_string after the opening quotation mark. */
  function ReadUnits(s: Bytes): (r: Option<(seq<Unit>, Bytes)>)
    ensures r.Some? ==> |r.value.1| < |s|
    decreases |s|
  {
    if s == [] then None
    else if s[0] == QUOTE then Some(([], s[1..]))
    else
      var first := ReadUnit(s);
      if first.None? then None
      else
        ReadUnitSound(s);
        var more := ReadUnits(first.value.1);
        if more.None? then None else Some(([first.value.0] + more.value.0, more.value.1))
  }

  /** What is read is a string of the grammar. */
  lemma {:induction false} ReadUnitsSound(s: Bytes)
    requires ReadUnits(s).Some?
    ensures var (us, rest) := ReadUnits(s).value; ValidUnits(us) && s == UnitsText(us) + rest
    decreases |s|
  {
    hide ReadUnit, UnitText, ValidUnit;
    if s[0] != QUOTE {
      ReadUnitSound(s);
      var (u, left) := ReadUnit(s).value;
      ReadUnitsSound(left);
      var (us, rest) := ReadUnits(left).value;
      assert ([u] + us)[1..] == us;
    }
  }

  /** Every string of the grammar is read, as written. */
  lemma {:induction false} ReadUnitsComplete(us: seq<Unit>, rest: Bytes)
    requires ValidUnits(us)
    ensures ReadUnits(UnitsText(us) + rest) == Some((us, rest))
  {
    hide ReadUnit, UnitText, ValidUnit;
    var s := UnitsText(us) + rest;
    if us == [] {
      assert s[1..] == rest;
    } else {
      var left := UnitsText(us[1..]) + rest;
      assert s == UnitText(us[0]) + left;
      ReadUnitComplete(us[0], left);
      ReadUnitsComplete(us[1..], rest);
      NotQuoted(us[0], left);
      assert us == [us[0]] + us[1..];
    }
  }

  lemma NotQuoted(u: Unit, left: Bytes)
    requires ValidUnit(u)
    ensures (UnitText(u) + left)[0] != QUOTE
  {
    assert (UnitText(u) + left)[0] == UnitText(u)[0];
  }

  /** The denoted text is well-formed UTF-8 and its code points are those of the units. */
  lemma {:induction false} DenotedIsText(us: seq<Unit>)
    requires ValidUnits(us)
    ensures Utf8.WellFormed(Denoted(us)) && |Utf8.DecodeAll(Denoted(us))| == |us|
    ensures forall i :: 0 <= i < |us| ==> Utf8.DecodeAll(Denoted(us))[i] == UnitScalar(us[i])
  {
    hide ValidUnit, UnitScalar, Utf8.Encode, Utf8.Decode, Utf8.SequenceLength;
    if us == [] {
    } else {
      DenotedIsText(us[1..]);
      var c, rest := UnitScalar(us[0]), Denoted(us[1..]);
      Utf8.EncodingIsAccepted(c, rest);
      assert Denoted(us)[|Utf8.Encode(c)|..] == rest;
      assert Utf8.DecodeAll(Denoted(us)) == [c] + Utf8.DecodeAll(rest);
    }
  }

  /** A \u escape of a surrogate that is not the high half of a pair of escapes never leads to a string. */
  lemma LoneSurrogatesFail(d: Bytes, rest: Bytes)
    requires Hex4(d) && (HighSurrogate(Value4(d)) || LowSurrogate(Value4(d)))
    ensures ReadUnits([BACKSLASH, LETTER_U] + d + rest).Some?
            ==> HighSurrogate(Value4(d)) && |rest| >= 6 && rest[..2] == [BACKSLASH, LETTER_U]
                && Hex4(rest[2..6]) && LowSurrogate(Value4(rest[2..6]))
  {
    hide Value4;
    var s := [BACKSLASH, LETTER_U] + d + rest;
    assert s[2..6] == d;
    if |s| >= 12 {
      assert s[8..12] == rest[2..6] && s[6] == rest[0] && s[7] == rest[1];
    }
  }
}
