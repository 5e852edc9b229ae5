/** UTF-8 in the JSON reader: writing a code point (append_codepoint) and recognising a sequence
    (utf8_sequence_length).  The recogniser accepts exactly the encodings of Unicode scalar values, which are the
    well-formed sequences of section 4 of RFC 3629.
*/
module Utf8 {
  import opened Octets

  /** A Unicode scalar value: a code point that is not a surrogate. */
  predicate Scalar(c: nat) {
    c <= 0xd7ff || 0xe000 <= c <= 0x10ffff
  }

  /** append_codepoint; shifts and masks are written as division and remainder. */
  function Encode(c: nat): (r: Bytes)
    requires c <= 0x10ffff
    ensures 1 <= |r| <= 4
  {
    if c <= 0x7f then [c]
    else if c <= 0x7ff then [0xc0 + c / 0x40, 0x80 + c % 0x40]
    else if c <= 0xffff then [0xe0 + c / 0x1000, 0x80 + c / 0x40 % 0x40, 0x80 + c % 0x40]
    else [0xf0 + c / 0x4_0000, 0x80 + c / 0x1000 % 0x40, 0x80 + c / 0x40 % 0x40, 0x80 + c % 0x40]
  }

  predicate Tail(b: Byte) {
    0x80 <= b <= 0xbf
  }

  /** utf8_sequence_length: how many bytes the sequence at the front has, or 0 when it is not well formed. */
  function SequenceLength(s: Bytes): (n: nat)
    requires s != []
    ensures n <= 4 && n <= |s|
  {
    var first := s[0];
    if first < 0x80 then 1
    else if 0xc2 <= first <= 0xdf then
      if |s| >= 2 && Tail(s[1]) then 2 else 0
    else if 0xe0 <= first <= 0xef then
      if |s| < 3 || !Tail(s[1]) || !Tail(s[2]) then 0
      else if (first == 0xe0 && s[1] < 0xa0) || (first == 0xed && s[1] > 0x9f) then 0
      else 3
    else if 0xf0 <= first <= 0xf4 then
      if |s| < 4 || !Tail(s[1]) || !Tail(s[2]) || !Tail(s[3]) then 0
      else if (first == 0xf0 && s[1] < 0x90) || (first == 0xf4 && s[1] > 0x8f) then 0
      else 4
    else 0
  }

  /** The code point of the sequence at the front. */
  function Decode(s: Bytes): (c: nat)
    requires s != [] && SequenceLength(s) > 0
    ensures c <= 0x10ffff
  {
    var n := SequenceLength(s);
    var a: int := s[0];
    if n == 1 then a
    else if n == 2 then Join(a - 0xc0, s[1])
    else if n == 3 then Join(Join(a - 0xe0, s[1]), s[2])
    else Join(Join(Join(a - 0xf0, s[1]), s[2]), s[3])
  }

  /** Six more bits. */
  function Join(high: nat, tail: Byte): (c: nat)
    requires Tail(tail)
    ensures c / 0x40 == high && c % 0x40 + 0x80 == tail && c == 0x40 * high + (tail - 0x80)
  {
    high * 0x40 + (tail - 0x80)
  }

  /** Shifting by six bits twice, or three times. */
  lemma Shifts(c: nat)
    ensures c / 0x40 / 0x40 == c / 0x1000 && c / 0x1000 / 0x40 == c / 0x4_0000
  {
  }

  /** Splitting off six bits and joining them again. */
  lemma SplitJoin(c: nat)
    ensures Join(c / 0x40, 0x80 + c % 0x40) == c
  {
  }

  /** An accepted sequence is the encoding of a scalar value. */
  lemma AcceptedIsEncoding(s: Bytes)
    requires s != [] && SequenceLength(s) > 0
    ensures Scalar(Decode(s)) && Encode(Decode(s)) == s[..SequenceLength(s)]
  {
    hide Join;
    Shifts(Decode(s));
  }

  /** The encoding of a scalar value is accepted, whatever follows, and decodes to it. */
  lemma EncodingIsAccepted(c: nat, rest: Bytes)
    requires Scalar(c)
    ensures SequenceLength(Encode(c) + rest) == |Encode(c)| && Decode(Encode(c) + rest) == c
  {
    hide Join;
    Shifts(c);
    SplitJoin(c);
    SplitJoin(c / 0x40);
    SplitJoin(c / 0x1000);
    var s := Encode(c) + rest;
    assert forall i :: 0 <= i < |Encode(c)| ==> s[i] == Encode(c)[i];
  }

  /** A surrogate is not accepted in any form. */
  lemma SurrogatesAreRefused(c: nat, rest: Bytes)
    requires 0xd800 <= c <= 0xdfff
    ensures SequenceLength(Encode(c) + rest) == 0
  {
  }

  // ---------- Text ----------

  predicate Scalars(cs: seq<nat>) {
    forall i :: 0 <= i < |cs| ==> Scalar(cs[i])
  }

  function EncodeAll(cs: seq<nat>): Bytes
    requires Scalars(cs)
  {
    if cs == [] then [] else Encode(cs[0]) + EncodeAll(cs[1..])
  }

  /** The code points of a text, when all of it is well formed. */
  predicate WellFormed(s: Bytes) {
    s == [] || (SequenceLength(s) > 0 && WellFormed(s[SequenceLength(s)..]))
  }

  function DecodeAll(s: Bytes): seq<nat>
    requires WellFormed(s)
  {
    if s == [] then [] else [Decode(s)] + DecodeAll(s[SequenceLength(s)..])
  }

  lemma {:induction false} DecodedIsScalars(s: Bytes)
    requires WellFormed(s)
    ensures Scalars(DecodeAll(s)) && EncodeAll(DecodeAll(s)) == s
  {
    hide Encode, Decode, SequenceLength, Scalar;
    if s == [] {
    } else {
      var n := SequenceLength(s);
      AcceptedIsEncoding(s);
      DecodedIsScalars(s[n..]);
      assert s == s[..n] + s[n..];
      assert DecodeAll(s)[1..] == DecodeAll(s[n..]);
    }
  }

  lemma {:induction false} EncodedIsWellFormed(cs: seq<nat>)
    requires Scalars(cs)
    ensures WellFormed(EncodeAll(cs)) && DecodeAll(EncodeAll(cs)) == cs
  {
    hide Encode, Decode, SequenceLength, Scalar;
    if cs == [] {
    } else {
      var s, rest := EncodeAll(cs), EncodeAll(cs[1..]);
      EncodedIsWellFormed(cs[1..]);
      EncodingIsAccepted(cs[0], rest);
      assert s[|Encode(cs[0])|..] == rest;
    }
  }

  /** One character of each length, from the tables of RFC 3629: A, e with an acute accent, the euro sign, and a
      character outside the basic plane. */
  lemma EncodingsOfEachLength()
    ensures Encode(0x41) == [0x41] && Encode(0xe9) == [0xc3, 0xa9]
    ensures Encode(0x20ac) == [0xe2, 0x82, 0xac] && Encode(0x1f600) == [0xf0, 0x9f, 0x98, 0x80]
  {
  }
}
