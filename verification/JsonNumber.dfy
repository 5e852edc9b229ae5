/** JSON numbers: the grammar of section 6 of RFC 8259, the reader's decisions, and the exact conversions to 64-bit
    integers (inkling_json_number_u64 and inkling_json_number_i64).
*/
module JsonNumber {
  import opened Octets
  import opened Wrappers
  import opened Counters

  const MINUS: Byte := 0x2d
  const PLUS: Byte := 0x2b
  const POINT: Byte := 0x2e
  const ZERO: Byte := 0x30

  predicate Digit(b: Byte) {
    0x30 <= b <= 0x39
  }

  predicate ExponentLetter(b: Byte) {
    b == 0x65 || b == 0x45
  }

  predicate Digits(s: Bytes) {
    forall i :: 0 <= i < |s| ==> Digit(s[i])
  }

  // ---------- Grammar ----------

  datatype Exponent = Exponent(letter: Byte, sign: Bytes, digits: Bytes)

  datatype Number = Number(minus: bool, whole: Bytes, fraction: Option<Bytes>, exponent: Option<Exponent>)

  predicate ValidExponent(e: Exponent) {
    ExponentLetter(e.letter) && (e.sign == [] || e.sign == [PLUS] || e.sign == [MINUS])
    && Digits(e.digits) && e.digits != []
  }

  predicate ValidNumber(n: Number) {
    && Digits(n.whole) && n.whole != [] && (n.whole[0] == ZERO ==> |n.whole| == 1)
    && (n.fraction.Some? ==> Digits(n.fraction.value) && n.fraction.value != [])
    && (n.exponent.Some? ==> ValidExponent(n.exponent.value))
  }

  function ExponentText(e: Option<Exponent>): Bytes {
    if e.None? then [] else [e.value.letter] + e.value.sign + e.value.digits
  }

  function FractionText(f: Option<Bytes>): Bytes {
    if f.None? then [] else [POINT] + f.value
  }

  function SignText(minus: bool): Bytes {
    if minus then [MINUS] else []
  }

  function NumberText(n: Number): Bytes {
    SignText(n.minus) + (n.whole + (FractionText(n.fraction) + ExponentText(n.exponent)))
  }

  /** What follows a number must not carry it on. */
  predicate EndsNumber(rest: Bytes) {
    rest == [] || !(Digit(rest[0]) || rest[0] == POINT || ExponentLetter(rest[0]))
  }

  // ---------- Reading ----------

  /** How many digits are at the front. */
  function Run(s: Bytes): (n: nat)
    ensures n <= |s| && Digits(s[..n]) && (n < |s| ==> !Digit(s[n]))
  {
    if s == [] || !Digit(s[0]) then 0
    else
      var n := Run(s[1..]);
      assert forall i :: 0 < i <= n ==> s[i] == s[1..][..n][i - 1];
      n + 1
  }

  lemma {:induction false} RunIs(d: Bytes, rest: Bytes)
    requires Digits(d) && (rest == [] || !Digit(rest[0]))
    ensures Run(d + rest) == |d|
  {
    if d == [] {
    } else {
      assert (d + rest)[1..] == d[1..] + rest;
      RunIs(d[1..], rest);
    }
  }

  function ReadExponent(s: Bytes): (r: Option<(Option<Exponent>, Bytes)>)
  {
    if s == [] || !ExponentLetter(s[0]) then Some((None, s))
    else
      var signs := if |s| > 1 && (s[1] == PLUS || s[1] == MINUS) then 1 else 0;
      var after := s[1 + signs..];
      if Run(after) == 0 then None
      else Some((Some(Exponent(s[0], s[1..1 + signs], after[..Run(after)])), after[Run(after)..]))
  }

  function ReadFraction(s: Bytes): (r: Option<(Option<Bytes>, Bytes)>)
  {
    if s == [] || s[0] != POINT then Some((None, s))
    else if Run(s[1..]) == 0 then None
    else Some((Some(s[1..][..Run(s[1..])]), s[1..][Run(s[1..])..]))
  }

  /** The integer part: a zero alone, or a run of digits that does not start with zero. */
  function ReadWhole(s: Bytes): (r: Option<(Bytes, Bytes)>) {
    if s == [] then None
    else if s[0] == ZERO then
      if |s| > 1 && Digit(s[1]) then None else Some(([ZERO], s[1..]))
    else if Digit(s[0]) then Some((s[..Run(s)], s[Run(s)..]))
    else None
  }

  /** parse_number on what is left of the text. */
  function ReadNumber(s: Bytes): (r: Option<(Number, Bytes)>)
    requires s != []
  {
    var minus := s[0] == MINUS;
    var whole := ReadWhole(if minus then s[1..] else s);
    if whole.None? then None
    else
      var fraction := ReadFraction(whole.value.1);
      if fraction.None? then None
      else
        var exponent := ReadExponent(fraction.value.1);
        if exponent.None? then None
        else Some((Number(minus, whole.value.0, fraction.value.0, exponent.value.0), exponent.value.1))
  }

  lemma ExponentSound(s: Bytes)
    requires ReadExponent(s).Some?
    ensures var (e, rest) := ReadExponent(s).value; (e.Some? ==> ValidExponent(e.value)) && s == ExponentText(e) + rest
  {
    var (e, rest) := ReadExponent(s).value;
    if e.Some? {
      var signs := |e.value.sign|;
      assert s == [s[0]] + s[1..1 + signs] + s[1 + signs..];
    }
  }

  lemma FractionSound(s: Bytes)
    requires ReadFraction(s).Some?
    ensures var (f, rest) := ReadFraction(s).value;
            (f.Some? ==> Digits(f.value) && f.value != []) && s == FractionText(f) + rest
  {
  }

  lemma WholeSound(s: Bytes)
    requires ReadWhole(s).Some?
    ensures var (w, rest) := ReadWhole(s).value;
            Digits(w) && w != [] && (w[0] == ZERO ==> |w| == 1) && s == w + rest
  {
  }

  /** What is read is a number of the grammar. */
  lemma ReadNumberSound(s: Bytes)
    requires s != [] && ReadNumber(s).Some?
    ensures var (n, rest) := ReadNumber(s).value; ValidNumber(n) && s == NumberText(n) + rest && |rest| < |s|
  {
    hide ReadWhole, ReadFraction, ReadExponent, Digits, ValidExponent, FractionText, ExponentText;
    var first := if s[0] == MINUS then s[1..] else s;
    var (whole, second) := ReadWhole(first).value;
    var (fraction, third) := ReadFraction(second).value;
    var (exponent, rest) := ReadExponent(third).value;
    WholeSound(first);
    FractionSound(second);
    ExponentSound(third);
    var f, e := FractionText(fraction), ExponentText(exponent);
    assert s == (if s[0] == MINUS then [MINUS] else []) + first;
    Regroup(if s[0] == MINUS then [MINUS] else [], whole, f, e, rest);
  }

  lemma Regroup(a: Bytes, b: Bytes, c: Bytes, d: Bytes, e: Bytes)
    ensures a + (b + (c + (d + e))) == a + (b + (c + d)) + e
  {
  }

  lemma ExponentComplete(e: Option<Exponent>, rest: Bytes)
    requires (e.Some? ==> ValidExponent(e.value)) && EndsNumber(rest)
    ensures ReadExponent(ExponentText(e) + rest) == Some((e, rest))
  {
    var s := ExponentText(e) + rest;
    if e.Some? {
      var x := e.value;
      var signs, after := |x.sign|, x.digits + rest;
      assert s == [x.letter] + x.sign + after;
      assert s[1..1 + signs] == x.sign && s[1 + signs..] == after;
      RunIs(x.digits, rest);
      hide Run, Digits;
      assert after[..|x.digits|] == x.digits && after[|x.digits|..] == rest;
      assert s[1 + signs] == x.digits[0] && Digit(x.digits[0]);
      assert signs == 1 ==> s[1] == x.sign[0];
    } else {
      assert s == rest;
    }
  }

  lemma FractionComplete(f: Option<Bytes>, rest: Bytes)
    requires f.Some? ==> Digits(f.value) && f.value != []
    requires rest == [] || !(Digit(rest[0]) || rest[0] == POINT)
    ensures ReadFraction(FractionText(f) + rest) == Some((f, rest))
  {
    if f.Some? {
      RunIs(f.value, rest);
      PointThen(f.value, rest);
    } else {
      assert FractionText(f) + rest == rest;
    }
  }

  lemma PointThen(d: Bytes, rest: Bytes)
    requires d != [] && Run(d + rest) == |d|
    ensures ReadFraction([POINT] + d + rest) == Some((Some(d), rest))
  {
    hide Run, Digits;
    assert ([POINT] + d + rest)[1..] == d + rest;
    assert (d + rest)[..|d|] == d && (d + rest)[|d|..] == rest;
  }

  lemma WholeComplete(w: Bytes, rest: Bytes)
    requires Digits(w) && w != [] && (w[0] == ZERO ==> |w| == 1)
    requires rest == [] || !Digit(rest[0])
    ensures ReadWhole(w + rest) == Some((w, rest))
  {
    RunIs(w, rest);
    assert (w + rest)[..|w|] == w && (w + rest)[|w|..] == rest;
    assert w[0] == ZERO ==> w == [ZERO];
  }

  /** Every number of the grammar is read as written, unless the text carries it on. */
  lemma ReadNumberComplete(n: Number, rest: Bytes)
    requires ValidNumber(n) && EndsNumber(rest)
    ensures ReadNumber(NumberText(n) + rest) == Some((n, rest))
  {
    hide *;
    var third := ExponentText(n.exponent) + rest;
    var second := FractionText(n.fraction) + third;
    var s := NumberText(n) + rest;
    Splits(n, second, third, rest);
    Parts(n);
    SignComplete(n.minus, n.whole, second);
    ExponentComplete(n.exponent, rest);
    ExponentStarts(n.exponent, rest);
    FractionComplete(n.fraction, third);
    FractionStarts(n.fraction, third);
    WholeComplete(n.whole, second);
    Steps(n, second, third, rest, s);
  }

  lemma Parts(n: Number)
    requires ValidNumber(n)
    ensures Digits(n.whole) && n.whole != [] && (n.whole[0] == ZERO ==> |n.whole| == 1)
    ensures n.fraction.Some? ==> Digits(n.fraction.value) && n.fraction.value != []
    ensures n.exponent.Some? ==> ValidExponent(n.exponent.value)
  {
  }

  lemma Splits(n: Number, second: Bytes, third: Bytes, rest: Bytes)
    requires second == FractionText(n.fraction) + third && third == ExponentText(n.exponent) + rest
    ensures NumberText(n) + rest == SignText(n.minus) + (n.whole + second)
  {
    Regroup(SignText(n.minus), n.whole, FractionText(n.fraction), ExponentText(n.exponent), rest);
  }

  /** The three parts read one after another. */
  lemma Steps(n: Number, second: Bytes, third: Bytes, rest: Bytes, s: Bytes)
    requires s != [] && n.minus == (s[0] == MINUS)
    requires ReadWhole(if s[0] == MINUS then s[1..] else s) == Some((n.whole, second))
    requires ReadFraction(second) == Some((n.fraction, third)) && ReadExponent(third) == Some((n.exponent, rest))
    ensures ReadNumber(s) == Some((n, rest))
  {
    hide ReadWhole, ReadFraction, ReadExponent;
  }

  lemma SignComplete(minus: bool, whole: Bytes, second: Bytes)
    requires Digits(whole) && whole != []
    ensures var s := SignText(minus) + (whole + second);
            s != [] && minus == (s[0] == MINUS) && (if minus then s[1..] else s) == whole + second
  {
    assert Digit(whole[0]) && (whole + second)[0] == whole[0];
  }

  lemma ExponentStarts(e: Option<Exponent>, rest: Bytes)
    requires (e.Some? ==> ValidExponent(e.value)) && EndsNumber(rest)
    ensures var third := ExponentText(e) + rest; third == [] || !(Digit(third[0]) || third[0] == POINT)
  {
    assert e.None? ==> ExponentText(e) + rest == rest;
  }

  lemma FractionStarts(f: Option<Bytes>, third: Bytes)
    requires third == [] || !(Digit(third[0]) || third[0] == POINT)
    ensures var second := FractionText(f) + third; second == [] || !Digit(second[0])
  {
    assert f.None? ==> FractionText(f) + third == third;
  }

  // ---------- Conversion to integers ----------

  /** The value of a run of digits. */
  function Natural(d: Bytes): nat
    requires Digits(d)
  {
    if d == [] then 0 else Natural(d[..|d| - 1]) * 10 + (d[|d| - 1] - ZERO)
  }

  lemma {:induction false} NaturalGrows(d: Bytes, i: nat)
    requires Digits(d) && i <= |d|
    ensures Natural(d[..i]) <= Natural(d)
  {
    if i < |d| {
      NaturalGrows(d[..|d| - 1], i);
      assert d[..|d| - 1][..i] == d[..i];
    } else {
      assert d[..i] == d;
    }
  }

  /** The loop both conversions share: the digits must be digits and their value at most the limit. */
  method Accumulate(text: Bytes, from: nat, limit: nat) returns (r: Option<nat>)
    requires from <= |text| && limit >= 9
    ensures r.Some? <==> Digits(text[from..]) && Natural(text[from..]) <= limit
    ensures r.Some? ==> r.value == Natural(text[from..])
  {
    var number, index := 0, from;
    ghost var all := text[from..];
    while index < |text|
      invariant from <= index <= |text| && Digits(all[..index - from])
      invariant number == Natural(all[..index - from]) <= limit
    {
      ghost var done := index - from;
      assert all[..done + 1][..done] == all[..done] && all[done] == text[index];
      if !Digit(text[index]) {
        return None;
      }
      var digit := text[index] - ZERO;
      if number > (limit - digit) / 10 {
        if Digits(all) {
          NaturalGrows(all, done + 1);
        }
        return None;
      }
      number := number * 10 + digit;
      index := index + 1;
    }
    assert all[..index - from] == all;
    r := Some(number);
  }

  /** inkling_json_number_u64 on the text of a number. */
  method NumberU64(text: Bytes) returns (r: Option<nat>)
    ensures r.Some? <==> text != [] && Digits(text) && Natural(text) <= UINT64_MAX
    ensures r.Some? ==> r.value == Natural(text)
  {
    if |text| == 0 || text[0] == MINUS {
      return None;
    }
    assert text[0..] == text;
    r := Accumulate(text, 0, UINT64_MAX);
  }

  /** inkling_json_number_i64 on the text of a number. */
  method NumberI64(text: Bytes) returns (r: Option<int>)
    ensures r.Some? <==> IntegerText(text) && 0 - INT64_MAX - 1 <= Integer(text) <= INT64_MAX
    ensures r.Some? ==> r.value == Integer(text)
  {
    if |text| == 0 {
      return None;
    }
    var negative := text[0] == MINUS;
    var index := if negative then 1 else 0;
    var limit := if negative then INT64_MAX + 1 else INT64_MAX;
    if index == |text| {
      return None;
    }
    var magnitude := Accumulate(text, index, limit);
    if magnitude.None? {
      return None;
    }
    var value: int := magnitude.value;
    r := Some(if negative then 0 - value else value);
  }

  /** An optional minus and at least one digit. */
  predicate IntegerText(text: Bytes) {
    text != [] && (if text[0] == MINUS then |text| > 1 && Digits(text[1..]) else Digits(text))
  }

  function Integer(text: Bytes): int
    requires IntegerText(text)
  {
    if text[0] == MINUS then 0 - Natural(text[1..]) else Natural(text)
  }

  /** The digits of a number, the most significant first. */
  function Decimal(n: nat): (d: Bytes)
    ensures d != []
  {
    if n < 10 then [0x30 + n] else Decimal(n / 10) + [0x30 + n % 10]
  }

  /** The digits of a number have that number as their value. */
  lemma {:induction false} DecimalValue(n: nat)
    ensures Digits(Decimal(n)) && Natural(Decimal(n)) == n
  {
    if n < 10 {
      assert Decimal(n)[..0] == [];
    } else {
      DecimalValue(n / 10);
      assert Decimal(n)[..|Decimal(n)| - 1] == Decimal(n / 10);
    }
  }

  /** On the text of a number of the grammar the unsigned conversion accepts exactly the numbers without sign,
      fraction and exponent that fit 64 bits. */
  lemma UnsignedNumbers(n: Number)
    requires ValidNumber(n)
    ensures Digits(NumberText(n)) <==> !n.minus && n.fraction.None? && n.exponent.None?
    ensures !n.minus && n.fraction.None? && n.exponent.None? ==> NumberText(n) == n.whole
  {
    var s := NumberText(n);
    if n.minus {
      assert s[0] == MINUS;
    } else if n.fraction.Some? {
      assert s[|n.whole|] == POINT;
    } else if n.exponent.Some? {
      assert s[|n.whole|] == n.exponent.value.letter;
    } else {
      assert s == n.whole;
    }
  }
}
