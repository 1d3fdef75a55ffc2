/**
 Scalar values as the generated texts show them. Printing forgets the kind of a value up to
 null, boolean, number or text; reading back returns exactly what is left.
 */
module Scalars {
  import opened Model
  import opened Numerals
  import opened Escapes

  datatype Scalar = Null | Flag(b: bool) | Number(i: int) | Text(s: string)

  /** What remains of a value: signed and unsigned numbers, and the three kinds of text, coincide. */
  function ScalarOf(v: Value): Scalar
    requires !v.Float?
  {
    match v
    case Empty => Null
    case Bool(b) => Flag(b)
    case Int(i) => Number(i)
    case UInt(u) => Number(u)
    case Str(s) => Text(s)
    case Enum(s) => Text(s)
    case Path(s) => Text(s)
  }

  function FlagText(b: bool): string {
    if b then "true" else "false"
  }

  function ScalarText(f: char -> string, nullWord: string, x: Scalar): string {
    match x
    case Null => nullWord
    case Flag(b) => FlagText(b)
    case Number(i) => IntText(i)
    case Text(s) => Quote(f, s)
  }

  function Skip(prefix: string, t: string): (rest: Option<string>)
    ensures rest.Some? ==> |rest.value| == |t| - |prefix|
  {
    if prefix <= t then Some(t[|prefix|..]) else None
  }

  lemma SkipBack(prefix: string, rest: string)
    ensures Skip(prefix, prefix + rest) == Some(rest)
  {
  }

  predicate IsDecimal(c: char) {
    '0' <= c <= '9'
  }

  /** The number of decimal digits at the front. */
  function DigitRun(t: string): (n: nat)
    ensures n <= |t| && forall i :: 0 <= i < n ==> IsDecimal(t[i])
    ensures n < |t| ==> !IsDecimal(t[n])
  {
    if t == "" || !IsDecimal(t[0]) then 0 else 1 + DigitRun(t[1..])
  }

  function Signed(negative: bool, magnitude: int): int {
    if negative then -magnitude else magnitude
  }

  function ReadNumber(t: string): Option<(int, string)> {
    var negative := t != "" && t[0] == '-';
    var digits := if negative then t[1..] else t;
    var n := DigitRun(digits);
    if n == 0 then None
    else
      var magnitude: int := NumeralValue(10, digits[..n]);
      Some((Signed(negative, magnitude), digits[n..]))
  }

  function ReadScalar(step: string -> Option<(char, string)>, nullWord: string, t: string): Option<(Scalar, string)> {
    if t == "" then None
    else if t[0] == '"' then
      var (s, rest) :- ReadQuoted(step, t);
      Some((Text(s), rest))
    else if nullWord <= t then Some((Null, t[|nullWord|..]))
    else if "true" <= t then Some((Flag(true), t[4..]))
    else if "false" <= t then Some((Flag(false), t[5..]))
    else
      var (i, rest) :- ReadNumber(t);
      Some((Number(i), rest))
  }

  lemma {:induction false} NumeralIsDecimal(n: nat, width: nat)
    ensures forall i :: 0 <= i < |Numeral(10, n, width)| ==> IsDecimal(Numeral(10, n, width)[i])
    decreases n, width
  {
    if n == 0 && width == 0 {
    } else {
      NumeralIsDecimal(n / 10, if width > 0 then width - 1 else 0);
    }
  }

  lemma {:induction false} DigitRunOf(text: string, rest: string)
    requires forall i :: 0 <= i < |text| ==> IsDecimal(text[i])
    requires rest != "" && !IsDecimal(rest[0])
    ensures DigitRun(text + rest) == |text|
  {
    if text == "" {
      assert text + rest == rest;
    } else {
      assert (text + rest)[1..] == text[1..] + rest;
      DigitRunOf(text[1..], rest);
    }
  }

  lemma ReadDigitsBack(m: nat, rest: string)
    requires rest != "" && !IsDecimal(rest[0])
    ensures var digits, n := UIntText(m) + rest, |UIntText(m)|;
            DigitRun(digits) == n > 0 && digits[..n] == UIntText(m) && digits[n..] == rest && IsDecimal(digits[0])
  {
    NumeralIsDecimal(m, 1);
    DigitRunOf(UIntText(m), rest);
    assert (UIntText(m) + rest)[0] == UIntText(m)[0];
  }

  lemma ReadNumberBack(i: int, rest: string)
    requires rest != "" && !IsDecimal(rest[0])
    ensures ReadNumber(IntText(i) + rest) == Some((i, rest))
    ensures (IntText(i) + rest)[0] == '-' || IsDecimal((IntText(i) + rest)[0])
  {
    hide DigitRun, UIntText, NumeralValue;
    var m: nat := if i < 0 then -i else i;
    var digits := UIntText(m) + rest;
    ReadDigitsBack(m, rest);
    UIntValue(m);
    if i < 0 {
      var t := "-" + digits;
      assert t[1..] == digits;
      assert IntText(i) + rest == t;
    } else {
      assert IntText(i) + rest == digits;
    }
  }

  lemma UIntValue(m: nat)
    ensures NumeralValue(10, UIntText(m)) == m
  {
    NumeralRoundTrip(10, m, 1);
  }

  /** Every scalar that is followed by anything but a digit is read back exactly. */
  lemma ReadScalarBack(f: char -> string, step: string -> Option<(char, string)>, nullWord: string, x: Scalar, rest: string)
    requires rest != "" && !IsDecimal(rest[0])
    requires nullWord == "null" || nullWord == "nil"
    requires x.Text? ==> forall c :: c in x.s ==> Reads(f, step, c)
    ensures ReadScalar(step, nullWord, ScalarText(f, nullWord, x) + rest) == Some((x, rest))
  {
    hide ReadNumber, IntText, ReadQuoted, Quote, Reads;
    var t := ScalarText(f, nullWord, x) + rest;
    match x {
      case Null =>
      case Flag(b) =>
        assert t[0] == FlagText(b)[0] && FlagText(b) <= t;
      case Number(i) =>
        ReadNumberBack(i, rest);
      case Text(s) =>
        ReadQuotedBack(f, step, s, rest);
        QuoteStarts(f, s, rest);
    }
  }

  lemma QuoteStarts(f: char -> string, s: string, rest: string)
    ensures |Quote(f, s)| > 0 && Quote(f, s)[0] == '"'
  {
  }

  // A value at the end of a line, where hexadecimal numbers occur too.

  /** The number of hexadecimal digits at the front. */
  function HexRun(t: string): (n: nat)
    ensures n <= |t| && forall i :: 0 <= i < n ==> DigitValue(t[i]).Some?
  {
    if t == "" || DigitValue(t[0]).None? then 0 else 1 + HexRun(t[1..])
  }

  /** A hexadecimal number with its prefix, or any other scalar. */
  function ReadValue(t: string): Option<(Scalar, string)> {
    if "0x" <= t then
      var n := HexRun(t[2..]);
      if n == 0 then None else Some((Number(NumeralValue(16, t[2..][..n])), t[2..][n..]))
    else ReadScalar(UnescapeStep, "null", t)
  }

  /** The text is read as `x` at the end of a line. */
  ghost predicate ReadsAs(text: string, x: Scalar) {
    forall rest :: rest != "" && rest[0] == '\n' ==> ReadValue(text + rest) == Some((x, rest))
  }

  lemma {:induction false} HexRunOf(text: string, rest: string)
    requires forall i :: 0 <= i < |text| ==> DigitValue(text[i]).Some?
    requires rest != "" && DigitValue(rest[0]).None?
    ensures HexRun(text + rest) == |text|
  {
    if text == "" {
      assert text + rest == rest;
    } else {
      assert (text + rest)[0] == text[0] && (text + rest)[1..] == text[1..] + rest;
      HexRunOf(text[1..], rest);
    }
  }

  lemma HexReadsAs(u: nat, forceWidth: bool)
    ensures ReadsAs(HexText(u, forceWidth), Number(u))
  {
    forall rest: string | rest != "" && rest[0] == '\n'
      ensures ReadValue(HexText(u, forceWidth) + rest) == Some((Number(u), rest))
    {
      var width := if forceWidth then 8 else 1;
      var digits := Numeral(16, u, width);
      var t := HexText(u, forceWidth) + rest;
      assert t == "0x" + (digits + rest) && t[2..] == digits + rest;
      HexRunOf(digits, rest);
      NumeralRoundTrip(16, u, width);
      assert t[2..][..|digits|] == digits && t[2..][|digits|..] == rest;
    }
  }

  lemma NotHex(x: Scalar, rest: string)
    requires rest != "" && rest[0] == '\n'
    ensures !("0x" <= ScalarText(EscapeChar, "null", x) + rest)
  {
    hide Quote, EscapeChar, UIntText;
    var t := ScalarText(EscapeChar, "null", x) + rest;
    match x {
      case Null =>
        assert t[0] == "null"[0];
      case Flag(b) =>
        assert t[0] == FlagText(b)[0];
      case Number(i) =>
        NumberIsNotHex(i, rest);
      case Text(s) =>
        QuoteStarts(EscapeChar, s, rest);
        assert t[0] == '"';
    }
  }

  lemma NumberIsNotHex(i: int, rest: string)
    requires rest != "" && rest[0] == '\n'
    ensures !("0x" <= IntText(i) + rest)
  {
    hide Numeral;
    var m: nat := if i < 0 then -i else i;
    NumeralIsDecimal(m, 1);
    var t := IntText(i) + rest;
    if |t| > 1 {
      assert t[1] == '\n' || IsDecimal(t[1]) || t[0] == '-';
    }
  }

  lemma ScalarReadsAs(x: Scalar)
    ensures ReadsAs(ScalarText(EscapeChar, "null", x), x)
  {
    hide ScalarText, ReadScalar;
    forall rest: string | rest != "" && rest[0] == '\n'
      ensures ReadValue(ScalarText(EscapeChar, "null", x) + rest) == Some((x, rest))
    {
      NotHex(x, rest);
      forall c
        ensures Reads(EscapeChar, UnescapeStep, c)
      {
        EscapeReads(c);
      }
      ReadScalarBack(EscapeChar, UnescapeStep, "null", x, rest);
    }
  }
}
