/** C string literals with octal escapes and Lua strings with hexadecimal escapes. */
module Literals {
  import opened Model
  import opened Builder
  import opened Numerals
  import opened Escapes

  predicate IsByte(c: char) {
    c < 256 as char
  }

  ghost predicate IsByteText(s: string) {
    forall c :: c in s ==> IsByte(c)
  }

  predicate IsPrintable(c: char) {
    32 as char <= c < 127 as char
  }

  // C literals.

  function OctalDigit(d: nat): char
    requires d < 8
  {
    '0' + d as char
  }

  /** A backslash and exactly three octal digits. */
  function OctalEscape(c: char): string {
    var v := c as nat;
    ['\\', OctalDigit(v / 64 % 8), OctalDigit(v / 8 % 8), OctalDigit(v % 8)]
  }

  function CSpelling(c: char): string {
    match c
    case '"' => "\\\""
    case '\\' => "\\\\"
    case '\n' => "\\n"
    case '\r' => "\\r"
    case '\t' => "\\t"
    case _ => if IsPrintable(c) then [c] else OctalEscape(c)
  }

  function CLiteral(s: string): string {
    Quote(CSpelling, s)
  }

  predicate IsOctal(c: char) {
    '0' <= c <= '7'
  }

  function OctalValue(c: char): nat
    requires IsOctal(c)
  {
    (c - '0') as nat
  }

  /** The simple escape sequences of section 6.4.4.4 of C11. */
  function SimpleEscape(c: char): Option<char> {
    match c
    case '\'' | '"' | '?' | '\\' => Some(c)
    case 'a' => Some(7 as char)
    case 'b' => Some(8 as char)
    case 'f' => Some(12 as char)
    case 'n' => Some('\n')
    case 'r' => Some('\r')
    case 't' => Some('\t')
    case 'v' => Some(11 as char)
    case _ => None
  }

  /** The longest octal escape at the front of `t`: one to three digits. */
  function OctalRun(t: string): nat
    requires t != "" && IsOctal(t[0])
  {
    if |t| > 1 && IsOctal(t[1]) then if |t| > 2 && IsOctal(t[2]) then 3 else 2 else 1
  }

  function OctalNumber(t: string, n: nat): nat
    requires n <= |t| && forall i :: 0 <= i < n ==> IsOctal(t[i])
  {
    if n == 0 then 0 else 8 * OctalNumber(t, n - 1) + OctalValue(t[n - 1])
  }

  /** One character of a C11 string literal (section 6.4.5), without hexadecimal and universal escapes. */
  function CStep(t: string): Option<(char, string)> {
    if t == "" || t[0] == '\n' then None
    else if t[0] != '\\' then Some((t[0], t[1..]))
    else if |t| < 2 then None
    else if IsOctal(t[1]) then
      var n := OctalRun(t[1..]);
      var v := OctalNumber(t[1..], n);
      if v < 256 then Some((v as char, t[1 + n..])) else None
    else
      var c :- SimpleEscape(t[1]);
      Some((c, t[2..]))
  }

  lemma OctalArithmetic(v: nat)
    requires v < 256
    ensures 8 * (8 * (v / 64 % 8) + v / 8 % 8) + v % 8 == v
  {
  }

  lemma OctalNumberOf(t: string, a: nat, b: nat, c: nat)
    requires |t| >= 3 && a < 8 && b < 8 && c < 8
    requires t[0] == OctalDigit(a) && t[1] == OctalDigit(b) && t[2] == OctalDigit(c)
    ensures OctalRun(t) == 3 && OctalNumber(t, 3) == 8 * (8 * a + b) + c
  {
    assert OctalNumber(t, 1) == a;
    assert OctalNumber(t, 2) == 8 * a + b;
  }

  lemma OctalReads(c: char, rest: string)
    requires IsByte(c)
    ensures CStep(OctalEscape(c) + rest) == Some((c, rest))
  {
    hide OctalNumber, OctalRun;
    var v := c as nat;
    var t := OctalEscape(c) + rest;
    OctalNumberOf(t[1..], v / 64 % 8, v / 8 % 8, v % 8);
    OctalArithmetic(v);
    assert t[4..] == rest;
  }

  lemma CSpellingReads(c: char)
    requires IsByte(c)
    ensures Reads(CSpelling, CStep, c)
  {
    forall rest
      ensures CStep(CSpelling(c) + rest) == Some((c, rest))
    {
      if !IsPrintable(c) && c !in "\n\r\t" {
        OctalReads(c, rest);
      }
    }
  }

  /** A C compiler reads the literal back as the bytes of the string, even before a digit. */
  lemma CLiteralRoundTrip(s: string, rest: string)
    requires IsByteText(s)
    ensures ReadQuoted(CStep, CLiteral(s) + rest) == Some((s, rest))
  {
    forall c | c in s
      ensures Reads(CSpelling, CStep, c)
    {
      CSpellingReads(c);
    }
    ReadQuotedBack(CSpelling, CStep, s, rest);
  }

  /** Only printable characters reach the generated text. */
  lemma {:induction false} MapTextPrintable(f: char -> string, s: string)
    requires forall c, i :: c in s && 0 <= i < |f(c)| ==> IsPrintable(f(c)[i])
    ensures forall i :: 0 <= i < |MapText(f, s)| ==> IsPrintable(MapText(f, s)[i])
  {
    if s != "" {
      MapTextPrintable(f, s[1..]);
      assert s[0] in s;
    }
  }

  lemma CLiteralPrintable(s: string)
    ensures forall i :: 0 <= i < |CLiteral(s)| ==> IsPrintable(CLiteral(s)[i])
  {
    MapTextPrintable(CSpelling, s);
  }

  method AppendOctalEscape(b: TextBuilder, c: char)
    requires b.Valid()
    modifies b, b.text
    ensures b.Valid() && (b.text == old(b.text) || fresh(b.text))
    ensures b.Contents() == old(b.Contents()) + OctalEscape(c)
  {
    hide TextBuilder.Valid, TextBuilder.Contents;
    var v := c as nat;
    b.AppendChar('\\');
    b.AppendChar('0' + (v / 64 % 8) as char);
    b.AppendChar('0' + (v / 8 % 8) as char);
    b.AppendChar('0' + (v % 8) as char);
  }

  method AppendLiteralChar(b: TextBuilder, c: char)
    requires b.Valid()
    modifies b, b.text
    ensures b.Valid() && (b.text == old(b.text) || fresh(b.text))
    ensures b.Contents() == old(b.Contents()) + CSpelling(c)
  {
    hide OctalEscape, TextBuilder.Valid, TextBuilder.Contents;
    match c {
      case '"' | '\\' =>
        b.AppendChar('\\');
        b.AppendChar(c);
      case '\n' =>
        b.Append("\\n");
      case '\r' =>
        b.Append("\\r");
      case '\t' =>
        b.Append("\\t");
      case _ =>
        if c < 32 as char || c >= 127 as char {
          AppendOctalEscape(b, c);
        } else {
          b.AppendChar(c);
        }
    }
  }

  /** An absent string prints as an empty literal. */
  method AppendStringLiteral(b: TextBuilder, text: Option<string>)
    requires b.Valid()
    modifies b, b.text
    ensures b.Valid() && (b.text == old(b.text) || fresh(b.text))
    ensures b.Contents() == old(b.Contents()) + CLiteral(if text.Some? then text.value else "")
  {
    hide MapText, CSpelling, TextBuilder.Valid, TextBuilder.Contents;
    b.AppendChar('"');
    MapTextNothing(CSpelling);
    if text.Some? {
      var s := text.value;
      for index := 0 to |s|
        invariant b.Valid() && (b.text == old(b.text) || fresh(b.text))
        invariant b.Contents() == old(b.Contents()) + "\"" + MapText(CSpelling, s[..index])
      {
        MapTextNext(CSpelling, s, index);
        AppendLiteralChar(b, s[index]);
      }
      assert s[..|s|] == s;
    }
    b.AppendChar('"');
  }

  // Lua strings and records.

  function HexEscape(c: char): string
    requires IsByte(c)
  {
    "\\x" + [Digit(c as nat / 16), Digit(c as nat % 16)]
  }

  function LuaSpelling(c: char): string {
    match c
    case '\\' => "\\\\"
    case '"' => "\\\""
    case '\n' => "\\n"
    case '\r' => "\\r"
    case '\t' => "\\t"
    case _ => if IsPrintable(c) || !IsByte(c) then [c] else HexEscape(c)
  }

  function TextPayload(s: string): string {
    MapText(LuaSpelling, s)
  }

  function LuaString(s: string): string {
    Quote(LuaSpelling, s)
  }

  /** One character of a Lua short string: simple escapes and \xHH. */
  function LuaStep(t: string): Option<(char, string)> {
    if t == "" || t[0] == '\n' then None
    else if t[0] != '\\' then Some((t[0], t[1..]))
    else if |t| < 2 then None
    else if t[1] == 'x' then
      if |t| < 4 then None
      else
        var high :- DigitValue(t[2]);
        var low :- DigitValue(t[3]);
        Some(((16 * high + low) as char, t[4..]))
    else
      var c :- LuaEscape(t[1]);
      Some((c, t[2..]))
  }

  function LuaEscape(c: char): Option<char> {
    if c == '?' then None else SimpleEscape(c)
  }

  lemma LuaSpellingReads(c: char)
    requires IsByte(c)
    ensures Reads(LuaSpelling, LuaStep, c)
  {
    DigitRoundTrip(c as nat / 16);
    DigitRoundTrip(c as nat % 16);
    forall rest
      ensures LuaStep(LuaSpelling(c) + rest) == Some((c, rest))
    {
    }
  }

  lemma LuaRoundTrip(s: string, rest: string)
    requires IsByteText(s)
    ensures ReadQuoted(LuaStep, LuaString(s) + rest) == Some((s, rest))
  {
    forall c | c in s
      ensures Reads(LuaSpelling, LuaStep, c)
    {
      LuaSpellingReads(c);
    }
    ReadQuotedBack(LuaSpelling, LuaStep, s, rest);
  }

  lemma PayloadPrintable(s: string)
    requires IsByteText(s)
    ensures forall i :: 0 <= i < |TextPayload(s)| ==> IsPrintable(TextPayload(s)[i])
  {
    forall c, i | c in s && 0 <= i < |LuaSpelling(c)|
      ensures IsPrintable(LuaSpelling(c)[i])
    {
      assert IsByte(c);
    }
    MapTextPrintable(LuaSpelling, s);
  }

  method AppendTextPayload(b: TextBuilder, text: string)
    requires b.Valid() && IsByteText(text)
    modifies b, b.text
    ensures b.Valid() && (b.text == old(b.text) || fresh(b.text))
    ensures b.Contents() == old(b.Contents()) + TextPayload(text)
  {
    hide MapText, TextBuilder.Valid, TextBuilder.Contents;
    MapTextNothing(LuaSpelling);
    for index := 0 to |text|
      invariant b.Valid() && (b.text == old(b.text) || fresh(b.text))
      invariant b.Contents() == old(b.Contents()) + MapText(LuaSpelling, text[..index])
    {
      MapTextNext(LuaSpelling, text, index);
      AppendTextByte(b, text[index]);
    }
    assert text[..|text|] == text;
  }

  method AppendTextByte(b: TextBuilder, c: char)
    requires b.Valid() && IsByte(c)
    modifies b, b.text
    ensures b.Valid() && (b.text == old(b.text) || fresh(b.text))
    ensures b.Contents() == old(b.Contents()) + LuaSpelling(c)
  {
    hide TextBuilder.Valid, TextBuilder.Contents;
    match c {
      case '\\' =>
        b.Append("\\\\");
      case '"' =>
        b.Append("\\\"");
      case '\n' =>
        b.Append("\\n");
      case '\r' =>
        b.Append("\\r");
      case '\t' =>
        b.Append("\\t");
      case _ =>
        if IsPrintable(c) {
          b.AppendChar(c);
        } else {
          b.Append("\\x");
          b.AppendChar(Digit(c as nat / 16));
          b.AppendChar(Digit(c as nat % 16));
        }
    }
  }

  method AppendLuaString(b: TextBuilder, text: string)
    requires b.Valid() && IsByteText(text)
    modifies b, b.text
    ensures b.Valid() && (b.text == old(b.text) || fresh(b.text))
    ensures b.Contents() == old(b.Contents()) + LuaString(text)
  {
    hide MapText, TextBuilder.Valid, TextBuilder.Contents;
    b.AppendChar('"');
    AppendTextPayload(b, text);
    b.AppendChar('"');
  }

  /** The characters from blank to tilde. */
  lemma PrintableRange(c: char)
    ensures IsPrintable(c) <==> ' ' <= c <= '~'
  {
  }

  ghost predicate IsOrdinaryText(s: string) {
    forall c :: c in s ==> ' ' <= c <= '~' && c != '"' && c != '\\'
  }

  /** Ordinary text reaches C and Lua as it is. */
  lemma {:induction false} OrdinaryText(s: string)
    requires IsOrdinaryText(s)
    ensures MapText(CSpelling, s) == s && MapText(LuaSpelling, s) == s
    ensures CLiteral(s) == "\"" + s + "\"" == LuaString(s)
  {
    if s != "" {
      assert s[0] in s;
      assert forall c :: c in s[1..] ==> c in s;
      OrdinaryText(s[1..]);
      assert s == [s[0]] + s[1..];
    }
  }
}
