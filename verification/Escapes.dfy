/** Quoting a string character by character, and reading quoted strings back. */
module Escapes {
  import opened Model
  import opened Builder
  import opened Concat

  /** Every character replaced by its spelling. */
  function MapText(f: char -> string, s: string): string {
    if s == "" then "" else f(s[0]) + MapText(f, s[1..])
  }

  lemma {:induction false} MapTextAppend(f: char -> string, s: string, t: string)
    ensures MapText(f, s + t) == MapText(f, s) + MapText(f, t)
  {
    hide MapText;
    if s == "" {
      assert s + t == t;
      MapTextNothing(f);
    } else {
      MapTextAppend(f, s[1..], t);
      var u := s + t;
      assert u[0] == s[0] && u[1..] == s[1..] + t;
      MapTextCons(f, u);
      MapTextCons(f, s);
      Regroup(f(s[0]), MapText(f, s[1..]), MapText(f, t));
    }
  }

  lemma MapTextCons(f: char -> string, s: string)
    requires s != ""
    ensures MapText(f, s) == f(s[0]) + MapText(f, s[1..])
  {
  }

  lemma MapTextNext(f: char -> string, s: string, i: nat)
    requires i < |s|
    ensures MapText(f, s[..i + 1]) == MapText(f, s[..i]) + f(s[i])
  {
    MapTextAppend(f, s[..i], [s[i]]);
    assert s[..i + 1] == s[..i] + [s[i]];
    assert MapText(f, [s[i]]) == f(s[i]) + MapText(f, [s[i]][1..]);
  }

  function Quote(f: char -> string, s: string): string {
    "\"" + MapText(f, s) + "\""
  }

  /**
   Reads a quoted body up to its closing quote. `step` reads the spelling of one character off
   the front of a text.
   */
  function ReadBody(step: string -> Option<(char, string)>, t: string): Option<(string, string)>
    decreases |t|
  {
    if t == "" then None
    else if t[0] == '"' then Some(("", t[1..]))
    else
      var (c, rest) :- step(t);
      if |rest| >= |t| then None
      else
        var (s, after) :- ReadBody(step, rest);
        Some(([c] + s, after))
  }

  function ReadQuoted(step: string -> Option<(char, string)>, t: string): Option<(string, string)> {
    if t != "" && t[0] == '"' then ReadBody(step, t[1..]) else None
  }

  /** The spelling of `c` is read back as `c`, whatever follows, and never starts with a quote. */
  ghost predicate Reads(f: char -> string, step: string -> Option<(char, string)>, c: char) {
    f(c) != "" && f(c)[0] != '"' && forall rest :: step(f(c) + rest) == Some((c, rest))
  }

  lemma {:induction false} ReadBodyBack(f: char -> string, step: string -> Option<(char, string)>, s: string, rest: string)
    requires forall c :: c in s ==> Reads(f, step, c)
    ensures ReadBody(step, MapText(f, s) + "\"" + rest) == Some((s, rest))
  {
    var t := MapText(f, s) + "\"" + rest;
    if s == "" {
      assert t == "\"" + rest;
    } else {
      assert Reads(f, step, s[0]);
      var tail := MapText(f, s[1..]) + "\"" + rest;
      assert t == f(s[0]) + tail;
      ReadBodyBack(f, step, s[1..], rest);
      assert s == [s[0]] + s[1..];
    }
  }

  /** Reading a quoted string back returns it, and what follows it. */
  lemma ReadQuotedBack(f: char -> string, step: string -> Option<(char, string)>, s: string, rest: string)
    requires forall c :: c in s ==> Reads(f, step, c)
    ensures ReadQuoted(step, Quote(f, s) + rest) == Some((s, rest))
  {
    ReadBodyBack(f, step, s, rest);
    assert (Quote(f, s) + rest)[1..] == MapText(f, s) + "\"" + rest;
  }

  // The escapes of resolved JSON, TOML and profile texts.

  function EscapeChar(c: char): string {
    match c
    case '"' => "\\\""
    case '\\' => "\\\\"
    case '\n' => "\\n"
    case '\r' => "\\r"
    case '\t' => "\\t"
    case _ => [c]
  }

  function Quoted(s: string): string {
    Quote(EscapeChar, s)
  }

  /** The character an escape stands for: three letters are special, all others mean themselves. */
  function Unescape(c: char): char {
    match c
    case 'n' => '\n'
    case 'r' => '\r'
    case 't' => '\t'
    case _ => c
  }

  predicate IsQuote(c: char) {
    c == '"' || c == '\''
  }

  /** A spelling is one ordinary character, or a backslash and a letter that stands for it. */
  lemma EscapeShape(x: char)
    ensures var c := EscapeChar(x);
            && 1 <= |c| <= 2
            && (|c| == 1 ==> c[0] == x && x !in "\"\\\n\r")
            && (|c| == 2 ==> c[0] == '\\' && Unescape(c[1]) == x && c[1] in "\"\\nrt")
  {
  }

  /** Five characters have a spelling of two, the letter being what readers expect; all others stand for themselves. */
  lemma Spellings(c: char)
    ensures EscapeChar('"') == "\\\"" && EscapeChar('\\') == "\\\\"
    ensures EscapeChar('\n') == "\\n" && EscapeChar('\r') == "\\r" && EscapeChar('\t') == "\\t"
    ensures c !in {'"', '\\', '\n', '\r', '\t'} ==> EscapeChar(c) == [c]
    ensures Unescape('n') == '\n' && Unescape('r') == '\r' && Unescape('t') == '\t'
    ensures c !in {'n', 'r', 't'} ==> Unescape(c) == c
  {
  }

  lemma {:induction false} BodyHasNoBreaks(s: string)
    ensures forall c :: c in MapText(EscapeChar, s) ==> c !in {'\n', '\r', '\t'}
  {
    if s != "" {
      BodyHasNoBreaks(s[1..]);
      Spellings(s[0]);
    }
  }

  /** No tab, line feed or carriage return occurs in a quoted string. */
  lemma QuotedHasNoBreaks(s: string)
    ensures forall c :: c in Quoted(s) ==> c !in {'\n', '\r', '\t'}
  {
    hide MapText, EscapeChar;
    BodyHasNoBreaks(s);
  }

  ghost predicate NeedsNoEscape(s: string) {
    forall c :: c in s ==> c !in {'"', '\\', '\n', '\r', '\t'}
  }

  lemma {:induction false} UnescapedBody(s: string)
    requires NeedsNoEscape(s)
    ensures MapText(EscapeChar, s) == s
  {
    if s != "" {
      assert s[0] in s;
      Spellings(s[0]);
      assert forall c :: c in s[1..] ==> c in s;
      UnescapedBody(s[1..]);
      assert s == [s[0]] + s[1..];
    }
  }

  /** Any other text is printed as it is, between quotes. */
  lemma UnescapedQuoted(s: string)
    requires NeedsNoEscape(s)
    ensures Quoted(s) == "\"" + s + "\""
  {
    UnescapedBody(s);
  }

  /** The front of an escaped text, as a decoder or a scanner sees it. */
  lemma EscapedFront(s: string, rest: string)
    requires s != ""
    ensures var t, c := MapText(EscapeChar, s) + rest, EscapeChar(s[0]);
            && 1 <= |c| <= 2 && |t| >= |c| && t[|c|..] == MapText(EscapeChar, s[1..]) + rest
            && (|c| == 1 ==> t[0] == s[0] && s[0] !in "\"\\\n\r")
            && (|c| == 2 ==> t[0] == '\\' && Unescape(t[1]) == s[0] && t[1] in "\"\\nrt")
  {
    hide MapText, EscapeChar, Unescape;
    MapTextCons(EscapeChar, s);
    EscapeShape(s[0]);
    Regroup(EscapeChar(s[0]), MapText(EscapeChar, s[1..]), rest);
    Front(EscapeChar(s[0]), MapText(EscapeChar, s[1..]) + rest);
  }

  function UnescapeStep(t: string): Option<(char, string)> {
    if t == "" then None
    else if t[0] != '\\' then Some((t[0], t[1..]))
    else if |t| < 2 then None
    else Some((Unescape(t[1]), t[2..]))
  }

  lemma EscapeReads(c: char)
    ensures Reads(EscapeChar, UnescapeStep, c)
  {
    forall rest
      ensures UnescapeStep(EscapeChar(c) + rest) == Some((c, rest))
    {
    }
  }

  lemma ReadQuotedText(s: string, rest: string)
    ensures ReadQuoted(UnescapeStep, Quoted(s) + rest) == Some((s, rest))
  {
    forall c
      ensures Reads(EscapeChar, UnescapeStep, c)
    {
      EscapeReads(c);
    }
    ReadQuotedBack(EscapeChar, UnescapeStep, s, rest);
  }

  method AppendEscapedChar(b: TextBuilder, c: char)
    requires b.Valid()
    modifies b, b.text
    ensures b.Valid() && (b.text == old(b.text) || fresh(b.text))
    ensures b.Contents() == old(b.Contents()) + EscapeChar(c)
  {
    hide TextBuilder.Valid, TextBuilder.Contents;
    match c {
      case '"' | '\\' =>
        b.Append("\\");
        b.AppendChar(c);
      case '\n' =>
        b.Append("\\n");
      case '\r' =>
        b.Append("\\r");
      case '\t' =>
        b.Append("\\t");
      case _ =>
        b.AppendChar(c);
    }
  }

  method AppendEscaped(b: TextBuilder, text: string)
    requires b.Valid()
    modifies b, b.text
    ensures b.Valid() && (b.text == old(b.text) || fresh(b.text))
    ensures b.Contents() == old(b.Contents()) + Quoted(text)
  {
    hide MapText, EscapeChar, TextBuilder.Valid, TextBuilder.Contents;
    b.Append("\"");
    assert text[..0] == "" && MapText(EscapeChar, "") == "" by {
      MapTextNothing(EscapeChar);
    }
    for index := 0 to |text|
      invariant b.Valid() && (b.text == old(b.text) || fresh(b.text))
      invariant b.Contents() == old(b.Contents()) + "\"" + MapText(EscapeChar, text[..index])
    {
      MapTextNext(EscapeChar, text, index);
      AppendEscapedChar(b, text[index]);
    }
    assert text[..|text|] == text;
    b.Append("\"");
  }

  lemma MapTextNothing(f: char -> string)
    ensures MapText(f, "") == ""
  {
  }
}
