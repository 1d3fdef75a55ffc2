/**
 The two decoders of quoted strings: command-line overrides and compatibility files. Both write
 into a buffer of a size fixed beforehand, for any input.
 */
module Decoders {
  import opened Model
  import opened Concat
  import opened Escapes

  // Overrides on the command line.

  /**
   What stands before the closing quote, which is the last character of `t`. Only double quotes
   know escapes, and the last character before the closing quote is never taken for one.
   */
  function SliceBody(quote: char, t: string): string {
    if |t| <= 1 then ""
    else if quote == '"' && t[0] == '\\' && |t| > 2 then [Unescape(t[1])] + SliceBody(quote, t[2..])
    else [t[0]] + SliceBody(quote, t[1..])
  }

  /** A slice in matching quotes is decoded, any other slice is copied. */
  function SliceText(t: string): string {
    if |t| > 1 && IsQuote(t[0]) && t[|t| - 1] == t[0] then SliceBody(t[0], t[1..]) else t
  }

  method UnescapeChar(c: char) returns (r: char)
    ensures r == Unescape(c)
  {
    match c {
      case 'n' => return '\n';
      case 'r' => return '\r';
      case 't' => return '\t';
      case _ => return c;
    }
  }

  method ParseStringSlice(text: string, begin: nat, end: nat) returns (decoded: string)
    requires begin <= end <= |text|
    ensures decoded == SliceText(text[begin..end])
  {
    if end > begin + 1 && IsQuote(text[begin]) && text[end - 1] == text[begin] {
      assert text[begin..end][1..] == text[begin + 1..end];
      decoded := DecodeSlice(text, begin, end);
    } else {
      decoded := text[begin..end];
    }
  }

  /** The decoding loop: end - begin - 1 bytes are allocated, terminator included. */
  method DecodeSlice(text: string, begin: nat, end: nat) returns (decoded: string)
    requires begin + 1 < end <= |text|
    ensures decoded == SliceBody(text[begin], text[begin + 1..end])
  {
    var quote := text[begin];
    hide SliceBody;
    var copy := new char[end - begin - 1];
    var outIndex := 0;
    var index := begin + 1;
    ghost var rest := SliceBody(quote, text[index..end]);
    ghost var whole := rest;
    assert copy[..0] == "";
    while index + 1 < end
      invariant begin < index <= end && outIndex <= index - begin - 1 && outIndex < copy.Length
      invariant rest == SliceBody(quote, text[index..end]) && copy[..outIndex] + rest == whole
      decreases end - index
    {
      var c, next := ReadOne(quote, text, index, end);
      ghost var after := SliceBody(quote, text[next..end]);
      Regroup(copy[..outIndex], [c], after);
      Put(copy, outIndex, c);
      outIndex := outIndex + 1;
      index := next;
      rest := after;
    }
    SliceEnd(quote, text[index..end]);
    decoded := copy[..outIndex];
    copy[outIndex] := '\0';
  }

  /** One character or one escape. */
  method ReadOne(quote: char, text: string, index: nat, end: nat) returns (c: char, next: nat)
    requires index + 1 < end <= |text|
    ensures index < next <= end
    ensures SliceBody(quote, text[index..end]) == [c] + SliceBody(quote, text[next..end])
  {
    hide SliceBody, Unescape;
    SliceStep(quote, text, index, end);
    next := index;
    c := text[index];
    if quote == '"' && c == '\\' && index + 2 < end {
      next := next + 1;
      c := UnescapeChar(text[next]);
    }
    next := next + 1;
  }

  method Put(copy: array<char>, index: nat, c: char)
    requires index < copy.Length
    modifies copy
    ensures copy[..index + 1] == old(copy[..index]) + [c]
  {
    copy[index] := c;
  }

  lemma SliceEnd(quote: char, t: string)
    ensures |t| <= 1 ==> SliceBody(quote, t) == ""
  {
  }

  lemma SliceStep(quote: char, text: string, i: nat, end: nat)
    requires i + 1 < end <= |text|
    ensures SliceBody(quote, text[i..end])
         == if quote == '"' && text[i] == '\\' && i + 2 < end
            then [Unescape(text[i + 1])] + SliceBody(quote, text[i + 2..end])
            else [text[i]] + SliceBody(quote, text[i + 1..end])
  {
    var t := text[i..end];
    assert t[1..] == text[i + 1..end];
    assert |t| > 2 ==> t[2..] == text[i + 2..end];
  }

  lemma {:induction false} SliceBodyBack(s: string)
    ensures SliceBody('"', MapText(EscapeChar, s) + "\"") == s
  {
    hide MapText, EscapeChar, Unescape;
    if s == "" {
      MapTextNothing(EscapeChar);
    } else {
      SliceBodyBack(s[1..]);
      EscapedFront(s, "\"");
      assert s == [s[0]] + s[1..];
    }
  }

  lemma {:induction false} CompatBodyBack(s: string)
    ensures CompatBody(MapText(EscapeChar, s) + "\"") == s
  {
    hide MapText, EscapeChar, Unescape;
    if s == "" {
      MapTextNothing(EscapeChar);
    } else {
      CompatBodyBack(s[1..]);
      EscapedFront(s, "\"");
      assert s == [s[0]] + s[1..];
    }
  }

  lemma QuotedEnds(s: string)
    ensures |Quoted(s)| > 1 && Quoted(s)[0] == '"' && Quoted(s)[|Quoted(s)| - 1] == '"'
    ensures Quoted(s)[1..] == MapText(EscapeChar, s) + "\""
  {
  }

  /** Quote, then parse as an override: the identity. */
  lemma SliceRoundTrip(s: string)
    ensures SliceText(Quoted(s)) == s
  {
    QuotedEnds(s);
    SliceBodyBack(s);
  }

  // Compatibility files.

  // Slices in general.

  /** A slice that does not begin and end with the same kind of quote is returned unchanged. */
  lemma BareSlice(t: string)
    requires |t| < 2 || t[0] != t[|t| - 1] || (t[0] != '"' && t[0] != '\'')
    ensures SliceText(t) == t
  {
  }

  lemma {:induction false} UndecodedBody(quote: char, s: string)
    requires quote == '"' ==> '\\' !in s
    ensures SliceBody(quote, s + [quote]) == s
  {
    var t := s + [quote];
    if s != "" {
      assert t[0] == s[0] && s[0] in s && t[1..] == s[1..] + [quote];
      UndecodedBody(quote, s[1..]);
      assert s == [s[0]] + s[1..];
    }
  }

  /** Single quotes are stripped and nothing between them is decoded, backslashes included. */
  lemma SingleQuotedSlice(s: string)
    ensures SliceText("'" + s + "'") == s
  {
    var t := "'" + s + "'";
    assert t[1..] == s + ['\''];
    UndecodedBody('\'', s);
  }

  /** Double quotes without a backslash between them are stripped as well. */
  lemma DoubleQuotedSlice(s: string)
    requires '\\' !in s
    ensures SliceText("\"" + s + "\"") == s
  {
    var t := "\"" + s + "\"";
    assert t[1..] == s + ['"'];
    UndecodedBody('"', s);
  }

  /** A backslash right before the closing quote stands for itself. */
  lemma TrailingBackslash(s: string)
    requires '\\' !in s
    ensures SliceText("\"" + (s + "\\") + "\"") == s + "\\"
  {
    var t := "\"" + (s + "\\") + "\"";
    assert t[1..] == s + ("\\" + "\"");
    BodyThen(s, "\\" + "\"");
    assert ("\\" + "\"")[1..] == "\"";
  }

  lemma {:induction false} BodyThen(s: string, rest: string)
    requires '\\' !in s && rest != ""
    ensures SliceBody('"', s + rest) == s + SliceBody('"', rest)
  {
    var t := s + rest;
    if s == "" {
      assert t == rest;
    } else {
      assert t[0] == s[0] && s[0] in s && t[1..] == s[1..] + rest;
      BodyThen(s[1..], rest);
      assert s == [s[0]] + s[1..];
      Regroup([s[0]], s[1..], SliceBody('"', rest));
    }
  }

  predicate IsBlank(c: char) {
    c == ' ' || c == '\t' || c == '\r'
  }

  function TrimmedLeft(t: string): string {
    if t != "" && IsBlank(t[0]) then TrimmedLeft(t[1..]) else t
  }

  function TrimmedRight(t: string): string {
    if t != "" && IsBlank(t[|t| - 1]) then TrimmedRight(t[..|t| - 1]) else t
  }

  function Trimmed(t: string): string {
    TrimmedRight(TrimmedLeft(t))
  }

  /** Escapes are decoded inside either kind of quotes; an escape may even take the closing quote. */
  function CompatBody(t: string): string {
    if |t| <= 1 then ""
    else if t[0] == '\\' then [Unescape(t[1])] + CompatBody(t[2..])
    else [t[0]] + CompatBody(t[1..])
  }

  function CompatText(t: string): Option<string> {
    if |t| <= 1 || !IsQuote(t[0]) || t[|t| - 1] != t[0] then None else Some(CompatBody(t[1..]))
  }

  method TrimLeft(text: string, begin: nat, end: nat) returns (b: nat)
    requires begin <= end <= |text|
    ensures begin <= b <= end && text[b..end] == TrimmedLeft(text[begin..end])
  {
    b := begin;
    while b < end && IsBlank(text[b])
      invariant begin <= b <= end && TrimmedLeft(text[b..end]) == TrimmedLeft(text[begin..end])
    {
      assert text[b..end][1..] == text[b + 1..end];
      b := b + 1;
    }
  }

  method TrimRight(text: string, begin: nat, end: nat) returns (e: nat)
    requires begin <= end <= |text|
    ensures begin <= e <= end && text[begin..e] == TrimmedRight(text[begin..end])
  {
    e := end;
    while e > begin && IsBlank(text[e - 1])
      invariant begin <= e <= end && TrimmedRight(text[begin..e]) == TrimmedRight(text[begin..end])
    {
      assert text[begin..e][..e - begin - 1] == text[begin..e - 1];
      e := e - 1;
    }
  }

  method ParseQuotedString(text: string, begin: nat, end: nat) returns (decoded: Option<string>)
    requires begin <= end <= |text|
    ensures decoded == CompatText(Trimmed(text[begin..end]))
  {
    var b := TrimLeft(text, begin, end);
    var e := TrimRight(text, b, end);
    if b + 1 >= e || !IsQuote(text[b]) {
      return None;
    }
    if text[e - 1] != text[b] {
      return None;
    }
    var body := DecodeCompat(text, b, e);
    assert text[b..e][1..] == text[b + 1..e];
    return Some(body);
  }

  /** The decoding loop: e - b bytes are allocated, terminator included. */
  method DecodeCompat(text: string, b: nat, e: nat) returns (decoded: string)
    requires b + 1 < e <= |text|
    ensures decoded == CompatBody(text[b + 1..e])
  {
    hide CompatBody, Unescape;
    var out := new char[e - b];
    var writeIndex := 0;
    var index := b + 1;
    assert out[..0] == "";
    while index + 1 < e
      invariant b < index <= e && writeIndex <= index - b - 1
      invariant out[..writeIndex] + CompatBody(text[index..e]) == CompatBody(text[b + 1..e])
      decreases e - index
    {
      ghost var done := out[..writeIndex];
      CompatStep(text, index, e);
      var c := text[index];
      if c == '\\' && index + 1 < e {
        index := index + 1;
        c := UnescapeChar(text[index]);
      }
      index := index + 1;
      Regroup(done, [c], CompatBody(text[index..e]));
      out[writeIndex] := c;
      writeIndex := writeIndex + 1;
      assert out[..writeIndex] == done + [c];
    }
    CompatEnd(text[index..e]);
    decoded := out[..writeIndex];
    out[writeIndex] := '\0';
  }

  lemma CompatEnd(t: string)
    ensures |t| <= 1 ==> CompatBody(t) == ""
  {
  }

  lemma CompatStep(text: string, i: nat, e: nat)
    requires i + 1 < e <= |text|
    ensures CompatBody(text[i..e])
         == if text[i] == '\\' then [Unescape(text[i + 1])] + CompatBody(text[i + 2..e])
            else [text[i]] + CompatBody(text[i + 1..e])
  {
    var t := text[i..e];
    assert t[1..] == text[i + 1..e] && t[2..] == text[i + 2..e];
  }

  lemma {:induction false} BlanksOnly(blanks: string, t: string)
    requires forall i :: 0 <= i < |blanks| ==> IsBlank(blanks[i])
    ensures TrimmedLeft(blanks + t) == TrimmedLeft(t)
    ensures TrimmedRight(t + blanks) == TrimmedRight(t)
    decreases |blanks|
  {
    if blanks == "" {
      assert blanks + t == t && t + blanks == t;
    } else {
      var n := |blanks| - 1;
      BlanksOnly(blanks[1..], t);
      assert (blanks + t)[1..] == blanks[1..] + t;
      BlanksOnly(blanks[..n], t);
      assert (t + blanks)[..|t + blanks| - 1] == t + blanks[..n];
    }
  }

  /** Quote, then parse as a compatibility value: the identity, with any blanks around. */
  lemma CompatRoundTrip(before: string, s: string, after: string)
    requires forall i :: 0 <= i < |before| ==> IsBlank(before[i])
    requires forall i :: 0 <= i < |after| ==> IsBlank(after[i])
    ensures CompatText(Trimmed(before + (Quoted(s) + after))) == Some(s)
  {
    hide Quoted;
    QuotedEnds(s);
    CompatBodyBack(s);
    BlanksOnly(before, Quoted(s) + after);
    assert (Quoted(s) + after)[0] == '"';
    assert TrimmedLeft(Quoted(s) + after) == Quoted(s) + after;
    BlanksOnly(after, Quoted(s));
  }

  /** Only text in matching quotes of either kind is a compatibility string. */
  lemma BareCompat(t: string)
    ensures CompatText(t) == None <==> |t| < 2 || t[0] != t[|t| - 1] || (t[0] != '"' && t[0] != '\'')
  {
  }

  /** Between quotes of either kind, text without backslashes stands for itself. */
  lemma PlainCompat(quote: char, s: string)
    requires (quote == '"' || quote == '\'') && '\\' !in s
    ensures CompatText([quote] + s + [quote]) == Some(s)
  {
    var t := [quote] + s + [quote];
    assert t[1..] == s + [quote];
    PlainCompatBody(quote, s);
  }

  lemma {:induction false} PlainCompatBody(quote: char, s: string)
    requires '\\' !in s
    ensures CompatBody(s + [quote]) == s
  {
    var t := s + [quote];
    if s != "" {
      assert t[0] == s[0] && s[0] in s && t[1..] == s[1..] + [quote];
      PlainCompatBody(quote, s[1..]);
      assert s == [s[0]] + s[1..];
    }
  }
}
