/** Why the scanner accepts the lines that the TOML printers emit. */
module TomlLines {
  import opened Model
  import opened Builder
  import opened Concat
  import opened Numerals
  import opened Escapes
  import opened Scalars
  import opened TomlSpec
  import opened TomlLaws

  // Quoted strings.

  lemma LettersAllowed(c: char)
    requires c in "\"\\nrt"
    ensures IsAllowedEscape(c)
  {
  }

  lemma {:induction false} EqualsPastBody(s: string, rest: string)
    ensures FindEquals(MapText(EscapeChar, s) + ("\"" + rest), Some('"'))
         == Plus(|MapText(EscapeChar, s)| + 1, FindEquals(rest, None))
  {
    hide MapText, EscapeChar, IsAllowedEscape;
    MapTextNothing(EscapeChar);
    if s == "" {
      assert MapText(EscapeChar, s) + ("\"" + rest) == "\"" + rest;
      assert ("\"" + rest)[1..] == rest;
    } else {
      MapTextCons(EscapeChar, s);
      EscapedFront(s, "\"" + rest);
      EqualsPastBody(s[1..], rest);
    }
  }

  lemma {:induction false} KeyBody(s: string, index: nat)
    ensures KeyFault(MapText(EscapeChar, s) + "\"", index, Some('"')) == None
    decreases |s|
  {
    hide MapText, EscapeChar, IsAllowedEscape;
    MapTextNothing(EscapeChar);
    if s == "" {
      assert MapText(EscapeChar, s) + "\"" == "\"";
    } else {
      EscapedFront(s, "\"");
      var t := MapText(EscapeChar, s) + "\"";
      if t[0] == '\\' {
        LettersAllowed(t[1]);
      }
      KeyBody(s[1..], index + |EscapeChar(s[0])|);
    }
  }

  lemma {:induction false} ValueBody(s: string, index: nat, saw: bool, state: ValueState, n: nat)
    ensures Fragment(MapText(EscapeChar, s) + "\"", index, Some('"'), saw, state, n) == Scanned(state, true)
    decreases |s|
  {
    hide MapText, EscapeChar, IsAllowedEscape, Bracket;
    MapTextNothing(EscapeChar);
    if s == "" {
      assert MapText(EscapeChar, s) + "\"" == "\"";
    } else {
      EscapedFront(s, "\"");
      var t := MapText(EscapeChar, s) + "\"";
      if t[0] == '\\' {
        LettersAllowed(t[1]);
      }
      ValueBody(s[1..], index + |EscapeChar(s[0])|, true, state, n);
    }
  }

  predicate IsInLine(s: string) {
    '\n' !in s && '\r' !in s
  }

  lemma {:induction false} EscapedInLine(s: string)
    ensures IsInLine(MapText(EscapeChar, s))
  {
    hide EscapeChar;
    if s != "" {
      EscapeShape(s[0]);
      EscapedInLine(s[1..]);
    }
  }

  // Keys and values in general.

  ghost predicate IsGoodKey(k: string) {
    && k != "" && !IsSpace(k[0]) && !IsSpace(k[|k| - 1]) && k[0] != '#' && k[0] != '['
    && IsInLine(k)
    && (forall rest :: FindEquals(k + rest, None) == Plus(|k|, FindEquals(rest, None)))
    && (forall index: nat :: KeyFault(k, index, None) == None)
  }

  ghost predicate IsGoodValue(v: string) {
    && IsInLine(v)
    && forall index: nat, saw, state, n :: Fragment(v, index, None, saw, state, n) == Scanned(state, true)
  }

  lemma QuotedShape(s: string)
    ensures var q := Quoted(s); |q| >= 2 && q[0] == '"' && q[|q| - 1] == '"' && q[1..] == MapText(EscapeChar, s) + "\""
    ensures IsInLine(Quoted(s))
    ensures |Quoted(s)| == |MapText(EscapeChar, s)| + 2
  {
    EscapedInLine(s);
  }

  lemma QuotedIsGoodKey(s: string)
    ensures IsGoodKey(Quoted(s))
  {
    hide Quoted, MapText, IsInLine;
    var q := Quoted(s);
    QuotedShape(s);
    forall rest
      ensures FindEquals(q + rest, None) == Plus(|q|, FindEquals(rest, None))
    {
      EqualsPastBody(s, rest);
      assert (q + rest)[0] == '"';
      assert (q + rest)[1..] == q[1..] + rest == MapText(EscapeChar, s) + ("\"" + rest);
    }
    forall index: nat
      ensures KeyFault(q, index, None) == None
    {
      KeyBody(s, index + 1);
    }
  }

  lemma QuotedIsGoodValue(s: string)
    ensures IsGoodValue(Quoted(s))
  {
    hide Quoted, MapText, IsInLine, Bracket;
    var q := Quoted(s);
    QuotedShape(s);
    forall index: nat, saw, state, n
      ensures Fragment(q, index, None, saw, state, n) == Scanned(state, true)
    {
      ValueBody(s, index + 1, true, state, n);
    }
  }

  /** Characters without meaning to the scanner. */
  predicate IsPlain(c: char) {
    !IsSpace(c) && !IsQuote(c) && c !in "#=[]{}\n\r"
  }

  ghost predicate IsPlainText(t: string) {
    t != "" && forall i :: 0 <= i < |t| ==> IsPlain(t[i])
  }

  lemma {:induction false} PlainEquals(t: string, rest: string)
    requires forall i :: 0 <= i < |t| ==> IsPlain(t[i])
    ensures FindEquals(t + rest, None) == Plus(|t|, FindEquals(rest, None))
  {
    if t == "" {
      assert t + rest == rest;
    } else {
      var u := t + rest;
      assert u[0] == t[0] && u[1..] == t[1..] + rest;
      PlainEquals(t[1..], rest);
    }
  }

  lemma {:induction false} PlainKey(t: string, index: nat)
    requires forall i :: 0 <= i < |t| ==> IsPlain(t[i])
    ensures KeyFault(t, index, None) == None
    decreases |t|
  {
    if t != "" {
      PlainKey(t[1..], index + 1);
    }
  }

  lemma {:induction false} PlainFragment(t: string, index: nat, saw: bool, state: ValueState, n: nat)
    requires forall i :: 0 <= i < |t| ==> IsPlain(t[i])
    ensures Fragment(t, index, None, saw, state, n) == Scanned(state, saw || t != "")
    decreases |t|
  {
    if t != "" {
      PlainFragment(t[1..], index + 1, true, state, n);
    }
  }

  lemma PlainIsGood(t: string)
    requires IsPlainText(t)
    ensures IsGoodKey(t) && IsGoodValue(t)
  {
    forall rest
      ensures FindEquals(t + rest, None) == Plus(|t|, FindEquals(rest, None))
    {
      PlainEquals(t, rest);
    }
    forall index: nat
      ensures KeyFault(t, index, None) == None
    {
      PlainKey(t, index);
    }
    forall index: nat, saw, state, n
      ensures Fragment(t, index, None, saw, state, n) == Scanned(state, true)
    {
      PlainFragment(t, index, saw, state, n);
    }
  }

  lemma {:induction false} NumeralIsPlain(base: Base, n: nat, width: nat)
    ensures forall i :: 0 <= i < |Numeral(base, n, width)| ==> IsPlain(Numeral(base, n, width)[i])
    decreases n, width
  {
    if n == 0 && width == 0 {
    } else {
      NumeralIsPlain(base, n / base, if width > 0 then width - 1 else 0);
    }
  }

  lemma HexIsGoodValue(u: nat, forceWidth: bool)
    ensures IsGoodValue(HexText(u, forceWidth))
  {
    NumeralIsPlain(16, u, if forceWidth then 8 else 1);
    PlainIsGood(HexText(u, forceWidth));
  }

  lemma ScalarIsGoodValue(x: Scalar)
    ensures IsGoodValue(ScalarText(EscapeChar, "null", x))
  {
    match x {
      case Null =>
        PlainIsGood("null");
      case Flag(b) =>
        PlainIsGood(FlagText(b));
      case Number(i) =>
        NumeralIsPlain(10, if i < 0 then -i else i, 1);
        PlainIsGood(IntText(i));
      case Text(s) =>
        QuotedIsGoodValue(s);
    }
  }

  // Lines.

  datatype TomlLine = Header(text: string) | KeyLine(key: string, value: string) | Blank

  function LineText(l: TomlLine): string {
    match l
    case Header(text) => text
    case KeyLine(key, value) => key + " = " + value
    case Blank => ""
  }

  ghost predicate IsGoodHeader(text: string) {
    && IsInLine(text) && text != "" && text[0] == '[' && TrimLeft(text) == text && TableFault(text) == None
  }

  ghost predicate IsGoodLine(l: TomlLine) {
    match l
    case Header(text) => IsGoodHeader(text)
    case KeyLine(key, value) => IsGoodKey(key) && IsGoodValue(value)
    case Blank => true
  }

  function Tables(l: TomlLine): nat {
    if l.Header? then 1 else 0
  }

  function Keys(l: TomlLine): nat {
    if l.KeyLine? then 1 else 0
  }

  lemma KeyTrims(key: string)
    requires key != "" && !IsSpace(key[0]) && !IsSpace(key[|key| - 1])
    ensures TrimLeft(key + " ") == key + " " && TrimRight(key + " ") == key
  {
    assert (key + " ")[0] == key[0];
    assert (key + " ")[..|key|] == key;
  }

  lemma KeyLineAccepted(key: string, value: string, state: ValueState, n: nat)
    requires IsGoodKey(key) && IsGoodValue(value) && !state.IsOpen()
    ensures Line(key + " = " + value, state, n) == LineOk(state, 0, 1)
  {
    hide FindEquals, KeyFault, Fragment, TrimRight;
    var t := key + " = " + value;
    var rest := " = " + value;
    assert t == key + rest && t[0] == key[0];
    assert TrimLeft(t) == t;
    EqualsAfterBlank(value);
    assert t[..|key| + 1] == key + " ";
    assert t[|key| + 2..] == " " + value;
    KeyTrims(key);
    BlankFragment(value, |key| + 2, state, n);
  }

  lemma EqualsAfterBlank(value: string)
    ensures FindEquals(" = " + value, None) == Some(1)
  {
    var t := " = " + value;
    assert t[0] == ' ' && t[1..][0] == '=';
  }

  lemma BlankFragment(value: string, index: nat, state: ValueState, n: nat)
    ensures Fragment(" " + value, index, None, false, state, n) == Fragment(value, index + 1, None, false, state, n)
  {
    var t := " " + value;
    assert t[0] == ' ' && t[1..] == value;
  }

  lemma GoodLineAccepted(l: TomlLine, state: ValueState, n: nat)
    requires IsGoodLine(l) && !state.IsOpen()
    ensures Line(LineText(l), state, n) == LineOk(state, Tables(l), Keys(l))
  {
    match l {
      case Header(text) =>
      case KeyLine(key, value) =>
        KeyLineAccepted(key, value, state, n);
      case Blank =>
    }
  }

  lemma GoodLineInLine(l: TomlLine)
    requires IsGoodLine(l)
    ensures IsInLine(LineText(l))
  {
  }

  /** A printed text: every line ends with a line feed. */
  function Render(lines: seq<TomlLine>): string {
    if lines == [] then "" else LineText(lines[0]) + "\n" + Render(lines[1..])
  }

  lemma {:induction false} RenderAppend(a: seq<TomlLine>, b: seq<TomlLine>)
    ensures Render(a + b) == Render(a) + Render(b)
  {
    hide LineText;
    if a == [] {
      assert a + b == b;
    } else {
      var c := a + b;
      assert c[0] == a[0] && c[1..] == a[1..] + b;
      RenderAppend(a[1..], b);
      Regroup(LineText(a[0]) + "\n", Render(a[1..]), Render(b));
    }
  }

  lemma RenderOne(l: TomlLine)
    ensures Render([l]) == LineText(l) + "\n"
  {
    assert [l][1..] == [];
  }

  function Texts(lines: seq<TomlLine>): (texts: seq<string>)
    ensures |texts| == |lines|
  {
    seq(|lines|, i requires 0 <= i < |lines| => LineText(lines[i]))
  }

  lemma {:induction false} SplitRendered(lines: seq<TomlLine>)
    requires forall i :: 0 <= i < |lines| ==> IsGoodLine(lines[i])
    ensures SplitLines(Render(lines)) == Texts(lines)
  {
    hide SplitLines, LineText, IsGoodLine;
    if lines == [] {
      SplitNothing();
    } else {
      SplitRendered(lines[1..]);
      GoodLineInLine(lines[0]);
      SplitFirst(LineText(lines[0]), Render(lines[1..]));
      NoReturn(LineText(lines[0]), LineText(lines[0]));
      assert Texts(lines) == [LineText(lines[0])] + Texts(lines[1..]);
    }
  }

  function CountTables(lines: seq<TomlLine>): nat {
    if lines == [] then 0 else Tables(lines[0]) + CountTables(lines[1..])
  }

  function CountKeys(lines: seq<TomlLine>): nat {
    if lines == [] then 0 else Keys(lines[0]) + CountKeys(lines[1..])
  }

  lemma {:induction false} ScanGoodLines(lines: seq<TomlLine>, n: nat, state: ValueState, counts: Counts)
    requires !state.IsOpen() && forall i :: 0 <= i < |lines| ==> IsGoodLine(lines[i])
    ensures ScanLines(Texts(lines), n, state, counts)
         == Accepted(Counts(counts.lines + |lines|, counts.tables + CountTables(lines), counts.keys + CountKeys(lines)))
    decreases |lines|
  {
    hide Line, LineText, IsGoodLine;
    if lines == [] {
    } else {
      GoodLineAccepted(lines[0], state, n);
      assert Texts(lines)[0] == LineText(lines[0]) && Texts(lines)[1..] == Texts(lines[1..]);
      var next := Counts(counts.lines + 1, counts.tables + Tables(lines[0]), counts.keys + Keys(lines[0]));
      ScanGoodLines(lines[1..], n + 1, state, next);
    }
  }

  /** A text of good lines is accepted, and its counts can be read off the lines. */
  lemma RenderedIsAccepted(lines: seq<TomlLine>)
    requires forall i :: 0 <= i < |lines| ==> IsGoodLine(lines[i])
    ensures Scan(Render(lines)) == Accepted(Counts(|lines|, CountTables(lines), CountKeys(lines)))
  {
    hide SplitLines, ScanLines, Render, CountTables, CountKeys, IsGoodLine;
    SplitRendered(lines);
    ScanGoodLines(lines, 1, CLOSED, Counts(0, 0, 0));
  }

  lemma {:induction false} CountsAppend(a: seq<TomlLine>, b: seq<TomlLine>)
    ensures CountTables(a + b) == CountTables(a) + CountTables(b)
    ensures CountKeys(a + b) == CountKeys(a) + CountKeys(b)
  {
    if a == [] {
      assert a + b == b;
    } else {
      var c := a + b;
      assert c[0] == a[0] && c[1..] == a[1..] + b;
      CountsAppend(a[1..], b);
    }
  }

  lemma {:induction false} KeyLinesOnly(lines: seq<TomlLine>)
    requires forall i :: 0 <= i < |lines| ==> lines[i].KeyLine?
    ensures CountTables(lines) == 0 && CountKeys(lines) == |lines|
  {
    if lines != [] {
      KeyLinesOnly(lines[1..]);
    }
  }

  /** A table header whose name is plain. */
  lemma PlainHeader(name: string)
    requires IsPlainText(name)
    ensures IsGoodHeader("[" + name + "]")
  {
    hide IsPlain;
    var line := "[" + name + "]";
    PlainParts(name);
    assert line[0] == '[' && line[1] == name[0];
    assert line[1..] == name + "]";
    PlainClosing(name, "]", 1);
    assert line[|name| + 2..] == "";
    assert line[1..|name| + 1] == name;
    PlainKey(name, 1);
  }

  lemma PlainParts(name: string)
    requires IsPlainText(name)
    ensures TrimLeft(name) == name && TrimRight(name) == name && name[0] != '['
    ensures IsInLine("[" + name + "]")
    ensures TrimLeft("[" + name + "]") == "[" + name + "]"
  {
  }

  lemma {:induction false} PlainClosing(t: string, rest: string, index: nat)
    requires forall i :: 0 <= i < |t| ==> IsPlain(t[i])
    requires rest == "]"
    ensures TableClosing(t + rest, index, None, false) == ClosedAt(index + |t|)
    decreases |t|
  {
    if t == "" {
      assert t + rest == rest;
    } else {
      var u := t + rest;
      assert u[0] == t[0] && u[1..] == t[1..] + rest;
      PlainClosing(t[1..], rest, index + 1);
    }
  }
}
