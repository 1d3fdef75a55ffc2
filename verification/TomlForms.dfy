/** Lines as people write them, and how the scanner takes them: comments, blanks, headers, keys, strings. */
module TomlForms {
  import opened Model
  import opened Concat
  import opened Escapes
  import opened TomlSpec
  import opened TomlLaws
  import opened TomlLines

  // Blanks and comments.

  ghost predicate AreBlanks(b: string) {
    forall i :: 0 <= i < |b| ==> b[i] == ' ' || b[i] == '\t'
  }

  /** Blanks, followed by nothing or by a hash sign and any text. */
  ghost predicate IsTail(t: string) {
    exists blanks, comment :: t == blanks + comment && AreBlanks(blanks) && (comment == "" || comment[0] == '#')
  }

  lemma {:induction false} BlanksTrim(b: string, t: string)
    requires AreBlanks(b)
    ensures TrimLeft(b + t) == TrimLeft(t)
  {
    if b == "" {
      assert b + t == t;
    } else {
      assert (b + t)[0] == b[0] && (b + t)[1..] == b[1..] + t;
      BlanksTrim(b[1..], t);
    }
  }

  lemma {:induction false} BlanksTrimRight(t: string, b: string)
    requires AreBlanks(b)
    ensures TrimRight(t + b) == TrimRight(t)
  {
    if b == "" {
      assert t + b == t;
    } else {
      var u, n := t + b, |t + b| - 1;
      assert u[n] == b[|b| - 1] && u[..n] == t + b[..|b| - 1];
      BlanksTrimRight(t, b[..|b| - 1]);
    }
  }

  lemma TailTrims(t: string)
    requires IsTail(t)
    ensures TrimLeft(t) == "" || TrimLeft(t)[0] == '#'
    ensures LineIsDone(t)
  {
    var blanks, comment :| t == blanks + comment && AreBlanks(blanks) && (comment == "" || comment[0] == '#');
    BlanksTrim(blanks, comment);
  }

  lemma TailOfTail(t: string)
    requires IsTail(t) && t != ""
    ensures t[0] == '#' || (IsSpace(t[0]) && IsTail(t[1..]))
  {
    var blanks, comment :| t == blanks + comment && AreBlanks(blanks) && (comment == "" || comment[0] == '#');
    if blanks != "" {
      assert t[1..] == blanks[1..] + comment;
    }
  }

  /** What a document of one line gives, with or without its line end. */
  lemma OneLine(line: string)
    requires '\n' !in line
    ensures Scan(line + "\n") == ScanLines([WithoutReturn(line)], 1, CLOSED, Counts(0, 0, 0))
    ensures line != "" ==> Scan(line) == Scan(line + "\n")
  {
    SplitFirst(line, "");
    SplitNothing();
    assert line + "\n" + "" == line + "\n";
  }

  lemma OneLineAccepted(line: string, tables: nat, keys: nat)
    requires '\n' !in line && Line(WithoutReturn(line), CLOSED, 1) == LineOk(CLOSED, tables, keys)
    ensures Scan(line + "\n") == Accepted(Counts(1, tables, keys))
    ensures line != "" ==> Scan(line) == Accepted(Counts(1, tables, keys))
  {
    hide Scan, Line;
    OneLine(line);
    var lines := [WithoutReturn(line)];
    assert lines[1..] == [];
  }

  lemma LineInLineAccepted(line: string, tables: nat, keys: nat)
    requires IsInLine(line) && Line(line, CLOSED, 1) == LineOk(CLOSED, tables, keys)
    ensures Scan(line + "\n") == Accepted(Counts(1, tables, keys))
    ensures line != "" ==> Scan(line) == Accepted(Counts(1, tables, keys))
  {
    hide Line, Scan;
    NoReturnAtEnd(line);
    OneLineAccepted(line, tables, keys);
  }

  lemma NoReturnAtEnd(line: string)
    requires '\r' !in line
    ensures WithoutReturn(line) == line
  {
  }

  /** A line of blanks and a comment counts as a line and nothing else. */
  lemma CommentLineAccepted(line: string)
    requires IsTail(line) && '\n' !in line
    ensures Scan(line + "\n") == Accepted(Counts(1, 0, 0))
    ensures line != "" ==> Scan(line) == Accepted(Counts(1, 0, 0))
  {
    TailWithoutReturn(line);
    TailTrims(WithoutReturn(line));
    OneLineAccepted(line, 0, 0);
  }

  lemma TailWithoutReturn(line: string)
    requires IsTail(line)
    ensures IsTail(WithoutReturn(line))
  {
    var blanks, comment :| line == blanks + comment && AreBlanks(blanks) && (comment == "" || comment[0] == '#');
    if line != "" && line[|line| - 1] == '\r' {
      assert comment != "" && comment[|comment| - 1] == '\r';
      assert WithoutReturn(line) == blanks + comment[..|comment| - 1];
    }
  }

  /** Such a line may stand anywhere between complete lines. */
  lemma CommentLineAnywhere(s: string, line: string, t: string)
    requires EndsLine(s) && Scan(s).Accepted? && IsTail(line) && '\n' !in line
    ensures Scan(s + (line + "\n" + t)) == Below(Scan(s).counts, Below(Counts(1, 0, 0), Scan(t)))
  {
    hide Scan, IsTail;
    CommentLineAccepted(line);
    ScanComposes(line + "\n", t);
    ScanComposes(s, line + "\n" + t);
  }

  // Table headers.

  lemma {:induction false} ClosingStays(t: string, index: nat, quote: Option<char>, arrayTable: bool, tail: string)
    requires TableClosing(t, index, quote, arrayTable).ClosedAt?
    ensures TableClosing(t + tail, index, quote, arrayTable) == TableClosing(t, index, quote, arrayTable)
    decreases |t|
  {
    var u := t + tail;
    assert u[0] == t[0] && u[1..] == t[1..] + tail;
    if |t| > 1 {
      assert u[1] == t[1] && u[2..] == t[2..] + tail;
    }
    if quote.Some? {
      if t[0] == quote.value {
        ClosingStays(t[1..], index + 1, None, arrayTable, tail);
      } else if quote.value == '"' && t[0] == '\\' {
        ClosingStays(t[2..], index + 2, quote, arrayTable, tail);
      } else {
        ClosingStays(t[1..], index + 1, quote, arrayTable, tail);
      }
    } else if IsQuote(t[0]) {
      ClosingStays(t[1..], index + 1, Some(t[0]), arrayTable, tail);
    } else if !(t[0] == ']' && (!arrayTable || (|t| > 1 && t[1] == ']'))) {
      ClosingStays(t[1..], index + 1, None, arrayTable, tail);
    }
  }

  lemma {:induction false} DoneStays(t: string, tail: string)
    requires LineIsDone(t) && IsTail(tail)
    ensures LineIsDone(t + tail)
  {
    hide IsTail;
    TailTrims(tail);
    if t == "" {
      assert t + tail == tail;
    } else {
      var u := t + tail;
      assert u[0] == t[0] && u[1..] == t[1..] + tail;
      if IsSpace(t[0]) {
        DoneStays(t[1..], tail);
      }
    }
  }

  /** Blanks and a comment behind a good header change nothing. */
  lemma HeaderWithTail(text: string, tail: string)
    requires IsGoodHeader(text) && IsTail(tail)
    ensures TableFault(text + tail) == None && TrimLeft(text + tail) == text + tail && (text + tail)[0] == '['
  {
    hide TableClosing, KeyCheck, IsTail, LineIsDone;
    var line := text + tail;
    var arrayTable := |text| > 1 && text[1] == '[';
    var width := if arrayTable then 2 else 1;
    var closing := TableClosing(text[width..], width, None, arrayTable);
    HeaderIsLong(text);
    assert line[0] == text[0] && line[1] == text[1];
    assert line[width..] == text[width..] + tail;
    ClosingStays(text[width..], width, None, arrayTable, tail);
    var index := closing.index;
    assert line[index + width..] == text[index + width..] + tail;
    DoneStays(text[index + width..], tail);
    assert line[width..index] == text[width..index];
  }

  lemma HeaderIsLong(text: string)
    requires IsGoodHeader(text)
    ensures |text| > 1
  {
  }

  lemma HeaderLineAccepted(text: string, tail: string)
    requires IsGoodHeader(text) && IsTail(tail) && IsInLine(tail)
    ensures Scan(text + tail) == Scan(text + tail + "\n") == Accepted(Counts(1, 1, 0))
  {
    HeaderWithTail(text, tail);
    hide TableFault, TrimLeft, IsTail, Scan;
    NoReturnAtEnd(text + tail);
    OneLineAccepted(text + tail, 1, 0);
  }

  /** A doubled header is as good as a single one. */
  lemma PlainArrayHeader(name: string)
    requires IsPlainText(name)
    ensures IsGoodHeader("[[" + name + "]]")
  {
    hide IsPlain;
    var line := "[[" + name + "]]";
    PlainParts(name);
    assert line[0] == '[' && line[1] == '[';
    assert line[2..] == name + "]]";
    PlainArrayClosing(name, 2);
    assert line[|name| + 4..] == "";
    assert line[2..|name| + 2] == name;
    PlainKey(name, 2);
    InLineParts(name);
  }

  lemma InLineParts(name: string)
    requires IsPlainText(name)
    ensures IsInLine("[[" + name + "]]")
  {
    hide IsQuote;
  }

  lemma {:induction false} PlainArrayClosing(t: string, index: nat)
    requires forall i :: 0 <= i < |t| ==> IsPlain(t[i])
    ensures TableClosing(t + "]]", index, None, true) == ClosedAt(index + |t|)
    decreases |t|
  {
    if t == "" {
      assert t + "]]" == "]]";
    } else {
      var u := t + "]]";
      assert u[0] == t[0] && u[1..] == t[1..] + "]]";
      PlainArrayClosing(t[1..], index + 1);
    }
  }

  // Key lines.

  lemma {:induction false} TailFragment(t: string, index: nat, saw: bool, state: ValueState, n: nat)
    requires IsTail(t)
    ensures Fragment(t, index, None, saw, state, n) == Scanned(state, saw)
    decreases |t|
  {
    hide IsTail;
    if t != "" {
      TailOfTail(t);
      if t[0] != '#' {
        TailFragment(t[1..], index + 1, saw, state, n);
      }
    }
  }

  /** Blanks and a comment behind a value change nothing. */
  lemma {:induction false} FragmentWithTail(t: string, index: nat, quote: Option<char>, saw: bool, state: ValueState, n: nat,
                                            tail: string)
    requires Fragment(t, index, quote, saw, state, n).Scanned? && IsTail(tail)
    ensures Fragment(t + tail, index, quote, saw, state, n) == Fragment(t, index, quote, saw, state, n)
    decreases |t|
  {
    hide IsTail, Bracket;
    var u := t + tail;
    if t == "" {
      assert u == tail;
      TailFragment(tail, index, saw, state, n);
    } else {
      assert u[0] == t[0] && u[1..] == t[1..] + tail;
      if |t| > 1 {
        assert u[1] == t[1] && u[2..] == t[2..] + tail;
      }
      if quote.Some? {
        if t[0] == quote.value {
          FragmentWithTail(t[1..], index + 1, None, true, state, n, tail);
        } else if quote.value == '"' && t[0] == '\\' {
          FragmentWithTail(t[2..], index + 2, quote, true, state, n, tail);
        } else {
          FragmentWithTail(t[1..], index + 1, quote, true, state, n, tail);
        }
      } else if IsSpace(t[0]) {
        FragmentWithTail(t[1..], index + 1, None, saw, state, n, tail);
      } else if IsQuote(t[0]) {
        FragmentWithTail(t[1..], index + 1, Some(t[0]), true, state, n, tail);
      } else if t[0] != '#' {
        FragmentWithTail(t[1..], index + 1, None, true, Bracket(t[0], index, state, n).state, n, tail);
      }
    }
  }

  lemma {:induction false} BlanksFragment(b: string, t: string, index: nat, state: ValueState, n: nat)
    requires AreBlanks(b)
    ensures Fragment(b + t, index, None, false, state, n) == Fragment(t, index + |b|, None, false, state, n)
    decreases |b|
  {
    if b == "" {
      assert b + t == t;
    } else {
      assert (b + t)[0] == b[0] && (b + t)[1..] == b[1..] + t;
      BlanksFragment(b[1..], t, index + 1, state, n);
    }
  }

  lemma {:induction false} BlanksEquals(b: string, t: string)
    requires AreBlanks(b)
    ensures FindEquals(b + ("=" + t), None) == Some(|b|)
  {
    var u := b + ("=" + t);
    if b == "" {
      assert u == "=" + t && u[0] == '=';
    } else {
      assert u[0] == b[0] && u[1..] == b[1..] + ("=" + t);
      BlanksEquals(b[1..], t);
    }
  }

  /** A key, an equals sign and what follows, with any blanks in front of each. */
  function KeyLineText(b0: string, key: string, b1: string, b2: string, rest: string): string {
    b0 + (key + (b1 + ("=" + (b2 + rest))))
  }

  /** How a key line is split: the value text starts behind the equals sign. */
  lemma KeyLineParts(b0: string, key: string, b1: string, b2: string, rest: string, state: ValueState, n: nat)
    requires AreBlanks(b0) && AreBlanks(b1) && AreBlanks(b2) && IsGoodKey(key) && !state.IsOpen()
    ensures Line(KeyLineText(b0, key, b1, b2, rest), state, n)
         == match Fragment(rest, |b0| + |key| + |b1| + 1 + |b2|, None, false, state, n)
            case Malformed(fault) => LineFault(fault)
            case Scanned(next, saw) =>
              if saw then LineOk(next, 0, 1) else LineFault(Fault(|b0| + |key| + |b1| + 2, "missing value"))
  {
    hide FindEquals, KeyCheck, Fragment, IsGoodKey, AreBlanks;
    var value := b2 + rest;
    var t := key + (b1 + ("=" + value));
    BlanksTrim(b0, t);
    KeyText(key, b1, value);
    KeyIsAccepted(key, b1, |b0|);
    BlanksFragment(b2, rest, |b0| + |key| + |b1| + 1, state, n);
  }

  lemma KeyText(key: string, b1: string, value: string)
    requires IsGoodKey(key) && AreBlanks(b1)
    ensures var t, e := key + (b1 + ("=" + value)), |key| + |b1|;
            && FindEquals(t, None) == Some(e) && t[..e] == key + b1 && t[e + 1..] == value
            && TrimLeft(t) == t && t[0] != '#' && t[0] != '['
  {
    hide FindEquals, KeyFault;
    var t := key + (b1 + ("=" + value));
    assert t[0] == key[0];
    BlanksEquals(b1, value);
  }

  lemma KeyIsAccepted(key: string, b1: string, begin: nat)
    requires IsGoodKey(key) && AreBlanks(b1)
    ensures KeyCheck(key + b1, begin) == None
  {
    hide FindEquals, KeyFault;
    BlanksTrimRight(key, b1);
    KeyIsTrimmed(key, b1);
  }

  lemma KeyIsTrimmed(key: string, b1: string)
    requires IsGoodKey(key)
    ensures TrimLeft(key + b1) == key + b1 && TrimRight(key) == key
  {
    assert (key + b1)[0] == key[0];
  }

  /** A good key, a good value and a comment, with blanks anywhere between, count one key. */
  lemma KeyLineWithTail(b0: string, key: string, b1: string, b2: string, value: string, tail: string)
    requires AreBlanks(b0) && AreBlanks(b1) && AreBlanks(b2) && IsGoodKey(key) && IsGoodValue(value)
    requires IsTail(tail) && IsInLine(tail)
    ensures var line := KeyLineText(b0, key, b1, b2, value + tail);
            Scan(line + "\n") == Accepted(Counts(1, 0, 1)) && Scan(line) == Accepted(Counts(1, 0, 1))
  {
    hide Fragment, Line, IsTail, Scan, IsGoodKey, IsGoodValue, IsInLine, AreBlanks, KeyLineText;
    var line := KeyLineText(b0, key, b1, b2, value + tail);
    KeysAndValuesInLine(key, value, tail);
    KeyLineParts(b0, key, b1, b2, value + tail, CLOSED, 1);
    GoodValueWithTail(value, tail, |b0| + |key| + |b1| + 1 + |b2|);
    KeyLineInLine(b0, key, b1, b2, value + tail);
    LineInLineAccepted(line, 0, 1);
    KeyLineNotEmpty(b0, key, b1, b2, value + tail);
  }

  lemma KeyLineNotEmpty(b0: string, key: string, b1: string, b2: string, rest: string)
    ensures KeyLineText(b0, key, b1, b2, rest) != ""
  {
    assert |KeyLineText(b0, key, b1, b2, rest)| == |b0| + (|key| + (|b1| + (1 + (|b2| + |rest|))));
  }

  lemma KeysAndValuesInLine(key: string, value: string, tail: string)
    requires IsGoodKey(key) && IsGoodValue(value) && IsInLine(tail)
    ensures IsInLine(key) && IsInLine(value + tail)
  {
    hide FindEquals, KeyFault, Fragment;
  }

  lemma GoodValueWithTail(value: string, tail: string, index: nat)
    requires IsGoodValue(value) && IsTail(tail)
    ensures Fragment(value + tail, index, None, false, CLOSED, 1) == Scanned(CLOSED, true)
  {
    hide Fragment, IsTail;
    FragmentWithTail(value, index, None, false, CLOSED, 1, tail);
  }

  lemma KeyLineInLine(b0: string, key: string, b1: string, b2: string, rest: string)
    requires AreBlanks(b0) && AreBlanks(b1) && AreBlanks(b2) && IsInLine(key) && IsInLine(rest)
    ensures IsInLine(KeyLineText(b0, key, b1, b2, rest))
  {
    BlanksInLine(b0);
    BlanksInLine(b1);
    BlanksInLine(b2);
  }

  lemma BlanksInLine(b: string)
    requires AreBlanks(b)
    ensures IsInLine(b)
  {
  }

  // Strings.

  /** Ordinary characters, and escapes of the nine letters. */
  predicate IsStringBody(s: string) {
    if s == "" then true
    else if s[0] == '\\' then
      |s| >= 2
      && (s[1] == 'b' || s[1] == 't' || s[1] == 'n' || s[1] == 'f' || s[1] == 'r' || s[1] == '"' || s[1] == '\\'
          || s[1] == 'u' || s[1] == 'U')
      && IsStringBody(s[2..])
    else s[0] != '"' && IsStringBody(s[1..])
  }

  lemma {:induction false} BodyFragment(s: string, rest: string, index: nat, saw: bool, state: ValueState, n: nat)
    requires IsStringBody(s)
    ensures Fragment(s + rest, index, Some('"'), saw, state, n)
         == Fragment(rest, index + |s|, Some('"'), saw || s != "", state, n)
    decreases |s|
  {
    hide Bracket;
    var u := s + rest;
    if s == "" {
      assert u == rest;
    } else if s[0] == '\\' {
      assert u[0] == s[0] && u[1] == s[1] && u[2..] == s[2..] + rest;
      BodyFragment(s[2..], rest, index + 2, true, state, n);
    } else {
      assert u[0] == s[0] && u[1..] == s[1..] + rest;
      BodyFragment(s[1..], rest, index + 1, true, state, n);
    }
  }

  /** A double-quoted string with any of the escapes is a good value. */
  lemma EscapedStringIsGood(s: string)
    requires IsStringBody(s) && IsInLine(s)
    ensures IsGoodValue("\"" + s + "\"")
  {
    hide Bracket;
    var v := "\"" + s + "\"";
    forall index: nat, saw, state, n
      ensures Fragment(v, index, None, saw, state, n) == Scanned(state, true)
    {
      assert v[0] == '"' && v[1..] == s + "\"";
      BodyFragment(s, "\"", index + 1, true, state, n);
      assert "\""[1..] == "";
    }
  }

  lemma {:induction false} LiteralFragment(s: string, rest: string, index: nat, saw: bool, state: ValueState, n: nat)
    requires '\'' !in s
    ensures Fragment(s + rest, index, Some('\''), saw, state, n)
         == Fragment(rest, index + |s|, Some('\''), saw || s != "", state, n)
    decreases |s|
  {
    hide Bracket;
    var u := s + rest;
    if s == "" {
      assert u == rest;
    } else {
      assert u[0] == s[0] && u[1..] == s[1..] + rest;
      LiteralFragment(s[1..], rest, index + 1, true, state, n);
    }
  }

  /** Between single quotes anything goes, backslashes included. */
  lemma LiteralStringIsGood(s: string)
    requires '\'' !in s && IsInLine(s)
    ensures IsGoodValue("'" + s + "'")
  {
    hide Bracket;
    var v := "'" + s + "'";
    forall index: nat, saw, state, n
      ensures Fragment(v, index, None, saw, state, n) == Scanned(state, true)
    {
      assert v[0] == '\'' && v[1..] == s + "'";
      LiteralFragment(s, "'", index + 1, true, state, n);
      assert "'"[1..] == "";
    }
  }

  // Rejections, with their columns.

  lemma OneLineRejected(line: string, fault: Fault)
    requires IsInLine(line) && line != "" && Line(line, CLOSED, 1) == LineFault(fault)
    ensures Scan(line) == Rejected(ScanError(1, fault.column, fault.message))
  {
    hide Scan, Line;
    OneLine(line);
    NoReturnAtEnd(line);
  }

  lemma KeyLineRejected(key: string, value: string, fault: Fault)
    requires IsGoodKey(key) && IsInLine(value)
    requires Fragment(value, |key| + 3, None, false, CLOSED, 1) == Malformed(fault)
    ensures Scan(KeyLineText("", key, " ", " ", value)) == Rejected(ScanError(1, fault.column, fault.message))
  {
    hide Line, Scan, Fragment;
    KeyLineParts("", key, " ", " ", value, CLOSED, 1);
    KeyLineInLine("", key, " ", " ", value);
    OneLineRejected(KeyLineText("", key, " ", " ", value), fault);
  }

  /** Any other escaped character, or none at all, is reported at the column where one had to be. */
  lemma OtherEscapeRejected(key: string, s: string, tail: string)
    requires IsGoodKey(key) && IsStringBody(s) && IsInLine(s) && IsInLine(tail)
    requires tail != "" && tail[0] == '\\'
    requires |tail| > 1 ==> tail[1] !in {'b', 't', 'n', 'f', 'r', '"', '\\', 'u', 'U'}
    ensures Scan(KeyLineText("", key, " ", " ", "\"" + (s + tail)))
         == Rejected(ScanError(1, |key| + 3 + |s| + 3, "invalid string escape sequence"))
  {
    hide Scan, IsGoodKey, KeyLineText, Fragment, IsStringBody;
    StringFragment(s, tail, |key| + 3);
    OtherEscapeFragment(tail, |key| + 4 + |s|);
    KeyLineRejected(key, "\"" + (s + tail), Fault(|key| + 3 + |s| + 3, "invalid string escape sequence"));
  }

  lemma OtherEscapeFragment(tail: string, index: nat)
    requires tail != "" && tail[0] == '\\'
    requires |tail| > 1 ==> tail[1] !in {'b', 't', 'n', 'f', 'r', '"', '\\', 'u', 'U'}
    ensures Fragment(tail, index, Some('"'), true, CLOSED, 1)
         == Malformed(Fault(index + 2, "invalid string escape sequence"))
  {
  }

  lemma StringFragment(s: string, tail: string, index: nat)
    requires IsStringBody(s)
    ensures Fragment("\"" + (s + tail), index, None, false, CLOSED, 1)
         == Fragment(tail, index + 1 + |s|, Some('"'), true, CLOSED, 1)
  {
    var value := "\"" + (s + tail);
    assert value[0] == '"' && value[1..] == s + tail;
    BodyFragment(s, tail, index + 1, true, CLOSED, 1);
  }

  /** A string without its closing quote is reported behind the end of the line. */
  lemma OpenStringRejected(key: string, s: string)
    requires IsGoodKey(key) && IsStringBody(s) && IsInLine(s)
    ensures Scan(KeyLineText("", key, " ", " ", "\"" + s)) == Rejected(ScanError(1, |key| + 3 + |s| + 2, "unterminated string"))
  {
    hide Scan, IsGoodKey, KeyLineText;
    assert s + "" == s;
    StringFragment(s, "", |key| + 3);
    KeyLineRejected(key, "\"" + s, Fault(|key| + 3 + |s| + 2, "unterminated string"));
  }

  lemma {:induction false} PlainThen(t: string, rest: string, index: nat, saw: bool, state: ValueState, n: nat)
    requires forall i :: 0 <= i < |t| ==> IsPlain(t[i])
    ensures Fragment(t + rest, index, None, saw, state, n) == Fragment(rest, index + |t|, None, saw || t != "", state, n)
    decreases |t|
  {
    var u := t + rest;
    if t == "" {
      assert u == rest;
    } else {
      assert u[0] == t[0] && u[1..] == t[1..] + rest;
      PlainThen(t[1..], rest, index + 1, true, state, n);
    }
  }

  /** A closing bracket that nothing opened is reported at its column. */
  lemma UnmatchedRejected(key: string, t: string, c: char, rest: string)
    requires IsGoodKey(key) && (forall i :: 0 <= i < |t| ==> IsPlain(t[i])) && IsInLine(rest) && (c == ']' || c == '}')
    ensures Scan(KeyLineText("", key, " ", " ", t + ([c] + rest)))
         == Rejected(ScanError(1, |key| + 3 + |t| + 1,
              if c == ']' then "unmatched closing array bracket" else "unmatched closing inline table brace"))
  {
    hide Scan, IsGoodKey, KeyLineText, IsPlain;
    PlainThen(t, [c] + rest, |key| + 3, false, CLOSED, 1);
    assert ([c] + rest)[0] == c;
    PlainInLine(t);
    KeyLineRejected(key, t + ([c] + rest), Fault(|key| + 3 + |t| + 1,
      if c == ']' then "unmatched closing array bracket" else "unmatched closing inline table brace"));
  }

  lemma PlainInLine(t: string)
    requires forall i :: 0 <= i < |t| ==> IsPlain(t[i])
    ensures IsInLine(t)
  {
  }

  /** A bracket still open at the end of the document is reported where it was opened. */
  lemma OpenBracketRejected(key: string, t: string, c: char)
    requires IsGoodKey(key) && (forall i :: 0 <= i < |t| ==> IsPlain(t[i])) && (c == '[' || c == '{')
    ensures Scan(KeyLineText("", key, " ", " ", [c] + t)) == Rejected(ScanError(1, |key| + 4, "unterminated value"))
  {
    hide Line, Scan;
    var value := [c] + t;
    var line := KeyLineText("", key, " ", " ", value);
    KeyLineParts("", key, " ", " ", value, CLOSED, 1);
    assert value[0] == c && value[1..] == t + "";
    var state := Bracket(c, |key| + 3, CLOSED, 1).state;
    PlainThen(t, "", |key| + 4, true, state, 1);
    PlainInLine(t);
    KeyLineInLine("", key, " ", " ", value);
    NoReturnAtEnd(line);
    OneLine(line);
    assert [line][1..] == [];
  }

  /** Text without an equals sign before its comment is reported where it starts. */
  lemma NoEqualsRejected(b0: string, t: string, tail: string)
    requires AreBlanks(b0) && IsPlainText(t) && IsTail(tail) && IsInLine(tail)
    ensures Scan(b0 + (t + tail)) == Rejected(ScanError(1, |b0| + 1, "expected '=' after key"))
  {
    hide Scan, FindEquals, IsTail;
    BlanksTrim(b0, t + tail);
    assert (t + tail)[0] == t[0] && TrimLeft(t + tail) == t + tail;
    PlainEquals(t, tail);
    TailHasNoEquals(tail);
    PlainInLine(t);
    BlanksInLine(b0);
    OneLineRejected(b0 + (t + tail), Fault(|b0| + 1, "expected '=' after key"));
  }

  lemma {:induction false} TailHasNoEquals(t: string)
    requires IsTail(t)
    ensures FindEquals(t, None) == None
  {
    hide IsTail;
    if t != "" {
      TailOfTail(t);
      if t[0] != '#' {
        TailHasNoEquals(t[1..]);
      }
    }
  }

  lemma {:induction false} PlainKeyThen(t: string, rest: string, index: nat)
    requires forall i :: 0 <= i < |t| ==> IsPlain(t[i])
    ensures KeyFault(t + rest, index, None) == KeyFault(rest, index + |t|, None)
    decreases |t|
  {
    var u := t + rest;
    if t == "" {
      assert u == rest;
    } else {
      assert u[0] == t[0] && u[1..] == t[1..] + rest;
      PlainKeyThen(t[1..], rest, index + 1);
    }
  }

  /** A bracket in a bare key is reported at its column. */
  lemma BracketInKeyRejected(t: string, c: char, u: string, rest: string)
    requires IsPlainText(t) && IsPlainText(u) && IsInLine(rest) && (c == '[' || c == ']' || c == '{' || c == '}')
    ensures Scan(t + ([c] + u) + ("=" + rest)) == Rejected(ScanError(1, |t| + 1, "invalid character in key"))
  {
    hide Scan, FindEquals, KeyFault;
    var key := t + ([c] + u);
    var line := key + ("=" + rest);
    assert key[0] == t[0] && key[|key| - 1] == u[|u| - 1];
    assert line[0] == t[0] && TrimLeft(line) == line;
    BracketedEquals(t, c, u, rest);
    assert line[..|key|] == key;
    assert TrimLeft(key) == key && TrimRight(key) == key;
    PlainKeyThen(t, [c] + u, 0);
    BracketFault([c] + u, c, |t|);
    BracketedInLine(t, c, u, rest);
    OneLineRejected(line, Fault(|t| + 1, "invalid character in key"));
  }

  lemma BracketFault(t: string, c: char, index: nat)
    requires t != "" && t[0] == c && (c == '[' || c == ']' || c == '{' || c == '}')
    ensures KeyFault(t, index, None) == Some(Fault(index + 1, "invalid character in key"))
  {
  }

  lemma BracketedEquals(t: string, c: char, u: string, rest: string)
    requires IsPlainText(t) && IsPlainText(u) && (c == '[' || c == ']' || c == '{' || c == '}')
    ensures FindEquals(t + ([c] + u) + ("=" + rest), None) == Some(|t| + 1 + |u|)
  {
    hide IsPlain, FindEquals;
    var behind := u + ("=" + rest);
    Regroup(t, [c] + u, "=" + rest);
    Regroup([c], u, "=" + rest);
    PlainEquals(t, [c] + behind);
    BracketThenEquals(c, behind);
    PlainEquals(u, "=" + rest);
    BlanksEquals("", rest);
    assert "" + ("=" + rest) == "=" + rest;
  }

  lemma BracketThenEquals(c: char, behind: string)
    requires c == '[' || c == ']' || c == '{' || c == '}'
    ensures FindEquals([c] + behind, None) == Plus(1, FindEquals(behind, None))
  {
    assert ([c] + behind)[0] == c && ([c] + behind)[1..] == behind;
  }

  lemma BracketedInLine(t: string, c: char, u: string, rest: string)
    requires IsPlainText(t) && IsPlainText(u) && IsInLine(rest) && (c == '[' || c == ']' || c == '{' || c == '}')
    ensures IsInLine(t + ([c] + u) + ("=" + rest))
  {
    PlainInLine(t);
    PlainInLine(u);
  }

  /** An equals sign without a key is reported at its column. */
  lemma NoKeyRejected(b0: string, rest: string)
    requires AreBlanks(b0) && IsInLine(rest)
    ensures Scan(b0 + ("=" + rest)) == Rejected(ScanError(1, |b0| + 1, "missing key"))
  {
    hide Scan;
    var t := "=" + rest;
    BlanksTrim(b0, t);
    assert t[0] == '=' && TrimLeft(t) == t && t[..0] == "";
    BlanksInLine(b0);
    OneLineRejected(b0 + t, Fault(|b0| + 1, "missing key"));
  }

  /** Anything but blanks and a comment behind a plain header is reported right behind the bracket. */
  lemma TextAfterHeaderRejected(name: string, rest: string)
    requires IsPlainText(name) && IsInLine(rest) && TrimLeft(rest) != "" && TrimLeft(rest)[0] != '#'
    ensures Scan("[" + (name + ("]" + rest)))
         == Rejected(ScanError(1, |name| + 3, "unexpected token after table header"))
  {
    hide Scan, IsPlain, TableClosing, KeyCheck;
    var line := "[" + (name + ("]" + rest));
    assert line[0] == '[' && line[1] == name[0] && line[1..] == name + ("]" + rest);
    PlainParts(name);
    ClosingAfterPlain(name, rest);
    assert line[|name| + 2..] == rest;
    assert TrimLeft(line) == line;
    PlainNameInLine(name);
    OneLineRejected(line, Fault(|name| + 3, "unexpected token after table header"));
  }

  lemma PlainNameInLine(name: string)
    requires IsPlainText(name)
    ensures IsInLine(name)
  {
    PlainInLine(name);
  }

  lemma ClosingAfterPlain(name: string, rest: string)
    requires IsPlainText(name)
    ensures TableClosing(name + ("]" + rest), 1, None, false) == ClosedAt(1 + |name|)
  {
    hide IsPlain;
    PlainClosing(name, "]", 1);
    ClosingStays(name + "]", 1, None, false, rest);
    Regroup(name, "]", rest);
  }

  /** A quoted name may hold anything, closing brackets included. */
  lemma {:induction false} ClosingPastBody(s: string, rest: string, index: nat, arrayTable: bool)
    requires IsStringBody(s)
    ensures TableClosing(s + rest, index, Some('"'), arrayTable) == TableClosing(rest, index + |s|, Some('"'), arrayTable)
    decreases |s|
  {
    var u := s + rest;
    if s == "" {
      assert u == rest;
    } else if s[0] == '\\' {
      assert u[0] == s[0] && u[1] == s[1] && u[2..] == s[2..] + rest;
      ClosingPastBody(s[2..], rest, index + 2, arrayTable);
    } else {
      assert u[0] == s[0] && u[1..] == s[1..] + rest;
      ClosingPastBody(s[1..], rest, index + 1, arrayTable);
    }
  }

  lemma {:induction false} KeyPastBody(s: string, rest: string, index: nat)
    requires IsStringBody(s)
    ensures KeyFault(s + rest, index, Some('"')) == KeyFault(rest, index + |s|, Some('"'))
    decreases |s|
  {
    var u := s + rest;
    if s == "" {
      assert u == rest;
    } else if s[0] == '\\' {
      assert u[0] == s[0] && u[1] == s[1] && u[2..] == s[2..] + rest;
      KeyPastBody(s[2..], rest, index + 2);
    } else {
      assert u[0] == s[0] && u[1..] == s[1..] + rest;
      KeyPastBody(s[1..], rest, index + 1);
    }
  }

  lemma QuotedHeader(s: string)
    requires IsStringBody(s) && IsInLine(s)
    ensures IsGoodHeader("[\"" + (s + "\"]"))
  {
    hide TableClosing, KeyFault, IsStringBody;
    var line := "[\"" + (s + "\"]");
    assert line[0] == '[' && line[1] == '"' && line[1..] == "\"" + (s + "\"]");
    QuotedClosing(s);
    assert line[|s| + 4..] == "";
    assert line[1..|s| + 3] == "\"" + (s + "\"");
    QuotedKeyCheck(s);
  }

  lemma QuotedClosing(s: string)
    requires IsStringBody(s)
    ensures TableClosing("\"" + (s + "\"]"), 1, None, false) == ClosedAt(|s| + 3)
  {
    hide IsStringBody;
    var t := "\"" + (s + "\"]");
    assert t[0] == '"' && t[1..] == s + "\"]";
    ClosingPastBody(s, "\"]", 2, false);
    assert "\"]"[1..] == "]";
  }

  lemma QuotedKeyCheck(s: string)
    requires IsStringBody(s)
    ensures KeyCheck("\"" + (s + "\""), 1) == None
  {
    hide IsStringBody;
    var t := "\"" + (s + "\"");
    assert t[0] == '"' && t[|t| - 1] == '"' && t[1..] == s + "\"";
    assert TrimLeft(t) == t && TrimRight(t) == t;
    KeyPastBody(s, "\"", 2);
    assert "\""[1..] == "";
  }
}
