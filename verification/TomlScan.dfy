/** The scanner itself: loops over one line that update the open brackets and the document counters. */
module TomlScan {
  import opened Model
  import opened Escapes
  import opened TomlSpec

  method SkipBlanks(line: string, begin: nat, end: nat) returns (index: nat)
    requires begin <= end <= |line|
    ensures begin <= index <= end && line[index..end] == TrimLeft(line[begin..end])
  {
    index := begin;
    while index < end && IsSpace(line[index])
      invariant begin <= index <= end && TrimLeft(line[index..end]) == TrimLeft(line[begin..end])
    {
      assert line[index..end][1..] == line[index + 1..end];
      index := index + 1;
    }
  }

  method DropBlanks(line: string, begin: nat, end: nat) returns (last: nat)
    requires begin <= end <= |line|
    ensures begin <= last <= end && line[begin..last] == TrimRight(line[begin..end])
  {
    last := end;
    while last > begin && IsSpace(line[last - 1])
      invariant begin <= last <= end && TrimRight(line[begin..last]) == TrimRight(line[begin..end])
    {
      assert line[begin..last][..last - begin - 1] == line[begin..last - 1];
      last := last - 1;
    }
  }

  /** The suffix of a slice one and two characters further. */
  lemma Suffixes(line: string, i: nat, end: nat)
    requires i <= end <= |line|
    ensures i < end ==> line[i..end] != "" && line[i..end][0] == line[i] && line[i..end][1..] == line[i + 1..end]
    ensures i + 1 < end ==> line[i..end][1] == line[i + 1] && line[i..end][2..] == line[i + 2..end]
  {
  }

  method ValidateKey(line: string, begin: nat, end: nat) returns (fault: Option<Fault>)
    requires begin <= end <= |line|
    ensures fault == KeyCheck(line[begin..end], begin)
  {
    var b := SkipBlanks(line, begin, end);
    var e := DropBlanks(line, b, end);
    if b >= e {
      return Some(Fault(b + 1, "missing key"));
    }
    fault := ScanKey(line, b, e);
  }

  method ScanKey(line: string, begin: nat, end: nat) returns (fault: Option<Fault>)
    requires begin <= end <= |line|
    ensures fault == KeyFault(line[begin..end], begin, None)
  {
    hide IsAllowedEscape;
    var quote: Option<char> := None;
    var index := begin;
    while index < end
      invariant begin <= index <= end
      invariant KeyFault(line[index..end], index, quote) == KeyFault(line[begin..end], begin, None)
    {
      Suffixes(line, index, end);
      var value := line[index];
      if quote.Some? {
        if value == quote.value {
          quote := None;
        } else if quote.value == '"' && value == '\\' {
          index := index + 1;
          if index >= end || !IsAllowedEscape(line[index]) {
            return Some(Fault(index + 1, "invalid key escape sequence"));
          }
        }
      } else if value == '"' || value == '\'' {
        quote := Some(value);
      } else if value == '[' || value == ']' || value == '{' || value == '}' {
        return Some(Fault(index + 1, "invalid character in key"));
      }
      index := index + 1;
    }
    if quote.Some? {
      return Some(Fault(end, "unterminated quoted key"));
    }
    return None;
  }

  method IsLineDone(line: string, begin: nat) returns (done: bool)
    requires begin <= |line|
    ensures done == LineIsDone(line[begin..])
  {
    var index := SkipBlanks(line, begin, |line|);
    assert line[begin..|line|] == line[begin..];
    done := index >= |line| || line[index] == '#';
  }

  method FindClosing(line: string, begin: nat, arrayTable: bool) returns (closing: Closing)
    requires begin <= |line|
    ensures closing == TableClosing(line[begin..], begin, None, arrayTable)
  {
    hide IsAllowedEscape;
    var quote: Option<char> := None;
    var index := begin;
    while index < |line|
      invariant begin <= index <= |line|
      invariant TableClosing(line[index..], index, quote, arrayTable) == TableClosing(line[begin..], begin, None, arrayTable)
    {
      Suffixes(line, index, |line|);
      var value := line[index];
      if quote.Some? {
        if value == quote.value {
          quote := None;
        } else if quote.value == '"' && value == '\\' {
          index := index + 1;
          if index >= |line| || !IsAllowedEscape(line[index]) {
            return NotClosed(Fault(index + 1, "invalid table escape sequence"));
          }
        }
      } else if value == '"' || value == '\'' {
        quote := Some(value);
      } else if arrayTable {
        if value == ']' && index + 1 < |line| && line[index + 1] == ']' {
          return ClosedAt(index);
        }
      } else if value == ']' {
        return ClosedAt(index);
      }
      index := index + 1;
    }
    return NotClosed(Fault(|line| + 1, "unterminated table header"));
  }

  method ParseTable(line: string) returns (fault: Option<Fault>)
    requires line != ""
    ensures fault == TableFault(line)
  {
    hide TableClosing, LineIsDone, KeyCheck;
    var arrayTable := |line| > 1 && line[1] == '[';
    var width := if arrayTable then 2 else 1;
    var closing := FindClosing(line, width, arrayTable);
    match closing {
      case NotClosed(f) =>
        return Some(f);
      case ClosedAt(index) =>
        var done := IsLineDone(line, index + width);
        if !done {
          return Some(Fault(index + width + 1, "unexpected token after table header"));
        }
        fault := ValidateKey(line, width, index);
    }
  }

  /** The equals sign from index `i` on; an escape may step over the end of the line. */
  function EqualsFrom(line: string, i: nat, quote: Option<char>): Option<nat> {
    if i <= |line| then Plus(i, FindEquals(line[i..], quote)) else None
  }

  lemma EqualsStep(line: string, i: nat, quote: Option<char>)
    requires i < |line|
    ensures EqualsFrom(line, i, quote) ==
      if quote.Some? then
        if line[i] == quote.value then EqualsFrom(line, i + 1, None)
        else if quote.value == '"' && line[i] == '\\' then EqualsFrom(line, i + 2, quote)
        else EqualsFrom(line, i + 1, quote)
      else if IsQuote(line[i]) then EqualsFrom(line, i + 1, Some(line[i]))
      else if line[i] == '#' then None
      else if line[i] == '=' then Some(i)
      else EqualsFrom(line, i + 1, None)
  {
    Suffixes(line, i, |line|);
    assert line[i..|line|] == line[i..];
  }

  method FindEqualsIndex(line: string, begin: nat) returns (index: Option<nat>)
    requires begin <= |line|
    ensures index == Plus(begin, FindEquals(line[begin..], None))
  {
    hide FindEquals;
    var quote: Option<char> := None;
    var i := begin;
    while i < |line|
      invariant begin <= i <= |line| + 1
      invariant EqualsFrom(line, i, quote) == EqualsFrom(line, begin, None)
      decreases |line| - i
    {
      EqualsStep(line, i, quote);
      var value := line[i];
      if quote.Some? {
        if value == quote.value {
          quote := None;
        } else if quote.value == '"' && value == '\\' {
          i := i + 1;
        }
      } else if value == '"' || value == '\'' {
        quote := Some(value);
      } else if value == '#' {
        return None;
      } else if value == '=' {
        return Some(i);
      }
      i := i + 1;
    }
    NoEquals(line, i, quote);
    return None;
  }

  lemma NoEquals(line: string, i: nat, quote: Option<char>)
    requires i >= |line|
    ensures EqualsFrom(line, i, quote) == None
  {
  }

  class Scanner {
    var square: nat
    var brace: nat
    var openLine: nat
    var openColumn: nat
    var lineCount: nat
    var tableCount: nat
    var keyCount: nat

    constructor ()
      ensures State() == CLOSED && Totals() == Counts(0, 0, 0)
    {
      square, brace, openLine, openColumn := 0, 0, 0, 0;
      lineCount, tableCount, keyCount := 0, 0, 0;
    }

    function State(): ValueState
      reads this
    {
      ValueState(square, brace, openLine, openColumn)
    }

    function Totals(): Counts
      reads this
    {
      Counts(lineCount, tableCount, keyCount)
    }

    /** A character outside strings. */
    method TakeBracket(value: char, index: nat, n: nat) returns (fault: Option<Fault>)
      modifies `square, `brace, `openLine, `openColumn
      ensures match Bracket(value, index, old(State()), n)
              case Malformed(f) => fault == Some(f)
              case Scanned(next, _) => fault == None && State() == next
    {
      if value == '[' {
        square := square + 1;
        openLine := n;
        openColumn := index + 1;
      } else if value == ']' {
        if square == 0 {
          return Some(Fault(index + 1, "unmatched closing array bracket"));
        }
        square := square - 1;
      } else if value == '{' {
        brace := brace + 1;
        openLine := n;
        openColumn := index + 1;
      } else if value == '}' {
        if brace == 0 {
          return Some(Fault(index + 1, "unmatched closing inline table brace"));
        }
        brace := brace - 1;
      }
      return None;
    }

    /** One value, or the continuation of an open one. */
    method ParseValueFragment(line: string, begin: nat, n: nat, requireValue: bool) returns (fault: Option<Fault>)
      requires begin <= |line|
      modifies `square, `brace, `openLine, `openColumn
      ensures match ValueFragment(line[begin..], begin, requireValue, old(State()), n)
              case Malformed(f) => fault == Some(f)
              case Scanned(next, _) => fault == None && State() == next
    {
      hide IsAllowedEscape, Bracket, Fragment;
      var index := begin;
      var quote: Option<char> := None;
      var saw := false;
      ghost var all := Fragment(line[begin..], begin, None, false, State(), n);
      while index < |line|
        invariant begin <= index <= |line|
        invariant Fragment(line[index..], index, quote, saw, State(), n) == all
      {
        FragmentStep(line, index, quote, saw, State(), n);
        var value := line[index];
        if quote.Some? {
          saw := true;
          if value == quote.value {
            quote := None;
          } else if quote.value == '"' && value == '\\' {
            index := index + 1;
            if index >= |line| || !IsAllowedEscape(line[index]) {
              return Some(Fault(index + 1, "invalid string escape sequence"));
            }
          }
          index := index + 1;
          continue;
        }
        if value == '#' {
          break;
        }
        if IsSpace(value) {
          index := index + 1;
          continue;
        }
        saw := true;
        if value == '"' || value == '\'' {
          quote := Some(value);
        } else {
          fault := TakeBracket(value, index, n);
          if fault.Some? {
            return;
          }
        }
        index := index + 1;
      }
      if index == |line| {
        FragmentEnd(index, quote, saw, State(), n);
        assert line[index..] == "";
      }
      if quote.Some? {
        return Some(Fault(|line| + 1, "unterminated string"));
      }
      if requireValue && !saw {
        return Some(Fault(begin + 1, "missing value"));
      }
      return None;
    }

    /** A table header, a key with its value, a comment or more of an open value. */
    method ParseLine(line: string, n: nat) returns (fault: Option<Fault>)
      modifies `square, `brace, `openLine, `openColumn, `tableCount, `keyCount
      ensures match Line(line, old(State()), n)
              case LineFault(f) => fault == Some(f)
              case LineOk(next, tables, keys) =>
                fault == None && State() == next && tableCount == old(tableCount) + tables && keyCount == old(keyCount) + keys
    {
      hide Fragment, FindEquals, TableFault, KeyCheck, TrimLeft;
      var begin := SkipBlanks(line, 0, |line|);
      assert line[0..|line|] == line && line[begin..|line|] == line[begin..];
      ghost var t := line[begin..];
      if square > 0 || brace > 0 {
        fault := ParseValueFragment(line, begin, n, false);
        return;
      }
      if begin >= |line| || line[begin] == '#' {
        return None;
      }
      if line[begin] == '[' {
        fault := ParseTable(line[begin..]);
        if fault == None {
          tableCount := tableCount + 1;
        }
        return;
      }
      fault := ParseKeyValue(line, begin, n);
    }

    method ParseKeyValue(line: string, begin: nat, n: nat) returns (fault: Option<Fault>)
      requires begin <= |line|
      modifies `square, `brace, `openLine, `openColumn, `keyCount
      ensures match KeyValue(line[begin..], begin, old(State()), n)
              case LineFault(f) => fault == Some(f)
              case LineOk(next, tables, keys) =>
                fault == None && State() == next && tables == 0 && keyCount == old(keyCount) + keys
    {
      hide Fragment, FindEquals, KeyCheck;
      var found := FindEqualsIndex(line, begin);
      if found.None? {
        return Some(Fault(begin + 1, "expected '=' after key"));
      }
      var equals := found.value;
      assert line[begin..][..equals - begin] == line[begin..equals];
      assert line[begin..][equals - begin + 1..] == line[equals + 1..];
      fault := ValidateKey(line, begin, equals);
      if fault.Some? {
        return;
      }
      fault := ParseValueFragment(line, equals + 1, n, true);
      if fault.Some? {
        return;
      }
      keyCount := keyCount + 1;
    }

    /** One iteration of the line loop. */
    method CountLine(line: string, n: nat) returns (fault: Option<Fault>)
      modifies this
      ensures match Line(line, old(State()), n)
              case LineFault(f) => fault == Some(f)
              case LineOk(next, tables, keys) =>
                fault == None && State() == next
                && Totals() == Counts(old(lineCount) + 1, old(tableCount) + tables, old(keyCount) + keys)
    {
      lineCount := lineCount + 1;
      fault := ParseLine(line, n);
    }
  }

  lemma FragmentStep(line: string, i: nat, quote: Option<char>, saw: bool, state: ValueState, n: nat)
    requires i < |line|
    ensures Fragment(line[i..], i, quote, saw, state, n) ==
      if quote.Some? then
        if line[i] == quote.value then Fragment(line[i + 1..], i + 1, None, true, state, n)
        else if quote.value == '"' && line[i] == '\\' then
          if i + 1 >= |line| || !IsAllowedEscape(line[i + 1]) then Malformed(Fault(i + 2, "invalid string escape sequence"))
          else Fragment(line[i + 2..], i + 2, quote, true, state, n)
        else Fragment(line[i + 1..], i + 1, quote, true, state, n)
      else if line[i] == '#' then Scanned(state, saw)
      else if IsSpace(line[i]) then Fragment(line[i + 1..], i + 1, None, saw, state, n)
      else if IsQuote(line[i]) then Fragment(line[i + 1..], i + 1, Some(line[i]), true, state, n)
      else
        match Bracket(line[i], i, state, n)
        case Malformed(fault) => Malformed(fault)
        case Scanned(next, _) => Fragment(line[i + 1..], i + 1, None, true, next, n)
  {
    hide Bracket, IsAllowedEscape;
    Suffixes(line, i, |line|);
    assert line[i..|line|] == line[i..];
  }

  lemma FragmentEnd(index: nat, quote: Option<char>, saw: bool, state: ValueState, n: nat)
    ensures Fragment("", index, quote, saw, state, n)
         == if quote.Some? then Malformed(Fault(index + 1, "unterminated string")) else Scanned(state, saw)
  {
  }

  lemma SplitStep(source: string, offset: nat, end: nat)
    requires offset <= end <= |source| && offset < |source|
    requires '\n' !in source[offset..end] && (end < |source| ==> source[end] == '\n')
    ensures var rest := if end < |source| then source[end + 1..] else "";
            SplitLines(source[offset..]) == [WithoutReturn(source[offset..end])] + SplitLines(rest)
  {
    var s := source[offset..];
    LineEndUnique(s, end - offset);
    assert s[..end - offset] == source[offset..end];
    if end < |source| {
      assert s[end - offset + 1..] == source[end + 1..];
    }
  }

  lemma LineEndUnique(s: string, n: nat)
    requires n <= |s| && '\n' !in s[..n] && (n < |s| ==> s[n] == '\n')
    ensures LineLength(s) == n
  {
  }

  /** The whole scan. */
  method ScanParse(source: string) returns (result: ScanResult)
    ensures result == Scan(source)
  {
    hide SplitLines, LineLength, Line;
    var scanner := new Scanner();
    var offset := 0;
    var n := 1;
    assert source[0..] == source;
    NothingToSplit();
    while offset < |source|
      invariant offset <= |source| && fresh(scanner)
      invariant ScanLines(SplitLines(source[offset..]), n, scanner.State(), scanner.Totals()) == Scan(source)
    {
      var lineBegin := offset;
      while offset < |source| && source[offset] != '\n'
        invariant lineBegin <= offset <= |source| && '\n' !in source[lineBegin..offset]
      {
        assert source[lineBegin..offset + 1] == source[lineBegin..offset] + [source[offset]];
        offset := offset + 1;
      }
      var lineLength := offset - lineBegin;
      if lineLength > 0 && source[lineBegin + lineLength - 1] == '\r' {
        lineLength := lineLength - 1;
      }
      var line := source[lineBegin..lineBegin + lineLength];
      assert line == WithoutReturn(source[lineBegin..offset]);
      SplitStep(source, lineBegin, offset);
      ghost var rest := if offset < |source| then source[offset + 1..] else "";
      ScanLinesStep(line, SplitLines(rest), n, scanner.State(), scanner.Totals());
      var fault := scanner.CountLine(line, n);
      if fault.Some? {
        return Rejected(ScanError(n, fault.value.column, fault.value.message));
      }
      if offset < |source| && source[offset] == '\n' {
        offset := offset + 1;
      }
      assert source[offset..] == rest;
      n := n + 1;
    }
    assert source[offset..] == "";
    if scanner.square > 0 || scanner.brace > 0 {
      return Rejected(ScanError(scanner.openLine, scanner.openColumn, "unterminated value"));
    }
    return Accepted(scanner.Totals());
  }

  lemma NothingToSplit()
    ensures SplitLines("") == []
  {
  }

  lemma ScanLinesStep(line: string, lines: seq<string>, n: nat, state: ValueState, counts: Counts)
    ensures ScanLines([line] + lines, n, state, counts) ==
      match Line(line, state, n)
      case LineFault(fault) => Rejected(ScanError(n, fault.column, fault.message))
      case LineOk(next, tables, keys) =>
        ScanLines(lines, n + 1, next, Counts(counts.lines + 1, counts.tables + tables, counts.keys + keys))
  {
    hide Line, SplitLines;
    var all := [line] + lines;
    assert all != [] && all[0] == line && all[1..] == lines;
  }
}
