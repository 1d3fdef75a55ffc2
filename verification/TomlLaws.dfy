/** Laws of the TOML line scanner: composition, line endings and acceptance of well-formed lines. */
module TomlLaws {
  import opened Model
  import opened Escapes
  import opened TomlSpec

  // Splitting.

  predicate EndsLine(s: string) {
    s == "" || s[|s| - 1] == '\n'
  }

  lemma {:induction false} LineLengthOf(line: string, rest: string)
    requires '\n' !in line && (rest == "" || rest[0] == '\n')
    ensures LineLength(line + rest) == |line|
  {
    if line == "" {
      assert line + rest == rest;
    } else {
      var s := line + rest;
      assert s[0] == line[0] && line[0] in line && s[1..] == line[1..] + rest;
      LineLengthOf(line[1..], rest);
    }
  }

  lemma SplitFirst(line: string, rest: string)
    requires '\n' !in line
    ensures SplitLines(line + "\n" + rest) == [WithoutReturn(line)] + SplitLines(rest)
    ensures line != "" ==> SplitLines(line) == [WithoutReturn(line)]
  {
    LineLengthOf(line, "\n" + rest);
    var s := line + "\n" + rest;
    assert s == line + ("\n" + rest);
    assert s[..|line|] == line && s[|line| + 1..] == rest;
    LineLengthOf(line, "");
    assert line + "" == line;
    assert line[..|line|] == line;
  }

  /** The first line of a text that has a line end. */
  lemma FirstLine(s: string) returns (line: string, rest: string)
    requires '\n' in s
    ensures s == line + "\n" + rest && '\n' !in line
  {
    var n := LineLength(s);
    assert s[..|s|] == s;
    line, rest := s[..n], s[n + 1..];
    assert s == s[..n] + [s[n]] + s[n + 1..];
  }

  lemma SplitNothing()
    ensures SplitLines("") == []
  {
  }

  lemma {:induction false} SplitAppend(s: string, t: string)
    requires EndsLine(s)
    ensures SplitLines(s + t) == SplitLines(s) + SplitLines(t)
    decreases |s|
  {
    hide SplitLines;
    if s == "" {
      assert s + t == t;
      SplitNothing();
    } else {
      assert s[|s| - 1] in s;
      var line, rest := FirstLine(s);
      assert EndsLine(rest) by {
        if rest != "" {
          assert rest[|rest| - 1] == s[|s| - 1];
        }
      }
      SplitAppend(rest, t);
      SplitFirst(line, rest);
      SplitFirst(line, rest + t);
      assert s + t == line + "\n" + (rest + t);
    }
  }

  /** Every line feed preceded by a carriage return. */
  function ToCrlf(s: string): string {
    if s == "" then ""
    else if s[0] == '\n' then "\r\n" + ToCrlf(s[1..])
    else [s[0]] + ToCrlf(s[1..])
  }

  lemma {:induction false} CrlfLine(line: string, t: string)
    requires '\n' !in line
    ensures ToCrlf(line + t) == line + ToCrlf(t)
  {
    if line == "" {
      assert line + t == t;
    } else {
      var s := line + t;
      assert s[0] == line[0] && s[1..] == line[1..] + t;
      assert line[0] in line;
      CrlfLine(line[1..], t);
      assert line == [line[0]] + line[1..];
    }
  }

  lemma {:induction false} SplitCrlf(s: string)
    requires '\r' !in s
    ensures SplitLines(ToCrlf(s)) == SplitLines(s)
    decreases |s|
  {
    if '\n' in s {
      var line, rest := FirstLine(s);
      assert s == line + ("\n" + rest);
      CrlfLine(line, "\n" + rest);
      assert ("\n" + rest)[1..] == rest;
      assert ToCrlf(s) == (line + "\r") + "\n" + ToCrlf(rest);
      SplitFirst(line + "\r", ToCrlf(rest));
      SplitFirst(line, rest);
      NoReturn(s, line);
      assert (line + "\r")[..|line|] == line;
      SplitCrlf(rest);
    } else {
      CrlfLine(s, "");
      assert s + "" == s;
    }
  }

  lemma NoReturn(s: string, line: string)
    requires '\r' !in s && line <= s
    ensures WithoutReturn(line) == line
  {
    if line != "" {
      assert s[|line| - 1] == line[|line| - 1];
      assert s[|line| - 1] in s;
    }
  }

  /** Line ends may be CRLF: acceptance, counts and the position of an error stay the same. */
  lemma CrlfInvariance(s: string)
    requires '\r' !in s
    ensures Scan(ToCrlf(s)) == Scan(s)
  {
    SplitCrlf(s);
  }

  lemma {:induction false} SplitFinalNewline(s: string)
    requires s != "" && !EndsLine(s)
    ensures SplitLines(s + "\n") == SplitLines(s)
    decreases |s|
  {
    hide SplitLines;
    if '\n' in s {
      var line, rest := FirstLine(s);
      assert rest != "" && rest[|rest| - 1] == s[|s| - 1];
      SplitFinalNewline(rest);
      SplitFirst(line, rest);
      SplitFirst(line, rest + "\n");
      assert s + "\n" == line + "\n" + (rest + "\n");
    } else {
      SplitFirst(s, "");
      SplitNothing();
      assert s + "\n" + "" == s + "\n";
    }
  }

  /** A missing newline at the end of a text does not matter. */
  lemma FinalNewlineInvariance(s: string)
    requires s != "" && !EndsLine(s)
    ensures Scan(s + "\n") == Scan(s)
  {
    SplitFinalNewline(s);
  }

  // Composition.

  /** The same open brackets, opened k lines later. */
  ghost predicate Shifted(state: ValueState, later: ValueState, k: nat) {
    && state.square == later.square && state.brace == later.brace
    && (state.IsOpen() ==> later.openLine == state.openLine + k && later.openColumn == state.openColumn)
  }

  ghost predicate ShiftedScan(a: Scanned, b: Scanned, k: nat) {
    match (a, b)
    case (Scanned(s, v), Scanned(t, w)) => v == w && Shifted(s, t, k)
    case (Malformed(f), Malformed(g)) => f == g
    case _ => false
  }

  lemma {:induction false} FragmentShift(t: string, index: nat, quote: Option<char>, saw: bool,
                                         state: ValueState, later: ValueState, n: nat, k: nat)
    requires Shifted(state, later, k)
    ensures ShiftedScan(Fragment(t, index, quote, saw, state, n), Fragment(t, index, quote, saw, later, n + k), k)
    decreases |t|
  {
    if t != "" {
      if quote.Some? {
        if t[0] == quote.value {
          FragmentShift(t[1..], index + 1, None, true, state, later, n, k);
        } else if quote.value == '"' && t[0] == '\\' {
          if |t| >= 2 {
            FragmentShift(t[2..], index + 2, quote, true, state, later, n, k);
          }
        } else {
          FragmentShift(t[1..], index + 1, quote, true, state, later, n, k);
        }
      } else if IsSpace(t[0]) {
        FragmentShift(t[1..], index + 1, None, saw, state, later, n, k);
      } else if IsQuote(t[0]) {
        FragmentShift(t[1..], index + 1, Some(t[0]), true, state, later, n, k);
      } else if t[0] != '#' {
        var a, b := Bracket(t[0], index, state, n), Bracket(t[0], index, later, n + k);
        assert ShiftedScan(a, b, k);
        if a.Scanned? {
          FragmentShift(t[1..], index + 1, None, true, a.state, b.state, n, k);
        }
      }
    }
  }

  ghost predicate ShiftedLine(a: LineResult, b: LineResult, k: nat) {
    match (a, b)
    case (LineOk(s, t, c), LineOk(u, v, d)) => t == v && c == d && Shifted(s, u, k)
    case (LineFault(f), LineFault(g)) => f == g
    case _ => false
  }

  lemma LineShift(line: string, state: ValueState, later: ValueState, n: nat, k: nat)
    requires Shifted(state, later, k)
    ensures ShiftedLine(Line(line, state, n), Line(line, later, n + k), k)
  {
    hide Fragment, KeyCheck, TableFault;
    var t := TrimLeft(line);
    FragmentShift(t, |line| - |t|, None, false, state, later, n, k);
    var e := FindEquals(t, None);
    if e.Some? {
      FragmentShift(t[e.value + 1..], |line| - |t| + e.value + 1, None, false, state, later, n, k);
    }
  }

  /** A result seen `base.lines` lines further down, on top of earlier counts. */
  function Below(base: Counts, r: ScanResult): ScanResult {
    match r
    case Accepted(c) => Accepted(Counts(base.lines + c.lines, base.tables + c.tables, base.keys + c.keys))
    case Rejected(e) => Rejected(e.(line := e.line + base.lines))
  }

  lemma {:induction false} ScanShift(lines: seq<string>, n: nat, state: ValueState, later: ValueState,
                                     counts: Counts, base: Counts)
    requires Shifted(state, later, base.lines)
    ensures ScanLines(lines, n + base.lines, later,
                      Counts(base.lines + counts.lines, base.tables + counts.tables, base.keys + counts.keys))
         == Below(base, ScanLines(lines, n, state, counts))
  {
    hide Line;
    if lines != [] {
      LineShift(lines[0], state, later, n, base.lines);
      var a, b := Line(lines[0], state, n), Line(lines[0], later, n + base.lines);
      if a.LineOk? {
        var next := Counts(counts.lines + 1, counts.tables + a.tables, counts.keys + a.keys);
        ScanShift(lines[1..], n + 1, a.state, b.state, next, base);
      }
    }
  }

  /** Lines that are accepted by themselves leave a closed state and their counts to the lines after them. */
  lemma {:induction false} ScanPrefix(first: seq<string>, second: seq<string>, n: nat, state: ValueState, counts: Counts)
    requires ScanLines(first, n, state, counts).Accepted?
    ensures exists last: ValueState ::
      && !last.IsOpen()
      && ScanLines(first + second, n, state, counts)
         == ScanLines(second, n + |first|, last, ScanLines(first, n, state, counts).counts)
    ensures ScanLines(first, n, state, counts).counts.lines == counts.lines + |first|
    decreases |first|
  {
    hide Line;
    if first == [] {
      assert first + second == second;
      assert !state.IsOpen();
    } else {
      var r := Line(first[0], state, n);
      assert (first + second)[1..] == first[1..] + second && (first + second)[0] == first[0];
      ScanPrefix(first[1..], second, n + 1, r.state, Counts(counts.lines + 1, counts.tables + r.tables, counts.keys + r.keys));
    }
  }

  /**
   Composition: after an accepted text that ends a line, any text is accepted exactly when it is by
   itself. Counts add up and errors move down by the number of lines before.
   */
  lemma ScanComposes(s: string, t: string)
    requires EndsLine(s) && Scan(s).Accepted?
    ensures Scan(s + t) == Below(Scan(s).counts, Scan(t))
  {
    hide ScanLines, SplitLines;
    SplitAppend(s, t);
    var first, second := SplitLines(s), SplitLines(t);
    var zero := Counts(0, 0, 0);
    ScanPrefix(first, second, 1, CLOSED, zero);
    var base := Scan(s).counts;
    var last: ValueState :| !last.IsOpen() && ScanLines(first + second, 1, CLOSED, zero)
                            == ScanLines(second, 1 + |first|, last, base);
    ScanShift(second, 1, CLOSED, last, zero, base);
  }
}
