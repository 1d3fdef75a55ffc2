/** The line scanner for TOML texts as functions: one line, a list of lines, a source text. */
module TomlSpec {
  import opened Model
  import opened Escapes

  /** Open brackets across lines and the position of the last one opened. */
  datatype ValueState = ValueState(square: nat, brace: nat, openLine: nat, openColumn: nat) {
    predicate IsOpen() {
      square > 0 || brace > 0
    }
  }

  datatype Fault = Fault(column: nat, message: string)

  predicate IsSpace(c: char) {
    c == ' ' || c == '\t'
  }

  predicate IsAllowedEscape(c: char) {
    c in "btnfr\"\\uU"
  }

  function TrimLeft(t: string): (r: string)
    ensures |r| <= |t|
  {
    if t != "" && IsSpace(t[0]) then TrimLeft(t[1..]) else t
  }

  function TrimRight(t: string): (r: string)
    ensures |r| <= |t|
  {
    if t != "" && IsSpace(t[|t| - 1]) then TrimRight(t[..|t| - 1]) else t
  }

  /** Nothing but blanks and a comment. */
  predicate LineIsDone(t: string) {
    var r := TrimLeft(t);
    r == "" || r[0] == '#'
  }

  // Keys.

  /** `t` starts at index `index` of its line; `quote` is the open quote. */
  function KeyFault(t: string, index: nat, quote: Option<char>): Option<Fault> {
    if t == "" then
      if quote.Some? then Some(Fault(index, "unterminated quoted key")) else None
    else if quote.Some? then
      if t[0] == quote.value then KeyFault(t[1..], index + 1, None)
      else if quote.value == '"' && t[0] == '\\' then
        if |t| < 2 || !IsAllowedEscape(t[1]) then Some(Fault(index + 2, "invalid key escape sequence"))
        else KeyFault(t[2..], index + 2, quote)
      else KeyFault(t[1..], index + 1, quote)
    else if IsQuote(t[0]) then KeyFault(t[1..], index + 1, Some(t[0]))
    else if t[0] in "[]{}" then Some(Fault(index + 1, "invalid character in key"))
    else KeyFault(t[1..], index + 1, None)
  }

  function KeyCheck(t: string, begin: nat): Option<Fault> {
    var left := TrimLeft(t);
    var start := begin + (|t| - |left|);
    if TrimRight(left) == "" then Some(Fault(start + 1, "missing key"))
    else KeyFault(TrimRight(left), start, None)
  }

  // Table headers.

  datatype Closing = ClosedAt(index: nat) | NotClosed(fault: Fault)

  /** The first closing bracket, doubled for an array table, outside strings. */
  function TableClosing(t: string, index: nat, quote: Option<char>, arrayTable: bool): (c: Closing)
    ensures c.ClosedAt? ==> index <= c.index && c.index + (if arrayTable then 2 else 1) <= index + |t|
  {
    if t == "" then NotClosed(Fault(index + 1, "unterminated table header"))
    else if quote.Some? then
      if t[0] == quote.value then TableClosing(t[1..], index + 1, None, arrayTable)
      else if quote.value == '"' && t[0] == '\\' then
        if |t| < 2 || !IsAllowedEscape(t[1]) then NotClosed(Fault(index + 2, "invalid table escape sequence"))
        else TableClosing(t[2..], index + 2, quote, arrayTable)
      else TableClosing(t[1..], index + 1, quote, arrayTable)
    else if IsQuote(t[0]) then TableClosing(t[1..], index + 1, Some(t[0]), arrayTable)
    else if t[0] == ']' && (!arrayTable || (|t| > 1 && t[1] == ']')) then ClosedAt(index)
    else TableClosing(t[1..], index + 1, None, arrayTable)
  }

  /** `line` starts with the opening bracket; columns count from there. */
  function TableFault(line: string): Option<Fault>
    requires line != ""
  {
    var arrayTable := |line| > 1 && line[1] == '[';
    var width := if arrayTable then 2 else 1;
    match TableClosing(line[width..], width, None, arrayTable)
    case NotClosed(fault) => Some(fault)
    case ClosedAt(index) =>
      if !LineIsDone(line[index + width..]) then Some(Fault(index + width + 1, "unexpected token after table header"))
      else KeyCheck(line[width..index], width)
  }

  // Values.

  datatype Scanned = Scanned(state: ValueState, sawValue: bool) | Malformed(fault: Fault)

  function Fragment(t: string, index: nat, quote: Option<char>, saw: bool, state: ValueState, n: nat): Scanned {
    if t == "" then
      if quote.Some? then Malformed(Fault(index + 1, "unterminated string")) else Scanned(state, saw)
    else if quote.Some? then
      if t[0] == quote.value then Fragment(t[1..], index + 1, None, true, state, n)
      else if quote.value == '"' && t[0] == '\\' then
        if |t| < 2 || !IsAllowedEscape(t[1]) then Malformed(Fault(index + 2, "invalid string escape sequence"))
        else Fragment(t[2..], index + 2, quote, true, state, n)
      else Fragment(t[1..], index + 1, quote, true, state, n)
    else if t[0] == '#' then Scanned(state, saw)
    else if IsSpace(t[0]) then Fragment(t[1..], index + 1, None, saw, state, n)
    else if IsQuote(t[0]) then Fragment(t[1..], index + 1, Some(t[0]), true, state, n)
    else
      match Bracket(t[0], index, state, n)
      case Malformed(fault) => Malformed(fault)
      case Scanned(next, _) => Fragment(t[1..], index + 1, None, true, next, n)
  }

  /** The effect of one character outside strings on the open brackets. */
  function Bracket(c: char, index: nat, state: ValueState, n: nat): Scanned {
    match c
    case '[' => Scanned(ValueState(state.square + 1, state.brace, n, index + 1), true)
    case '{' => Scanned(ValueState(state.square, state.brace + 1, n, index + 1), true)
    case ']' =>
      if state.square == 0 then Malformed(Fault(index + 1, "unmatched closing array bracket"))
      else Scanned(state.(square := state.square - 1), true)
    case '}' =>
      if state.brace == 0 then Malformed(Fault(index + 1, "unmatched closing inline table brace"))
      else Scanned(state.(brace := state.brace - 1), true)
    case _ => Scanned(state, true)
  }

  function ValueFragment(t: string, begin: nat, requireValue: bool, state: ValueState, n: nat): Scanned {
    match Fragment(t, begin, None, false, state, n)
    case Malformed(fault) => Malformed(fault)
    case Scanned(next, saw) =>
      if requireValue && !saw then Malformed(Fault(begin + 1, "missing value")) else Scanned(next, saw)
  }

  /** The distance to the first equals sign outside strings and before any comment. */
  function FindEquals(t: string, quote: Option<char>): (e: Option<nat>)
    ensures e.Some? ==> e.value < |t|
  {
    if t == "" then None
    else if quote.Some? then
      if t[0] == quote.value then Plus(1, FindEquals(t[1..], None))
      else if quote.value == '"' && t[0] == '\\' then
        if |t| < 2 then None else Plus(2, FindEquals(t[2..], quote))
      else Plus(1, FindEquals(t[1..], quote))
    else if IsQuote(t[0]) then Plus(1, FindEquals(t[1..], Some(t[0])))
    else if t[0] == '#' then None
    else if t[0] == '=' then Some(0)
    else Plus(1, FindEquals(t[1..], None))
  }

  function Plus(n: nat, e: Option<nat>): Option<nat> {
    if e.Some? then Some(n + e.value) else None
  }

  // Lines.

  datatype LineResult = LineOk(state: ValueState, tables: nat, keys: nat) | LineFault(fault: Fault)

  function Line(line: string, state: ValueState, n: nat): LineResult {
    var t := TrimLeft(line);
    var begin := |line| - |t|;
    if state.IsOpen() then
      match ValueFragment(t, begin, false, state, n)
      case Malformed(fault) => LineFault(fault)
      case Scanned(next, _) => LineOk(next, 0, 0)
    else if t == "" || t[0] == '#' then LineOk(state, 0, 0)
    else if t[0] == '[' then
      var fault := TableFault(t);
      if fault.Some? then LineFault(fault.value) else LineOk(state, 1, 0)
    else KeyValue(t, begin, state, n)
  }

  function KeyValue(t: string, begin: nat, state: ValueState, n: nat): LineResult {
    match FindEquals(t, None)
    case None => LineFault(Fault(begin + 1, "expected '=' after key"))
    case Some(e) =>
      var fault := KeyCheck(t[..e], begin);
      if fault.Some? then LineFault(fault.value)
      else
        match ValueFragment(t[e + 1..], begin + e + 1, true, state, n)
        case Malformed(fault) => LineFault(fault)
        case Scanned(next, _) => LineOk(next, 0, 1)
  }

  datatype Counts = Counts(lines: nat, tables: nat, keys: nat)

  datatype ScanError = ScanError(line: nat, column: nat, message: string)

  datatype ScanResult = Accepted(counts: Counts) | Rejected(error: ScanError)

  const CLOSED := ValueState(0, 0, 0, 0)

  function ScanLines(lines: seq<string>, n: nat, state: ValueState, counts: Counts): ScanResult {
    if lines == [] then
      if state.IsOpen() then Rejected(ScanError(state.openLine, state.openColumn, "unterminated value"))
      else Accepted(counts)
    else
      match Line(lines[0], state, n)
      case LineFault(fault) => Rejected(ScanError(n, fault.column, fault.message))
      case LineOk(next, tables, keys) =>
        ScanLines(lines[1..], n + 1, next, Counts(counts.lines + 1, counts.tables + tables, counts.keys + keys))
  }

  // Splitting a source text into lines.

  function LineLength(source: string): (n: nat)
    ensures n <= |source| && '\n' !in source[..n]
    ensures n < |source| ==> source[n] == '\n'
  {
    if source == "" || source[0] == '\n' then 0
    else
      var n := 1 + LineLength(source[1..]);
      assert source[..n] == [source[0]] + source[1..][..n - 1];
      n
  }

  /** A carriage return before the line end is not part of the line. */
  function WithoutReturn(line: string): string {
    if line != "" && line[|line| - 1] == '\r' then line[..|line| - 1] else line
  }

  function SplitLines(source: string): seq<string>
    decreases |source|
  {
    if source == "" then []
    else
      var n := LineLength(source);
      [WithoutReturn(source[..n])] + SplitLines(if n < |source| then source[n + 1..] else "")
  }

  function Scan(source: string): ScanResult {
    ScanLines(SplitLines(source), 1, CLOSED, Counts(0, 0, 0))
  }
}
