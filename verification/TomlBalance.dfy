/** Which brackets the scanner accepts: each kind balances by itself, outside strings and comments. */
module TomlBalance {
  import opened Model
  import opened Escapes
  import opened TomlSpec

  /** What a value text shows outside strings and before a comment. */
  function Visible(t: string, quote: Option<char>): string {
    if t == "" then ""
    else if quote.Some? then
      if t[0] == quote.value then Visible(t[1..], None)
      else if quote.value == '"' && t[0] == '\\' then if |t| < 2 then "" else Visible(t[2..], quote)
      else Visible(t[1..], quote)
    else if t[0] == '#' then ""
    else if IsQuote(t[0]) then Visible(t[1..], Some(t[0]))
    else [t[0]] + Visible(t[1..], None)
  }

  /** Strings are closed and use allowed escapes only. */
  predicate StringsAreSound(t: string, quote: Option<char>) {
    if t == "" then quote.None?
    else if quote.Some? then
      if t[0] == quote.value then StringsAreSound(t[1..], None)
      else if quote.value == '"' && t[0] == '\\' then
        |t| >= 2 && IsAllowedEscape(t[1]) && StringsAreSound(t[2..], quote)
      else StringsAreSound(t[1..], quote)
    else t[0] == '#' || StringsAreSound(t[1..], if IsQuote(t[0]) then Some(t[0]) else None)
  }

  function Count(c: char, s: string): nat {
    multiset(s)[c]
  }

  /** No prefix closes more than is open. */
  ghost predicate NeverBelow(open: char, close: char, s: string, depth: int) {
    forall i :: 0 <= i <= |s| ==> Count(close, s[..i]) <= depth + Count(open, s[..i])
  }

  function Change(open: char, close: char, s: string): int {
    Count(open, s) - Count(close, s)
  }

  lemma CountAppend(c: char, s: string, t: string)
    ensures Count(c, s + t) == Count(c, s) + Count(c, t)
  {
  }

  /** Both parts have to hold, the second from the depth that the first leaves. */
  lemma NeverBelowAppend(open: char, close: char, s: string, t: string, depth: int)
    ensures NeverBelow(open, close, s + t, depth)
       <==> NeverBelow(open, close, s, depth) && NeverBelow(open, close, t, depth + Change(open, close, s))
  {
    hide Count;
    CountAppend(open, s, t);
    CountAppend(close, s, t);
    forall i | 0 <= i <= |s|
      ensures s[..i] == (s + t)[..i]
    {
    }
    forall i | 0 <= i <= |t|
      ensures (s + t)[..|s| + i] == s + t[..i]
      ensures Count(open, s + t[..i]) == Count(open, s) + Count(open, t[..i])
      ensures Count(close, s + t[..i]) == Count(close, s) + Count(close, t[..i])
    {
      CountAppend(open, s, t[..i]);
      CountAppend(close, s, t[..i]);
    }
    if NeverBelow(open, close, s + t, depth) {
      forall i | 0 <= i <= |s|
        ensures Count(close, s[..i]) <= depth + Count(open, s[..i])
      {
        assert Count(close, (s + t)[..i]) <= depth + Count(open, (s + t)[..i]);
      }
      forall i | 0 <= i <= |t|
        ensures Count(close, t[..i]) <= depth + Change(open, close, s) + Count(open, t[..i])
      {
        assert Count(close, (s + t)[..|s| + i]) <= depth + Count(open, (s + t)[..|s| + i]);
      }
    }
    if NeverBelow(open, close, s, depth) && NeverBelow(open, close, t, depth + Change(open, close, s)) {
      forall i | 0 <= i <= |s + t|
        ensures Count(close, (s + t)[..i]) <= depth + Count(open, (s + t)[..i])
      {
        if i <= |s| {
          assert (s + t)[..i] == s[..i];
        } else {
          assert (s + t)[..|s| + (i - |s|)] == s + t[..i - |s|];
        }
      }
    }
  }

  /** One character: an opening bracket, a closing one that needs an open one, or any other. */
  lemma NeverBelowOne(open: char, close: char, c: char, depth: nat)
    requires open != close
    ensures Change(open, close, [c]) == if c == open then 1 else if c == close then -1 else 0
    ensures NeverBelow(open, close, [c], depth) <==> c != close || depth > 0
  {
    assert [c][..0] == [] && [c][..1] == [c];
    assert Count(close, [c][..1]) == if c == close then 1 else 0;
    assert Count(open, [c][..1]) == if c == open then 1 else 0;
    if c != close || depth > 0 {
      forall i | 0 <= i <= 1
        ensures Count(close, [c][..i]) <= depth + Count(open, [c][..i])
      {
        assert [c][..i] == if i == 0 then [] else [c];
      }
    }
  }

  /** The two kinds of brackets never close more than is open, and `next` holds what is left open. */
  ghost predicate Balances(v: string, state: ValueState) {
    NeverBelow('[', ']', v, state.square) && NeverBelow('{', '}', v, state.brace)
  }

  ghost predicate LeftOpen(v: string, state: ValueState, next: ValueState) {
    && next.square == state.square + Change('[', ']', v)
    && next.brace == state.brace + Change('{', '}', v)
  }

  lemma BalancesNothing(state: ValueState)
    ensures Balances("", state) && LeftOpen("", state, state)
  {
  }

  lemma BracketBalances(c: char, index: nat, state: ValueState, n: nat)
    ensures Bracket(c, index, state, n).Scanned? <==> Balances([c], state)
    ensures Bracket(c, index, state, n).Scanned? ==> LeftOpen([c], state, Bracket(c, index, state, n).state)
  {
    hide NeverBelow, Change;
    NeverBelowOne('[', ']', c, state.square);
    NeverBelowOne('{', '}', c, state.brace);
  }

  /** The rest of a value after a part that leaves `next`. */
  lemma BalancesAppend(v: string, w: string, state: ValueState, next: ValueState)
    requires LeftOpen(v, state, next)
    ensures Balances(v + w, state) <==> Balances(v, state) && Balances(w, next)
    ensures forall last :: LeftOpen(w, next, last) <==> LeftOpen(v + w, state, last)
  {
    hide NeverBelow, Count;
    NeverBelowAppend('[', ']', v, w, state.square);
    NeverBelowAppend('{', '}', v, w, state.brace);
    CountAppend('[', v, w);
    CountAppend(']', v, w);
    CountAppend('{', v, w);
    CountAppend('}', v, w);
  }

  /**
   A value text is accepted exactly when its strings are sound and each kind of bracket, taken by
   itself, never closes more than is open. How the two kinds nest does not matter.
   */
  lemma {:induction false} FragmentAcceptedIff(t: string, index: nat, quote: Option<char>, saw: bool, state: ValueState, n: nat)
    ensures Fragment(t, index, quote, saw, state, n).Scanned?
       <==> StringsAreSound(t, quote) && Balances(Visible(t, quote), state)
    ensures Fragment(t, index, quote, saw, state, n).Scanned? ==>
              LeftOpen(Visible(t, quote), state, Fragment(t, index, quote, saw, state, n).state)
    decreases |t|
  {
    hide Balances, LeftOpen, Bracket;
    BalancesNothing(state);
    if t != "" {
      if quote.Some? {
        if t[0] == quote.value {
          FragmentAcceptedIff(t[1..], index + 1, None, true, state, n);
        } else if quote.value == '"' && t[0] == '\\' {
          if |t| >= 2 {
            FragmentAcceptedIff(t[2..], index + 2, quote, true, state, n);
          }
        } else {
          FragmentAcceptedIff(t[1..], index + 1, quote, true, state, n);
        }
      } else if IsQuote(t[0]) {
        FragmentAcceptedIff(t[1..], index + 1, Some(t[0]), true, state, n);
      } else if t[0] != '#' {
        VisibleCharacter(t, index, saw, state, n);
      }
    }
  }

  lemma {:induction false} VisibleCharacter(t: string, index: nat, saw: bool, state: ValueState, n: nat)
    requires t != "" && !IsQuote(t[0]) && t[0] != '#'
    ensures Fragment(t, index, None, saw, state, n).Scanned? <==> StringsAreSound(t, None) && Balances(Visible(t, None), state)
    ensures Fragment(t, index, None, saw, state, n).Scanned? ==>
              LeftOpen(Visible(t, None), state, Fragment(t, index, None, saw, state, n).state)
    decreases |t|, 0
  {
    hide Balances, LeftOpen;
    var rest := Visible(t[1..], None);
    var b := Bracket(t[0], index, state, n);
    BracketBalances(t[0], index, state, n);
    if b.Scanned? {
      BalancesAppend([t[0]], rest, state, b.state);
      if IsSpace(t[0]) {
        assert b.state == state;
        FragmentAcceptedIff(t[1..], index + 1, None, saw, state, n);
      } else {
        FragmentAcceptedIff(t[1..], index + 1, None, true, b.state, n);
      }
    } else {
      NotBalanced(t[0], rest, state);
    }
  }

  lemma NotBalanced(c: char, rest: string, state: ValueState)
    requires !Balances([c], state)
    ensures !Balances([c] + rest, state)
  {
    hide NeverBelow, Change;
    NeverBelowAppend('[', ']', [c], rest, state.square);
    NeverBelowAppend('{', '}', [c], rest, state.brace);
  }

  /** The part of a line that is value text. */
  function ValuePart(line: string, open: bool): string {
    var t := TrimLeft(line);
    if open then Visible(t, None)
    else if t == "" || t[0] == '#' || t[0] == '[' then ""
    else
      match FindEquals(t, None)
      case None => ""
      case Some(e) => Visible(t[e + 1..], None)
  }

  /** All value text of a list of lines, from given depths. */
  function ValueParts(lines: seq<string>, square: int, brace: int): string {
    if lines == [] then ""
    else
      var v := ValuePart(lines[0], square > 0 || brace > 0);
      v + ValueParts(lines[1..], square + Change('[', ']', v), brace + Change('{', '}', v))
  }

  lemma LineBalances(line: string, state: ValueState, n: nat)
    requires Line(line, state, n).LineOk?
    ensures var v := ValuePart(line, state.IsOpen());
      Balances(v, state) && LeftOpen(v, state, Line(line, state, n).state)
  {
    hide Balances, LeftOpen;
    BalancesNothing(state);
    var t := TrimLeft(line);
    var begin := |line| - |t|;
    if state.IsOpen() {
      FragmentAcceptedIff(t, begin, None, false, state, n);
    } else if t != "" && t[0] != '#' && t[0] != '[' && FindEquals(t, None).Some? {
      var e := FindEquals(t, None).value;
      FragmentAcceptedIff(t[e + 1..], begin + e + 1, None, false, state, n);
    }
  }

  lemma {:induction false} LinesBalance(lines: seq<string>, n: nat, state: ValueState, counts: Counts)
    requires ScanLines(lines, n, state, counts).Accepted?
    ensures var v := ValueParts(lines, state.square, state.brace);
      Balances(v, state) && state.square + Change('[', ']', v) == 0 && state.brace + Change('{', '}', v) == 0
    decreases |lines|
  {
    hide Balances, Change, ValuePart, Line;
    BalancesNothing(state);
    if lines != [] {
      var r := Line(lines[0], state, n);
      var v := ValuePart(lines[0], state.IsOpen());
      LineBalances(lines[0], state, n);
      LinesBalance(lines[1..], n + 1, r.state, Counts(counts.lines + 1, counts.tables + r.tables, counts.keys + r.keys));
      var w := ValueParts(lines[1..], r.state.square, r.state.brace);
      BalancesAppend(v, w, state, r.state);
      assert LeftOpen(w, r.state, CLOSED);
      assert LeftOpen(v + w, state, CLOSED);
    }
  }

  /** In an accepted document the value texts balance each kind of bracket. */
  lemma AcceptedIsBalanced(source: string)
    requires Scan(source).Accepted?
    ensures var v := ValueParts(SplitLines(source), 0, 0);
      Balances(v, CLOSED) && Count('[', v) == Count(']', v) && Count('{', v) == Count('}', v)
  {
    hide Balances, Count;
    LinesBalance(SplitLines(source), 1, CLOSED, Counts(0, 0, 0));
  }

  /** The kinds may interleave. */
  lemma CrossedBracketsPass(index: nat, state: ValueState, n: nat)
    ensures ValueFragment("[{]}", index, true, state, n)
         == Scanned(ValueState(state.square, state.brace, n, index + 2), true)
  {
    assert "[{]}"[1..] == "{]}" && "{]}"[1..] == "]}" && "]}"[1..] == "}" && "}"[1..] == "";
    var last := ValueState(state.square, state.brace, n, index + 2);
    assert Fragment("}", index + 3, None, true, last.(brace := state.brace + 1), n) == Scanned(last, true);
    assert Fragment("]}", index + 2, None, true, last.(square := state.square + 1, brace := state.brace + 1), n)
        == Scanned(last, true);
    assert Fragment("{]}", index + 1, None, true, ValueState(state.square + 1, state.brace, n, index + 1), n)
        == Scanned(last, true);
  }

  /** While a bracket is open every line is more of the value: comments, blanks and headers included. */
  lemma ContinuationAcceptedIff(line: string, state: ValueState, n: nat)
    requires state.IsOpen()
    ensures var t := TrimLeft(line);
            Line(line, state, n).LineOk? <==> StringsAreSound(t, None) && Balances(Visible(t, None), state)
    ensures Line(line, state, n).LineOk? ==> Line(line, state, n).tables == Line(line, state, n).keys == 0
  {
    hide Balances, LeftOpen;
    var t := TrimLeft(line);
    FragmentAcceptedIff(t, |line| - |t|, None, false, state, n);
  }
}
