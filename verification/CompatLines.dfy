/** Finding the comment and the equals sign of a compatibility line without looking into strings. */
module CompatLines {
  import opened Model
  import opened Escapes
  import opened Decoders

  /**
   The distance to the first `stop` outside strings, or the whole length. Inside either kind of
   quotes a backslash takes the next character with it.
   */
  function Outside(stop: char, t: string, quote: Option<char>): (n: nat)
    ensures n <= |t|
  {
    if t == "" then 0
    else if quote.Some? then
      if t[0] == '\\' && |t| > 1 then 2 + Outside(stop, t[2..], quote)
      else if t[0] == quote.value then 1 + Outside(stop, t[1..], None)
      else 1 + Outside(stop, t[1..], quote)
    else if IsQuote(t[0]) then 1 + Outside(stop, t[1..], Some(t[0]))
    else if t[0] == stop then 0
    else 1 + Outside(stop, t[1..], None)
  }

  lemma OutsideStep(stop: char, text: string, i: nat, end: nat, quote: Option<char>)
    requires i < end <= |text|
    ensures Outside(stop, text[i..end], quote) ==
      if quote.Some? then
        if text[i] == '\\' && i + 1 < end then 2 + Outside(stop, text[i + 2..end], quote)
        else if text[i] == quote.value then 1 + Outside(stop, text[i + 1..end], None)
        else 1 + Outside(stop, text[i + 1..end], quote)
      else if IsQuote(text[i]) then 1 + Outside(stop, text[i + 1..end], Some(text[i]))
      else if text[i] == stop then 0
      else 1 + Outside(stop, text[i + 1..end], None)
  {
    var t := text[i..end];
    assert t[0] == text[i] && t[1..] == text[i + 1..end];
    assert i + 1 < end ==> t[2..] == text[i + 2..end];
  }

  method StripComment(text: string, begin: nat, end: nat) returns (stop: nat)
    requires begin <= end <= |text|
    ensures stop == begin + Outside('#', text[begin..end], None)
  {
    hide Outside;
    var quote: Option<char> := None;
    var index := begin;
    while index < end
      invariant begin <= index <= end
      invariant index + Outside('#', text[index..end], quote) == begin + Outside('#', text[begin..end], None)
    {
      OutsideStep('#', text, index, end, quote);
      if quote.Some? {
        if text[index] == '\\' && index + 1 < end {
          index := index + 1;
        } else if text[index] == quote.value {
          quote := None;
        }
      } else if text[index] == '"' || text[index] == '\'' {
        quote := Some(text[index]);
      } else if text[index] == '#' {
        return index;
      }
      index := index + 1;
    }
    return end;
  }

  /** None when the line has no equals sign outside strings. */
  method FindEquals(text: string, begin: nat, end: nat) returns (index: Option<nat>)
    requires begin <= end <= |text|
    ensures var n := Outside('=', text[begin..end], None);
            index == if begin + n < end then Some(begin + n) else None
  {
    hide Outside;
    var quote: Option<char> := None;
    var i := begin;
    while i < end
      invariant begin <= i <= end
      invariant i + Outside('=', text[i..end], quote) == begin + Outside('=', text[begin..end], None)
    {
      OutsideStep('=', text, i, end, quote);
      if quote.Some? {
        if text[i] == '\\' && i + 1 < end {
          i := i + 1;
        } else if text[i] == quote.value {
          quote := None;
        }
      } else if text[i] == '"' || text[i] == '\'' {
        quote := Some(text[i]);
      } else if text[i] == '=' {
        return Some(i);
      }
      i := i + 1;
    }
    return None;
  }

  lemma {:induction false} OutsideBody(stop: char, s: string, rest: string)
    ensures Outside(stop, MapText(EscapeChar, s) + ("\"" + rest), Some('"'))
         == |MapText(EscapeChar, s)| + 1 + Outside(stop, rest, None)
  {
    hide MapText, EscapeChar;
    MapTextNothing(EscapeChar);
    if s == "" {
      assert MapText(EscapeChar, s) + ("\"" + rest) == "\"" + rest;
      assert ("\"" + rest)[1..] == rest;
    } else {
      MapTextCons(EscapeChar, s);
      EscapedFront(s, "\"" + rest);
      OutsideBody(stop, s[1..], rest);
    }
  }

  /** Neither search stops inside a quoted string: both go on behind it. */
  lemma OutsideQuoted(stop: char, s: string, rest: string)
    requires !IsQuote(stop)
    ensures Outside(stop, Quoted(s) + rest, None) == |Quoted(s)| + Outside(stop, rest, None)
  {
    hide MapText;
    OutsideBody(stop, s, rest);
    var t := Quoted(s) + rest;
    assert t[0] == '"';
    assert t[1..] == MapText(EscapeChar, s) + ("\"" + rest);
  }

  /** Text without quotes, comments and equals signs. */
  ghost predicate IsBare(t: string) {
    forall i :: 0 <= i < |t| ==> !IsQuote(t[i]) && t[i] != '#' && t[i] != '='
  }

  lemma {:induction false} OutsideBare(stop: char, t: string, rest: string)
    requires IsBare(t) && (stop == '#' || stop == '=')
    ensures Outside(stop, t + rest, None) == |t| + Outside(stop, rest, None)
  {
    if t == "" {
      assert t + rest == rest;
    } else {
      var u := t + rest;
      assert u[0] == t[0] && u[1..] == t[1..] + rest;
      OutsideBare(stop, t[1..], rest);
    }
  }

  /**
   A whole line, key, equals sign, quoted value and comment: the comment is cut off where it starts,
   the equals sign found is the first one, and the value behind it is the quoted string.
   */
  lemma LineRoundTrip(key: string, s: string, after: string, comment: string)
    requires IsBare(key)
    requires forall i :: 0 <= i < |after| ==> IsBlank(after[i])
    requires comment == "" || comment[0] == '#'
    ensures var line := key + ("=" + (" " + (Quoted(s) + (after + comment))));
            var end := |line| - |comment|;
            && Outside('#', line, None) == end
            && Outside('=', line[..end], None) == |key|
            && CompatText(Trimmed(line[|key| + 1..end])) == Some(s)
  {
    hide Outside, Quoted, CompatText, Trimmed;
    var tail := after + comment;
    var value := " " + (Quoted(s) + tail);
    var line := key + ("=" + value);
    var end := |line| - |comment|;
    OutsideBare('#', key, "=" + value);
    OutsideOne('#', '=', value);
    OutsideOne('#', ' ', Quoted(s) + tail);
    OutsideQuoted('#', s, tail);
    OutsideBare('#', after, comment);
    OutsideAtStop('#', comment);
    assert line[..end] == key + ("=" + (" " + (Quoted(s) + after)));
    OutsideBare('=', key, "=" + (" " + (Quoted(s) + after)));
    OutsideAtStop('=', "=" + (" " + (Quoted(s) + after)));
    assert line[|key| + 1..end] == " " + (Quoted(s) + after);
    CompatRoundTrip(" ", s, after);
  }

  lemma OutsideOne(stop: char, c: char, rest: string)
    requires !IsQuote(c) && c != stop
    ensures Outside(stop, [c] + rest, None) == 1 + Outside(stop, rest, None)
  {
    assert ([c] + rest)[1..] == rest;
  }

  lemma OutsideAtStop(stop: char, t: string)
    requires t == "" || t[0] == stop
    requires !IsQuote(stop)
    ensures Outside(stop, t, None) == 0
  {
  }
}
