/** Reading the resolved JSON back: the text loses nothing but the kind of a value. */
module JsonReader {
  import opened Model
  import opened Concat
  import opened Escapes
  import opened Scalars
  import opened ResolverSpec
  import opened ResolvedText

  /** One entry as the JSON text shows it. An absent source and an empty one look the same. */
  datatype Shown = Shown(id: string, value: Scalar, source: string)

  function Show(v: ResolvedValue): Shown
    requires IsPrintableValue(v)
  {
    Shown(v.id, ScalarOf(v.value), SourceText(v))
  }

  function ShowAll(values: seq<ResolvedValue>): (shown: seq<Shown>)
    requires AllPrintable(values)
    ensures |shown| == |values|
  {
    seq(|values|, i requires 0 <= i < |values| && AllPrintable(values) => Show(values[i]))
  }

  function ReadEntry(t: string): Option<(Shown, string)> {
    var (id, r1) :- ReadQuoted(UnescapeStep, t);
    var r2 :- Skip(VALUE_HEAD, r1);
    var (value, r3) :- ReadScalar(UnescapeStep, "null", r2);
    var r4 :- Skip(SOURCE_HEAD, r3);
    var (source, r5) :- ReadQuoted(UnescapeStep, r4);
    Some((Shown(id, value, source), r5))
  }

  function ReadEntries(t: string): Option<(seq<Shown>, string)>
    decreases |t|
  {
    if !(ENTRY_HEAD <= t) then Some(([], t))
    else
      var (entry, r1) :- ReadEntry(t[|ENTRY_HEAD|..]);
      if EntryEnd(true) <= r1 then Some(([entry], r1[|EntryEnd(true)|..]))
      else
        var r2 :- Skip(EntryEnd(false), r1);
        if |r2| >= |t| then None
        else
          var (entries, r3) :- ReadEntries(r2);
          Some(([entry] + entries, r3))
  }

  function ReadJson(t: string): Option<seq<Shown>> {
    var r1 :- Skip(JSON_HEAD, t);
    var (entries, r2) :- ReadEntries(r1);
    if r2 == JSON_TAIL then Some(entries) else None
  }

  lemma ReadValueBack(v: Value, rest: string)
    requires !v.Float? && rest != "" && rest[0] == ','
    ensures ReadScalar(UnescapeStep, "null", ValueText(v) + rest) == Some((ScalarOf(v), rest))
  {
    forall c
      ensures Reads(EscapeChar, UnescapeStep, c)
    {
      EscapeReads(c);
    }
    ReadScalarBack(EscapeChar, UnescapeStep, "null", ScalarOf(v), rest);
  }

  lemma ReadEntryBack(v: ResolvedValue, rest: string)
    requires IsPrintableValue(v)
    ensures ReadEntry(EntryText(v) + rest) == Some((Show(v), rest))
  {
    hide Quoted, ValueText, ReadQuoted, ReadScalar;
    var source := SourceText(v);
    var t4 := Quoted(source) + rest;
    var t3 := SOURCE_HEAD + t4;
    var t2 := ValueText(v.value) + t3;
    var t1 := VALUE_HEAD + t2;
    Regroup5("", Quoted(v.id), VALUE_HEAD, ValueText(v.value), SOURCE_HEAD, t4);
    assert EntryText(v) + rest == Quoted(v.id) + t1;
    ReadQuotedText(v.id, t1);
    SkipBack(VALUE_HEAD, t2);
    ReadValueBack(v.value, t3);
    SkipBack(SOURCE_HEAD, t4);
    ReadQuotedText(source, rest);
  }

  /** An entry is followed by a comma exactly when another one comes. */
  lemma ReadEntriesStep(v: ResolvedValue, last: bool, after: string, more: seq<Shown>, rest: string)
    requires IsPrintableValue(v)
    requires !last ==> ReadEntries(after) == Some((more, rest))
    ensures ReadEntries(ENTRY_HEAD + (EntryText(v) + (EntryEnd(last) + after)))
         == Some(if last then ([Show(v)], after) else ([Show(v)] + more, rest))
  {
    hide ReadEntry, EntryText, Show;
    var t1 := EntryEnd(last) + after;
    var t := ENTRY_HEAD + (EntryText(v) + t1);
    assert t[|ENTRY_HEAD|..] == EntryText(v) + t1;
    ReadEntryBack(v, t1);
    if last {
      assert t1[|EntryEnd(true)|..] == after;
    } else {
      assert t1[1] == ',';
      SkipBack(EntryEnd(false), after);
    }
  }

  lemma NotAnEntry(rest: string)
    requires rest == JSON_TAIL
    ensures ReadEntries(rest) == Some(([], rest))
  {
    assert rest[2] == ']' && ENTRY_HEAD[2] == ' ';
  }

  lemma {:induction false} ReadEntriesBack(values: seq<ResolvedValue>, rest: string)
    requires AllPrintable(values) && rest == JSON_TAIL
    ensures ReadEntries(EntriesText(values) + rest) == Some((ShowAll(values), rest))
  {
    hide ReadEntries, EntryText, Show, EntryEnd;
    if values == [] {
      assert EntriesText(values) + rest == rest;
      NotAnEntry(rest);
    } else {
      var last := |values| == 1;
      var after := EntriesText(values[1..]) + rest;
      Regroup5("", ENTRY_HEAD, EntryText(values[0]), EntryEnd(last), EntriesText(values[1..]), rest);
      assert EntriesText(values) + rest == ENTRY_HEAD + (EntryText(values[0]) + (EntryEnd(last) + after));
      ReadEntriesBack(values[1..], rest);
      ReadEntriesStep(values[0], last, after, ShowAll(values[1..]), rest);
      assert ShowAll(values) == [Show(values[0])] + ShowAll(values[1..]);
      if last {
        assert EntriesText(values[1..]) == "" && after == rest;
        assert ShowAll(values) == [Show(values[0])];
      }
    }
  }

  /** The JSON text can be read back to what it shows. */
  lemma JsonRoundTrip(values: seq<ResolvedValue>)
    requires AllPrintable(values)
    ensures ReadJson(JsonText(values)) == Some(ShowAll(values))
  {
    hide ReadEntries, EntriesText;
    SkipBack(JSON_HEAD, EntriesText(values) + JSON_TAIL);
    ReadEntriesBack(values, JSON_TAIL);
  }

  lemma {:induction false} ShownDeterminesEntries(values: seq<ResolvedValue>, others: seq<ResolvedValue>)
    requires AllPrintable(values) && AllPrintable(others) && ShowAll(values) == ShowAll(others)
    ensures EntriesText(values) == EntriesText(others)
  {
    hide Quoted, ScalarText;
    assert |values| == |ShowAll(values)| == |others|;
    if values != [] {
      assert Show(values[0]) == ShowAll(values)[0] == ShowAll(others)[0] == Show(others[0]);
      assert EntryText(values[0]) == EntryText(others[0]);
      assert ShowAll(values[1..]) == ShowAll(values)[1..] == ShowAll(others)[1..] == ShowAll(others[1..]);
      ShownDeterminesEntries(values[1..], others[1..]);
    }
  }

  /**
   Two configurations have the same JSON text exactly when they have the same number of entries and,
   position by position, the same id, the same value up to its kind and the same source.
   */
  lemma JsonDetermines(values: seq<ResolvedValue>, others: seq<ResolvedValue>)
    requires AllPrintable(values) && AllPrintable(others)
    ensures JsonText(values) == JsonText(others) <==> ShowAll(values) == ShowAll(others)
  {
    hide ReadJson;
    JsonRoundTrip(values);
    JsonRoundTrip(others);
    if ShowAll(values) == ShowAll(others) {
      ShownDeterminesEntries(values, others);
    }
  }
}
