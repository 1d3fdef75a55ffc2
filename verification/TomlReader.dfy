/** Reading the printed TOML texts back: they hold the ids, values and sources they were printed from. */
module TomlReader {
  import opened Model
  import opened Concat
  import opened Numerals
  import opened Escapes
  import opened Scalars
  import opened ResolverSpec
  import opened ResolvedText
  import opened JsonReader
  import opened TomlLines
  import opened TomlPrinters

  // Lists of key lines.

  datatype Entry = Entry(key: string, value: Scalar)

  function ReadKeyLine(t: string): Option<(Entry, string)> {
    var (key, r1) :- ReadQuoted(UnescapeStep, t);
    var r2 :- Skip(" = ", r1);
    var (value, r3) :- ReadValue(r2);
    var r4 :- Skip("\n", r3);
    Some((Entry(key, value), r4))
  }

  function ReadKeyLines(t: string): Option<(seq<Entry>, string)>
    decreases |t|
  {
    if t == "" || t[0] != '"' then Some(([], t))
    else
      var (entry, r1) :- ReadKeyLine(t);
      if |r1| >= |t| then None
      else
        var (entries, r2) :- ReadKeyLines(r1);
        Some(([entry] + entries, r2))
  }

  ghost predicate Holds(l: TomlLine, e: Entry) {
    l.KeyLine? && l.key == Quoted(e.key) && ReadsAs(l.value, e.value)
  }

  ghost predicate AllHold(lines: seq<TomlLine>, entries: seq<Entry>) {
    |lines| == |entries| && forall i :: 0 <= i < |lines| ==> Holds(lines[i], entries[i])
  }

  lemma ReadKeyLineBack(l: TomlLine, e: Entry, rest: string)
    requires Holds(l, e)
    ensures ReadKeyLine(LineText(l) + "\n" + rest) == Some((e, rest))
    ensures (LineText(l) + "\n" + rest)[0] == '"' && |rest| < |LineText(l) + "\n" + rest|
  {
    hide Quoted, ReadQuoted, ReadValue;
    var t3 := "\n" + rest;
    var t2 := l.value + t3;
    var t1 := " = " + t2;
    Regroup4(Quoted(e.key), " = ", l.value, "\n", rest);
    assert LineText(l) + "\n" + rest == Quoted(e.key) + t1;
    ReadQuotedText(e.key, t1);
    SkipBack(" = ", t2);
    assert ReadValue(l.value + t3) == Some((e.value, t3));
    SkipBack("\n", rest);
    QuotedStarts(e.key);
  }

  lemma QuotedStarts(s: string)
    ensures |Quoted(s)| > 0 && Quoted(s)[0] == '"'
  {
  }

  lemma {:induction false} ReadKeyLinesBack(lines: seq<TomlLine>, entries: seq<Entry>, rest: string)
    requires AllHold(lines, entries) && (rest == "" || rest[0] != '"')
    ensures ReadKeyLines(Render(lines) + rest) == Some((entries, rest))
  {
    hide LineText, ReadKeyLine, Holds;
    if lines == [] {
      assert Render(lines) + rest == rest;
    } else {
      var more := Render(lines[1..]) + rest;
      assert Render(lines) + rest == LineText(lines[0]) + "\n" + more;
      assert Holds(lines[0], entries[0]);
      ReadKeyLineBack(lines[0], entries[0], more);
      ReadKeyLinesBack(lines[1..], entries[1..], rest);
      assert entries == [entries[0]] + entries[1..];
    }
  }

  // The resolved configuration.

  /** The two tables have to name the same ids in the same order. */
  function Combine(values: seq<Entry>, sources: seq<Entry>): Option<seq<Shown>> {
    if |values| == |sources| && forall i :: 0 <= i < |values| ==> values[i].key == sources[i].key && sources[i].value.Text? then
      Some(seq(|values|, i requires 0 <= i < |values| && |values| == |sources| && sources[i].value.Text? =>
        Shown(values[i].key, values[i].value, sources[i].value.s)))
    else None
  }

  function ReadToml(t: string): Option<seq<Shown>> {
    var r1 :- Skip("[values]\n", t);
    var (values, r2) :- ReadKeyLines(r1);
    var r3 :- Skip("\n[sources]\n", r2);
    var (sources, r4) :- ReadKeyLines(r3);
    if r4 == "" then Combine(values, sources) else None
  }

  function ValueEntries(values: seq<ResolvedValue>): seq<Entry>
    requires AllPrintable(values)
  {
    seq(|values|, i requires 0 <= i < |values| && AllPrintable(values) => Entry(values[i].id, ScalarOf(values[i].value)))
  }

  function SourceEntries(values: seq<ResolvedValue>): seq<Entry>
    requires AllPrintable(values)
  {
    seq(|values|, i requires 0 <= i < |values| && AllPrintable(values) => Entry(values[i].id, Text(SourceText(values[i]))))
  }

  lemma LinesHold(values: seq<ResolvedValue>)
    requires AllPrintable(values)
    ensures AllHold(ValueLines(values), ValueEntries(values)) && AllHold(SourceLines(values), SourceEntries(values))
  {
    hide ReadsAs, Quoted, ScalarText;
    forall i | 0 <= i < |values|
      ensures Holds(ValueLine(values[i]), Entry(values[i].id, ScalarOf(values[i].value)))
      ensures Holds(SourceLine(values[i]), Entry(values[i].id, Text(SourceText(values[i]))))
    {
      ScalarReadsAs(ScalarOf(values[i].value));
      TextReadsAs(SourceText(values[i]));
    }
  }

  lemma TextReadsAs(s: string)
    ensures ReadsAs(Quoted(s), Text(s))
  {
    hide ReadsAs;
    ScalarReadsAs(Text(s));
  }

  lemma CombinedIsShown(values: seq<ResolvedValue>)
    requires AllPrintable(values)
    ensures Combine(ValueEntries(values), SourceEntries(values)) == Some(ShowAll(values))
  {
    var combined := Combine(ValueEntries(values), SourceEntries(values));
    assert combined.Some? && |combined.value| == |values|;
    assert forall i :: 0 <= i < |values| ==> combined.value[i] == ShowAll(values)[i];
    assert combined.value == ShowAll(values);
  }

  /** The TOML text can be read back to what it shows. */
  lemma TomlRoundTrip(values: seq<ResolvedValue>)
    requires AllPrintable(values)
    ensures ReadToml(TomlText(values)) == Some(ShowAll(values))
  {
    hide ReadKeyLines, Render, AllHold, ValueLines, SourceLines, ValueEntries, SourceEntries, Combine, ShowAll;
    var v, s := Render(ValueLines(values)), Render(SourceLines(values));
    var t2 := "\n[sources]\n" + s;
    TomlTextParts(values);
    assert TomlText(values) == "[values]\n" + (v + t2);
    LinesHold(values);
    SkipBack("[values]\n", v + t2);
    ReadKeyLinesBack(ValueLines(values), ValueEntries(values), t2);
    SkipBack("\n[sources]\n", s);
    ReadKeyLinesBack(SourceLines(values), SourceEntries(values), "");
    assert s + "" == s;
    CombinedIsShown(values);
  }

  lemma ShownDeterminesLines(values: seq<ResolvedValue>, others: seq<ResolvedValue>)
    requires AllPrintable(values) && AllPrintable(others) && ShowAll(values) == ShowAll(others)
    ensures ConfigLines(values) == ConfigLines(others)
  {
    hide Quoted, ScalarText;
    assert |values| == |ShowAll(values)| == |others|;
    forall i | 0 <= i < |values|
      ensures ValueLine(values[i]) == ValueLine(others[i]) && SourceLine(values[i]) == SourceLine(others[i])
    {
      assert ShowAll(values)[i] == ShowAll(others)[i];
    }
    assert ValueLines(values) == ValueLines(others) && SourceLines(values) == SourceLines(others);
  }

  /**
   Two configurations have the same TOML text exactly when they show the same ids, values up to
   kind, and sources. JSON and TOML tell the same configurations apart.
   */
  lemma TomlDetermines(values: seq<ResolvedValue>, others: seq<ResolvedValue>)
    requires AllPrintable(values) && AllPrintable(others)
    ensures TomlText(values) == TomlText(others) <==> ShowAll(values) == ShowAll(others)
    ensures TomlText(values) == TomlText(others) <==> JsonText(values) == JsonText(others)
  {
    hide ReadToml, ShowAll, ConfigLines, Render, JsonText;
    TomlRoundTrip(values);
    TomlRoundTrip(others);
    JsonDetermines(values, others);
    if ShowAll(values) == ShowAll(others) {
      ShownDeterminesLines(values, others);
    }
  }

  // A saved profile.

  datatype SavedProfile = SavedProfile(name: string, base: Option<string>, target: Option<string>, values: seq<Entry>)

  function ReadOptional(key: string, t: string): Option<(Option<string>, string)> {
    if key + " = " <= t then
      var (s, r1) :- ReadQuoted(UnescapeStep, t[|key + " = "|..]);
      var r2 :- Skip("\n", r1);
      Some((Some(s), r2))
    else Some((None, t))
  }

  function ReadProfile(t: string): Option<SavedProfile> {
    var r1 :- Skip("[profile]\nname = ", t);
    var (name, r2) :- ReadQuoted(UnescapeStep, r1);
    var r3 :- Skip("\nschema_version = 1\n", r2);
    var (base, r4) :- ReadOptional("base", r3);
    var (target, r5) :- ReadOptional("target", r4);
    var r6 :- Skip("\n[values]\n", r5);
    var (values, r7) :- ReadKeyLines(r6);
    if r7 == "" then Some(SavedProfile(name, base, target, values)) else None
  }

  lemma ReadOptionalBack(key: string, value: Option<string>, rest: string)
    requires key != "" && rest != "" && rest[0] != key[0]
    ensures ReadOptional(key, OptionalText(key, value) + rest) == Some((value, rest))
    ensures var t := OptionalText(key, value) + rest; t != "" && (t[0] == key[0] || t[0] == rest[0])
  {
    hide Quoted, ReadQuoted;
    var t := OptionalText(key, value) + rest;
    if value.Some? {
      var r1 := "\n" + rest;
      var head := key + " = ";
      Regroup4(key, " = ", Quoted(value.value), "\n", rest);
      assert t == head + (Quoted(value.value) + r1);
      assert t[|head|..] == Quoted(value.value) + r1;
      ReadQuotedText(value.value, r1);
      SkipBack("\n", rest);
    } else {
      assert t == rest;
    }
  }

  function SavedEntries(ordered: seq<NamedValue>): seq<Entry>
    requires NoFloats(ordered)
  {
    seq(|ordered|, i requires 0 <= i < |ordered| && NoFloats(ordered) => Entry(ordered[i].id, ScalarOf(ordered[i].value)))
  }

  lemma SavedReadsAs(t: OptionType, v: Value)
    requires !v.Float?
    ensures ReadsAs(ProfileValueText(t, v), ScalarOf(v))
  {
    hide ReadsAs;
    if v.UInt? && t == HexType {
      HexReadsAs(v.u, false);
    } else {
      ScalarReadsAs(ScalarOf(v));
    }
  }

  /** Only unsigned values of hex options are written with the hexadecimal prefix. */
  lemma HexOnlyForHex(t: OptionType, v: Value)
    requires !v.Float?
    ensures "0x" <= ProfileValueText(t, v) <==> t == HexType && v.UInt?
  {
    hide ScalarText;
    if !(v.UInt? && t == HexType) {
      NotHex(ScalarOf(v), "\n");
      PrefixStays("0x", ProfileValueText(t, v), "\n");
    }
  }

  lemma PrefixStays(p: string, t: string, rest: string)
    ensures p <= t ==> p <= t + rest
  {
  }

  lemma SavedLinesHold(options: seq<ConfigOption>, ordered: seq<NamedValue>)
    requires AllSavable(options, ordered)
    ensures NoFloats(ordered) && AllHold(SavedLines(options, ordered), SavedEntries(ordered))
  {
    hide ReadsAs, Quoted, ProfileValueText, TypeOf;
    forall i | 0 <= i < |ordered|
      ensures Holds(SavedLine(options, ordered[i]), Entry(ordered[i].id, ScalarOf(ordered[i].value)))
    {
      SavedReadsAs(TypeOf(options, ordered[i].id).value, ordered[i].value);
    }
  }

  /** The saved text can be read back to name, base, target and every value, hexadecimal ones as numbers. */
  lemma ProfileRoundTrip(options: seq<ConfigOption>, profile: Profile, ordered: seq<NamedValue>)
    requires AllSavable(options, ordered)
    ensures NoFloats(ordered)
    ensures ReadProfile(Render(ProfileLines(options, profile, ordered)))
         == Some(SavedProfile(profile.name, profile.base, profile.target, SavedEntries(ordered)))
  {
    hide ReadKeyLines, Render, AllHold, SavedLines, SavedEntries, AllSavable, ProfileHead, OptionalText, ReadOptional, Quoted,
         ReadQuoted, NoFloats;
    SavedLinesHold(options, ordered);
    var lines := Render(SavedLines(options, ordered));
    var t5 := "\n[values]\n" + lines;
    var t4 := OptionalText("target", profile.target) + t5;
    var t3 := OptionalText("base", profile.base) + t4;
    var t2 := "\nschema_version = 1\n" + t3;
    ProfileTextParts(options, profile, ordered);
    SkipBack("[profile]\nname = ", Quoted(profile.name) + t2);
    ReadQuotedText(profile.name, t2);
    SkipBack("\nschema_version = 1\n", t3);
    ReadOptionalBack("target", profile.target, t5);
    ReadOptionalBack("base", profile.base, t4);
    SkipBack("\n[values]\n", lines);
    ReadKeyLinesBack(SavedLines(options, ordered), SavedEntries(ordered), "");
    assert lines + "" == lines;
  }

  lemma ProfileTextParts(options: seq<ConfigOption>, profile: Profile, ordered: seq<NamedValue>)
    requires AllSavable(options, ordered)
    ensures Render(ProfileLines(options, profile, ordered))
         == "[profile]\nname = " + (Quoted(profile.name) + ("\nschema_version = 1\n"
            + (OptionalText("base", profile.base) + (OptionalText("target", profile.target)
            + ("\n[values]\n" + Render(SavedLines(options, ordered)))))))
  {
    hide Render, SavedLines, AllSavable, ProfileHead, OptionalText, Quoted;
    var name := LineText(KeyLine("name", Quoted(profile.name))) + "\n";
    var b, t, lines := OptionalText("base", profile.base), OptionalText("target", profile.target),
                       Render(SavedLines(options, ordered));
    ProfileHeadParts(profile);
    RenderAppend(ProfileHead(profile), SavedLines(options, ordered));
    assert "" + "[profile]\n" == "[profile]\n";
    Regroup5("[profile]\n" + name, "schema_version = 1\n", b, t, "\n[values]\n", lines);
    NameLine(Quoted(profile.name), "schema_version = 1\n" + (b + (t + ("\n[values]\n" + lines))), b + (t + ("\n[values]\n" + lines)));
  }

  lemma NameLine(name: string, rest: string, after: string)
    requires rest == "schema_version = 1\n" + after
    ensures "[profile]\n" + ("name" + " = " + name + "\n") + rest
         == "[profile]\nname = " + (name + ("\nschema_version = 1\n" + after))
  {
    assert "[profile]\nname = " == "[profile]\n" + ("name" + " = ");
    assert "\nschema_version = 1\n" == "\n" + "schema_version = 1\n";
  }
}
