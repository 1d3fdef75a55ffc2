/** The two printers of TOML texts, and the counts the scanner finds in what they print. */
module TomlPrinters {
  import opened Model
  import opened Text
  import opened Builder
  import opened Concat
  import opened Numerals
  import opened Escapes
  import opened Scalars
  import opened TomlSpec
  import opened TomlLines
  import opened ResolverSpec
  import opened ResolvedText

  // The resolved configuration.

  function ValueLine(v: ResolvedValue): TomlLine
    requires IsPrintableValue(v)
  {
    KeyLine(Quoted(v.id), ValueText(v.value))
  }

  function SourceLine(v: ResolvedValue): TomlLine
    requires IsPrintableValue(v)
  {
    KeyLine(Quoted(v.id), Quoted(SourceText(v)))
  }

  function ValueLines(values: seq<ResolvedValue>): (lines: seq<TomlLine>)
    requires AllPrintable(values)
    ensures |lines| == |values|
  {
    seq(|values|, i requires 0 <= i < |values| && AllPrintable(values) => ValueLine(values[i]))
  }

  function SourceLines(values: seq<ResolvedValue>): (lines: seq<TomlLine>)
    requires AllPrintable(values)
    ensures |lines| == |values|
  {
    seq(|values|, i requires 0 <= i < |values| && AllPrintable(values) => SourceLine(values[i]))
  }

  function ConfigLines(values: seq<ResolvedValue>): seq<TomlLine>
    requires AllPrintable(values)
  {
    [Header("[values]")] + (ValueLines(values) + ([Blank, Header("[sources]")] + SourceLines(values)))
  }

  function TomlText(values: seq<ResolvedValue>): string
    requires AllPrintable(values)
  {
    Render(ConfigLines(values))
  }

  /** One more printed line. */
  lemma RenderNext(lines: seq<TomlLine>, i: nat)
    requires i < |lines|
    ensures Render(lines[..i + 1]) == Render(lines[..i]) + (LineText(lines[i]) + "\n")
  {
    assert lines[..i + 1] == lines[..i] + [lines[i]];
    RenderAppend(lines[..i], [lines[i]]);
    RenderOne(lines[i]);
  }

  lemma RenderNothing()
    ensures Render([]) == ""
  {
  }

  lemma KeyLineParts(before: string, key: string, value: string)
    ensures before + key + " = " + value + "\n" == before + (LineText(KeyLine(key, value)) + "\n")
  {
  }

  method AppendKeyLine(b: TextBuilder, key: string, value: Value)
    requires b.Valid() && !value.Float?
    modifies b, b.text
    ensures b.Valid() && (b.text == old(b.text) || fresh(b.text))
    ensures b.Contents() == old(b.Contents()) + (LineText(KeyLine(Quoted(key), ValueText(value))) + "\n")
  {
    hide TextBuilder.Valid, TextBuilder.Contents, Quoted, ValueText, LineText;
    AppendEscaped(b, key);
    b.Append(" = ");
    AppendValue(b, value);
    b.Append("\n");
    KeyLineParts(old(b.Contents()), Quoted(key), ValueText(value));
  }

  method AppendTextLine(b: TextBuilder, key: string, value: string)
    requires b.Valid()
    modifies b, b.text
    ensures b.Valid() && (b.text == old(b.text) || fresh(b.text))
    ensures b.Contents() == old(b.Contents()) + (LineText(KeyLine(key, Quoted(value))) + "\n")
  {
    hide TextBuilder.Valid, TextBuilder.Contents, Quoted, LineText;
    b.Append(key);
    b.Append(" = ");
    AppendEscaped(b, value);
    b.Append("\n");
    KeyLineParts(old(b.Contents()), key, Quoted(value));
  }

  method AppendValueLines(b: TextBuilder, values: seq<ResolvedValue>)
    requires b.Valid() && AllPrintable(values)
    modifies b, b.text
    ensures b.Valid() && (b.text == old(b.text) || fresh(b.text))
    ensures b.Contents() == old(b.Contents()) + Render(ValueLines(values))
  {
    hide TextBuilder.Valid, TextBuilder.Contents, Render, LineText;
    ghost var lines := ValueLines(values);
    RenderNothing();
    assert lines[..0] == [] && lines[..|lines|] == lines;
    for index := 0 to |values|
      invariant b.Valid() && (b.text == old(b.text) || fresh(b.text))
      invariant b.Contents() == old(b.Contents()) + Render(lines[..index])
    {
      RenderNext(lines, index);
      AppendKeyLine(b, values[index].id, values[index].value);
    }
  }

  method AppendSourceLines(b: TextBuilder, values: seq<ResolvedValue>)
    requires b.Valid() && AllPrintable(values)
    modifies b, b.text
    ensures b.Valid() && (b.text == old(b.text) || fresh(b.text))
    ensures b.Contents() == old(b.Contents()) + Render(SourceLines(values))
  {
    hide TextBuilder.Valid, TextBuilder.Contents, Render, LineText, Quoted;
    ghost var lines := SourceLines(values);
    RenderNothing();
    assert lines[..0] == [] && lines[..|lines|] == lines;
    for index := 0 to |values|
      invariant b.Valid() && (b.text == old(b.text) || fresh(b.text))
      invariant b.Contents() == old(b.Contents()) + Render(lines[..index])
    {
      RenderNext(lines, index);
      var v := values[index];
      AppendKeyLine(b, v.id, Str(if v.source.Some? then v.source.value else ""));
      StringValue(SourceText(v));
    }
  }

  lemma StringValue(s: string)
    ensures ValueText(Str(s)) == Quoted(s)
  {
  }

  method ToToml(values: seq<ResolvedValue>) returns (toml: string)
    requires AllPrintable(values)
    ensures toml == TomlText(values)
  {
    hide TextBuilder.Valid, TextBuilder.Contents, Render;
    var b := new TextBuilder(256);
    b.Append("[values]\n");
    AppendValueLines(b, values);
    b.Append("\n[sources]\n");
    AppendSourceLines(b, values);
    toml := b.Text();
    TomlTextParts(values);
  }

  lemma TomlTextParts(values: seq<ResolvedValue>)
    requires AllPrintable(values)
    ensures TomlText(values) == "" + "[values]\n" + Render(ValueLines(values)) + "\n[sources]\n" + Render(SourceLines(values))
  {
    hide Render;
    RenderAppend([Header("[values]")], ValueLines(values) + ([Blank, Header("[sources]")] + SourceLines(values)));
    RenderAppend(ValueLines(values), [Blank, Header("[sources]")] + SourceLines(values));
    RenderAppend([Blank, Header("[sources]")], SourceLines(values));
    RenderOne(Header("[values]"));
    RenderTwo(Blank, Header("[sources]"));
    assert "" + "\n" + "[sources]" + "\n" == "\n[sources]\n";
    assert "[values]" + "\n" == "[values]\n";
    Regroup5("", "[values]\n", Render(ValueLines(values)), "\n[sources]\n", Render(SourceLines(values)), "");
  }

  lemma RenderTwo(l: TomlLine, m: TomlLine)
    ensures Render([l, m]) == LineText(l) + "\n" + LineText(m) + "\n"
  {
    assert [l, m] == [l] + [m];
    RenderAppend([l], [m]);
    RenderOne(l);
    RenderOne(m);
  }

  /** The scanner accepts every printed configuration: 2 tables, 2n keys, 2n + 3 lines. */
  lemma TomlTextIsAccepted(values: seq<ResolvedValue>)
    requires AllPrintable(values)
    ensures Scan(TomlText(values)) == Accepted(Counts(2 * |values| + 3, 2, 2 * |values|))
  {
    hide Scan, Render, IsGoodLine;
    var lines := ConfigLines(values);
    forall i | 0 <= i < |lines|
      ensures IsGoodLine(lines[i])
    {
      ConfigLineIsGood(values, i);
    }
    RenderedIsAccepted(lines);
    ConfigCounts(values);
  }

  lemma ConfigLineIsGood(values: seq<ResolvedValue>, i: nat)
    requires AllPrintable(values) && i < |ConfigLines(values)|
    ensures IsGoodLine(ConfigLines(values)[i])
  {
    hide IsGoodKey, IsGoodValue, IsGoodHeader, Quoted, ScalarText;
    var n := |values|;
    if i == 0 {
      HeaderIsGood("values");
    } else if i <= n {
      QuotedIsGoodKey(values[i - 1].id);
      ScalarIsGoodValue(ScalarOf(values[i - 1].value));
    } else if i == n + 1 {
    } else if i == n + 2 {
      HeaderIsGood("sources");
    } else {
      QuotedIsGoodKey(values[i - n - 3].id);
      QuotedIsGoodValue(SourceText(values[i - n - 3]));
    }
  }

  lemma HeaderIsGood(name: string)
    requires name in {"values", "sources", "profile"}
    ensures IsGoodHeader("[" + name + "]")
    ensures name == "values" ==> "[" + name + "]" == "[values]"
    ensures name == "sources" ==> "[" + name + "]" == "[sources]"
    ensures name == "profile" ==> "[" + name + "]" == "[profile]"
  {
    hide IsGoodHeader;
    PlainHeader(name);
  }

  lemma ConfigCounts(values: seq<ResolvedValue>)
    requires AllPrintable(values)
    ensures var lines := ConfigLines(values);
            |lines| == 2 * |values| + 3 && CountTables(lines) == 2 && CountKeys(lines) == 2 * |values|
  {
    var rest := [Blank, Header("[sources]")] + SourceLines(values);
    KeyLinesOnly(ValueLines(values));
    KeyLinesOnly(SourceLines(values));
    CountsAppend([Header("[values]")], ValueLines(values) + rest);
    CountsAppend(ValueLines(values), rest);
    CountsAppend([Blank, Header("[sources]")], SourceLines(values));
    HeaderCounts("[values]");
    HeaderCounts("[sources]");
  }

  // A saved profile.

  /** Unsigned values of hex options are printed in hexadecimal without padding. */
  function ProfileValueText(t: OptionType, v: Value): string
    requires !v.Float?
  {
    if v.UInt? && t == HexType then HexText(v.u, false) else ValueText(v)
  }

  /** The type of the first option with this id. */
  function TypeOf(options: seq<ConfigOption>, id: string): (t: Option<OptionType>)
    ensures t.None? <==> forall i :: 0 <= i < |options| ==> options[i].id != id
  {
    if options == [] then None
    else if options[0].id == id then Some(options[0].optionType)
    else
      var t := TypeOf(options[1..], id);
      assert forall i :: 0 < i < |options| ==> options[i] == options[1..][i - 1];
      assert forall i :: 0 <= i < |options[1..]| ==> options[1..][i] == options[i + 1];
      t
  }

  /** A value that can be saved: its option is known and it is not empty. */
  predicate IsSavable(options: seq<ConfigOption>, v: NamedValue) {
    TypeOf(options, v.id).Some? && !v.value.Empty?
  }

  ghost predicate NoFloats(values: seq<NamedValue>) {
    forall i :: 0 <= i < |values| ==> !values[i].value.Float?
  }

  function SavedLine(options: seq<ConfigOption>, v: NamedValue): TomlLine
    requires IsSavable(options, v) && !v.value.Float?
  {
    KeyLine(Quoted(v.id), ProfileValueText(TypeOf(options, v.id).value, v.value))
  }

  ghost predicate AllSavable(options: seq<ConfigOption>, values: seq<NamedValue>) {
    forall i :: 0 <= i < |values| ==> IsSavable(options, values[i]) && !values[i].value.Float?
  }

  function SavedLines(options: seq<ConfigOption>, values: seq<NamedValue>): (lines: seq<TomlLine>)
    requires AllSavable(options, values)
    ensures |lines| == |values|
  {
    seq(|values|, i requires 0 <= i < |values| && AllSavable(options, values) => SavedLine(options, values[i]))
  }

  function OptionalLine(key: string, value: Option<string>): seq<TomlLine> {
    if value.Some? then [KeyLine(key, Quoted(value.value))] else []
  }

  function ProfileHead(profile: Profile): seq<TomlLine> {
    [Header("[profile]"), KeyLine("name", Quoted(profile.name)), KeyLine("schema_version", "1")]
    + OptionalLine("base", profile.base) + OptionalLine("target", profile.target) + [Blank, Header("[values]")]
  }

  /** The saved text for one order of the values. */
  function ProfileLines(options: seq<ConfigOption>, profile: Profile, ordered: seq<NamedValue>): seq<TomlLine>
    requires AllSavable(options, ordered)
  {
    ProfileHead(profile) + SavedLines(options, ordered)
  }

  function NamedId(v: NamedValue): string {
    v.id
  }

  method FindOptionType(options: seq<ConfigOption>, id: string) returns (t: Option<OptionType>)
    ensures t == TypeOf(options, id)
  {
    assert options[0..] == options;
    for index := 0 to |options|
      invariant TypeOf(options[index..], id) == TypeOf(options, id)
    {
      assert options[index..][1..] == options[index + 1..];
      if options[index].id == id {
        return Some(options[index].optionType);
      }
    }
    return None;
  }

  method AppendSavedValue(b: TextBuilder, options: seq<ConfigOption>, v: NamedValue) returns (status: Status)
    requires b.Valid() && !v.value.Float?
    modifies b, b.text
    ensures b.Valid() && (b.text == old(b.text) || fresh(b.text))
    ensures status == if IsSavable(options, v) then Ok else SchemaError
    ensures status == Ok ==> b.Contents() == old(b.Contents()) + (LineText(SavedLine(options, v)) + "\n")
  {
    hide TextBuilder.Valid, TextBuilder.Contents, TypeOf, Quoted, ProfileValueText, LineText;
    var t := FindOptionType(options, v.id);
    if t.None? {
      return SchemaError;
    }
    AppendEscaped(b, v.id);
    b.Append(" = ");
    status := AppendProfileValue(b, t.value, v.value);
    if status != Ok {
      return;
    }
    b.Append("\n");
    KeyLineParts(old(b.Contents()), Quoted(v.id), ProfileValueText(t.value, v.value));
  }

  method AppendProfileValue(b: TextBuilder, t: OptionType, v: Value) returns (status: Status)
    requires b.Valid() && !v.Float?
    modifies b, b.text
    ensures b.Valid() && (b.text == old(b.text) || fresh(b.text))
    ensures status == if v.Empty? then SchemaError else Ok
    ensures status == Ok ==> b.Contents() == old(b.Contents()) + ProfileValueText(t, v)
  {
    hide TextBuilder.Valid, TextBuilder.Contents, ValueText, HexText;
    if v.Empty? {
      return SchemaError;
    }
    if v.UInt? && t == HexType {
      AppendHexUInt64(b, v.u, false);
    } else {
      AppendValue(b, v);
    }
    return Ok;
  }

  function OptionalText(key: string, value: Option<string>): string {
    if value.Some? then LineText(KeyLine(key, Quoted(value.value))) + "\n" else ""
  }

  method AppendOptionalLine(b: TextBuilder, key: string, value: Option<string>)
    requires b.Valid()
    modifies b, b.text
    ensures b.Valid() && (b.text == old(b.text) || fresh(b.text))
    ensures b.Contents() == old(b.Contents()) + OptionalText(key, value)
  {
    hide TextBuilder.Valid, TextBuilder.Contents, Quoted, LineText;
    if value.Some? {
      AppendTextLine(b, key, value.value);
    }
  }

  method AppendProfileHead(b: TextBuilder, profile: Profile)
    requires b.Valid() && b.Contents() == ""
    modifies b, b.text
    ensures b.Valid() && (b.text == old(b.text) || fresh(b.text))
    ensures b.Contents() == Render(ProfileHead(profile))
  {
    hide TextBuilder.Valid, TextBuilder.Contents, Quoted, Render, LineText, OptionalText, ProfileHead;
    b.Append("[profile]\n");
    AppendTextLine(b, "name", profile.name);
    b.Append("schema_version = 1\n");
    AppendOptionalLine(b, "base", profile.base);
    AppendOptionalLine(b, "target", profile.target);
    b.Append("\n[values]\n");
    ProfileHeadParts(profile);
  }

  lemma OptionalRender(key: string, value: Option<string>)
    ensures Render(OptionalLine(key, value)) == OptionalText(key, value)
  {
    if value.Some? {
      RenderOne(KeyLine(key, Quoted(value.value)));
    }
  }

  lemma ProfileHeadParts(profile: Profile)
    ensures Render(ProfileHead(profile))
         == "" + "[profile]\n" + (LineText(KeyLine("name", Quoted(profile.name))) + "\n") + "schema_version = 1\n"
            + OptionalText("base", profile.base) + OptionalText("target", profile.target) + "\n[values]\n"
  {
    hide Render, OptionalLine, OptionalText, Quoted;
    var name := KeyLine("name", Quoted(profile.name));
    var version := KeyLine("schema_version", "1");
    var b, t := OptionalLine("base", profile.base), OptionalLine("target", profile.target);
    var start := [Header("[profile]"), name, version];
    RenderAppend(start + b + t, [Blank, Header("[values]")]);
    RenderAppend(start + b, t);
    RenderAppend(start, b);
    assert start == [Header("[profile]"), name] + [version];
    RenderAppend([Header("[profile]"), name], [version]);
    RenderTwo(Header("[profile]"), name);
    RenderOne(version);
    RenderTwo(Blank, Header("[values]"));
    OptionalRender("base", profile.base);
    OptionalRender("target", profile.target);
    assert LineText(version) + "\n" == "schema_version = 1\n";
    assert "" + "\n" + "[values]" + "\n" == "\n[values]\n";
    assert "" + "[profile]\n" == "[profile]" + "\n";
    Regroup("[profile]" + "\n", LineText(name), "\n");
  }

  /**
   Saves a profile with its values sorted by id. It succeeds exactly when every value can be saved.
   The order of values with equal ids is the one the sort leaves.
   */
  method BuildProfileToml(options: seq<ConfigOption>, profile: Profile)
    returns (status: Status, text: string, ghost ordered: seq<NamedValue>)
    requires NoFloats(profile.values)
    ensures status == Ok || status == SchemaError
    ensures status == Ok <==> AllSavable(options, profile.values)
    ensures status == Ok ==>
      && multiset(ordered) == multiset(profile.values) && Sorted(NamedId, ordered) && AllSavable(options, ordered)
      && text == Render(ProfileLines(options, profile, ordered))
  {
    hide TextBuilder.Valid, TextBuilder.Contents, Render, ProfileHead, AllSavable, SavedLines, NoFloats, Sorted;
    text := "";
    var sorted := new NamedValue[|profile.values|](i requires 0 <= i < |profile.values| => profile.values[i]);
    assert sorted[..] == profile.values;
    SortByKey(sorted, NamedId);
    ordered := sorted[..];
    SameValues(options, profile.values, ordered);
    var b := new TextBuilder(512);
    AppendProfileHead(b, profile);
    status := AppendSavedValues(b, options, sorted[..]);
    if status != Ok {
      return;
    }
    RenderAppend(ProfileHead(profile), SavedLines(options, ordered));
    text := b.Text();
  }

  method AppendSavedValues(b: TextBuilder, options: seq<ConfigOption>, ordered: seq<NamedValue>) returns (status: Status)
    requires b.Valid() && NoFloats(ordered)
    modifies b, b.text
    ensures b.Valid() && (b.text == old(b.text) || fresh(b.text))
    ensures status == Ok || status == SchemaError
    ensures status == Ok <==> AllSavable(options, ordered)
    ensures status == Ok ==> b.Contents() == old(b.Contents()) + Render(SavedLines(options, ordered))
  {
    hide TextBuilder.Valid, TextBuilder.Contents, Render, LineText, IsSavable, SavedLine;
    RenderNothing();
    assert ordered[..0] == [];
    for index := 0 to |ordered|
      invariant b.Valid() && (b.text == old(b.text) || fresh(b.text))
      invariant AllSavable(options, ordered[..index])
      invariant b.Contents() == old(b.Contents()) + Render(SavedLines(options, ordered[..index]))
    {
      status := AppendSavedValue(b, options, ordered[index]);
      if status != Ok {
        return;
      }
      SavedLinesNext(options, ordered, index);
    }
    assert ordered[..|ordered|] == ordered;
    status := Ok;
  }

  lemma SavedLinesNext(options: seq<ConfigOption>, ordered: seq<NamedValue>, i: nat)
    requires i < |ordered| && AllSavable(options, ordered[..i])
    requires IsSavable(options, ordered[i]) && !ordered[i].value.Float?
    ensures AllSavable(options, ordered[..i + 1])
    ensures Render(SavedLines(options, ordered[..i + 1]))
         == Render(SavedLines(options, ordered[..i])) + (LineText(SavedLine(options, ordered[i])) + "\n")
  {
    hide Render, LineText, SavedLine, IsSavable;
    var shorter, longer := ordered[..i], ordered[..i + 1];
    assert longer == shorter + [ordered[i]];
    assert SavedLines(options, longer) == SavedLines(options, shorter) + [SavedLine(options, ordered[i])];
    RenderAppend(SavedLines(options, shorter), [SavedLine(options, ordered[i])]);
    RenderOne(SavedLine(options, ordered[i]));
  }

  lemma SameValues(options: seq<ConfigOption>, values: seq<NamedValue>, ordered: seq<NamedValue>)
    requires multiset(values) == multiset(ordered)
    ensures AllSavable(options, values) <==> AllSavable(options, ordered)
    ensures NoFloats(values) <==> NoFloats(ordered)
  {
    hide AllSavable, NoFloats;
    forall v
      ensures v in values <==> v in ordered
    {
      assert v in values <==> v in multiset(values);
    }
    SomeOfSavable(options, values, ordered);
    SomeOfSavable(options, ordered, values);
  }

  lemma SomeOfSavable(options: seq<ConfigOption>, some: seq<NamedValue>, values: seq<NamedValue>)
    requires forall v :: v in some ==> v in values
    ensures AllSavable(options, values) ==> AllSavable(options, some)
    ensures NoFloats(values) ==> NoFloats(some)
  {
    hide IsSavable;
    assert forall i :: 0 <= i < |some| ==> some[i] in values;
  }

  /** A base and a target are optional lines. */
  function Extras(profile: Profile): nat {
    (if profile.base.Some? then 1 else 0) + (if profile.target.Some? then 1 else 0)
  }

  /** The scanner accepts every saved profile, with these counts. */
  lemma ProfileTextIsAccepted(options: seq<ConfigOption>, profile: Profile, ordered: seq<NamedValue>)
    requires AllSavable(options, ordered)
    ensures Scan(Render(ProfileLines(options, profile, ordered)))
         == Accepted(Counts(5 + |ordered| + Extras(profile), 2, 2 + |ordered| + Extras(profile)))
  {
    hide Scan, Render, IsGoodLine, ProfileHead, SavedLines, AllSavable;
    var lines := ProfileLines(options, profile, ordered);
    var n := |ProfileHead(profile)|;
    forall i | 0 <= i < |lines|
      ensures IsGoodLine(lines[i])
    {
      if i < n {
        ProfileHeadIsGood(profile, i);
      } else {
        SavedLineIsGood(options, ordered, i - n);
      }
    }
    RenderedIsAccepted(lines);
    CountsAppend(ProfileHead(profile), SavedLines(options, ordered));
    ProfileHeadCounts(profile);
    SavedLineCounts(options, ordered);
  }

  lemma SavedLineCounts(options: seq<ConfigOption>, values: seq<NamedValue>)
    requires AllSavable(options, values)
    ensures CountTables(SavedLines(options, values)) == 0 && CountKeys(SavedLines(options, values)) == |values|
  {
    KeyLinesOnly(SavedLines(options, values));
  }

  lemma SavedLineIsGood(options: seq<ConfigOption>, values: seq<NamedValue>, i: nat)
    requires AllSavable(options, values) && i < |values|
    ensures IsGoodLine(SavedLines(options, values)[i])
  {
    hide IsGoodKey, IsGoodValue, Quoted, ScalarText, HexText;
    QuotedIsGoodKey(values[i].id);
    if values[i].value.UInt? {
      HexIsGoodValue(values[i].value.u, false);
    }
    ScalarIsGoodValue(ScalarOf(values[i].value));
  }

  lemma OptionalLineIsGood(key: string, value: Option<string>, i: nat)
    requires IsGoodKey(key) && i < |OptionalLine(key, value)|
    ensures IsGoodLine(OptionalLine(key, value)[i])
  {
    hide IsGoodKey, IsGoodValue, Quoted;
    QuotedIsGoodValue(value.value);
  }

  lemma BareKeysAreGood()
    ensures IsGoodKey("name") && IsGoodKey("schema_version") && IsGoodKey("base") && IsGoodKey("target")
    ensures IsGoodValue("1")
  {
    hide IsGoodKey, IsGoodValue;
    PlainIsGood("name");
    PlainIsGood("schema_version");
    PlainIsGood("base");
    PlainIsGood("target");
    PlainIsGood("1");
  }

  lemma ProfileHeadIsGood(profile: Profile, i: nat)
    requires i < |ProfileHead(profile)|
    ensures IsGoodLine(ProfileHead(profile)[i])
  {
    hide IsGoodKey, IsGoodValue, IsGoodHeader, Quoted, OptionalLine;
    BareKeysAreGood();
    QuotedIsGoodValue(profile.name);
    HeaderIsGood("profile");
    HeaderIsGood("values");
    var b, t := |OptionalLine("base", profile.base)|, |OptionalLine("target", profile.target)|;
    if 3 <= i < 3 + b {
      OptionalLineIsGood("base", profile.base, i - 3);
    } else if 3 + b <= i < 3 + b + t {
      OptionalLineIsGood("target", profile.target, i - 3 - b);
    }
  }

  lemma ProfileHeadCounts(profile: Profile)
    ensures |ProfileHead(profile)| == 5 + Extras(profile)
    ensures CountTables(ProfileHead(profile)) == 2 && CountKeys(ProfileHead(profile)) == 2 + Extras(profile)
  {
    var b, t := OptionalLine("base", profile.base), OptionalLine("target", profile.target);
    var name := KeyLine("name", Quoted(profile.name));
    var start := [Header("[profile]"), name, KeyLine("schema_version", "1")];
    CountsAppend(start + b + t, [Blank, Header("[values]")]);
    CountsAppend(start + b, t);
    CountsAppend(start, b);
    KeyLinesOnly(b);
    KeyLinesOnly(t);
    assert start == [Header("[profile]")] + [name, KeyLine("schema_version", "1")];
    CountsAppend([Header("[profile]")], [name, KeyLine("schema_version", "1")]);
    KeyLinesOnly([name, KeyLine("schema_version", "1")]);
    HeaderCounts("[profile]");
    HeaderCounts("[values]");
  }

  lemma HeaderCounts(text: string)
    ensures CountTables([Header(text)]) == 1 && CountKeys([Header(text)]) == 0
    ensures CountTables([Blank, Header(text)]) == 1 && CountKeys([Blank, Header(text)]) == 0
  {
    assert [Blank, Header(text)][1..] == [Header(text)];
    assert [Header(text)][1..] == [];
  }
}
