/** The JSON and TOML texts of a resolved configuration, and the hash of the JSON text. */
module ResolvedText {
  import opened Model
  import opened Builder
  import opened Concat
  import opened Numerals
  import opened Escapes
  import opened Scalars
  import opened ResolverSpec

  /** Entries the printers accept here: seeded slots without floating-point values. */
  predicate IsPrintableValue(v: ResolvedValue) {
    v.Resolved? && !v.value.Float?
  }

  ghost predicate AllPrintable(values: seq<ResolvedValue>) {
    forall i :: 0 <= i < |values| ==> IsPrintableValue(values[i])
  }

  function SourceText(v: ResolvedValue): string
    requires v.Resolved?
  {
    if v.source.Some? then v.source.value else ""
  }

  function ValueText(v: Value): string
    requires !v.Float?
  {
    ScalarText(EscapeChar, "null", ScalarOf(v))
  }

  method AppendValue(b: TextBuilder, v: Value)
    requires b.Valid() && !v.Float?
    modifies b, b.text
    ensures b.Valid() && (b.text == old(b.text) || fresh(b.text))
    ensures b.Contents() == old(b.Contents()) + ValueText(v)
  {
    hide TextBuilder.Valid, TextBuilder.Contents, IntText, Quote;
    match v {
      case Bool(flag) =>
        b.Append(if flag then "true" else "false");
      case Int(i) =>
        AppendInt64(b, i);
      case UInt(u) =>
        AppendUInt64(b, u);
        UnsignedIsInt(u);
      case Str(text) =>
        AppendEscaped(b, text);
      case Enum(text) =>
        AppendEscaped(b, text);
      case Path(text) =>
        AppendEscaped(b, text);
      case Empty =>
        b.Append("null");
    }
  }

  // JSON.

  const JSON_HEAD := "{\n  \"schema\": \"confit-resolved-v1\",\n  \"values\": [\n"
  const JSON_TAIL := "  ]\n}\n"
  const ENTRY_HEAD := "    {\"id\": "
  const VALUE_HEAD := ", \"value\": "
  const SOURCE_HEAD := ", \"source\": "

  function EntryText(v: ResolvedValue): string
    requires IsPrintableValue(v)
  {
    Quoted(v.id) + (VALUE_HEAD + (ValueText(v.value) + (SOURCE_HEAD + Quoted(SourceText(v)))))
  }

  function EntryEnd(last: bool): string {
    if last then "}\n" else "},\n"
  }

  function EntriesText(values: seq<ResolvedValue>): string
    requires AllPrintable(values)
  {
    if values == [] then ""
    else ENTRY_HEAD + (EntryText(values[0]) + (EntryEnd(|values| == 1) + EntriesText(values[1..])))
  }

  function JsonText(values: seq<ResolvedValue>): string
    requires AllPrintable(values)
  {
    JSON_HEAD + (EntriesText(values) + JSON_TAIL)
  }

  method AppendEntry(b: TextBuilder, v: ResolvedValue)
    requires b.Valid() && IsPrintableValue(v)
    modifies b, b.text
    ensures b.Valid() && (b.text == old(b.text) || fresh(b.text))
    ensures b.Contents() == old(b.Contents()) + EntryText(v)
  {
    hide TextBuilder.Valid, TextBuilder.Contents, Quoted, ValueText;
    AppendEscaped(b, v.id);
    b.Append(VALUE_HEAD);
    AppendValue(b, v.value);
    b.Append(SOURCE_HEAD);
    AppendEscaped(b, if v.source.Some? then v.source.value else "");
    Regroup5(old(b.Contents()), Quoted(v.id), VALUE_HEAD, ValueText(v.value), SOURCE_HEAD, Quoted(SourceText(v)));
  }

  method ToJson(values: seq<ResolvedValue>) returns (json: string)
    requires AllPrintable(values)
    ensures json == JsonText(values)
  {
    hide TextBuilder.Valid, TextBuilder.Contents, EntriesText, EntryText;
    var b := new TextBuilder(256);
    b.Append(JSON_HEAD);
    assert values[0..] == values && b.Contents() == JSON_HEAD;
    for index := 0 to |values|
      invariant b.Valid() && fresh(b) && fresh(b.text)
      invariant b.Contents() + EntriesText(values[index..]) == JSON_HEAD + EntriesText(values)
    {
      ghost var before := b.Contents();
      var comma := if index + 1 < |values| then ",\n" else "\n";
      EntriesStep(values, index);
      b.Append(ENTRY_HEAD);
      AppendEntry(b, values[index]);
      b.Append("}");
      b.Append(comma);
      Regroup5(before, ENTRY_HEAD, EntryText(values[index]), "}", comma, EntriesText(values[index + 1..]));
    }
    NoEntries(values);
    b.Append(JSON_TAIL);
    json := b.Text();
    Regroup(JSON_HEAD, EntriesText(values), JSON_TAIL);
  }

  lemma EntriesStep(values: seq<ResolvedValue>, i: nat)
    requires AllPrintable(values) && i < |values|
    ensures EntriesText(values[i..])
         == ENTRY_HEAD + (EntryText(values[i])
            + ("}" + ((if i + 1 < |values| then ",\n" else "\n") + EntriesText(values[i + 1..]))))
  {
    hide EntryText;
    assert values[i..][1..] == values[i + 1..];
    Regroup("}", if i + 1 < |values| then ",\n" else "\n", EntriesText(values[i + 1..]));
    assert EntryEnd(i + 1 == |values|) == "}" + (if i + 1 < |values| then ",\n" else "\n");
  }

  lemma NoEntries(values: seq<ResolvedValue>)
    requires AllPrintable(values)
    ensures EntriesText(values[|values|..]) == ""
  {
  }
}
