/** The printed texts spelled out, for texts that need no escapes. */
module PrintedShapes {
  import opened Model
  import opened Concat
  import opened Escapes
  import opened Numerals
  import opened Scalars
  import opened Literals
  import opened LuaRecords
  import opened ResolverSpec
  import opened ResolvedText

  function FlagValue(id: string, b: bool, source: string): ResolvedValue {
    Resolved(id, Bool(b), Some(source))
  }

  function InQuotes(s: string): string {
    "\"" + s + "\""
  }

  function Word(b: bool): string {
    if b then "true" else "false"
  }

  function FlagEntry(id: string, b: bool, source: string): string {
    "    {\"id\": " + (InQuotes(id) + (", \"value\": " + (Word(b) + (", \"source\": " + (InQuotes(source) + "}")))))
  }

  lemma FlagEntryText(id: string, b: bool, source: string)
    requires NeedsNoEscape(id) && NeedsNoEscape(source)
    ensures ENTRY_HEAD + (EntryText(FlagValue(id, b, source)) + "}") == FlagEntry(id, b, source)
  {
    hide Quoted, InQuotes;
    UnescapedQuoted(id);
    UnescapedQuoted(source);
    InQuotesOf(id);
    InQuotesOf(source);
    Behind(Quoted(id), VALUE_HEAD, Word(b), SOURCE_HEAD, Quoted(source), "}");
  }

  lemma Behind(a: string, b: string, c: string, d: string, e: string, f: string)
    ensures (a + (b + (c + (d + e)))) + f == a + (b + (c + (d + (e + f))))
  {
  }

  lemma InQuotesOf(s: string)
    ensures InQuotes(s) == "\"" + s + "\""
  {
  }

  /** The resolved JSON of two flags, character by character. */
  lemma JsonOfTwoFlags(id: string, b: bool, source: string, id2: string, b2: bool, source2: string)
    requires NeedsNoEscape(id) && NeedsNoEscape(source) && NeedsNoEscape(id2) && NeedsNoEscape(source2)
    ensures JsonText([FlagValue(id, b, source), FlagValue(id2, b2, source2)])
         == "{\n  \"schema\": \"confit-resolved-v1\",\n  \"values\": [\n"
            + (FlagEntry(id, b, source) + (",\n" + (FlagEntry(id2, b2, source2) + ("\n" + "  ]\n}\n"))))
  {
    hide EntryText, FlagEntry, EntriesText;
    var v, w := FlagValue(id, b, source), FlagValue(id2, b2, source2);
    FlagEntryText(id, b, source);
    FlagEntryText(id2, b2, source2);
    TwoEntries(v, w);
    EntryThen(EntryText(w), "}\n", "\n", "");
    EntryThen(EntryText(v), "},\n", ",\n", FlagEntry(id2, b2, source2) + "\n");
    assert "\n" + "" == "\n";
    Regroup(FlagEntry(id, b, source) + ",\n", FlagEntry(id2, b2, source2) + "\n", JSON_TAIL);
    Regroup(FlagEntry(id2, b2, source2), "\n", JSON_TAIL);
    Regroup(FlagEntry(id, b, source), ",\n", FlagEntry(id2, b2, source2) + "\n");
    Regroup(FlagEntry(id, b, source), ",\n", FlagEntry(id2, b2, source2) + ("\n" + JSON_TAIL));
  }

  lemma TwoEntries(v: ResolvedValue, w: ResolvedValue)
    requires IsPrintableValue(v) && IsPrintableValue(w)
    ensures EntriesText([v, w])
         == ENTRY_HEAD + (EntryText(v) + ("},\n" + (ENTRY_HEAD + (EntryText(w) + ("}\n" + "")))))
  {
    hide EntryText;
    assert [v, w][1..] == [w] && [w][1..] == [];
    assert EntriesText([]) == "";
    assert EntriesText([w]) == ENTRY_HEAD + (EntryText(w) + ("}\n" + ""));
  }

  lemma EntryThen(entry: string, end: string, rest: string, after: string)
    requires end == "}" + rest
    ensures ENTRY_HEAD + (entry + (end + after)) == (ENTRY_HEAD + (entry + "}")) + (rest + after)
  {
  }

  /** Upper-case hexadecimal digits. */
  lemma DigitsSpelled(d: nat)
    requires d < 16
    ensures Digit(d) == "0123456789ABCDEF"[d]
  {
  }

  /** The names of the option types. */
  lemma TypeNames()
    ensures TypeName(BoolType) == "bool" && TypeName(IntType) == "int" && TypeName(UIntType) == "uint"
    ensures TypeName(HexType) == "hex" && TypeName(StringType) == "string" && TypeName(EnumType) == "enum"
    ensures TypeName(FloatType) == "float" && TypeName(PathType) == "path"
  {
  }

  /** The Lua record of a flag, character by character. */
  lemma RecordOfFlag(b: bool, source: string)
    requires IsOrdinaryText(source)
    ensures RecordText(Bool(b), source, BoolType)
         == ("{ type = " + (InQuotes("bool") + (", value = " + Word(b))))
            + (", text = " + (InQuotes(Word(b)) + (", source = " + (InQuotes(source) + " }"))))
  {
    hide LuaString, InQuotes, CLiteral;
    LuaInQuotes("bool");
    LuaInQuotes(source);
    LuaInQuotes(Word(b));
  }

  lemma LuaInQuotes(s: string)
    requires IsOrdinaryText(s)
    ensures LuaString(s) == InQuotes(s)
  {
    hide LuaString, CLiteral;
    OrdinaryText(s);
  }
}
