/** One resolved value as a Lua record with its type, value, text and source. */
module LuaRecords {
  import opened Model
  import opened Builder
  import opened Concat
  import opened Numerals
  import opened Escapes
  import opened Literals
  import opened Scalars

  function TypeName(t: OptionType): string {
    match t
    case InvalidType => "invalid"
    case BoolType => "bool"
    case IntType => "int"
    case UIntType => "uint"
    case HexType => "hex"
    case StringType => "string"
    case EnumType => "enum"
    case FloatType => "float"
    case PathType => "path"
  }

  /** Values of this part of the model: no floating point, texts of bytes. */
  ghost predicate IsLuaPrintable(v: Value) {
    !v.Float? && (IsText(v) ==> IsByteText(v.text))
  }

  /** The text form: an unquoted payload, hexadecimal for hex options. */
  function ValueAsText(v: Value, t: OptionType): string
    requires !v.Float?
  {
    match v
    case Bool(flag) => FlagText(flag)
    case Int(i) => IntText(i)
    case UInt(u) => if t == HexType then HexText(u, true) else UIntText(u)
    case Str(text) => TextPayload(text)
    case Enum(text) => TextPayload(text)
    case Path(text) => TextPayload(text)
    case Empty => ""
  }

  function LuaValue(v: Value): string
    requires !v.Float?
  {
    ScalarText(LuaSpelling, "nil", ScalarOf(v))
  }

  const TYPE_HEAD := "{ type = "
  const VALUE_FIELD := ", value = "
  const TEXT_FIELD := ", text = "
  const SOURCE_FIELD := ", source = "
  const RECORD_TAIL := " }"

  function RecordText(v: Value, source: string, t: OptionType): string
    requires !v.Float?
  {
    TypedValueText(v, t) + TextSourceText(ValueAsText(v, t), source)
  }

  function TypedValueText(v: Value, t: OptionType): string
    requires !v.Float?
  {
    TYPE_HEAD + (LuaString(TypeName(t)) + (VALUE_FIELD + LuaValue(v)))
  }

  function TextSourceText(text: string, source: string): string {
    TEXT_FIELD + (LuaString(text) + (SOURCE_FIELD + (LuaString(source) + RECORD_TAIL)))
  }

  method AppendTypedValue(b: TextBuilder, v: Value, t: OptionType)
    requires b.Valid() && IsLuaPrintable(v)
    modifies b, b.text
    ensures b.Valid() && (b.text == old(b.text) || fresh(b.text))
    ensures b.Contents() == old(b.Contents()) + TypedValueText(v, t)
  {
    hide TextBuilder.Valid, TextBuilder.Contents, LuaString, LuaValue, TypeName, IsByteText;
    NameIsByteText(t);
    b.Append(TYPE_HEAD);
    AppendLuaString(b, TypeName(t));
    b.Append(VALUE_FIELD);
    AppendLuaValue(b, v);
    Regroup4(old(b.Contents()), TYPE_HEAD, LuaString(TypeName(t)), VALUE_FIELD, LuaValue(v));
  }

  method AppendTextSource(b: TextBuilder, text: string, source: string)
    requires b.Valid() && IsByteText(text) && IsByteText(source)
    modifies b, b.text
    ensures b.Valid() && (b.text == old(b.text) || fresh(b.text))
    ensures b.Contents() == old(b.Contents()) + TextSourceText(text, source)
  {
    hide TextBuilder.Valid, TextBuilder.Contents, LuaString, IsByteText;
    b.Append(TEXT_FIELD);
    AppendLuaString(b, text);
    b.Append(SOURCE_FIELD);
    AppendLuaString(b, source);
    b.Append(RECORD_TAIL);
    Regroup5(old(b.Contents()), TEXT_FIELD, LuaString(text), SOURCE_FIELD, LuaString(source), RECORD_TAIL);
  }

  method AppendTextValue(b: TextBuilder, v: Value, t: OptionType)
    requires b.Valid() && IsLuaPrintable(v)
    modifies b, b.text
    ensures b.Valid() && (b.text == old(b.text) || fresh(b.text))
    ensures b.Contents() == old(b.Contents()) + ValueAsText(v, t)
  {
    hide TextBuilder.Valid, TextBuilder.Contents, IntText, HexText, UIntText, TextPayload;
    match v {
      case Bool(flag) =>
        b.Append(if flag then "true" else "false");
      case Int(i) =>
        AppendInt64(b, i);
      case UInt(u) =>
        if t == HexType {
          AppendHexUInt64(b, u, true);
        } else {
          AppendUInt64(b, u);
        }
      case Str(text) =>
        AppendTextPayload(b, text);
      case Enum(text) =>
        AppendTextPayload(b, text);
      case Path(text) =>
        AppendTextPayload(b, text);
      case Empty =>
        b.Append("");
    }
  }

  method AppendLuaValue(b: TextBuilder, v: Value)
    requires b.Valid() && IsLuaPrintable(v)
    modifies b, b.text
    ensures b.Valid() && (b.text == old(b.text) || fresh(b.text))
    ensures b.Contents() == old(b.Contents()) + LuaValue(v)
  {
    hide TextBuilder.Valid, TextBuilder.Contents, IntText, UIntText, Quote;
    match v {
      case Bool(flag) =>
        b.Append(if flag then "true" else "false");
      case Int(i) =>
        AppendInt64(b, i);
      case UInt(u) =>
        AppendUInt64(b, u);
        UnsignedIsInt(u);
      case Str(text) =>
        AppendLuaString(b, text);
      case Enum(text) =>
        AppendLuaString(b, text);
      case Path(text) =>
        AppendLuaString(b, text);
      case Empty =>
        b.Append("nil");
    }
  }

  lemma {:induction false} NumeralPrintable(base: Base, n: nat, width: nat)
    ensures IsByteText(Numeral(base, n, width))
    decreases n, width
  {
    if n == 0 && width == 0 {
    } else {
      NumeralPrintable(base, n / base, if width > 0 then width - 1 else 0);
    }
  }

  function Magnitude(i: int): nat {
    if i < 0 then -i else i
  }

  lemma TextValueIsByteText(v: Value, t: OptionType)
    requires IsLuaPrintable(v)
    ensures IsByteText(ValueAsText(v, t))
  {
    match v {
      case Int(i) =>
        NumeralPrintable(10, Magnitude(i), 1);
      case UInt(u) =>
        NumeralPrintable(10, u, 1);
        NumeralPrintable(16, u, 8);
      case Str(text) =>
        PayloadPrintable(text);
      case Enum(text) =>
        PayloadPrintable(text);
      case Path(text) =>
        PayloadPrintable(text);
      case _ =>
    }
  }

  method RenderText(v: Value, t: OptionType) returns (text: string)
    requires IsLuaPrintable(v)
    ensures text == ValueAsText(v, t)
  {
    hide TextBuilder.Valid, TextBuilder.Contents, ValueAsText;
    var b := new TextBuilder(128);
    AppendTextValue(b, v, t);
    text := b.Text();
    EmptyPrefix(text, ValueAsText(v, t));
  }

  /** The text form is built in a buffer of its own and then quoted once more. */
  method AppendLuaRecord(b: TextBuilder, v: Value, source: string, t: OptionType)
    requires b.Valid() && IsLuaPrintable(v) && IsByteText(source)
    modifies b, b.text
    ensures b.Valid() && (b.text == old(b.text) || fresh(b.text))
    ensures b.Contents() == old(b.Contents()) + RecordText(v, source, t)
  {
    hide TextBuilder.Valid, TextBuilder.Contents, TypedValueText, TextSourceText, ValueAsText, IsByteText;
    var text := RenderText(v, t);
    TextValueIsByteText(v, t);
    AppendTypedValue(b, v, t);
    AppendTextSource(b, text, source);
  }

  lemma EmptyPrefix(s: string, t: string)
    requires s == "" + t
    ensures s == t
  {
  }

  lemma NameIsByteText(t: OptionType)
    ensures IsByteText(TypeName(t))
  {
  }

  /** A record as Lua reads it. */
  datatype Record = Record(typeName: string, value: Scalar, text: string, source: string)

  function ReadRecord(t: string): Option<(Record, string)> {
    var r1 :- Skip(TYPE_HEAD, t);
    var (typeName, r2) :- ReadQuoted(LuaStep, r1);
    var r3 :- Skip(VALUE_FIELD, r2);
    var (value, r4) :- ReadScalar(LuaStep, "nil", r3);
    var r5 :- Skip(TEXT_FIELD, r4);
    var (text, r6) :- ReadQuoted(LuaStep, r5);
    var r7 :- Skip(SOURCE_FIELD, r6);
    var (source, r8) :- ReadQuoted(LuaStep, r7);
    var r9 :- Skip(RECORD_TAIL, r8);
    Some((Record(typeName, value, text, source), r9))
  }

  /** Lua reads every field of a record back. */
  lemma RecordRoundTrip(v: Value, source: string, t: OptionType, rest: string)
    requires IsLuaPrintable(v) && IsByteText(source)
    ensures ReadRecord(RecordText(v, source, t) + rest)
         == Some((Record(TypeName(t), ScalarOf(v), ValueAsText(v, t), source), rest))
  {
    hide LuaString, LuaValue, ValueAsText, TypeName, ReadQuoted, ReadScalar, IsByteText;
    var t8 := RECORD_TAIL + rest;
    var t7 := LuaString(source) + t8;
    var t6 := SOURCE_FIELD + t7;
    var t5 := LuaString(ValueAsText(v, t)) + t6;
    var t4 := TEXT_FIELD + t5;
    var t3 := LuaValue(v) + t4;
    var t2 := VALUE_FIELD + t3;
    var t1 := LuaString(TypeName(t)) + t2;
    Regroup5("", TEXT_FIELD, LuaString(ValueAsText(v, t)), SOURCE_FIELD, LuaString(source), RECORD_TAIL + rest);
    assert TextSourceText(ValueAsText(v, t), source) + rest == t4;
    assert TypedValueText(v, t) + t4 == TYPE_HEAD + t1;
    assert RecordText(v, source, t) + rest == TYPE_HEAD + t1;
    SkipBack(TYPE_HEAD, t1);
    NameIsByteText(t);
    LuaRoundTrip(TypeName(t), t2);
    SkipBack(VALUE_FIELD, t3);
    ReadLuaValueBack(v, t4);
    SkipBack(TEXT_FIELD, t5);
    TextValueIsByteText(v, t);
    LuaRoundTrip(ValueAsText(v, t), t6);
    SkipBack(SOURCE_FIELD, t7);
    LuaRoundTrip(source, t8);
    SkipBack(RECORD_TAIL, rest);
  }

  lemma ReadLuaValueBack(v: Value, rest: string)
    requires IsLuaPrintable(v) && rest != "" && rest[0] == ','
    ensures ReadScalar(LuaStep, "nil", LuaValue(v) + rest) == Some((ScalarOf(v), rest))
  {
    var x := ScalarOf(v);
    if x.Text? {
      forall c | c in x.s
        ensures Reads(LuaSpelling, LuaStep, c)
      {
        LuaSpellingReads(c);
      }
    }
    ReadScalarBack(LuaSpelling, LuaStep, "nil", x, rest);
  }

  /** The text field of a textual value holds its bytes after a second decoding. */
  lemma TextFieldDecodesTwice(v: Value, t: OptionType)
    requires IsText(v) && IsByteText(v.text)
    ensures ReadQuoted(LuaStep, "\"" + ValueAsText(v, t) + "\"") == Some((v.text, ""))
  {
    LuaRoundTrip(v.text, "");
    assert LuaString(v.text) + "" == "\"" + ValueAsText(v, t) + "\"";
  }

  /** The text form of a flag or a number is read as that value, hex options with at least eight digits. */
  lemma TextFormReadsAs(v: Value, t: OptionType)
    requires v.Bool? || v.Int? || v.UInt?
    ensures ReadsAs(ValueAsText(v, t), ScalarOf(v))
    ensures "0x" <= ValueAsText(v, t) <==> t == HexType && v.UInt?
    ensures t == HexType && v.UInt? ==> |ValueAsText(v, t)| >= 10
  {
    hide ReadsAs, UIntText;
    match v {
      case Bool(b) =>
        ScalarReadsAs(Flag(b));
        NotHexAlone(Flag(b));
      case Int(i) =>
        ScalarReadsAs(Number(i));
        NotHexAlone(Number(i));
      case UInt(u) =>
        HexReadsAs(u, true);
        UnsignedIsInt(u);
        ScalarReadsAs(Number(u));
        NotHexAlone(Number(u));
    }
  }

  lemma NotHexAlone(x: Scalar)
    ensures !("0x" <= ScalarText(EscapeChar, "null", x))
  {
    hide ScalarText;
    NotHex(x, "\n");
    var text := ScalarText(EscapeChar, "null", x);
    assert text <= text + "\n";
  }
}
