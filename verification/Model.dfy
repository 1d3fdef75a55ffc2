/**
 The project model: values, options, profiles and targets, and the predicate that
 decides whether a value may be stored in an option.
 */
module Model {

  datatype Option<+T> = None | Some(value: T) {

    predicate IsFailure() {
      None?
    }

    function PropagateFailure<U>(): Option<U>
      requires None?
    {
      None
    }

    function Extract(): T
      requires Some?
    {
      value
    }
  }

  /** Status codes. Dependency and conflict errors are the same numeric code, 4, in the source. */
  datatype Status = Ok | InvalidArgument | SchemaError | DependencyError | CompatibilityError | InternalError

  const CONFLICT_ERROR := DependencyError

  datatype Diagnostic = Diagnostic(status: Status, subject: Option<string>, message: string)

  type Int64 = i: int | -0x8000_0000_0000_0000 <= i < 0x8000_0000_0000_0000
  type UInt64 = u: int | 0 <= u < 0x1_0000_0000_0000_0000

  /** A double, as far as ordering and finiteness are concerned. */
  datatype Double = Real(r: real) | Infinite(negative: bool) | NotANumber

  datatype Value =
    | Empty
    | Bool(b: bool)
    | Int(i: Int64)
    | UInt(u: UInt64)
    | Str(text: string)
    | Enum(text: string)
    | Float(d: Double)
    | Path(text: string)

  /** The three kinds that carry a string. */
  predicate IsText(v: Value) {
    v.Str? || v.Enum? || v.Path?
  }

  datatype OptionType =
    InvalidType | BoolType | IntType | UIntType | HexType | StringType | EnumType | FloatType | PathType

  datatype DependencyKind = Requires | Conflicts | Recommends | Forces | VisibleIf

  datatype Dependency = Dependency(kind: DependencyKind, target: string)

  datatype Range = Range(min: Value, max: Value)

  datatype ConfigOption = ConfigOption(
    id: string,
    optionType: OptionType,
    default: Value,
    range: Option<Range>,
    enumValues: seq<string>,
    prompt: Option<string>,
    dependencies: seq<Dependency>)

  datatype NamedValue = NamedValue(id: string, value: Value, source: Option<string>)

  datatype Profile = Profile(name: string, base: Option<string>, target: Option<string>, values: seq<NamedValue>)

  datatype Target = Target(name: string, values: seq<NamedValue>)

  datatype Project = Project(
    name: string,
    options: seq<ConfigOption>,
    profiles: seq<Profile>,
    targets: seq<Target>)

  /** Two options never share an id; the schema loader guarantees it. */
  ghost predicate DistinctIds(options: seq<ConfigOption>) {
    forall i, j :: 0 <= i < j < |options| ==> options[i].id != options[j].id
  }

  // Validation of one value against one option.

  function TenTo(n: nat): real {
    if n == 0 then 1.0 else 10.0 * TenTo(n - 1)
  }

  const FLOAT_LIMIT := TenTo(308)

  predicate IsFinite(d: Double) {
    d.Real? && -FLOAT_LIMIT <= d.r <= FLOAT_LIMIT
  }

  /** A linear search in the candidate list. */
  method EnumContains(candidates: seq<string>, text: string) returns (found: bool)
    ensures found <==> text in candidates
  {
    for index := 0 to |candidates|
      invariant text !in candidates[..index]
    {
      if candidates[index] == text {
        return true;
      }
    }
    assert candidates[..|candidates|] == candidates;
    return false;
  }

  /** The value kind an option type stores; an invalid type stores nothing. */
  predicate KindMatches(t: OptionType, v: Value) {
    match t
    case BoolType => v.Bool?
    case IntType => v.Int?
    case UIntType | HexType => v.UInt?
    case StringType => v.Str?
    case EnumType => v.Enum?
    case FloatType => v.Float?
    case PathType => v.Path?
    case InvalidType => false
  }

  /** Membership of a value in a range of its own kind. */
  ghost predicate InRange(v: Value, range: Range) {
    match (range.min, v, range.max)
    case (Int(lo), Int(i), Int(hi)) => lo <= i <= hi
    case (UInt(lo), UInt(u), UInt(hi)) => lo <= u <= hi
    case (Float(lo), Float(d), Float(hi)) =>
      IsFinite(lo) && IsFinite(d) && IsFinite(hi) && lo.r <= d.r <= hi.r
    case _ => false
  }

  /**
   Which values an option admits: the empty value for every typed option, otherwise a value of
   the option's kind, finite, among the candidates of an enum that lists any, and in the range.
   */
  ghost predicate Admits(o: ConfigOption, v: Value) {
    && o.optionType != InvalidType
    && (v != Empty ==>
          && KindMatches(o.optionType, v)
          && (v.Float? ==> IsFinite(v.d))
          && (v.Enum? && |o.enumValues| > 0 ==> v.text in o.enumValues)
          && (o.range.Some? ==> InRange(v, o.range.value)))
  }

  /** The range check, with the kinds and comparisons in the order of the source. */
  method ValidateRange(o: ConfigOption, v: Value) returns (status: Status)
    ensures status == Ok || status == SchemaError
    ensures v != Empty && KindMatches(o.optionType, v) && o.range.Some? ==> (status == Ok <==> InRange(v, o.range.value))
    ensures v == Empty || o.range.None? ==> status == Ok
  {
    if o.range.None? || v.Empty? {
      return Ok;
    }
    var Range(min, max) := o.range.value;
    if o.optionType == IntType {
      if !min.Int? || !max.Int? || !v.Int? || min.i > max.i || v.i < min.i || v.i > max.i {
        return SchemaError;
      }
      return Ok;
    }
    if o.optionType == UIntType || o.optionType == HexType {
      if !min.UInt? || !max.UInt? || !v.UInt? || min.u > max.u || v.u < min.u || v.u > max.u {
        return SchemaError;
      }
      return Ok;
    }
    if o.optionType == FloatType {
      if !min.Float? || !max.Float? || !v.Float? || !IsFinite(min.d) || !IsFinite(max.d) || !IsFinite(v.d)
         || min.d.r > max.d.r || v.d.r < min.d.r || v.d.r > max.d.r {
        return SchemaError;
      }
      return Ok;
    }
    return SchemaError;
  }

  /** confit_option_validate_default with `v` in the place of the default. */
  method ValidateValue(o: ConfigOption, v: Value) returns (status: Status)
    ensures status == if Admits(o, v) then Ok else SchemaError
  {
    match o.optionType {
      case BoolType =>
        if !v.Empty? && !v.Bool? { return SchemaError; }
      case IntType =>
        if !v.Empty? && !v.Int? { return SchemaError; }
      case UIntType | HexType =>
        if !v.Empty? && !v.UInt? { return SchemaError; }
      case StringType =>
        if !v.Empty? && !v.Str? { return SchemaError; }
      case EnumType =>
        if !v.Empty? && !v.Enum? { return SchemaError; }
        if v.Enum? && |o.enumValues| > 0 {
          var found := EnumContains(o.enumValues, v.text);
          if !found { return SchemaError; }
        }
      case FloatType =>
        if !v.Empty? && (!v.Float? || !IsFinite(v.d)) { return SchemaError; }
      case PathType =>
        if !v.Empty? && !v.Path? { return SchemaError; }
      case InvalidType =>
        return SchemaError;
    }
    status := ValidateRange(o, v);
  }

  /** Truthiness of a resolved value. */
  predicate IsActive(v: Value) {
    match v
    case Empty => false
    case Bool(b) => b
    case Int(i) => i != 0
    case UInt(u) => u != 0
    case Float(d) => d != Real(0.0)
    case Str(text) => text != ""
    case Enum(text) => text != ""
    case Path(text) => text != ""
  }

  /** Every value is active but these. */
  lemma InactiveValues(v: Value)
    ensures !IsActive(v) <==>
      || v == Empty || v == Bool(false) || v == Int(0) || v == UInt(0) || v == Float(Real(0.0))
      || v == Str("") || v == Enum("") || v == Path("")
  {
  }

  /** Whether a number between bounds of the same kind, both included. */
  ghost predicate IsBetween(v: Value, lo: Value, hi: Value) {
    || (v.Int? && lo.Int? && hi.Int? && lo.i <= v.i <= hi.i)
    || (v.UInt? && lo.UInt? && hi.UInt? && lo.u <= v.u <= hi.u)
    || (v.Float? && lo.Float? && hi.Float? && lo.d.Real? && v.d.Real? && hi.d.Real? && lo.d.r <= v.d.r <= hi.d.r
        && IsModerate(lo.d) && IsModerate(hi.d))
  }

  /** A real number of at most 10 to the power of 308 in magnitude. */
  ghost predicate IsModerate(d: Double) {
    d.Real? && -TenTo(308) <= d.r <= TenTo(308)
  }

  /** What each type of option stores, case by case. */
  lemma AdmittedValues(o: ConfigOption, v: Value)
    ensures Admits(o, v) <==>
      || (v == Empty && o.optionType != InvalidType)
      || (o.optionType == BoolType && v.Bool? && o.range == None)
      || (o.optionType == IntType && v.Int? && (o.range == None || IsBetween(v, o.range.value.min, o.range.value.max)))
      || (o.optionType == UIntType && v.UInt? && (o.range == None || IsBetween(v, o.range.value.min, o.range.value.max)))
      || (o.optionType == HexType && v.UInt? && (o.range == None || IsBetween(v, o.range.value.min, o.range.value.max)))
      || (o.optionType == FloatType && v.Float? && IsModerate(v.d)
          && (o.range == None || IsBetween(v, o.range.value.min, o.range.value.max)))
      || (o.optionType == StringType && v.Str? && o.range == None)
      || (o.optionType == PathType && v.Path? && o.range == None)
      || (o.optionType == EnumType && v.Enum? && o.range == None && (o.enumValues == [] || v.text in o.enumValues))
  {
  }
}
