/**
 Values, field types and transforms of the mapping compiler, and the soundness of its type check: a rule that
 passes can only fail on a string that does not parse.
 */
module MappingTransforms {
  import opened Text

  /** A Go map[string]any: nested maps are shared by reference and written in place. */
  class Node {
    var fields: map<string, Value>

    constructor ()
      ensures fields == map[]
    {
      fields := map[];
    }
  }

  datatype IntKind = Signed | Unsigned

  datatype Value =
    | Nil
    | Bool(b: bool)
    | Int(kind: IntKind, i: int)
    | Float(r: real)
    | JsonNumber(text: string)
    | Str(s: string)
    | List(items: seq<Value>)
    | Nested(node: Node)

  datatype Transform =
    | Identity | ToString | ToInt | ToFloat | ToBool | TrimText | Lowercase | Uppercase | UnixTime
    | Unsupported(name: string)

  datatype FieldType = Blank | Integer | Number | Boolean | String | DateTime | Other(name: string)

  /** Number parsing and printing, case mapping and time formatting are library code. */
  datatype Library = Library(
    parseInt: string -> Option<int>, parseFloat: string -> Option<real>,
    render: Value -> string, rfc3339: int -> string, lower: string -> string, upper: string -> string)

  /** A text that reads as a 64-bit integer reads as a float. */
  ghost predicate Lawful(lib: Library) {
    forall s :: lib.parseInt(s).Some? ==> lib.parseFloat(s).Some?
  }

  // ---------------------------------------------------------------- names

  /** The name under which a rule's transform is stored and looked up. */
  function NormalTransform(lib: Library, name: string): string {
    if Trim(lib.lower(name)) == "" then "identity" else Trim(lib.lower(name))
  }

  function TransformNamed(n: string): Transform {
    if n == "identity" then Identity
    else if n == "to_string" then ToString
    else if n == "to_int" then ToInt
    else if n == "to_float" then ToFloat
    else if n == "to_bool" then ToBool
    else if n == "trim" then TrimText
    else if n == "lowercase" then Lowercase
    else if n == "uppercase" then Uppercase
    else if n == "unix_time_to_rfc3339" then UnixTime
    else Unsupported(n)
  }

  function TypeNamed(lib: Library, name: string): FieldType { TypeWord(Trim(lib.lower(name))) }

  function TypeWord(n: string): FieldType {
    if n == "" then Blank
    else if n in ["int", "integer"] then Integer
    else if n in ["float", "double", "decimal", "number"] then Number
    else if n in ["bool", "boolean"] then Boolean
    else if n in ["str", "string", "text"] then String
    else if n in ["timestamp", "datetime", "date_time"] then DateTime
    else Other(n)
  }

  /** The type check of a rule. */
  predicate Compatible(source: FieldType, target: FieldType, transform: Transform) {
    source.Blank? || target.Blank? ||
    match transform
    case Identity => source == target
    case ToString => target.String?
    case ToInt => target.Integer? && (source.String? || source.Integer? || source.Number? || source.Boolean?)
    case ToFloat => target.Number? && (source.String? || source.Integer? || source.Number?)
    case ToBool => target.Boolean? && (source.String? || source.Integer? || source.Boolean?)
    case TrimText => source.String? && target.String?
    case Lowercase => source.String? && target.String?
    case Uppercase => source.String? && target.String?
    case UnixTime => target.String? && (source.Integer? || source.Number? || source.String?)
    case Unsupported(_) => false
  }

  // ---------------------------------------------------------------- evaluation

  const TWO_63 := 0x8000_0000_0000_0000

  /** int64(x) of an unsigned value wraps. */
  function Wrap(i: int): (r: int)
    ensures -TWO_63 <= r < TWO_63
    ensures -TWO_63 <= i < TWO_63 ==> r == i
  {
    (i + TWO_63) % (2 * TWO_63) - TWO_63
  }

  /** int64(f) truncates toward zero; outside the range it gives the value that amd64 gives. */
  function Truncate(f: real): (r: int)
    ensures -TWO_63 <= r < TWO_63
  {
    var whole := if f >= 0.0 then f.Floor else -((-f).Floor);
    if -TWO_63 <= whole < TWO_63 then whole else -TWO_63
  }

  function IntOf(lib: Library, value: Value): Option<int> {
    match value
    case Int(_, i) => Some(Wrap(i))
    case Float(f) => Some(Truncate(f))
    case Bool(b) => Some(if b then 1 else 0)
    case JsonNumber(text) =>
      if lib.parseInt(text).Some? then lib.parseInt(text)
      else if lib.parseFloat(text).Some? then Some(Truncate(lib.parseFloat(text).value))
      else None
    case Str(s) => if Trim(s) == "" then None else lib.parseInt(Trim(s))
    case Nil => None
    case List(_) => None
    case Nested(_) => None
  }

  function FloatOf(lib: Library, value: Value): Option<real> {
    match value
    case Int(_, i) => Some(i as real)
    case Float(f) => Some(f)
    case Bool(b) => Some(if b then 1.0 else 0.0)
    case JsonNumber(text) => lib.parseFloat(text)
    case Str(s) => if Trim(s) == "" then None else lib.parseFloat(Trim(s))
    case Nil => None
    case List(_) => None
    case Nested(_) => None
  }

  function BoolOf(lib: Library, value: Value): Option<bool> {
    match value
    case Bool(b) => Some(b)
    case Int(_, i) => Some(i != 0)
    case Float(f) => Some(f != 0.0)
    case JsonNumber(text) =>
      if lib.parseFloat(text).Some? then Some(lib.parseFloat(text).value != 0.0) else None
    case Str(s) =>
      var word := Trim(lib.lower(s));
      if word in ["true", "1", "yes", "y"] then Some(true)
      else if word in ["false", "0", "no", "n"] then Some(false)
      else None
    case Nil => None
    case List(_) => None
    case Nested(_) => None
  }

  function Lift<T>(result: Option<T>, wrap: T -> Value): Option<Value> {
    if result.Some? then Some(wrap(result.value)) else None
  }

  function TextOf(value: Value): Option<string> {
    if value.Str? then Some(value.s) else None
  }

  /** applyMappingTransform; `None` is an error. */
  function Apply(lib: Library, transform: Transform, value: Value): Option<Value> {
    match transform
    case Identity => Some(value)
    case ToString => Some(Str(lib.render(value)))
    case ToInt => Lift(IntOf(lib, value), i => Int(Signed, i))
    case ToFloat => Lift(FloatOf(lib, value), f => Float(f))
    case ToBool => Lift(BoolOf(lib, value), b => Bool(b))
    case TrimText => Lift(TextOf(value), s => Str(Trim(s)))
    case Lowercase => Lift(TextOf(value), s => Str(lib.lower(s)))
    case Uppercase => Lift(TextOf(value), s => Str(lib.upper(s)))
    case UnixTime => Lift(IntOf(lib, value), i => Str(lib.rfc3339(i)))
    case Unsupported(_) => None
  }

  // ---------------------------------------------------------------- what the transforms mean

  /** An integer in range that is the float without its fraction; out of range, the least integer. */
  ghost predicate WholePart(f: real, i: int) {
    if -9223372036854775809.0 < f < 9223372036854775808.0
    then (0.0 <= i as real <= f < i as real + 1.0) || (i as real - 1.0 < f <= i as real <= 0.0)
    else i == -9223372036854775808
  }

  ghost predicate ReadsAsInt(lib: Library, value: Value, i: int) {
    match value
    case Int(_, n) =>
      if -0x8000_0000_0000_0000 <= n < 0x8000_0000_0000_0000 then i == n
      else -0x8000_0000_0000_0000 <= i < 0x8000_0000_0000_0000 && (i - n) % 0x1_0000_0000_0000_0000 == 0
    case Float(f) => WholePart(f, i)
    case Bool(b) => i == if b then 1 else 0
    case JsonNumber(text) =>
      || lib.parseInt(text) == Some(i)
      || (lib.parseInt(text) == None && lib.parseFloat(text).Some? && WholePart(lib.parseFloat(text).value, i))
    case Str(s) => exists text :: Between(s, text) && text != "" && lib.parseInt(text) == Some(i)
    case _ => false
  }

  ghost predicate ReadsAsFloat(lib: Library, value: Value, f: real) {
    match value
    case Int(_, n) => f == n as real
    case Float(g) => f == g
    case Bool(b) => f == if b then 1.0 else 0.0
    case JsonNumber(text) => lib.parseFloat(text) == Some(f)
    case Str(s) => exists text :: Between(s, text) && text != "" && lib.parseFloat(text) == Some(f)
    case _ => false
  }

  /** False exactly on false, on zero and on the four negative words. */
  ghost predicate ReadsAsBool(lib: Library, value: Value, b: bool) {
    match value
    case Bool(c) => b == c
    case Int(_, n) => b <==> n != 0
    case Float(f) => b <==> f != 0.0
    case JsonNumber(text) => lib.parseFloat(text).Some? && (b <==> lib.parseFloat(text).value != 0.0)
    case Str(s) =>
      exists word :: Between(lib.lower(s), word)
        && word in (if b then {"true", "1", "yes", "y"} else {"false", "0", "no", "n"})
    case _ => false
  }

  /** The part of a text between its outer spaces. */
  ghost predicate Between(s: string, middle: string) {
    Bare(middle) && exists left, right :: AllSpace(left) && AllSpace(right) && s == left + middle + right
  }

  lemma BetweenIsTrim(s: string, middle: string)
    ensures Between(s, middle) <==> middle == Trim(s)
  {
    if middle == Trim(s) {
      var left, right := TrimMeans(s);
    } else if Between(s, middle) {
      var left, right :| AllSpace(left) && AllSpace(right) && s == left + middle + right;
      TrimUnique(left, middle, right);
    }
  }

  /** What a transform makes of a value. */
  ghost predicate Means(lib: Library, transform: Transform, value: Value, result: Value) {
    match transform
    case Identity => result == value
    case ToString => result == Str(lib.render(value))
    case ToInt => result.Int? && result.kind.Signed? && ReadsAsInt(lib, value, result.i)
    case ToFloat => result.Float? && ReadsAsFloat(lib, value, result.r)
    case ToBool => result.Bool? && ReadsAsBool(lib, value, result.b)
    case TrimText => value.Str? && result.Str? && Between(value.s, result.s)
    case Lowercase => value.Str? && result == Str(lib.lower(value.s))
    case Uppercase => value.Str? && result == Str(lib.upper(value.s))
    case UnixTime => exists i :: ReadsAsInt(lib, value, i) && result == Str(lib.rfc3339(i))
    case Unsupported(_) => false
  }

  lemma TransformNames()
    ensures TransformNamed("identity") == Identity && TransformNamed("to_string") == ToString
    ensures TransformNamed("to_int") == ToInt && TransformNamed("to_float") == ToFloat
    ensures TransformNamed("to_bool") == ToBool && TransformNamed("trim") == TrimText
    ensures TransformNamed("lowercase") == Lowercase && TransformNamed("uppercase") == Uppercase
    ensures TransformNamed("unix_time_to_rfc3339") == UnixTime
  {
  }

  lemma TruncateMeans(f: real, i: int)
    ensures WholePart(f, i) <==> Truncate(f) == i
  {
    assert f.Floor as real <= f < f.Floor as real + 1.0;
    assert (-f).Floor as real <= -f < (-f).Floor as real + 1.0;
  }

  lemma WrapMeans(n: int, i: int)
    requires -TWO_63 <= i < TWO_63
    ensures (i - n) % (2 * TWO_63) == 0 <==> Wrap(n) == i
  {
    var k := (n + TWO_63) / (2 * TWO_63);
    assert Wrap(n) == n - k * (2 * TWO_63);
    if (i - n) % (2 * TWO_63) == 0 {
      var m := (i - n) / (2 * TWO_63);
      assert i == n + m * (2 * TWO_63);
      assert (m + k) * (2 * TWO_63) == i - Wrap(n);
    }
  }

  lemma IntMeans(lib: Library, value: Value, i: int)
    ensures IntOf(lib, value) == Some(i) <==> ReadsAsInt(lib, value, i)
  {
    hide Trim, Truncate, Wrap, WholePart, Between;
    match value
    case Int(_, n) => if -TWO_63 <= i < TWO_63 { WrapMeans(n, i); }
    case Float(f) => TruncateMeans(f, i);
    case JsonNumber(text) => if lib.parseFloat(text).Some? { TruncateMeans(lib.parseFloat(text).value, i); }
    case Str(s) => forall text ensures Between(s, text) <==> text == Trim(s) { BetweenIsTrim(s, text); }
    case _ =>
  }

  lemma FloatMeans(lib: Library, value: Value, f: real)
    ensures FloatOf(lib, value) == Some(f) <==> ReadsAsFloat(lib, value, f)
  {
    hide Trim, Between;
    if value.Str? {
      forall text ensures Between(value.s, text) <==> text == Trim(value.s) { BetweenIsTrim(value.s, text); }
    }
  }

  lemma BoolMeans(lib: Library, value: Value, b: bool)
    ensures BoolOf(lib, value) == Some(b) <==> ReadsAsBool(lib, value, b)
  {
    hide Trim, Between;
    if value.Str? {
      var s := lib.lower(value.s);
      forall word ensures Between(s, word) <==> word == Trim(s) { BetweenIsTrim(s, word); }
      assert Between(s, Trim(s));
    }
  }

  /** A transform succeeds with a result exactly when that is what it means for the value. */
  lemma AppliesExactly(lib: Library, transform: Transform, value: Value, result: Value)
    ensures Apply(lib, transform, value) == Some(result) <==> Means(lib, transform, value, result)
  {
    hide IntOf, FloatOf, BoolOf, ReadsAsInt, ReadsAsFloat, ReadsAsBool, Trim, Between;
    match transform
    case ToInt => if result.Int? { IntMeans(lib, value, result.i); }
    case ToFloat => if result.Float? { FloatMeans(lib, value, result.r); }
    case ToBool => if result.Bool? { BoolMeans(lib, value, result.b); }
    case TrimText => if value.Str? && result.Str? { BetweenIsTrim(value.s, result.s); }
    case UnixTime =>
      forall i ensures IntOf(lib, value) == Some(i) <==> ReadsAsInt(lib, value, i) { IntMeans(lib, value, i); }
      if IntOf(lib, value).Some? { assert ReadsAsInt(lib, value, IntOf(lib, value).value); }
    case _ =>
  }

  /** The transform can make nothing of the value. */
  ghost predicate Fails(lib: Library, transform: Transform, value: Value) {
    match transform
    case Identity => false
    case ToString => false
    case ToInt => forall i :: !ReadsAsInt(lib, value, i)
    case ToFloat => forall f :: !ReadsAsFloat(lib, value, f)
    case ToBool => forall b :: !ReadsAsBool(lib, value, b)
    case TrimText => !value.Str?
    case Lowercase => !value.Str?
    case Uppercase => !value.Str?
    case UnixTime => forall i :: !ReadsAsInt(lib, value, i)
    case Unsupported(_) => true
  }

  lemma FailsExactly(lib: Library, transform: Transform, value: Value)
    ensures Apply(lib, transform, value) == None <==> Fails(lib, transform, value)
  {
    hide IntOf, FloatOf, BoolOf, ReadsAsInt, ReadsAsFloat, ReadsAsBool, Trim;
    forall i ensures IntOf(lib, value) == Some(i) <==> ReadsAsInt(lib, value, i) { IntMeans(lib, value, i); }
    forall f ensures FloatOf(lib, value) == Some(f) <==> ReadsAsFloat(lib, value, f) { FloatMeans(lib, value, f); }
    forall b ensures BoolOf(lib, value) == Some(b) <==> ReadsAsBool(lib, value, b) { BoolMeans(lib, value, b); }
    if IntOf(lib, value).Some? { assert ReadsAsInt(lib, value, IntOf(lib, value).value); }
    if FloatOf(lib, value).Some? { assert ReadsAsFloat(lib, value, FloatOf(lib, value).value); }
    if BoolOf(lib, value).Some? { assert ReadsAsBool(lib, value, BoolOf(lib, value).value); }
  }

  /** Lower-casing twice is lower-casing once, and so for upper-casing. */
  ghost predicate CaseIdempotent(lib: Library) {
    forall s :: lib.lower(lib.lower(s)) == lib.lower(s) && lib.upper(lib.upper(s)) == lib.upper(s)
  }

  /** Each of the conversions undoes printing a value that the library prints bare and reads back. */
  lemma ConversionsReadBack(lib: Library, i: int, f: real, b: bool)
    requires lib.lower("true") == "true" && lib.lower("false") == "false"
    ensures Prints(lib, Int(Signed, i)) && lib.parseInt(lib.render(Int(Signed, i))) == Some(i) ==>
      Undone(lib, ToInt, Int(Signed, i))
    ensures Prints(lib, Float(f)) && lib.parseFloat(lib.render(Float(f))) == Some(f) ==> Undone(lib, ToFloat, Float(f))
    ensures lib.render(Bool(b)) == (if b then "true" else "false") ==> Undone(lib, ToBool, Bool(b))
  {
    BareText("true");
    BareText("false");
    BareText(lib.render(Int(Signed, i)));
    BareText(lib.render(Float(f)));
    hide Trim;
  }

  ghost predicate Prints(lib: Library, value: Value) { lib.render(value) != "" && Bare(lib.render(value)) }

  ghost predicate Undone(lib: Library, transform: Transform, value: Value) {
    var printed := Apply(lib, ToString, value);
    printed.Some? && printed.value.Str? && Apply(lib, transform, printed.value) == Some(value)
  }

  /** The case mappings and trimming leave their own results alone. */
  lemma TransformsSettle(lib: Library, s: string)
    requires CaseIdempotent(lib)
    ensures Apply(lib, TrimText, Str(s)).Some? && Apply(lib, Lowercase, Str(s)).Some?
    ensures Apply(lib, Uppercase, Str(s)).Some?
    ensures var trimmed := Apply(lib, TrimText, Str(s)).value;
      Apply(lib, TrimText, trimmed) == Some(trimmed)
    ensures var low := Apply(lib, Lowercase, Str(s)).value;
      low.Str? && lib.lower(low.s) == low.s && Apply(lib, Lowercase, low) == Some(low)
    ensures var high := Apply(lib, Uppercase, Str(s)).value;
      high.Str? && lib.upper(high.s) == high.s && Apply(lib, Uppercase, high) == Some(high)
  {
    hide Trim;
    TrimIdempotent(s);
  }

  // ---------------------------------------------------------------- typing

  /**
   What it means for a sample value to have a declared type. JSON decoding may deliver numbers as floats or as
   json.Number; types outside the five basic ones are described by `other`.
   */
  predicate HasType(lib: Library, other: (FieldType, Value) -> bool, value: Value, ty: FieldType) {
    match ty
    case Blank => true
    case Integer =>
      value.Int? || (value.Float? && value.r == value.r.Floor as real)
      || (value.JsonNumber? && lib.parseInt(value.text).Some?)
    case Number => value.Int? || value.Float? || (value.JsonNumber? && lib.parseFloat(value.text).Some?)
    case Boolean => value.Bool?
    case String => value.Str?
    case DateTime => other(ty, value)
    case Other(_) => other(ty, value)
  }

  /** The only way a well-typed rule can fail on a well-typed value: its text does not parse. */
  predicate Unparsable(lib: Library, transform: Transform, value: Value) {
    value.Str?
    && match transform
       case ToInt => Trim(value.s) == "" || lib.parseInt(Trim(value.s)).None?
       case UnixTime => Trim(value.s) == "" || lib.parseInt(Trim(value.s)).None?
       case ToFloat => Trim(value.s) == "" || lib.parseFloat(Trim(value.s)).None?
       case ToBool => Trim(lib.lower(value.s)) !in ["true", "1", "yes", "y", "false", "0", "no", "n"]
       case _ => false
  }

  /** The transform yields a value of the target type or fails, and fails exactly on unparsable strings. */
  predicate Behaves(
    lib: Library, other: (FieldType, Value) -> bool, target: FieldType, transform: Transform, value: Value)
  {
    match Apply(lib, transform, value)
    case Some(result) => HasType(lib, other, result, target) && !Unparsable(lib, transform, value)
    case None => Unparsable(lib, transform, value)
  }

  /** Type soundness: every rule with both types declared that the compiler passes behaves on its source type. */
  lemma TypeSoundness(
    lib: Library, other: (FieldType, Value) -> bool, source: FieldType, target: FieldType, transform: Transform,
    value: Value)
    requires Lawful(lib) && !source.Blank? && !target.Blank?
    requires Compatible(source, target, transform) && HasType(lib, other, value, source)
    ensures Behaves(lib, other, target, transform, value)
  {
    hide Trim, Truncate;
    if value.JsonNumber? && lib.parseInt(value.text).Some? {
      assert lib.parseFloat(value.text).Some?;
    }
  }

  // ---------------------------------------------------------------- how close the type check is

  /** Sound rules that the check turns down all the same. */
  predicate Spared(source: FieldType, target: FieldType, transform: Transform) {
    var basic := source.Integer? || source.Number? || source.Boolean? || source.String?;
    match transform
    case Identity => source.Integer? && target.Number?
    case ToInt => basic && target.Number?
    case ToFloat => source.Boolean? && (target.Number? || target.Integer?)
    case ToBool => source.Number? && target.Boolean?
    case UnixTime => source.Boolean? && target.String?
    case _ => false
  }

  lemma SparedIsSound(
    lib: Library, other: (FieldType, Value) -> bool, source: FieldType, target: FieldType, transform: Transform,
    value: Value)
    requires Lawful(lib) && Spared(source, target, transform) && HasType(lib, other, value, source)
    ensures Behaves(lib, other, target, transform, value)
  {
    hide Trim, Truncate, Wrap;
    if value.JsonNumber? && lib.parseInt(value.text).Some? {
      assert lib.parseFloat(value.text).Some?;
    }
  }

  /** A library that reads every text, and a value of each type, on which all other rules go wrong. */
  function Reading(): Library { Library(s => Some(0), s => Some(0.5), v => "", i => "", s => s, s => s) }

  function Witness(source: FieldType, transform: Transform): Value {
    match source
    case Integer => if transform.ToFloat? then JsonNumber("") else Int(Signed, 0)
    case Number => Float(0.5)
    case Boolean => Bool(true)
    case String => Str("1")
    case _ => Nil
  }

  lemma OthersGoWrong(source: FieldType, target: FieldType, transform: Transform)
    returns (lib: Library, other: (FieldType, Value) -> bool, value: Value)
    requires !source.Blank? && !target.Blank?
    requires !Compatible(source, target, transform) && !Spared(source, target, transform)
    ensures Lawful(lib) && HasType(lib, other, value, source) && !Behaves(lib, other, target, transform, value)
  {
    lib, value := Reading(), Witness(source, transform);
    other := (ty: FieldType, v: Value) => ty == source && v.Nil?;
    BareText("1");
    hide Trim;
  }

  /**
   A rule behaves on every value of its source type, whatever the library and the other types are, if and only if the
   check passes it or it is one of the spared ones.
   */
  lemma CheckExactly(source: FieldType, target: FieldType, transform: Transform)
    requires !source.Blank? && !target.Blank?
    ensures Compatible(source, target, transform) || Spared(source, target, transform) <==>
      forall lib: Library, other: (FieldType, Value) -> bool, value: Value ::
        Lawful(lib) && HasType(lib, other, value, source) ==> Behaves(lib, other, target, transform, value)
  {
    hide Behaves, HasType, Lawful;
    if Compatible(source, target, transform) {
      forall lib, other, value | Lawful(lib) && HasType(lib, other, value, source)
        ensures Behaves(lib, other, target, transform, value)
      {
        TypeSoundness(lib, other, source, target, transform, value);
      }
    } else if Spared(source, target, transform) {
      forall lib, other, value | Lawful(lib) && HasType(lib, other, value, source)
        ensures Behaves(lib, other, target, transform, value)
      {
        SparedIsSound(lib, other, source, target, transform, value);
      }
    } else {
      var lib, other, value := OthersGoWrong(source, target, transform);
    }
  }

  const TYPE_NAMES := [
    "int", "integer", "float", "double", "decimal", "number", "bool", "boolean", "str", "string", "text", "timestamp",
    "datetime", "date_time"]

  /** The names of the types, in any case and with outer spaces; every other name is a type of its own. */
  lemma TypeNames(lib: Library, name: string, n: string)
    requires Between(lib.lower(name), n)
    ensures n in ["int", "integer"] ==> TypeNamed(lib, name) == Integer
    ensures n in ["float", "double", "decimal", "number"] ==> TypeNamed(lib, name) == Number
    ensures n in ["bool", "boolean"] ==> TypeNamed(lib, name) == Boolean
    ensures n in ["str", "string", "text"] ==> TypeNamed(lib, name) == String
    ensures n in ["timestamp", "datetime", "date_time"] ==> TypeNamed(lib, name) == DateTime
    ensures n == "" <==> TypeNamed(lib, name) == Blank
    ensures TypeNamed(lib, name).Other? ==> TypeNamed(lib, name).name == n
    ensures n !in TYPE_NAMES && n != "" ==> TypeNamed(lib, name).Other?
  {
    BetweenIsTrim(lib.lower(name), n);
    hide Trim, Between, TypeWord;
    NumberWords();
    OtherWords();
    UnknownWord(n);
  }

  lemma NumberWords()
    ensures TypeWord("int") == TypeWord("integer") == Integer
    ensures TypeWord("float") == TypeWord("double") == TypeWord("decimal") == TypeWord("number") == Number
  {
  }

  lemma OtherWords()
    ensures TypeWord("bool") == TypeWord("boolean") == Boolean
    ensures TypeWord("str") == TypeWord("string") == TypeWord("text") == String
    ensures TypeWord("timestamp") == TypeWord("datetime") == TypeWord("date_time") == DateTime
  {
  }

  lemma UnknownWord(n: string)
    ensures n == "" <==> TypeWord(n) == Blank
    ensures TypeWord(n).Other? ==> TypeWord(n).name == n
    ensures n !in TYPE_NAMES && n != "" ==> TypeWord(n).Other?
  {
  }

  predicate NoOther(ty: FieldType, value: Value) { false }

  /**
   A blank source type passes the check unexamined. Such a rule is sound exactly when it prints into a string:
   any other transform or target already goes wrong on a null.
   */
  lemma BlankSourceSoundness(lib: Library, target: FieldType, transform: Transform)
    requires !target.Blank? && !transform.Unsupported?
    ensures Compatible(Blank, target, transform)
    ensures Behaves(lib, NoOther, target, transform, Nil) <==> transform.ToString? && target.String?
    ensures transform.ToString? && target.String? ==>
      forall other, value :: Behaves(lib, other, target, transform, value)
  {
  }
}
