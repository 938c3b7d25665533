/** Conversions between the types of JSON values (contrib/jsoncpp/src/lib_json/json_value.cpp): the
    question `isConvertibleTo` and the accessors it is asked for. */
module JsonConversion {
  import opened Wrappers
  import opened JsonValue
  import opened JsonNumber
  import JsonText

  datatype Type = NullType | IntType | UIntType | RealType | StringType | BooleanType | ArrayType | ObjectType

  predicate IsConvertibleTo(v: Value, other: Type) {
    match v
    case Null => true
    case Int(i) =>
      (other == NullType && i == 0) || other == IntType || (other == UIntType && i >= 0)
      || other == RealType || other == StringType || other == BooleanType
    case UInt(u) =>
      (other == NullType && u == 0) || (other == IntType && u <= INT_MAX) || other == UIntType
      || other == RealType || other == StringType || other == BooleanType
    case Real(l) =>
      var r := LiteralValue(l);
      (other == NullType && r == 0.0) || (other == IntType && INT_MIN as real <= r <= INT_MAX as real)
      || (other == UIntType && 0.0 <= r <= UINT_MAX as real)
      || other == RealType || other == StringType || other == BooleanType
    case Bool(b) =>
      (other == NullType && !b) || other == IntType || other == UIntType
      || other == RealType || other == StringType || other == BooleanType
    case Str(s) => other == StringType || (other == NullType && CStr(s) == "")
    case Arr(es) => other == ArrayType || (other == NullType && es == [])
    case Obj(ms) => other == ObjectType || (other == NullType && ms == [])
  }

  /** The conversion of a double to an integer drops the fraction. */
  function Truncated(r: real): int { if r < 0.0 then -((-r).Floor) else r.Floor }

  /** `asInt`; nothing if its assertion fails, here and below. */
  function AsInt(v: Value): Option<int> {
    match v
    case Null => Some(0)
    case Int(i) => Some(i)
    case UInt(u) => if u < INT_MAX then Some(u) else None
    case Real(l) =>
      if INT_MIN as real <= LiteralValue(l) <= INT_MAX as real then Some(Truncated(LiteralValue(l))) else None
    case Bool(b) => Some(if b then 1 else 0)
    case _ => None
  }

  function AsUInt(v: Value): Option<nat> {
    match v
    case Null => Some(0)
    case Int(i) => if i >= 0 then Some(i) else None
    case UInt(u) => Some(u)
    case Real(l) => if 0.0 <= LiteralValue(l) <= UINT_MAX as real then Some(LiteralValue(l).Floor) else None
    case Bool(b) => Some(if b then 1 else 0)
    case _ => None
  }

  function AsDouble(v: Value): Option<real> {
    match v
    case Null => Some(0.0)
    case Int(i) => Some(i as real)
    case UInt(u) => Some(u as real)
    case Real(l) => Some(LiteralValue(l))
    case Bool(b) => Some(if b then 1.0 else 0.0)
    case _ => None
  }

  function AsString(v: Value): Option<string> {
    match v
    case Null => Some("")
    case Str(s) => Some(CStr(s))
    case Bool(b) => Some(if b then "true" else "false")
    case _ => None
  }

  /** The accessor for a type returns. */
  predicate Converts(v: Value, other: Type)
    requires other in {IntType, UIntType, RealType, StringType}
  {
    match other
    case IntType => AsInt(v).Some?
    case UIntType => AsUInt(v).Some?
    case RealType => AsDouble(v).Some?
    case StringType => AsString(v).Some?
  }

  predicate IsNumber(v: Value) { v.Int? || v.UInt? || v.Real? }

  /** The question promises the accessor, with two exceptions: the largest Int kept as a UInt, and
      numbers asked for as strings. An accessor never returns where the question says no. */
  lemma ConvertsExactlyWhen(v: Value, other: Type)
    requires other in {IntType, UIntType, RealType, StringType}
    ensures Converts(v, other) <==>
            IsConvertibleTo(v, other) && !(other == IntType && v == UInt(INT_MAX)) && !(other == StringType && IsNumber(v))
  {}

  lemma TruncatedBounds(r: real)
    ensures if r < 0.0 then Truncated(r) as real - 1.0 < r <= Truncated(r) as real
            else Truncated(r) as real <= r < Truncated(r) as real + 1.0
  {}

  /** A number that an integer accessor returns differs from the numeric value by less than one, towards
      zero, and fits its type. */
  lemma IntegersFit(v: Value)
    requires v.Int? ==> INT_MIN <= v.i <= INT_MAX
    requires v.UInt? ==> v.u <= UINT_MAX
    ensures AsInt(v).Some? ==> INT_MIN <= AsInt(v).value <= INT_MAX && AsDouble(v) != None
                               && AsInt(v).value == Truncated(AsDouble(v).value)
    ensures AsUInt(v).Some? ==> AsUInt(v).value <= UINT_MAX && AsDouble(v) != None
                                && AsUInt(v).value == Truncated(AsDouble(v).value)
  {
    if v.Real? { TruncatedBounds(LiteralValue(v.literal)); }
    if v.Int? { WholeTruncates(v.i); }
    if v.UInt? { WholeTruncates(v.u); }
  }

  lemma WholeTruncates(i: int)
    ensures Truncated(i as real) == i
  {
    if i < 0 { assert -(i as real) == (-i) as real; }
  }

  /** A number asked for as a double keeps its value; a truth value counts as one or zero in all number types and
      as a string is what is printed for it; a string is itself up to its first NUL, and null is empty or zero. */
  lemma AccessorsKeep(v: Value)
    ensures IsNumber(v) ==> AsDouble(v) == Some(NumericValue(v))
    ensures v.Bool? ==> AsInt(v) == Some(if v == Bool(true) then 1 else 0) && AsUInt(v) == AsInt(v)
                        && AsDouble(v) == Some(AsInt(v).value as real) && AsString(v) == Some(JsonText.LeafText(v))
    ensures v == Null ==> AsInt(v) == AsUInt(v) == Some(0) && AsDouble(v) == Some(0.0) && AsString(v) == Some("")
    ensures v.Str? && NulFree(v.s) ==> AsString(v) == Some(v.s)
  {}
}
