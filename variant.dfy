/**
 * The Codeblock value: a tagged union over Undefined, Integer, Float,
 * Boolean and String, with the type tags (including the NUMERIC pseudo-tag),
 * the operator enumerations, tag predicates, typed getters and the textual
 * rendering.
 *
 * Integers are mathematical integers (the C `long` range is not enforced);
 * floats are exact reals.
 */
module Variants {
  import Decimal

  /** The variant type tags, in the order of their enum codes 0..5. */
  datatype VariantType =
    | UndefinedType
    | IntegerType
    | FloatType
    | NumericType   // pseudo-tag: matches Integer and Float, never carried by a value
    | BooleanType
    | StringType

  datatype UnaryOp = Minus | LogicalNot

  datatype BinaryOp = Add | Sub | Mul | Div | LogicalAnd | LogicalOr | Gt | Ge | Lt | Le | Eq | Se | Ne

  datatype Variant =
    | Undefined
    | Integer(i: int)
    | Float(f: real)
    | Boolean(b: bool)
    | String(s: string)

  /** The enum code of a tag. */
  function TypeCode(t: VariantType): (code: int)
    ensures 0 <= code <= 5
  {
    match t
    case UndefinedType => 0
    case IntegerType => 1
    case FloatType => 2
    case NumericType => 3
    case BooleanType => 4
    case StringType => 5
  }

  /** A tag code is valid iff it lies between UNDEFINED and STRING. */
  predicate TypeIsValid(code: int) {
    0 <= code <= 5
  }

  /** The tag with a given valid code. */
  function TypeOfCode(code: int): (t: VariantType)
    requires TypeIsValid(code)
    ensures TypeCode(t) == code
  {
    [UndefinedType, IntegerType, FloatType, NumericType, BooleanType, StringType][code]
  }

  lemma TypeCodeRoundTrip(t: VariantType)
    ensures TypeIsValid(TypeCode(t))
    ensures TypeOfCode(TypeCode(t)) == t
  {
  }

  /** The name of a tag as it appears in diagnostics. */
  function TypeStringify(t: VariantType): (name: string)
    ensures |name| > 0
  {
    ["undefined", "integer", "float", "numeric", "boolean", "string"][TypeCode(t)]
  }

  /** Distinct tags have distinct names, so a diagnostic names the tag unambiguously. */
  lemma TypeStringifyInjective(t1: VariantType, t2: VariantType)
    requires TypeStringify(t1) == TypeStringify(t2)
    ensures t1 == t2
  {
    var names := ["undefined", "integer", "float", "numeric", "boolean", "string"];
    assert forall i, j :: 0 <= i < 6 && 0 <= j < 6 && names[i] == names[j] ==> i == j by {
      assert names[0][0] == 'u' && names[1][0] == 'i' && names[2][0] == 'f';
      assert names[3][0] == 'n' && names[4][0] == 'b' && names[5][0] == 's';
    }
    TypeCodeRoundTrip(t1);
    TypeCodeRoundTrip(t2);
  }

  /** A fresh variant is Undefined. */
  function Create(): (v: Variant)
    ensures GetType(v) == UndefinedType
  {
    Undefined
  }

  /**
   * The copy of a variant. Values have no identity here, so the copy is an
   * independent value equal to the original, strings included.
   */
  function Copy(v: Variant): (c: Variant)
    ensures GetType(c) == GetType(v)
    ensures ToString(c) == ToString(v)
    ensures c == v
  {
    match v
    case Undefined => Undefined
    case Integer(i) => Integer(i)
    case Float(f) => Float(f)
    case Boolean(b) => Boolean(b)
    case String(s) => String(s)
  }

  /** The tag a value carries; never the NUMERIC pseudo-tag. */
  function GetType(v: Variant): (t: VariantType)
    ensures t != NumericType
  {
    match v
    case Undefined => UndefinedType
    case Integer(_) => IntegerType
    case Float(_) => FloatType
    case Boolean(_) => BooleanType
    case String(_) => StringType
  }

  /** A value is numeric exactly when it is an integer or a float. */
  predicate IsNumeric(v: Variant)
    ensures IsNumeric(v) <==> v.Integer? || v.Float?
  {
    IsInteger(v) || IsFloat(v)
  }

  /**
   * NUMERIC matches numeric values; every other tag is compared with the
   * value's own. Every value has its own type, and no other concrete one.
   */
  predicate IsType(v: Variant, t: VariantType)
    ensures t == GetType(v) ==> IsType(v, t)
    ensures t != NumericType && IsType(v, t) ==> t == GetType(v)
  {
    if t == NumericType then GetType(v) in {IntegerType, FloatType} else t == GetType(v)
  }

  predicate IsUndefined(v: Variant)
    ensures IsUndefined(v) <==> v.Undefined?
  {
    IsType(v, UndefinedType)
  }

  predicate IsInteger(v: Variant)
    ensures IsInteger(v) <==> v.Integer?
  {
    IsType(v, IntegerType)
  }

  predicate IsFloat(v: Variant)
    ensures IsFloat(v) <==> v.Float?
  {
    IsType(v, FloatType)
  }

  predicate IsBoolean(v: Variant)
    ensures IsBoolean(v) <==> v.Boolean?
  {
    IsType(v, BooleanType)
  }

  predicate IsString(v: Variant)
    ensures IsString(v) <==> v.String?
  {
    IsType(v, StringType)
  }

  /** `IsType(v, NUMERIC)` holds exactly for Integer and Float values. */
  lemma IsTypeNumeric(v: Variant)
    ensures IsType(v, NumericType) <==> IsNumeric(v)
    ensures IsType(v, NumericType) <==> v.Integer? || v.Float?
  {
  }

  /** For a real tag, `IsType` is tag equality, and each value matches exactly one real tag. */
  lemma IsTypeExactlyOne(v: Variant, t: VariantType)
    requires t != NumericType
    ensures IsType(v, t) <==> GetType(v) == t
    ensures IsType(v, t) <==>
      match t
      case UndefinedType => v.Undefined?
      case IntegerType => v.Integer?
      case FloatType => v.Float?
      case BooleanType => v.Boolean?
      case StringType => v.String?
      case NumericType => false
  {
  }

  function IntegerCreate(value: int): (v: Variant)
    ensures IsInteger(v) && IntegerGetValue(v) == value
  {
    Integer(value)
  }

  function IntegerGetValue(v: Variant): (value: int)
    requires IsInteger(v)
    ensures v == Integer(value)
  {
    v.i
  }

  function FloatCreate(value: real): (v: Variant)
    ensures IsFloat(v) && FloatGetValue(v) == value
  {
    Float(value)
  }

  function FloatGetValue(v: Variant): (value: real)
    requires IsFloat(v)
    ensures v == Float(value)
  {
    v.f
  }

  function BooleanCreate(value: bool): (v: Variant)
    ensures IsBoolean(v) && BooleanGetValue(v) == value
  {
    Boolean(value)
  }

  function BooleanGetValue(v: Variant): (value: bool)
    requires IsBoolean(v)
    ensures v == Boolean(value)
  {
    v.b
  }

  function StringCreate(value: string): (v: Variant)
    ensures IsString(v) && StringGetValue(v) == value
  {
    String(value)
  }

  function StringGetValue(v: Variant): (value: string)
    requires IsString(v)
    ensures v == String(value)
  {
    v.s
  }

  /** C's conversion of a double to an integer: the fraction is dropped, rounding toward zero. */
  function TruncateReal(x: real): (n: int)
    ensures x >= 0.0 ==> 0 <= n && n as real <= x < n as real + 1.0
    ensures x < 0.0 ==> n <= 0 && n as real - 1.0 < x <= n as real
  {
    if x >= 0.0 then x.Floor else -((-x).Floor)
  }

  /** A numeric value read as an integer: Integer payloads unchanged, Float payloads truncated. */
  function NumericAsInteger(v: Variant): (n: int)
    requires IsNumeric(v)
    ensures v.Integer? ==> n == v.i
    ensures v.Float? ==> n == TruncateReal(v.f)
  {
    if IsFloat(v) then TruncateReal(FloatGetValue(v)) else IntegerGetValue(v)
  }

  /** A numeric value read as a float: Integer payloads converted exactly. */
  function NumericAsFloat(v: Variant): (x: real)
    requires IsNumeric(v)
    ensures v.Integer? ==> x == v.i as real
    ensures v.Float? ==> x == v.f
  {
    if IsFloat(v) then FloatGetValue(v) else IntegerGetValue(v) as real
  }

  /** Reading an integer as a float and truncating it back gives the integer again. */
  lemma NumericRoundTrip(n: int)
    ensures NumericAsInteger(FloatCreate(NumericAsFloat(IntegerCreate(n)))) == n
  {
  }

  /**
   * `%f`: the value rounded to six decimals (ties to even), printed as
   * integer part, '.', and six fraction digits, with '-' for negative values.
   */
  function FormatFloat(x: real): (s: string)
    ensures |s| >= 8 && s[|s| - 7] == '.'
    ensures forall k :: |s| - 6 <= k < |s| ==> Decimal.IsDigit(s[k])
    ensures s[0] == '-' <==> x < 0.0
  {
    var magnitude := if x < 0.0 then -x else x;
    var scaled := magnitude * 1000000.0;
    var whole := scaled.Floor;
    var fraction := scaled - whole as real;
    var rounded := if fraction > 0.5 || (fraction == 0.5 && whole % 2 == 1) then whole + 1 else whole;
    var sign := if x < 0.0 then "-" else "";
    Decimal.NatToStringDigits(rounded / 1000000);
    sign + Decimal.NatToString(rounded / 1000000) + "." + FixedDigits(rounded % 1000000, 6)
  }

  /** The lowest `width` decimal digits of `n`, zero-padded on the left. */
  function FixedDigits(n: nat, width: nat): (s: string)
    ensures |s| == width
    ensures forall k :: 0 <= k < |s| ==> Decimal.IsDigit(s[k])
  {
    if width == 0 then "" else FixedDigits(n / 10, width - 1) + [Decimal.DigitChar(n % 10)]
  }

  /** The text `to_string` produces for each tag. */
  function ToString(v: Variant): (text: string)
    ensures v.Integer? ==>
      && |text| > 0 && (text[0] == '-' || Decimal.IsDigit(text[0]))
      && (forall k :: 1 <= k < |text| ==> Decimal.IsDigit(text[k]))
      && Decimal.ParseInt(text) == v.i
    ensures v.Float? ==> text == FormatFloat(v.f)
    ensures v.Boolean? ==> (text == "True" <==> v.b) && (text == "False" <==> !v.b)
    ensures v.String? ==> text == v.s
    ensures v.Undefined? ==> text == "<undefined>"
  {
    match v
    case Undefined => "<undefined>"
    case Integer(i) =>
      Decimal.IntToStringRoundTrip(i);
      Decimal.IntToString(i)
    case Float(f) => FormatFloat(f)
    case Boolean(b) => if b then "True" else "False"
    case String(s) => s
  }

  /** Integers are printed in decimal and read back to the same number. */
  lemma ToStringInteger(i: int)
    ensures |ToString(Integer(i))| > 0
    ensures ToString(Integer(i))[0] == '-' <==> i < 0
  {
    Decimal.IntToStringRoundTrip(i);
  }

  /** Distinct integers are printed differently. */
  lemma ToStringIntegerInjective(i: int, j: int)
    requires ToString(Integer(i)) == ToString(Integer(j))
    ensures i == j
  {
    Decimal.IntToStringInjective(i, j);
  }

  /** The renderings of undefined values, integers and booleans. */
  lemma ToStringExamples()
    ensures ToString(Create()) == "<undefined>"
    ensures ToString(IntegerCreate(123)) == "123"
    ensures ToString(IntegerCreate(-7)) == "-7"
    ensures ToString(BooleanCreate(true)) == "True" && ToString(BooleanCreate(false)) == "False"
  {
    assert Decimal.NatToString(12) == "12";
  }

  /** `%f` keeps six decimals: 123.000321 is printed as "123.000321". */
  lemma ToStringFloatExample()
    ensures ToString(FloatCreate(123.000321)) == "123.000321"
  {
    var x := 123.000321;
    ScaledFloor();
    assert x * 1000000.0 - 123000321 as real == 0.0;
    assert 123000321 / 1000000 == 123 && 123000321 % 1000000 == 321;
    WholeDigitsExample();
    FractionDigitsExample();
    assert FormatFloat(x) == "" + "123" + "." + "000321";
    assert "" + "123" + "." + "000321" == "123.000321";
  }

  lemma WholeDigitsExample()
    ensures Decimal.NatToString(123) == "123"
  {
    assert Decimal.NatToString(12) == "12";
  }

  lemma FractionDigitsExample()
    ensures FixedDigits(321, 6) == "000321"
  {
    assert FixedDigits(0, 3) == "000";
    assert FixedDigits(3, 4) == "0003";
    assert FixedDigits(32, 5) == "00032";
  }

  lemma ScaledFloor()
    ensures (123.000321 * 1000000.0).Floor == 123000321
  {
    assert 123.000321 * 1000000.0 == 123000321.0;
  }
}
