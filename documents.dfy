/**
 * The parsed configuration document, as a YAML safe loader hands it to the
 * materials loader, and Python's float() applied to one of its values.
 */
module Documents {
  import opened Wrappers
  import opened Dicts

  /** A Python float: a finite value, an infinity, or NaN (rounding is not modelled). */
  datatype Double = Finite(x: real) | Infinity(negative: bool) | NaN

  /** A loaded YAML value. */
  datatype Node =
    | Null
    | Bool(b: bool)
    | Int(i: int)
    | Float(value: Double)     // includes .inf, -.inf and .nan
    | Text(s: string)
    | List(items: seq<Node>)
    | Mapping(d: Dict<Node>)

  predicate IsDigit(c: char) {
    '0' <= c <= '9'
  }

  predicate AllDigits(s: string) {
    forall i :: 0 <= i < |s| ==> IsDigit(s[i])
  }

  /** The natural number a string of decimal digits denotes. */
  function DigitsValue(s: string): nat
    requires AllDigits(s)
    decreases |s|
  {
    if s == [] then 0
    else 10 * DigitsValue(s[..|s| - 1]) + (s[|s| - 1] as int - '0' as int)
  }

  function Pow10(n: nat): (p: nat)
    ensures p >= 1
  {
    if n == 0 then 1 else 10 * Pow10(n - 1)
  }

  /** Index of the first occurrence of `c` in `s`, or |s| when there is none. */
  function IndexOf(s: string, c: char): (k: nat)
    ensures k <= |s|
    ensures k < |s| ==> s[k] == c
    ensures forall i :: 0 <= i < k ==> s[i] != c
  {
    if s == [] then 0
    else if s[0] == c then 0
    else 1 + IndexOf(s[1..], c)
  }

  /** An unsigned decimal literal: digits, an optional point, digits; at least one digit. */
  function ParseUnsigned(s: string): Option<real> {
    var dot := IndexOf(s, '.');
    var whole := s[..dot];
    var fraction := if dot < |s| then s[dot + 1..] else [];
    if AllDigits(whole) && AllDigits(fraction) && |whole| + |fraction| > 0 then
      Some(DigitsValue(whole) as real + DigitsValue(fraction) as real / Pow10(|fraction|) as real)
    else
      None
  }

  function LowerChar(c: char): char {
    if 'A' <= c <= 'Z' then (c as int + 32) as char else c
  }

  /** ASCII letters in lower case, other characters unchanged. */
  function Lower(s: string): (r: string)
    ensures |r| == |s|
    ensures forall i :: 0 <= i < |s| ==> r[i] == LowerChar(s[i])
  {
    if s == [] then [] else [LowerChar(s[0])] + Lower(s[1..])
  }

  /** An unsigned literal: "nan", "inf" or "infinity" in any case, or a decimal literal. */
  function ParseUnsignedDouble(s: string): Option<Double> {
    var word := Lower(s);
    if word == "nan" then Some(NaN)
    else if word == "inf" || word == "infinity" then Some(Infinity(false))
    else match ParseUnsigned(s)
      case Some(x) => Some(Finite(x))
      case None => None
  }

  function Negate(d: Double): Double {
    match d
    case Finite(x) => Finite(-x)
    case Infinity(negative) => Infinity(!negative)
    case NaN => NaN
  }

  /** float() on a str: an optional sign followed by an unsigned literal. */
  function ParseText(s: string): Option<Double> {
    if |s| > 0 && s[0] == '-' then
      match ParseUnsignedDouble(s[1..])
      case Some(d) => Some(Negate(d))
      case None => None
    else if |s| > 0 && s[0] == '+' then
      ParseUnsignedDouble(s[1..])
    else
      ParseUnsignedDouble(s)
  }

  /** Python's float() on a loaded value: None where float() raises. */
  function ToFloat(v: Node): (r: Option<Double>)
    ensures r.None? ==> v.Null? || v.Text? || v.List? || v.Mapping?
    ensures r.Some? && (v.Int? || v.Bool?) ==> r.value.Finite?
  {
    match v
    case Int(i) => Some(Finite(i as real))
    case Float(f) => Some(f)
    case Bool(b) => Some(Finite(if b then 1.0 else 0.0))
    case Text(s) => ParseText(s)
    case _ => None
  }

  /** Numbers convert to themselves; booleans to 1.0 and 0.0; null, lists and mappings do not convert. */
  lemma ToFloatByKind(v: Node)
    ensures v.Int? ==> ToFloat(v) == Some(Finite(v.i as real))
    ensures v.Float? ==> ToFloat(v) == Some(v.value)
    ensures v.Bool? ==> ToFloat(v) == Some(Finite(if v.b then 1.0 else 0.0))
    ensures v.Null? || v.List? || v.Mapping? ==> ToFloat(v) == None
  {
  }

  /** Instances of float() on decimal text: a decimal literal with an optional sign converts to its value. */
  lemma ToFloatOfDecimalText()
    ensures ToFloat(Text("0.3")) == Some(Finite(0.3))
  {
    assert Lower("0.3")[0] == '0';
    assert IndexOf("0.3", '.') == 1;
    assert "0.3"[..1] == "0" && "0.3"[2..] == "3";
    assert DigitsValue("0") == 0 by { assert "0"[..0] == ""; }
    assert DigitsValue("3") == 3 by { assert "3"[..0] == ""; }
  }

  lemma ToFloatOfNegativeDecimalText()
    ensures ToFloat(Text("-0.1")) == Some(Finite(-0.1))
  {
    var word := "-0.1"[1..];
    assert word == "0.1";
    assert Lower(word)[0] == '0';
    assert IndexOf(word, '.') == 1;
    assert word[..1] == "0" && word[2..] == "1";
    assert DigitsValue("0") == 0 by { assert "0"[..0] == ""; }
    assert DigitsValue("1") == 1 by { assert "1"[..0] == ""; }
    assert ParseUnsignedDouble(word) == Some(Finite(0.1));
  }

  lemma ToFloatOfIntegerText()
    ensures ToFloat(Text("1")) == Some(Finite(1.0))
  {
    assert Lower("1")[0] == '1';
    assert IndexOf("1", '.') == 1;
    assert "1"[..1] == "1";
    assert DigitsValue("1") == 1 by { assert "1"[..0] == ""; }
  }

  lemma ToFloatOfNonNumericText()
    ensures ToFloat(Text("x")) == None
    ensures ToFloat(Text(".")) == None
    ensures ToFloat(Text("")) == None
  {
    assert Lower("x")[0] == 'x' && Lower(".")[0] == '.';
    assert !IsDigit("x"[0]);
    assert IndexOf(".", '.') == 0;
  }

  /**
   * The special spellings float() accepts: "nan", "inf" and "infinity" in any
   * letter case, unsigned or after a sign; a minus negates an infinity.
   */
  lemma SpecialText(s: string)
    requires Lower(s) == "nan" || Lower(s) == "inf" || Lower(s) == "infinity"
    ensures ToFloat(Text(s)) == Some(if Lower(s) == "nan" then NaN else Infinity(false))
    ensures ToFloat(Text("+" + s)) == ToFloat(Text(s))
    ensures ToFloat(Text("-" + s)) == Some(if Lower(s) == "nan" then NaN else Infinity(true))
  {
    assert LowerChar(s[0]) == Lower(s)[0];
    assert ("+" + s)[1..] == s && ("-" + s)[1..] == s;
  }

  /** Instances of the special spellings: "nan" in two letter cases. */
  lemma ToFloatOfNaNText()
    ensures ToFloat(Text("nan")) == Some(NaN)
    ensures ToFloat(Text("NaN")) == Some(NaN)
  {
    assert Lower("nan") == "nan";
    assert Lower("NaN") == "nan";
  }

  lemma ToFloatOfInfinityText()
    ensures ToFloat(Text("inf")) == Some(Infinity(false))
  {
    assert Lower("inf") == "inf";
  }

  lemma ToFloatOfNegativeInfinityText()
    ensures ToFloat(Text("-INF")) == Some(Infinity(true))
  {
    var word := "-INF"[1..];
    assert word == "INF";
    assert Lower(word) == "inf";
    assert ParseUnsignedDouble(word) == Some(Infinity(false));
  }
}
