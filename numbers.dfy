/** Python's `float` values as the analyzer uses them (quantities, sums, spreadsheet serial
    numbers), and the string conversions `int()` and `float()`.

    A float is an exact real, an infinity or NaN; rounding and overflow are outside the
    model. Addition follows IEEE 754 on the special values: NaN absorbs, opposite
    infinities give NaN, an infinity absorbs every finite value. */
module Numbers {
  import opened Common
  import opened Text

  datatype Float = Finite(value: real) | Infinity(negative: bool) | NaN

  const Zero := Finite(0.0)

  function Add(a: Float, b: Float): Float {
    match (a, b)
    case (NaN, _) => NaN
    case (_, NaN) => NaN
    case (Infinity(x), Infinity(y)) => if x == y then a else NaN
    case (Infinity(_), Finite(_)) => a
    case (Finite(_), Infinity(_)) => b
    case (Finite(x), Finite(y)) => Finite(x + y)
  }

  lemma AddZero(a: Float)
    ensures Add(Zero, a) == a && Add(a, Zero) == a
  {
  }

  lemma AddCommutative(a: Float, b: Float)
    ensures Add(a, b) == Add(b, a)
  {
  }

  lemma AddAssociative(a: Float, b: Float, c: Float)
    ensures Add(Add(a, b), c) == Add(a, Add(b, c))
  {
  }

  /** Python's `abs()`. */
  function Abs(a: Float): (r: Float)
    ensures r.Finite? ==> r.value >= 0.0
    ensures r.Infinity? ==> !r.negative
    ensures r.NaN? <==> a.NaN?
  {
    match a
    case Finite(x) => Finite(if x < 0.0 then -x else x)
    case Infinity(_) => Infinity(false)
    case NaN => NaN
  }

  /** `a > bound`; every comparison with NaN is false. */
  predicate GreaterThan(a: Float, bound: real) {
    match a
    case Finite(x) => x > bound
    case Infinity(neg) => !neg
    case NaN => false
  }

  /** `lo < a < hi`, as the chained comparison evaluates it. */
  predicate Between(lo: real, a: Float, hi: real) {
    match a
    case Finite(x) => lo < x < hi
    case Infinity(_) => false
    case NaN => false
  }

  // ---------------------------------------------------------------------------
  // Digit groups: digit (["_"] digit)*
  // ---------------------------------------------------------------------------

  /** A run of ASCII digits in which single underscores may separate digits. */
  predicate IsDigitPart(s: string) {
    && |s| > 0 && IsDigit(s[0]) && IsDigit(s[|s| - 1])
    && (forall i :: 0 <= i < |s| ==> IsDigit(s[i]) || s[i] == '_')
    && (forall i :: 0 <= i < |s| - 1 ==> !(s[i] == '_' && s[i + 1] == '_'))
  }

  function RemoveUnderscores(s: string): (r: string)
    ensures (forall i :: 0 <= i < |s| ==> IsDigit(s[i]) || s[i] == '_') ==> AllDigits(r)
    ensures AllDigits(s) ==> r == s
  {
    if s == [] then []
    else if s[0] == '_' then RemoveUnderscores(s[1..])
    else [s[0]] + RemoveUnderscores(s[1..])
  }

  function DigitPartValue(s: string): nat
    requires IsDigitPart(s)
  {
    DigitsValue(RemoveUnderscores(s))
  }

  function DigitPartDigits(s: string): nat
    requires IsDigitPart(s)
  {
    |RemoveUnderscores(s)|
  }

  /** A plain digit string is a digit group whose value is its decimal value. */
  lemma DigitsAreDigitPart(s: string)
    requires |s| > 0 && AllDigits(s)
    ensures IsDigitPart(s) && DigitPartDigits(s) == |s| && DigitPartValue(s) == DigitsValue(s)
  {
  }

  /** Splits off a leading `+` or `-`: (is it negative, the rest). */
  function SplitSign(t: string): (bool, string) {
    if |t| > 0 && (t[0] == '+' || t[0] == '-') then (t[0] == '-', t[1..]) else (false, t)
  }

  // ---------------------------------------------------------------------------
  // int()
  // ---------------------------------------------------------------------------

  /** The number of digits in a text, leaving out underscores. */
  function DigitCount(s: string): nat {
    if s == [] then 0 else (if s[0] == '_' then 0 else 1) + DigitCount(s[1..])
  }

  lemma {:induction false} DigitCountOfDigits(s: string)
    requires AllDigits(s)
    ensures DigitCount(s) == |s|
  {
    if s != [] {
      DigitCountOfDigits(s[1..]);
    }
  }

  /** The most digits `int()` converts from a decimal text, `sys.int_info.default_max_str_digits`
      from Python 3.11 on (and in the 3.7.14, 3.8.14, 3.9.14 and 3.10.7 releases). Leading
      zeros count; underscores do not. A longer text raises ValueError. */
  const MaxStrDigits := 4300

  /** Python's `int(s)` for a string, base 10: surrounding whitespace, an optional sign and
      a digit group of at most `MaxStrDigits` digits; None where `int()` raises ValueError. */
  function ParseInt(s: string): Option<int> {
    var (neg, body) := SplitSign(Strip(s));
    var v := DigitGroup(body);
    if v.None? then None else Some(if neg then -(v.value as int) else v.value as int)
  }

  /** The value of an unsigned digit group as `int()` converts it; None where the text is no
      digit group or has more than `MaxStrDigits` digits. */
  function DigitGroup(body: string): Option<nat> {
    if IsDigitPart(body) && DigitCount(body) <= MaxStrDigits then Some(DigitPartValue(body)) else None
  }

  /** A digit string has no surrounding whitespace and no sign. */
  lemma DigitsBare(s: string)
    requires |s| > 0 && AllDigits(s)
    ensures Strip(s) == s && SplitSign(s) == (false, s)
  {
    assert !IsSpace(s[0]) && !IsSpace(s[|s| - 1]);
    StripNoop(s);
  }

  /** `int()` of a text with no surrounding whitespace and no sign reads its digit group. */
  lemma ParseIntUnsigned(s: string)
    requires Strip(s) == s && SplitSign(s) == (false, s)
    ensures ParseInt(s) == if DigitGroup(s).None? then None else Some(DigitGroup(s).value as int)
  {
  }

  /** `int()` of a string of at most four digits is its decimal value. */
  lemma ParseIntShort(s: string)
    requires 0 < |s| <= 4 && AllDigits(s)
    ensures ParseInt(s) == Some(DigitsValue(s) as int)
  {
    ParseIntDigits(s);
  }

  /** `int()` of a plain digit string is its decimal value, unless it has more digits than
      `int()` accepts. */
  lemma ParseIntDigits(s: string)
    requires |s| > 0 && AllDigits(s)
    ensures |s| <= MaxStrDigits ==> ParseInt(s) == Some(DigitsValue(s) as int)
    ensures |s| > MaxStrDigits ==> ParseInt(s) == None
  {
    DigitsBare(s);
    DigitsAreDigitPart(s);
    DigitCountOfDigits(s);
    ParseIntUnsigned(s);
  }

  // ---------------------------------------------------------------------------
  // float()
  // ---------------------------------------------------------------------------

  function Pow10Real(e: int): (r: real)
    ensures r > 0.0
  {
    if e >= 0 then Pow10(e) as real else 1.0 / (Pow10(-e) as real)
  }

  function IndexOfExponent(s: string): (k: nat)
    ensures k <= |s|
    ensures k < |s| ==> s[k] == 'e' || s[k] == 'E'
    ensures forall i :: 0 <= i < k ==> s[i] != 'e' && s[i] != 'E'
  {
    if s == [] then 0 else if s[0] == 'e' || s[0] == 'E' then 0 else 1 + IndexOfExponent(s[1..])
  }

  /** The value of the digits after a decimal point; 0 where there are none. */
  function FractionValue(frac: string): real {
    if IsDigitPart(frac) then DigitPartValue(frac) as real / Pow10(DigitPartDigits(frac)) as real else 0.0
  }

  /** The mantissa `[digitpart] "." digitpart | digitpart ["."]`. */
  function ParseMantissa(m: string): Option<real> {
    var d := IndexOf(m, '.');
    MantissaOf(m[..d], d < |m|, if d < |m| then m[d + 1..] else "")
  }

  /** A mantissa from its integer digits, whether it has a point, and the digits after it. */
  function MantissaOf(intPart: string, hasDot: bool, frac: string): Option<real> {
    if IsDigitPart(intPart) && (frac == "" || IsDigitPart(frac)) then
      Some(DigitPartValue(intPart) as real + FractionValue(frac))
    else if intPart == "" && hasDot && IsDigitPart(frac) then
      Some(FractionValue(frac))
    else None
  }

  /** A number without sign: mantissa and optional exponent `("e" | "E") [sign] digitpart`. */
  function ParseUnsigned(b: string): Option<real> {
    var k := IndexOfExponent(b);
    var mantissa := ParseMantissa(b[..k]);
    if mantissa.None? then None
    else if k == |b| then mantissa
    else
      var (neg, digits) := SplitSign(b[k + 1..]);
      if IsDigitPart(digits) then
        var e: int := DigitPartValue(digits);
        Some(mantissa.value * Pow10Real(if neg then -e else e))
      else None
  }

  /** Python's `float(s)` for a string: None where it raises ValueError. */
  function ParseFloat(s: string): Option<Float> {
    ParseBareFloat(Strip(s))
  }

  /** `float()` once surrounding whitespace is gone. */
  function ParseBareFloat(t: string): Option<Float> {
    var (neg, body) := SplitSign(t);
    var lower := LowerAscii(body);
    if lower == "inf" || lower == "infinity" then Some(Infinity(neg))
    else if lower == "nan" then Some(NaN)
    else
      match ParseUnsigned(body)
      case Some(v) => Some(Finite(if neg then -v else v))
      case None => None
  }

  /** A digit string is its own unsigned mantissa. */
  lemma ParseUnsignedDigits(s: string)
    requires |s| > 0 && AllDigits(s)
    ensures ParseUnsigned(s) == Some(DigitsValue(s) as real)
  {
    DigitsAreDigitPart(s);
    assert IndexOfExponent(s) == |s|;
    assert s[..|s|] == s;
    assert IndexOf(s, '.') == |s|;
  }

  /** `float()` of a bare string that is neither an infinity nor NaN is its unsigned number. */
  lemma ParseFloatUnsigned(s: string)
    requires SplitSign(s) == (false, s)
    requires |s| > 0 && IsDigit(s[0])
    ensures ParseBareFloat(s) == if ParseUnsigned(s).Some? then Some(Finite(ParseUnsigned(s).value)) else None
  {
    var lower := LowerAscii(s);
    assert lower[0] == s[0];
    assert lower != "inf" && lower != "infinity" && lower != "nan";
  }

  /** The same for a bare string with a leading minus sign. */
  lemma ParseFloatNegative(t: string, s: string, v: real)
    requires SplitSign(t) == (true, s)
    requires |s| > 0 && IsDigit(s[0]) && ParseUnsigned(s) == Some(v)
    ensures ParseBareFloat(t) == Some(Finite(-v))
  {
    var lower := LowerAscii(s);
    assert lower[0] == s[0];
    assert lower != "inf" && lower != "infinity" && lower != "nan";
  }

  /** `float()` of a minus sign and a digit string is the negated decimal value. */
  lemma ParseFloatNegativeDigits(t: string)
    requires |t| > 1 && t[0] == '-' && AllDigits(t[1..])
    ensures ParseBareFloat(t) == Some(Finite(-(DigitsValue(t[1..]) as real)))
  {
    var s := t[1..];
    ParseUnsignedDigits(s);
    ParseFloatNegative(t, s, DigitsValue(s) as real);
  }

  lemma ParseFloatBare(s: string)
    requires |s| > 0 && AllDigits(s) && Strip(s) == s && SplitSign(s) == (false, s)
    ensures ParseFloat(s) == Some(Finite(DigitsValue(s) as real))
  {
    ParseFloatUnsigned(s);
    ParseUnsignedDigits(s);
  }

  /** `float()` of a plain digit string is its decimal value. */
  lemma ParseFloatDigits(s: string)
    requires |s| > 0 && AllDigits(s)
    ensures ParseFloat(s) == Some(Finite(DigitsValue(s) as real))
  {
    DigitsBare(s);
    ParseFloatBare(s);
  }

  /** A digit string after the point is its value over the matching power of ten. */
  lemma FractionOfDigits(y: string)
    requires |y| > 0 && AllDigits(y)
    ensures FractionValue(y) == DigitsValue(y) as real / Pow10(|y|) as real
  {
    DigitsAreDigitPart(y);
    assert RemoveUnderscores(y) == y;
  }

  /** Digits, a point at `d` and digits: no other point and no exponent. */
  lemma DecimalPieces(s: string, d: nat)
    requires d < |s| && s[d] == '.' && AllDigits(s[..d]) && AllDigits(s[d + 1..])
    ensures forall i :: 0 <= i < |s| ==> s[i] == '.' || IsDigit(s[i])
    ensures IndexOf(s, '.') == d
  {
    forall i | 0 <= i < |s| ensures s[i] == '.' || IsDigit(s[i]) {
      if i < d { assert s[i] == s[..d][i]; } else if i > d { assert s[i] == s[d + 1..][i - d - 1]; }
    }
    forall i | 0 <= i < d ensures s[i] != '.' { assert s[i] == s[..d][i]; }
  }

  /** Without an exponent a number is its mantissa. */
  lemma UnsignedWithoutExponent(b: string)
    requires forall i :: 0 <= i < |b| ==> b[i] == '.' || IsDigit(b[i])
    ensures ParseUnsigned(b) == ParseMantissa(b)
  {
    assert IndexOfExponent(b) == |b|;
    assert b[..|b|] == b;
  }

  /** A mantissa with integer and fractional digit groups around its dot. */
  lemma MantissaWithDot(m: string, d: nat, whole: string, frac: string)
    requires d == IndexOf(m, '.') && d < |m| && whole == m[..d] && frac == m[d + 1..]
    requires IsDigitPart(whole) && IsDigitPart(frac)
    ensures ParseMantissa(m) == Some(DigitPartValue(whole) as real + FractionValue(frac))
  {
    assert ParseMantissa(m) == MantissaOf(whole, true, frac);
  }

  lemma UnsignedDecimalAt(s: string, d: nat, x: string, y: string)
    requires forall i :: 0 <= i < |s| ==> s[i] == '.' || IsDigit(s[i])
    requires d == IndexOf(s, '.') && d < |s| && x == s[..d] && y == s[d + 1..]
    requires |x| > 0 && |y| > 0 && AllDigits(x) && AllDigits(y)
    ensures ParseUnsigned(s) == Some(DigitsValue(x) as real + FractionValue(y))
  {
    UnsignedWithoutExponent(s);
    MantissaDigits(s, d, x, y);
  }

  lemma MantissaDigits(m: string, d: nat, x: string, y: string)
    requires d == IndexOf(m, '.') && d < |m| && x == m[..d] && y == m[d + 1..]
    requires |x| > 0 && |y| > 0 && AllDigits(x) && AllDigits(y)
    ensures ParseMantissa(m) == Some(DigitsValue(x) as real + FractionValue(y))
  {
    DigitsAreDigitPart(x);
    DigitsAreDigitPart(y);
    MantissaWithDot(m, d, x, y);
  }

  /** The number of digits, a decimal point at `d` and digits: the digits before the point
      plus the fraction after it. `FloatOfUnsigned` gives `float()` of such a text. */
  lemma UnsignedDecimal(s: string, d: nat)
    requires 0 < d < |s| - 1 && s[d] == '.' && AllDigits(s[..d]) && AllDigits(s[d + 1..])
    ensures ParseUnsigned(s) == Some(DigitsValue(s[..d]) as real + FractionValue(s[d + 1..]))
  {
    DecimalPieces(s, d);
    UnsignedDecimalAt(s, d, s[..d], s[d + 1..]);
  }

  /** `float()` of a text that starts and ends with a digit is its unsigned number: it has
      no sign or surrounding whitespace, and it is not a name of infinity or NaN. */
  lemma FloatOfUnsigned(s: string, v: real)
    requires |s| > 0 && IsDigit(s[0]) && IsDigit(s[|s| - 1]) && ParseUnsigned(s) == Some(v)
    ensures ParseFloat(s) == Some(Finite(v))
  {
    BareOfUnsigned(s, v);
    ParseFloatOfUnspaced(s, Some(Finite(v)));
  }

  /** A number starting with a digit has no sign and is neither infinity nor NaN. */
  lemma BareOfUnsigned(s: string, v: real)
    requires |s| > 0 && IsDigit(s[0]) && ParseUnsigned(s) == Some(v)
    ensures ParseBareFloat(s) == Some(Finite(v))
  {
    assert SplitSign(s) == (false, s);
    ParseFloatUnsigned(s);
  }

  /** The mantissa of a string with a separator inside its leading run of digits fails. */
  lemma ParseUnsignedRejectsSeparated(s: string, j: nat)
    requires 0 < j < |s| && AllDigits(s[..j]) && (s[j] == '/' || s[j] == '-')
    ensures ParseUnsigned(s) == None
  {
    var k := IndexOfExponent(s);
    assert forall i :: 0 <= i < j ==> IsDigit(s[i]) by {
      forall i | 0 <= i < j ensures IsDigit(s[i]) { assert s[..j][i] == s[i]; }
    }
    assert k > j;
    var m := s[..k];
    var d := IndexOf(m, '.');
    assert d > j;
    assert m[..d][j] == s[j];
    assert !IsDigitPart(m[..d]);
  }

  lemma ParseBareFloatRejectsSeparated(s: string, j: nat)
    requires 0 < j < |s| && AllDigits(s[..j]) && (s[j] == '/' || s[j] == '-')
    ensures ParseBareFloat(s) == None
  {
    assert IsDigit(s[..j][0]);
    assert SplitSign(s) == (false, s);
    ParseFloatUnsigned(s);
    ParseUnsignedRejectsSeparated(s, j);
  }

  /** On a string without surrounding whitespace `float()` is the bare reading. */
  lemma ParseFloatOfStripped(s: string, r: Option<Float>)
    requires Strip(s) == s && ParseBareFloat(s) == r
    ensures ParseFloat(s) == r
  {
  }

  /** On a text that neither begins nor ends with whitespace `float()` is the bare reading. */
  lemma ParseFloatOfUnspaced(s: string, r: Option<Float>)
    requires |s| > 0 && !IsSpace(s[0]) && !IsSpace(s[|s| - 1]) && ParseBareFloat(s) == r
    ensures ParseFloat(s) == r
  {
    StripNoop(s);
  }
}
