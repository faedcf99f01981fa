/**
 * The parts of JavaScript's number semantics that the layout core relies on:
 * numbers with NaN and the infinities, the comparison operators, the few
 * arithmetic operations the core performs, `Number.parseFloat`, and the
 * length check made by `new Array(n)`.
 *
 * Finite numbers are mathematical reals: IEEE-754 rounding, overflow to
 * Infinity and the sign of zero are not modelled.
 */
module Js {

  /** A JavaScript number. */
  datatype Num = NaN | PosInf | NegInf | Fin(value: real)

  /** The built-in errors the core can throw. */
  datatype JsError = TypeError | RangeError

  /** `a < b`: false whenever either side is NaN. */
  predicate Lt(a: Num, b: Num) {
    if a.NaN? || b.NaN? then false
    else if a.Fin? && b.Fin? then a.value < b.value
    else (a.NegInf? && !b.NegInf?) || (!a.PosInf? && b.PosInf?)
  }

  /** `a > b` */
  predicate Gt(a: Num, b: Num) {
    Lt(b, a)
  }

  /** `a >= b`: false whenever either side is NaN. */
  predicate Ge(a: Num, b: Num) {
    !a.NaN? && !b.NaN? && !Lt(a, b)
  }

  /** `a <= b` */
  predicate Le(a: Num, b: Num) {
    Ge(b, a)
  }

  /** `a === b`: NaN equals nothing, not even itself. */
  predicate StrictEquals(a: Num, b: Num) {
    !a.NaN? && a == b
  }

  /** The sign of a number that is not NaN: -1, 0 or 1. */
  function Sign(x: Num): int
    requires !x.NaN?
  {
    match x
    case PosInf => 1
    case NegInf => -1
    case Fin(v) => if v > 0.0 then 1 else if v < 0.0 then -1 else 0
  }

  /** `a * b`: NaN is absorbing and zero times an infinity is NaN. */
  function Mul(a: Num, b: Num): (r: Num)
    ensures a.Fin? && b.Fin? ==> r == Fin(a.value * b.value)
    ensures r.NaN? <==> (a.NaN? || b.NaN? || (!a.Fin? && Sign(b) == 0) || (!b.Fin? && Sign(a) == 0))
  {
    if a.NaN? || b.NaN? then NaN
    else if a.Fin? && b.Fin? then Fin(a.value * b.value)
    else
      var s := Sign(a) * Sign(b);
      if s == 0 then NaN else if s > 0 then PosInf else NegInf
  }

  /** `a / d` for a positive finite divisor `d`. */
  function DivideBy(a: Num, d: real): Num
    requires d > 0.0
  {
    if a.Fin? then Fin(a.value / d) else a
  }

  /** `a + 1` */
  function Increment(a: Num): Num {
    if a.Fin? then Fin(a.value + 1.0) else a
  }

  /** A number `n` for which `new Array(n)` does not throw a RangeError. */
  predicate IsArrayLength(n: Num) {
    n.Fin? && n.value == n.value.Floor as real && 0.0 <= n.value < 4294967296.0
  }

  /** The length of the array `new Array(n)` allocates. */
  function ArrayLength(n: Num): (len: nat)
    requires IsArrayLength(n)
    ensures len as real == n.value
  {
    n.value.Floor
  }

  // ---------------------------------------------------------------------
  // Characters and Number.parseFloat
  // ---------------------------------------------------------------------

  /** The class `\d` of a JavaScript regular expression: an ASCII digit. */
  predicate IsDigit(c: char) {
    '0' <= c <= '9'
  }

  /** A WhiteSpace or LineTerminator code point, as parseFloat trims them. */
  predicate IsWhiteSpace(c: char) {
    var n := c as int;
    n == 0x09 || n == 0x0A || n == 0x0B || n == 0x0C || n == 0x0D || n == 0x20
    || n == 0xA0 || n == 0x1680 || (0x2000 <= n <= 0x200A) || n == 0x2028
    || n == 0x2029 || n == 0x202F || n == 0x205F || n == 0x3000 || n == 0xFEFF
  }

  /** `s` without its leading white space. */
  function TrimStart(s: string): (r: string)
    ensures |r| <= |s| && r == s[|s| - |r|..]
    ensures r == [] || !IsWhiteSpace(r[0])
    ensures s != [] && !IsWhiteSpace(s[0]) ==> r == s
  {
    if s != [] && IsWhiteSpace(s[0]) then TrimStart(s[1..]) else s
  }

  /** The number of digits at the start of `s`. */
  function DigitRun(s: string): (n: nat)
    ensures n <= |s|
    ensures forall k :: 0 <= k < n ==> IsDigit(s[k])
    ensures n < |s| ==> !IsDigit(s[n])
  {
    if s != [] && IsDigit(s[0]) then 1 + DigitRun(s[1..]) else 0
  }

  predicate AllDigits(s: string) {
    forall k :: 0 <= k < |s| ==> IsDigit(s[k])
  }

  function DigitValue(c: char): nat
    requires IsDigit(c)
  {
    c as int - '0' as int
  }

  /** The value of a string of decimal digits, most significant first. */
  function DigitsValue(ds: string): nat
    requires AllDigits(ds)
  {
    if ds == [] then 0 else DigitsValue(ds[..|ds| - 1]) * 10 + DigitValue(ds[|ds| - 1])
  }

  function Pow10(n: nat): (r: real)
    ensures r >= 1.0
  {
    if n == 0 then 1.0 else 10.0 * Pow10(n - 1)
  }

  /** 10 to the power `e`, for any integer `e`. */
  function Scale10(e: int): real {
    if e >= 0 then Pow10(e) else 1.0 / Pow10(-e)
  }

  /**
   * The exponent written at the start of `s` (`e` or `E`, an optional sign,
   * at least one digit), or 0 when `s` does not start with one.
   */
  function ExponentPart(s: string): int {
    if |s| < 2 || (s[0] != 'e' && s[0] != 'E') then 0
    else
      var signed := s[1] == '+' || s[1] == '-';
      var digits := if signed then s[2..] else s[1..];
      var n := DigitRun(digits);
      if n == 0 then 0
      else if signed && s[1] == '-' then -(DigitsValue(digits[..n]) as int)
      else DigitsValue(digits[..n])
  }

  /** `-x` */
  function Negate(x: Num): Num {
    match x
    case NaN => NaN
    case PosInf => NegInf
    case NegInf => PosInf
    case Fin(v) => Fin(-v)
  }

  /**
   * `Number.parseFloat(s)`: the value of the longest prefix of `s`, after
   * leading white space, that reads as a decimal literal (optional sign,
   * then `Infinity` or digits with an optional fraction and exponent); NaN
   * when there is none.
   */
  function ParseFloat(s: string): Num {
    var t := TrimStart(s);
    if t != [] && t[0] == '-' then Negate(ParseUnsigned(t[1..]))
    else if t != [] && t[0] == '+' then ParseUnsigned(t[1..])
    else ParseUnsigned(t)
  }

  /** The value of the unsigned decimal literal at the start of `u`. */
  function ParseUnsigned(u: string): Num {
    if StartsWithInfinity(u) then PosInf
    else
      var i := DigitRun(u);
      var hasPoint := i < |u| && u[i] == '.';
      var f := if hasPoint then DigitRun(u[i + 1..]) else 0;
      if i == 0 && f == 0 then NaN
      else
        var end := if hasPoint then i + 1 + f else i;
        var digits := u[..i] + (if hasPoint then u[i + 1..end] else "");
        Fin(DecimalValue(digits, f, ExponentPart(u[end..])))
  }

  predicate StartsWithInfinity(u: string) {
    |u| >= 8 && u[..8] == "Infinity"
  }

  /** The value of the digits `ds` with `f` of them after the point, times 10 to the `e`. */
  function DecimalValue(ds: string, f: nat, e: int): real
    requires AllDigits(ds)
  {
    DigitsValue(ds) as real * Scale10(e - f)
  }

  /** The decimal numeral of `n`, as `String(n)` writes it. */
  function DecimalString(n: nat): (s: string)
    ensures s != [] && AllDigits(s)
  {
    var d := [('0' as int + n % 10) as char];
    if n < 10 then d else DecimalString(n / 10) + d
  }

  /** Reading back the numeral `String(n)` gives `n`. */
  lemma {:induction false} DecimalStringValue(n: nat)
    ensures DigitsValue(DecimalString(n)) == n
  {
    var s := DecimalString(n);
    if n >= 10 {
      DecimalStringValue(n / 10);
      assert s[..|s| - 1] == DecimalString(n / 10);
    }
  }

  /**
   * parseFloat reads a numeral `String(n)` followed by anything that cannot
   * continue a decimal literal (such as `%`) as exactly `n`.
   */
  lemma ParseFloatOfNumeral(n: nat, rest: string)
    requires rest == [] || (!IsDigit(rest[0]) && rest[0] != '.' && rest[0] != 'e' && rest[0] != 'E')
    ensures ParseFloat(DecimalString(n) + rest) == Fin(n as real)
  {
    DecimalStringValue(n);
    ParseFloatOfDigits(DecimalString(n), rest);
  }

  /** parseFloat reads a run of digits followed by a non-continuation as its value. */
  lemma ParseFloatOfDigits(d: string, rest: string)
    requires d != [] && AllDigits(d)
    requires rest == [] || (!IsDigit(rest[0]) && rest[0] != '.' && rest[0] != 'e' && rest[0] != 'E')
    ensures ParseFloat(d + rest) == Fin(DigitsValue(d) as real)
  {
    assert (d + rest)[0] == d[0];
    ParseFloatOfUnsigned(d + rest);
    ParseUnsignedOfDigits(d, rest);
  }

  /** parseFloat reads a minus sign, a run of digits and a non-continuation as the negated value. */
  lemma ParseFloatOfNegativeDigits(d: string, rest: string)
    requires d != [] && AllDigits(d)
    requires rest == [] || (!IsDigit(rest[0]) && rest[0] != '.' && rest[0] != 'e' && rest[0] != 'E')
    ensures ParseFloat("-" + (d + rest)) == Fin(-(DigitsValue(d) as real))
  {
    ParseFloatOfMinus(d + rest);
    ParseUnsignedOfDigits(d, rest);
  }

  /** A minus sign before `u` reads as the negated unsigned literal `u`. */
  lemma ParseFloatOfMinus(u: string)
    ensures ParseFloat("-" + u) == Negate(ParseUnsigned(u))
  {
    var s := "-" + u;
    assert s[0] == '-' && s[1..] == u;
    assert TrimStart(s) == s;
  }

  /** parseFloat reads no number from a string that starts with anything a literal cannot start with. */
  lemma ParseFloatOfNonNumeric(s: string)
    requires s != [] && !IsWhiteSpace(s[0]) && !IsDigit(s[0])
    requires s[0] != '-' && s[0] != '+' && s[0] != '.' && s[0] != 'I'
    ensures ParseFloat(s).NaN?
  {
    assert TrimStart(s) == s;
    assert !StartsWithInfinity(s) by {
      if |s| >= 8 {
        assert s[..8][0] == s[0];
      }
    }
    assert DigitRun(s) == 0;
  }

  /** A literal that starts with a digit has no white space or sign for parseFloat to skip. */
  lemma ParseFloatOfUnsigned(s: string)
    requires s != [] && IsDigit(s[0])
    ensures ParseFloat(s) == ParseUnsigned(s)
  {
    assert TrimStart(s) == s;
  }

  /** A run of digits followed by a non-continuation reads as its own value. */
  lemma ParseUnsignedOfDigits(d: string, rest: string)
    requires d != [] && AllDigits(d)
    requires rest == [] || (!IsDigit(rest[0]) && rest[0] != '.' && rest[0] != 'e' && rest[0] != 'E')
    ensures ParseUnsigned(d + rest) == Fin(DigitsValue(d) as real)
  {
    var s := d + rest;
    DigitsThenRest(d, rest);
    ParseUnsignedInteger(s, |d|);
    assert s[..|d|] + "" == d;
    assert Scale10(0) == 1.0;
  }

  lemma DigitsThenRest(d: string, rest: string)
    requires d != [] && AllDigits(d)
    requires rest == [] || (!IsDigit(rest[0]) && rest[0] != '.' && rest[0] != 'e' && rest[0] != 'E')
    ensures var s := d + rest;
      && DigitRun(s) == |d| && !StartsWithInfinity(s) && !(|d| < |s| && s[|d|] == '.')
      && s[|d|..] == rest && ExponentPart(rest) == 0
  {
    var s := d + rest;
    assert s[0] == d[0];
    assert !StartsWithInfinity(s);
    assert forall k :: 0 <= k < |d| ==> s[k] == d[k];
    assert |d| < |s| ==> s[|d|] == rest[0];
  }

  /** A literal with digits and no fraction reads as its digits, scaled by its exponent. */
  lemma ParseUnsignedInteger(s: string, i: nat)
    requires i == DigitRun(s) && i > 0
    requires !StartsWithInfinity(s)
    requires !(i < |s| && s[i] == '.')
    ensures ParseUnsigned(s) == Fin(DecimalValue(s[..i] + "", 0, ExponentPart(s[i..])))
  {
  }
}
