/**
 * Lengths (src/element.ts): the values the six size properties of an
 * element accept, the check a property setter makes before storing one
 * (`Ensure.length`), and how a stored length is resolved against the space
 * available on its axis (`computeWidth` / `computeHeight`).
 */
module Lengths {
  import opened Wrappers
  import opened Js

  /**
   * A length exactly as a setter receives and stores it: a JavaScript
   * number, or a string (`'auto'` or a percentage such as `'50%'`).
   */
  datatype Length = Number(num: Num) | Str(text: string)

  /** A resolved size, as the measure pass computes it (`Size`). */
  datatype Size = Size(width: Num, height: Num)

  /** The space offered to an element on each axis. */
  datatype Extent = Extent(width: real, height: real)

  /** The string `'auto'`. */
  const Auto: Length := Str("auto")

  /** The rule a rejected length breaks; each is one of the messages of `Ensure.length`. */
  datatype Rule = MustNotBeNaN | MustNotBeInfinity | MustNotBeNegative | MustNotBeAuto | InvalidFormat

  /** The error a setter throws: the property's name and the broken rule. */
  datatype ValidationError = ValidationError(property: string, rule: Rule)

  /** Which special values a property admits. */
  datatype Policy = Policy(allowInfinity: bool, allowAuto: bool)

  /** `width` and `height`: `'auto'` but not Infinity. */
  const SizePolicy := Policy(false, true)
  /** `minWidth` and `minHeight`: neither `'auto'` nor Infinity. */
  const MinPolicy := Policy(false, false)
  /** `maxWidth` and `maxHeight`: Infinity but not `'auto'`. */
  const MaxPolicy := Policy(true, false)

  /** Some digit is immediately followed by `%`. */
  ghost predicate HasDigitBeforePercent(s: string) {
    exists i :: 1 <= i < |s| && s[i] == '%' && IsDigit(s[i - 1])
  }

  /**
   * `s.match(/\d+\%/)` succeeds: the pattern is not anchored, so it matches
   * anywhere in the string.
   */
  function MatchesPercentPattern(s: string): (found: bool)
    ensures found <==> HasDigitBeforePercent(s)
  {
    if |s| < 2 then false
    else if IsDigit(s[0]) && s[1] == '%' then true
    else
      var found := MatchesPercentPattern(s[1..]);
      assert found ==> HasDigitBeforePercent(s) by {
        if found {
          var i :| 1 <= i < |s| - 1 && s[1..][i] == '%' && IsDigit(s[1..][i - 1]);
          assert s[i + 1] == '%' && IsDigit(s[i]);
        }
      }
      assert HasDigitBeforePercent(s) ==> found by {
        if HasDigitBeforePercent(s) {
          var i :| 1 <= i < |s| && s[i] == '%' && IsDigit(s[i - 1]);
          assert i != 1;
          assert s[1..][i - 1] == '%' && IsDigit(s[1..][i - 2]);
        }
      }
      found
  }

  /** The lengths a property with policy `p` accepts, stated without the order of the checks. */
  ghost predicate Admissible(v: Length, p: Policy) {
    match v
    case Number(n) => (n.Fin? && n.value >= 0.0) || (p.allowInfinity && n.PosInf?)
    case Str(s) => (p.allowAuto && s == "auto") || HasDigitBeforePercent(s)
  }

  /**
   * `Ensure.length(name, value, allowInfinity, allowAuto)`: passes exactly
   * the admissible lengths, and otherwise names the property and the first
   * rule (in the order the checks are made) that the value breaks.
   */
  function Ensure(name: string, value: Length, p: Policy): (r: Outcome<ValidationError>)
    ensures r.Pass? <==> Admissible(value, p)
    ensures r.Fail? ==> r.error.property == name
  {
    match value
    case Number(n) =>
      if n.NaN? then Fail(ValidationError(name, MustNotBeNaN))
      else if !p.allowInfinity && !n.Fin? then Fail(ValidationError(name, MustNotBeInfinity))
      else if Lt(n, Fin(0.0)) then Fail(ValidationError(name, MustNotBeNegative))
      else Pass
    case Str(s) =>
      if s == "auto" then
        (if p.allowAuto then Pass else Fail(ValidationError(name, MustNotBeAuto)))
      else if !MatchesPercentPattern(s) then Fail(ValidationError(name, InvalidFormat))
      else Pass
  }

  /** Which rule rejects which number, whatever the policy. */
  lemma NumberRules(name: string, x: real, p: Policy)
    ensures Ensure(name, Number(NaN), p) == Fail(ValidationError(name, MustNotBeNaN))
    ensures x < 0.0 ==> Ensure(name, Number(Fin(x)), p) == Fail(ValidationError(name, MustNotBeNegative))
    ensures x >= 0.0 ==> Ensure(name, Number(Fin(x)), p) == Pass
    ensures Ensure(name, Number(PosInf), p) ==
      if p.allowInfinity then Pass else Fail(ValidationError(name, MustNotBeInfinity))
    ensures Ensure(name, Number(NegInf), p) ==
      Fail(ValidationError(name, if p.allowInfinity then MustNotBeNegative else MustNotBeInfinity))
  {
  }

  /** What each setter's policy admits of `'auto'`, Infinity and a percentage. */
  lemma SetterPolicies(name: string, s: string)
    requires s != "auto"
    ensures Ensure(name, Auto, SizePolicy).Pass? && Ensure(name, Number(PosInf), SizePolicy).Fail?
    ensures Ensure(name, Auto, MinPolicy).Fail? && Ensure(name, Number(PosInf), MinPolicy).Fail?
    ensures Ensure(name, Auto, MaxPolicy).Fail? && Ensure(name, Number(PosInf), MaxPolicy).Pass?
    ensures forall p: Policy :: Ensure(name, Str(s), p).Pass? <==> MatchesPercentPattern(s)
  {
  }

  /** The auto hook `computeAutoWidth` / `computeAutoHeight`: all the available space. */
  function ComputeAuto(available: real): Num {
    Fin(available)
  }

  /**
   * `computeWidth(available, length)` / `computeHeight(available, length)`:
   * a number is returned as it is, `'auto'` goes to the auto hook, and any
   * other string `s` gives `available * parseFloat(s) / 100`.
   */
  function Resolve(available: real, length: Length): Num {
    match length
    case Number(n) => n
    case Str(s) =>
      if s == "auto" then ComputeAuto(available)
      else Percentage(available, ParseFloat(s))
  }

  /** `x` hundredths of `available`. */
  function Hundredths(available: real, x: real): real {
    available * x / 100.0
  }

  /** `available * x / 100` */
  function Percentage(available: real, x: Num): (r: Num)
    ensures x.Fin? ==> r == Fin(Hundredths(available, x.value))
  {
    var product := Mul(Fin(available), x);
    assert x.Fin? ==> DivideBy(product, 100.0).value == Hundredths(available, x.value);
    DivideBy(product, 100.0)
  }

  /** A number resolves to itself, whatever the available space. */
  lemma ResolveNumber(available: real, other: real, n: Num)
    ensures Resolve(available, Number(n)) == Resolve(other, Number(n)) == n
  {
  }

  /** `'auto'` resolves to all the available space. */
  lemma ResolveAuto(available: real)
    ensures Resolve(available, Auto) == Fin(available)
  {
  }

  /** The percentage string `p%` resolves to `p` hundredths of the available space. */
  lemma ResolvePercent(available: real, p: nat)
    ensures Resolve(available, Str(DecimalString(p) + "%")) == Fin(Hundredths(available, p as real))
  {
    DecimalStringValue(p);
    ResolveDigitsPercent(available, DecimalString(p));
  }

  /** A string of digits followed by `%` resolves to that many hundredths of the available space. */
  lemma ResolveDigitsPercent(available: real, d: string)
    requires d != [] && AllDigits(d)
    ensures Resolve(available, Str(d + "%")) == Fin(Hundredths(available, DigitsValue(d) as real))
  {
    var s := d + "%";
    ParseFloatOfDigits(d, "%");
    assert s != "auto" by { assert s[|s| - 1] == '%'; }
    assert Resolve(available, Str(s)) == Percentage(available, ParseFloat(s));
  }

  /** Every percentage string `p%` is admitted by every setter. */
  lemma PercentAdmitted(name: string, p: nat, policy: Policy)
    ensures Ensure(name, Str(DecimalString(p) + "%"), policy).Pass?
  {
    DigitsPercentAdmitted(name, DecimalString(p), policy);
  }

  /**
   * What validation keeps out of a resolved length that is a number or
   * `'auto'` (with a non-negative available space): it is never NaN, never
   * negative, and +Infinity only where the setter admits Infinity.
   */
  lemma AdmittedResolves(available: real, v: Length, p: Policy)
    requires Admissible(v, p) && available >= 0.0
    requires v.Number? || v == Auto
    ensures var r := Resolve(available, v);
      (r.Fin? && r.value >= 0.0) || (r.PosInf? && p.allowInfinity)
  {
  }

  /**
   * The percent pattern does not look at what precedes the digit: `'-5%'`
   * is admitted by every setter and resolves to a negative share of the
   * available space.
   */
  lemma NegativePercentAdmitted(name: string, available: real, p: Policy)
    ensures Ensure(name, Str("-5%"), p).Pass?
    ensures Resolve(available, Str("-5%")) == Fin(Hundredths(available, -5.0))
  {
    var s := "-5%";
    assert s[2] == '%' && IsDigit(s[1]);
    MinusFiveParses();
    assert Resolve(available, Str(s)) == Percentage(available, Fin(-5.0));
  }

  lemma MinusFiveParses()
    ensures ParseFloat("-5%") == Fin(-5.0)
  {
    assert "-5%" == "-" + ("5" + "%");
    ParseFloatOfNegativeDigits("5", "%");
    assert DigitsValue("5") == 5 by { assert "5"[..0] == []; }
  }

  /**
   * Nor at what precedes the number: `'x1%'` is admitted by every setter,
   * and parseFloat reads no number from it, so it resolves to NaN.
   */
  lemma UnparsablePercentAdmitted(name: string, available: real, p: Policy)
    ensures Ensure(name, Str("x1%"), p).Pass?
    ensures Resolve(available, Str("x1%")).NaN?
  {
    var s := "x1%";
    assert s[2] == '%' && IsDigit(s[1]);
    ParseFloatOfNonNumeric(s);
    assert Resolve(available, Str(s)) == Percentage(available, ParseFloat(s));
  }

  /** A string of digits followed by `%` is admitted by every setter. */
  lemma DigitsPercentAdmitted(name: string, d: string, policy: Policy)
    requires d != [] && AllDigits(d)
    ensures Ensure(name, Str(d + "%"), policy).Pass?
  {
    var s := d + "%";
    assert s[|d|] == '%' && IsDigit(s[|d| - 1]);
  }
}
