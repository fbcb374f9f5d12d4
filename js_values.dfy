/** JavaScript values as the capture scripts use them: optional strings (a missing
    field, `null` and `undefined` are all `None`), truthiness, and the decimal text
    that string concatenation produces for a non-negative integer. */
module JsValues {

  datatype Option<+T> = None | Some(value: T)

  /** JS truthiness of a string-or-nothing: present and non-empty. */
  predicate Truthy(s: Option<string>) {
    s.Some? && s.value != ""
  }

  /** A scalar option value: the presets give numbers, a command line gives strings. */
  datatype Scalar = Str(s: string) | Num(n: nat)

  predicate ScalarTruthy(v: Option<Scalar>) {
    v.Some? && match v.value
      case Str(s) => s != ""
      case Num(n) => n != 0
  }

  /** What `'' + v` yields for a scalar. */
  function ScalarText(v: Scalar): string {
    match v
    case Str(s) => s
    case Num(n) => Decimal(n)
  }

  predicate IsDigit(c: char) {
    '0' <= c <= '9'
  }

  predicate AllDigits(s: string) {
    forall i :: 0 <= i < |s| ==> IsDigit(s[i])
  }

  function DigitChar(d: nat): (c: char)
    requires d < 10
    ensures IsDigit(c) && c as int - '0' as int == d
  {
    ('0' as int + d) as char
  }

  /** `'' + n` for a non-negative integer: its decimal digits, no padding. */
  function Decimal(n: nat): (s: string)
    ensures 1 <= |s|
    ensures AllDigits(s)
    ensures s[0] == '0' <==> n == 0
    ensures n < 10 <==> |s| == 1
    decreases n
  {
    if n < 10 then [DigitChar(n)] else Decimal(n / 10) + [DigitChar(n % 10)]
  }

  /** Reads a string of decimal digits back as a number. */
  function DigitsValue(s: string): nat
    requires AllDigits(s)
  {
    if s == [] then 0
    else DigitsValue(s[..|s| - 1]) * 10 + (s[|s| - 1] as int - '0' as int)
  }

  lemma {:induction false} DecimalRoundTrip(n: nat)
    ensures DigitsValue(Decimal(n)) == n
    decreases n
  {
    if n >= 10 {
      var s := Decimal(n);
      assert s[..|s| - 1] == Decimal(n / 10);
      DecimalRoundTrip(n / 10);
    }
  }

  lemma DecimalInjective(a: nat, b: nat)
    requires Decimal(a) == Decimal(b)
    ensures a == b
  {
    DecimalRoundTrip(a);
    DecimalRoundTrip(b);
  }

  /** Numbers from 10 to 99 are always written with two digits. */
  lemma {:induction false} DecimalTwoDigits(n: nat)
    requires 10 <= n < 100
    ensures |Decimal(n)| == 2
  {
    assert Decimal(n) == Decimal(n / 10) + [DigitChar(n % 10)];
  }
}
