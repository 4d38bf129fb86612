/**
 * The JavaScript number conversions the core relies on, over exact reals:
 * `Number(x.toFixed(2))`, `x.toFixed(2)` and `parseFloat`.
 */
module JsNumbers {
  import opened Wrappers
  import opened JsStrings

  /** A JavaScript number as far as this model needs one: NaN or a finite value. */
  datatype JsNumber = NaN | Num(value: real)

  /** JavaScript truthiness of an optional number: null, undefined and 0 are falsy. */
  predicate Truthy(x: Option<real>) {
    x.Some? && x.value != 0.0
  }

  function Abs(x: real): real {
    if x < 0.0 then -x else x
  }

  /** The number of hundredths `toFixed(2)` keeps: halves are rounded away from zero. */
  function Cents(x: real): int {
    if x < 0.0 then -((-x) * 100.0 + 0.5).Floor else (x * 100.0 + 0.5).Floor
  }

  /** A whole number of hundredths: a value two decimals write out exactly. */
  predicate WholeHundredths(r: real) {
    (r * 100.0).Floor as real == r * 100.0
  }

  /** `Number(x.toFixed(2))`: `x` rounded to two decimals, never off by more than half a cent. */
  function Round2(x: real): (r: real)
    ensures WholeHundredths(r)
    ensures -0.005 <= r - x <= 0.005
  {
    Cents(x) as real / 100.0
  }

  lemma FloorMonotone(a: real, b: real)
    requires a <= b
    ensures a.Floor <= b.Floor
  {
  }

  /** Rounding to two decimals preserves order. */
  lemma Round2Monotone(x: real, y: real)
    requires x <= y
    ensures Round2(x) <= Round2(y)
  {
    if 0.0 <= x {
      FloorMonotone(x * 100.0 + 0.5, y * 100.0 + 0.5);
    } else if y < 0.0 {
      FloorMonotone((-y) * 100.0 + 0.5, (-x) * 100.0 + 0.5);
    } else {
      FloorMonotone(0.5, (-x) * 100.0 + 0.5);
      FloorMonotone(0.5, y * 100.0 + 0.5);
    }
  }

  /** Rounding keeps the sign: a positive result comes from a positive input, a negative from a negative. */
  lemma Round2Sign(x: real)
    ensures Round2(x) > 0.0 ==> x > 0.0
    ensures Round2(x) < 0.0 ==> x < 0.0
    ensures x >= 0.0 ==> Round2(x) >= 0.0
    ensures x <= 0.0 ==> Round2(x) <= 0.0
  {
    if x < 0.0 {
      Round2Monotone(x, 0.0);
    } else {
      Round2Monotone(0.0, x);
    }
  }

  /** A value already rounded to two decimals is left alone. */
  lemma Round2Idempotent(x: real)
    ensures Round2(Round2(x)) == Round2(x)
  {
    var n := Cents(x);
    if n >= 0 {
      assert (n as real + 0.5).Floor == n;
    } else {
      assert ((-n) as real + 0.5).Floor == -n;
    }
  }

  function DigitChar(d: nat): char
    requires d < 10
  {
    ('0' as int + d) as char
  }

  predicate IsDigit(c: char) {
    '0' <= c <= '9'
  }

  predicate AllDigits(s: string) {
    forall i :: 0 <= i < |s| ==> IsDigit(s[i])
  }

  function DigitValue(c: char): nat
    requires IsDigit(c)
  {
    c as int - '0' as int
  }

  /** The decimal numeral of `n`, without leading zeros. */
  function NatText(n: nat): (s: string)
    ensures s != [] && AllDigits(s)
  {
    if n < 10 then [DigitChar(n)] else NatText(n / 10) + [DigitChar(n % 10)]
  }

  /** The value of a string of decimal digits (0 for the empty string). */
  function DigitsValue(s: string): nat
    requires AllDigits(s)
  {
    if s == [] then 0 else DigitsValue(s[..|s| - 1]) * 10 + DigitValue(s[|s| - 1])
  }

  /** Reading a numeral back gives the number. */
  lemma {:induction false} NatTextValue(n: nat)
    ensures DigitsValue(NatText(n)) == n
  {
    if n >= 10 {
      NatTextValue(n / 10);
      var s := NatText(n);
      assert s[..|s| - 1] == NatText(n / 10);
    }
  }

  function Pow10(k: nat): (p: nat)
    ensures p >= 1
  {
    if k == 0 then 1 else 10 * Pow10(k - 1)
  }

  /** `x.toFixed(2)`: optional minus sign, the integer part, a point and exactly two decimals. */
  function Fixed2(x: real): string {
    (if x < 0.0 then "-" else "") + HundredthsText(if x < 0.0 then -Cents(x) else Cents(x))
  }

  /** The text of n/100 with exactly two decimals. */
  function HundredthsText(n: nat): string {
    var h := n % 100;
    NatText(n / 100) + "." + [DigitChar(h / 10), DigitChar(h % 10)]
  }

  /** The longest prefix of `s` made of decimal digits. */
  function LeadingDigits(s: string): (d: string)
    ensures d <= s && AllDigits(d)
    ensures |d| < |s| ==> !IsDigit(s[|d|])
  {
    if s == [] || !IsDigit(s[0]) then [] else [s[0]] + LeadingDigits(s[1..])
  }

  /**
   * `parseFloat(text)`: after leading whitespace, the longest prefix of the form
   * [sign] digits [. digits] with at least one digit; NaN when there is none.
   */
  function ParseFloat(text: string): JsNumber {
    ParseSigned(TrimStart(text))
  }

  function ParseSigned(s: string): JsNumber {
    if |s| > 0 && s[0] == '-' then Negate(ParseUnsigned(s[1..]))
    else if |s| > 0 && s[0] == '+' then ParseUnsigned(s[1..])
    else ParseUnsigned(s)
  }

  function Negate(n: JsNumber): JsNumber {
    match n
    case NaN => NaN
    case Num(v) => Num(-v)
  }

  /** digits [. digits], at least one digit in all. */
  function ParseUnsigned(body: string): JsNumber {
    var whole := LeadingDigits(body);
    var rest := body[|whole|..];
    var fraction := if |rest| > 0 && rest[0] == '.' then LeadingDigits(rest[1..]) else [];
    if |whole| + |fraction| == 0 then NaN
    else Num(DigitsValue(whole) as real + DigitsValue(fraction) as real / Pow10(|fraction|) as real)
  }

  /** Digits followed by a non-digit: the leading digits are exactly those digits. */
  lemma {:induction false} LeadingDigitsOf(d: string, rest: string)
    requires AllDigits(d)
    requires rest == [] || !IsDigit(rest[0])
    ensures LeadingDigits(d + rest) == d
    decreases |d|
  {
    if d != [] {
      assert (d + rest)[1..] == d[1..] + rest;
      LeadingDigitsOf(d[1..], rest);
    }
  }

  /** The two-digit text of a number of hundredths below 100, and its value. */
  lemma TwoDigits(h: nat)
    requires h < 100
    ensures var t := [DigitChar(h / 10), DigitChar(h % 10)];
      AllDigits(t) && LeadingDigits(t) == t && DigitsValue(t) == h
  {
    var t := [DigitChar(h / 10), DigitChar(h % 10)];
    LeadingDigitsOf(t, []);
    assert t + [] == t;
    assert DigitValue(DigitChar(h / 10)) == h / 10;
    assert DigitValue(DigitChar(h % 10)) == h % 10;
    assert t[..1] == [DigitChar(h / 10)];
    assert [DigitChar(h / 10)][..0] == [];
    assert DigitsValue(t[..1]) == h / 10;
  }

  /** `parseFloat` reads the text of n/100 back as n/100. */
  lemma ParseHundredths(n: nat)
    ensures ParseUnsigned(HundredthsText(n)) == Num(n as real / 100.0)
  {
    var whole, h := n / 100, n % 100;
    var wholeText := NatText(whole);
    var fractionText := [DigitChar(h / 10), DigitChar(h % 10)];
    var body := wholeText + "." + fractionText;
    assert body == HundredthsText(n);
    assert body == wholeText + ("." + fractionText);
    LeadingDigitsOf(wholeText, "." + fractionText);
    assert body[|wholeText|..] == "." + fractionText;
    assert ("." + fractionText)[1..] == fractionText;
    TwoDigits(h);
    NatTextValue(whole);
    assert Pow10(2) == 100;
    HundredthsValue(n);
  }

  lemma HundredthsValue(n: nat)
    ensures (n / 100) as real + (n % 100) as real / 100.0 == n as real / 100.0
  {
    assert n == 100 * (n / 100) + n % 100;
  }

  /** The text of a number of hundredths starts with a digit. */
  lemma HundredthsTextStartsWithDigit(n: nat)
    ensures |HundredthsText(n)| > 0 && IsDigit(HundredthsText(n)[0])
  {
    var w := NatText(n / 100);
    assert HundredthsText(n)[0] == w[0];
  }

  /** A text that does not start with whitespace is its own `TrimStart`. */
  lemma TrimStartKeeps(s: string)
    requires |s| > 0 && !IsWhitespace(s[0])
    ensures TrimStart(s) == s
  {
  }

  /** What `toFixed(2)` writes, `parseFloat` reads back as the value rounded to two decimals. */
  lemma ParseFixed2(x: real)
    ensures ParseFloat(Fixed2(x)) == Num(Round2(x))
  {
    var n := if x < 0.0 then -Cents(x) else Cents(x);
    var body := HundredthsText(n);
    HundredthsTextStartsWithDigit(n);
    ParseHundredths(n);
    if x < 0.0 {
      var t := "-" + body;
      assert Fixed2(x) == t;
      TrimStartKeeps(t);
      assert t[1..] == body;
      assert ParseSigned(t) == Negate(ParseUnsigned(body));
    } else {
      assert Fixed2(x) == body;
      TrimStartKeeps(body);
      assert ParseSigned(body) == ParseUnsigned(body);
    }
  }
}
