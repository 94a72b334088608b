/**
 * JavaScript numbers as the calculator uses them: `Number(text)` to read a
 * symbol's value, the four arithmetic operators, and `String(n)` to write a
 * result back into a symbol. Values are exact reals plus the three special
 * values; rounding, overflow and signed zero are not modelled.
 */
module Numbers {
  import opened Wrappers

  /** A number value: finite, +Infinity, -Infinity or NaN. */
  datatype Num = Fin(r: real) | PosInf | NegInf | NaN

  function Neg(a: Num): Num {
    match a
    case Fin(x) => Fin(-x)
    case PosInf => NegInf
    case NegInf => PosInf
    case NaN => NaN
  }

  /** -1, 0 or 1 for a non-NaN value (zero has no sign here). */
  function SignOf(a: Num): int {
    match a
    case Fin(x) => if x > 0.0 then 1 else if x < 0.0 then -1 else 0
    case PosInf => 1
    case NegInf => -1
    case NaN => 0
  }

  function InfinityWithSign(s: int): Num {
    if s < 0 then NegInf else PosInf
  }

  /** `a + b` */
  function Add(a: Num, b: Num): Num {
    match (a, b)
    case (NaN, _) => NaN
    case (_, NaN) => NaN
    case (PosInf, NegInf) => NaN
    case (NegInf, PosInf) => NaN
    case (PosInf, _) => PosInf
    case (NegInf, _) => NegInf
    case (_, PosInf) => PosInf
    case (_, NegInf) => NegInf
    case (Fin(x), Fin(y)) => Fin(x + y)
  }

  /** `a - b` */
  function Sub(a: Num, b: Num): Num {
    Add(a, Neg(b))
  }

  /** `a * b` */
  function Mul(a: Num, b: Num): Num {
    if a == NaN || b == NaN then NaN
    else if a.Fin? && b.Fin? then Fin(a.r * b.r)
    else if SignOf(a) == 0 || SignOf(b) == 0 then NaN   // Infinity * 0
    else InfinityWithSign(SignOf(a) * SignOf(b))
  }

  /** `a / b` */
  function Div(a: Num, b: Num): Num {
    if a == NaN || b == NaN then NaN
    else if !a.Fin? && !b.Fin? then NaN
    else if !a.Fin? then InfinityWithSign(if b.r < 0.0 then -SignOf(a) else SignOf(a))
    else if !b.Fin? then Fin(0.0)
    else if b.r == 0.0 then (if a.r == 0.0 then NaN else InfinityWithSign(SignOf(a)))
    else Fin(a.r / b.r)
  }

  lemma DivisionByZeroIsNotFinite(x: real)
    ensures !Div(Fin(x), Fin(0.0)).Fin?
    ensures x > 0.0 ==> Div(Fin(x), Fin(0.0)) == PosInf
    ensures x < 0.0 ==> Div(Fin(x), Fin(0.0)) == NegInf
    ensures x == 0.0 ==> Div(Fin(x), Fin(0.0)) == NaN
  {
  }

  // ---------------------------------------------------------------- reading

  predicate IsDigit(c: char) {
    '0' <= c <= '9'
  }

  predicate AllDigits(s: string) {
    forall i :: 0 <= i < |s| ==> IsDigit(s[i])
  }

  /** The value of a string of decimal digits, most significant first. */
  function DigitsValue(s: string): nat
    requires AllDigits(s)
  {
    if s == [] then 0
    else DigitsValue(s[..|s| - 1]) * 10 + (s[|s| - 1] as int - '0' as int)
  }

  function Pow10(n: nat): (p: nat)
    ensures p >= 1
  {
    if n == 0 then 1 else 10 * Pow10(n - 1)
  }

  /** Position of the first `c` in `s`, or `|s|` when there is none. */
  function IndexOf(s: string, c: char): (k: nat)
    ensures k <= |s|
    ensures k < |s| ==> s[k] == c
    ensures forall i :: 0 <= i < k ==> s[i] != c
  {
    if s == [] then 0
    else if s[0] == c then 0
    else 1 + IndexOf(s[1..], c)
  }

  /** An unsigned decimal literal: digits with at most one `.` and at least one digit. */
  function ParseDecimal(t: string): Option<real> {
    var k := IndexOf(t, '.');
    var whole := t[..k];
    var frac := if k < |t| then t[k + 1..] else "";
    if AllDigits(whole) && AllDigits(frac) && |whole| + |frac| > 0 then
      Some(DigitsValue(whole) as real + DigitsValue(frac) as real / Pow10(|frac|) as real)
    else None
  }

  function ParseUnsigned(t: string): Num {
    if t == "Infinity" then PosInf
    else match ParseDecimal(t)
      case Some(v) => Fin(v)
      case None => NaN
  }

  /** `Number(s)`: the empty string is 0, an optional sign, then a literal; anything else is NaN. */
  function Parse(s: string): Num {
    if s == "" then Fin(0.0)
    else if s[0] == '-' then Neg(ParseUnsigned(s[1..]))
    else if s[0] == '+' then ParseUnsigned(s[1..])
    else ParseUnsigned(s)
  }

  // ---------------------------------------------------------------- writing

  function DigitChar(d: nat): char
    requires d < 10
  {
    ('0' as int + d) as char
  }

  /** Decimal digits of `n`, without leading zeros. */
  function NatToDigits(n: nat): string {
    if n < 10 then [DigitChar(n)] else NatToDigits(n / 10) + [DigitChar(n % 10)]
  }

  /** Up to `k` digits of the fraction `f`, stopping early when it is exhausted. */
  function FracDigits(f: real, k: nat): string
    requires 0.0 <= f < 1.0
    decreases k
  {
    if k == 0 || f == 0.0 then ""
    else
      var d := (f * 10.0).Floor;
      [DigitChar(d as nat)] + FracDigits(f * 10.0 - d as real, k - 1)
  }

  const FractionDigits: nat := 16

  /** The part after the whole digits: nothing for an integer, else a point and the fraction's digits. */
  function FractionText(r: real): string
    requires r >= 0.0
  {
    var whole := r.Floor;
    if whole as real == r then "" else "." + FracDigits(r - whole as real, FractionDigits)
  }

  function ShowNonNegative(r: real): string
    requires r >= 0.0
  {
    NatToDigits(r.Floor as nat) + FractionText(r)
  }

  /** `String(x)` */
  function Show(x: Num): string {
    match x
    case PosInf => "Infinity"
    case NegInf => "-Infinity"
    case NaN => "NaN"
    case Fin(r) => if r < 0.0 then "-" + ShowNonNegative(-r) else ShowNonNegative(r)
  }

  // ---------------------------------------------------------------- lemmas

  lemma {:induction false} DigitsRoundTrip(n: nat)
    ensures AllDigits(NatToDigits(n))
    ensures DigitsValue(NatToDigits(n)) == n
  {
    var s := NatToDigits(n);
    if n >= 10 {
      DigitsRoundTrip(n / 10);
      var p := NatToDigits(n / 10);
      assert s == p + [DigitChar(n % 10)];
      assert s[..|s| - 1] == p;
    }
  }

  /** The digits of a whole number read back as that number. */
  lemma ParseDigits(m: nat)
    ensures ParseUnsigned(NatToDigits(m)) == Fin(m as real)
    ensures IsDigit(NatToDigits(m)[0])
  {
    DigitsRoundTrip(m);
    var d := NatToDigits(m);
    assert forall i :: 0 <= i < |d| ==> d[i] != '.';
    assert IndexOf(d, '.') == |d|;
    assert d[..|d|] == d;
    assert ParseDecimal(d) == Some(m as real);
    assert d != "Infinity" by { assert IsDigit(d[0]); }
  }

  /** Reading back the text of an integer gives the integer. */
  lemma ParseShowInteger(n: int)
    ensures Parse(Show(Fin(n as real))) == Fin(n as real)
  {
    var m: nat := if n < 0 then -n else n;
    ParseDigits(m);
    var d := NatToDigits(m);
    assert ShowNonNegative(m as real) == d;
    if n < 0 {
      assert Show(Fin(n as real)) == "-" + d;
      assert ("-" + d)[1..] == d;
    } else {
      assert Show(Fin(n as real)) == d;
    }
  }

  /** The characters `String` can produce. */
  predicate ShownChar(c: char) {
    IsDigit(c) || c in "-.InfinityNaN"
  }

  lemma {:induction false} FracDigitsAreDigits(f: real, k: nat)
    requires 0.0 <= f < 1.0
    ensures AllDigits(FracDigits(f, k))
    decreases k
  {
    if k != 0 && f != 0.0 {
      var d := (f * 10.0).Floor;
      FracDigitsAreDigits(f * 10.0 - d as real, k - 1);
    }
  }

  /**
   * The text of a number is never empty, never a bare sign and never holds
   * an operator character, so a result symbol is never mistaken for an
   * operator or a sign placeholder.
   */
  lemma ShowIsNumberText(x: Num)
    ensures Show(x) != "" && Show(x) != "-"
    ensures forall i :: 0 <= i < |Show(x)| ==> ShownChar(Show(x)[i])
    ensures 'x' !in Show(x) && '/' !in Show(x) && '+' !in Show(x)
  {
    if x.Fin? {
      if x.r < 0.0 {
        SignedChars(-x.r);
      } else {
        ShowNonNegativeChars(x.r);
      }
    }
    ShownCharsOnly(Show(x));
  }

  /** A minus sign before a non-negative number's text keeps every character shown and a digit after the sign. */
  lemma SignedChars(r: real)
    requires r >= 0.0
    ensures var s := "-" + ShowNonNegative(r);
      s != "-" && forall i :: 0 <= i < |s| ==> ShownChar(s[i])
  {
    ShowNonNegativeChars(r);
  }

  /** Text made of shown characters holds no `x`, `/` or `+`. */
  lemma ShownCharsOnly(s: string)
    requires forall i :: 0 <= i < |s| ==> ShownChar(s[i])
    ensures 'x' !in s && '/' !in s && '+' !in s
  {
  }

  /** The fraction part is empty or a point followed by digits. */
  lemma FractionTextDigits(r: real)
    requires r >= 0.0
    ensures FractionText(r) == "" || FractionText(r) == "." + FractionText(r)[1..]
    ensures FractionText(r) != "" ==> AllDigits(FractionText(r)[1..])
  {
    var w := r.Floor;
    if w as real != r {
      FracDigitsAreDigits(r - w as real, FractionDigits);
      assert FractionText(r)[1..] == FracDigits(r - w as real, FractionDigits);
    }
  }

  /** The text of a non-negative number: a digit first, then digits or a point. */
  lemma ShowNonNegativeChars(r: real)
    requires r >= 0.0
    ensures |ShowNonNegative(r)| >= 1 && IsDigit(ShowNonNegative(r)[0])
    ensures forall i :: 0 <= i < |ShowNonNegative(r)| ==> ShownChar(ShowNonNegative(r)[i])
  {
    var d := NatToDigits(r.Floor as nat);
    var t := FractionText(r);
    DigitsRoundTrip(r.Floor as nat);
    NatToDigitsLeading(r.Floor as nat);
    FractionTextDigits(r);
    assert forall i :: 0 <= i < |t| ==> ShownChar(t[i]) by {
      forall i | 0 <= i < |t|
        ensures ShownChar(t[i])
      {
        if i > 0 { assert t[i] == t[1..][i - 1]; }
      }
    }
    assert (d + t)[0] == d[0];
  }

  /** At most one decimal point. */
  predicate AtMostOneDot(s: string) {
    forall i, j :: 0 <= i < j < |s| && s[i] == '.' ==> s[j] != '.'
  }

  /** Two zeros at the very start, as in "00" or "007". */
  predicate LeadingDoubleZero(s: string) {
    |s| >= 2 && s[0] == '0' && s[1] == '0'
  }

  lemma {:induction false} NatToDigitsLeading(n: nat)
    ensures |NatToDigits(n)| >= 1
    ensures NatToDigits(n)[0] == '0' ==> n == 0 && NatToDigits(n) == "0"
  {
    if n >= 10 {
      NatToDigitsLeading(n / 10);
    }
  }

  lemma DotBetweenDigits(d: string, f: string)
    requires AllDigits(d) && AllDigits(f)
    ensures AtMostOneDot(d) && AtMostOneDot(d + "." + f)
  {
    var s := d + "." + f;
    assert forall i :: 0 <= i < |s| && i != |d| ==> IsDigit(s[i]) by {
      forall i | 0 <= i < |s| && i != |d|
        ensures IsDigit(s[i])
      {
        if i < |d| { assert s[i] == d[i]; } else { assert s[i] == f[i - |d| - 1]; }
      }
    }
  }

  /** Digits without a leading zero, then possibly a point and more digits. */
  lemma DecimalShape(d: string, tail: string, f: string)
    requires AllDigits(d) && |d| >= 1 && (d[0] == '0' ==> d == "0")
    requires AllDigits(f) && (tail == "" || tail == "." + f)
    ensures AtMostOneDot(d + tail) && !LeadingDoubleZero(d + tail)
    ensures IsDigit((d + tail)[0])
  {
    DotBetweenDigits(d, f);
    assert (d + tail)[0] == d[0];
    if tail == "" {
      assert d + tail == d;
    } else {
      assert d + tail == d + "." + f;
      if d == "0" {
        assert (d + tail)[1] == '.';
      }
    }
  }

  lemma ShowNonNegativeShape(r: real)
    requires r >= 0.0
    ensures AtMostOneDot(ShowNonNegative(r)) && !LeadingDoubleZero(ShowNonNegative(r))
    ensures |ShowNonNegative(r)| >= 1 && IsDigit(ShowNonNegative(r)[0])
  {
    var d := NatToDigits(r.Floor as nat);
    var t := FractionText(r);
    DigitsRoundTrip(r.Floor as nat);
    NatToDigitsLeading(r.Floor as nat);
    FractionTextDigits(r);
    DecimalShape(d, t, if t == "" then "" else t[1..]);
  }

  /** `String` writes at most one decimal point and no leading "00". */
  lemma ShowShape(x: Num)
    ensures AtMostOneDot(Show(x))
    ensures !LeadingDoubleZero(Show(x))
  {
    if x.Fin? {
      var s := ShowNonNegative(if x.r < 0.0 then -x.r else x.r);
      ShowNonNegativeShape(if x.r < 0.0 then -x.r else x.r);
      if x.r < 0.0 {
        assert Show(x) == "-" + s;
        assert forall i :: 1 <= i < |"-" + s| ==> ("-" + s)[i] == s[i - 1];
      }
    }
  }
}
