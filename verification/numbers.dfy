/** Decimal text of integers (`str(n)`, `int(s)`) and Python floats, whose
    NaN and infinities the ingestion code tests for. */
module Numbers {
  import opened Wrappers
  import opened Text

  function DigitChar(d: nat): (c: char)
    requires d < 10
    ensures IsAsciiDigit(c)
  {
    ('0' as int + d) as char
  }

  function DigitValue(c: char): (d: nat)
    requires IsAsciiDigit(c)
    ensures d < 10 && DigitChar(d) == c
  {
    c as int - '0' as int
  }

  /** `str(n)` for a non-negative integer: no leading zero, at least one digit. */
  function NatStr(n: nat): (s: string)
    ensures |s| > 0 && AllChars(s, IsAsciiDigit)
    ensures s[0] == '0' ==> n == 0
    decreases n
  {
    if n < 10 then [DigitChar(n)] else NatStr(n / 10) + [DigitChar(n % 10)]
  }

  /** The value of a string of decimal digits. */
  function DigitsValue(s: string): nat
    requires AllChars(s, IsAsciiDigit)
    decreases |s|
  {
    if s == [] then 0 else 10 * DigitsValue(s[..|s| - 1]) + DigitValue(s[|s| - 1])
  }

  /** Reading back the decimal text of `n` gives `n`. */
  lemma {:induction false} NatStrValue(n: nat)
    ensures DigitsValue(NatStr(n)) == n
    decreases n
  {
    if n >= 10 {
      NatStrValue(n / 10);
      var s := NatStr(n);
      assert s[..|s| - 1] == NatStr(n / 10);
    }
  }

  lemma NatStrInjective(m: nat, n: nat)
    requires NatStr(m) == NatStr(n)
    ensures m == n
  {
    NatStrValue(m);
    NatStrValue(n);
  }

  /** `str(i)` for an integer. */
  function IntStr(i: int): (s: string)
    ensures |s| > 0
    ensures i < 0 <==> s[0] == '-'
  {
    if i < 0 then "-" + NatStr(-i) else NatStr(i)
  }

  /** Digits with single underscores between them, as Python's `int()` accepts. */
  predicate IsDigitGroups(s: string) {
    && |s| > 0 && IsAsciiDigit(s[0]) && IsAsciiDigit(s[|s| - 1])
    && (forall i :: 0 <= i < |s| ==> IsAsciiDigit(s[i]) || s[i] == '_')
    && NoDoubled(s, '_')
  }

  function RemoveUnderscores(s: string): (r: string)
    requires forall i :: 0 <= i < |s| ==> IsAsciiDigit(s[i]) || s[i] == '_'
    ensures AllChars(r, IsAsciiDigit)
    decreases |s|
  {
    if s == [] then []
    else if s[0] == '_' then RemoveUnderscores(s[1..])
    else [s[0]] + RemoveUnderscores(s[1..])
  }

  lemma {:induction false} RemoveUnderscoresOfDigits(s: string)
    requires AllChars(s, IsAsciiDigit)
    ensures RemoveUnderscores(s) == s
    decreases |s|
  {
    if s != [] {
      RemoveUnderscoresOfDigits(s[1..]);
    }
  }

  /** `int(s)` for a string `s`: surrounding whitespace, an optional sign and
      digit groups; `None` where Python raises `ValueError`. */
  function PyInt(s: string): Option<int> {
    var t := Strip(s);
    if |t| > 0 && (t[0] == '+' || t[0] == '-') then
      var body := t[1..];
      if IsDigitGroups(body) then
        var n: int := DigitsValue(RemoveUnderscores(body));
        Some(if t[0] == '-' then -n else n)
      else None
    else if IsDigitGroups(t) then Some(DigitsValue(RemoveUnderscores(t)))
    else None
  }

  lemma NatStrIsDigitGroups(n: nat)
    ensures IsDigitGroups(NatStr(n))
    ensures RemoveUnderscores(NatStr(n)) == NatStr(n)
    ensures Strip(NatStr(n)) == NatStr(n)
  {
    var s := NatStr(n);
    RemoveUnderscoresOfDigits(s);
    StripByKeeps(s, IsSpace);
  }

  /** `int(str(n)) == n` for a non-negative `n`. */
  lemma PyIntOfNatStr(n: nat)
    ensures PyInt(NatStr(n)) == Some(n)
  {
    var s := NatStr(n);
    NatStrIsDigitGroups(n);
    NatStrValue(n);
    assert IsAsciiDigit(s[0]);
  }

  /** `int("-" + d)` of digit groups `d` with no surrounding whitespace. */
  lemma PyIntOfMinus(d: string)
    requires Strip("-" + d) == "-" + d && IsDigitGroups(d)
    ensures PyInt("-" + d) == Some(-(DigitsValue(RemoveUnderscores(d)) as int))
  {
    assert ("-" + d)[1..] == d;
  }

  /** The text of a negative number has no surrounding whitespace. */
  lemma MinusTextStripped(m: nat)
    ensures Strip("-" + NatStr(m)) == "-" + NatStr(m)
  {
    var d := NatStr(m);
    var s := "-" + d;
    assert IsAsciiDigit(d[|d| - 1]);
    assert s[|s| - 1] == d[|d| - 1];
    StripByKeeps(s, IsSpace);
  }

  /** `int("-" + str(m)) == -m`. */
  lemma PyIntOfMinusNatStr(m: nat)
    ensures PyInt("-" + NatStr(m)) == Some(-(m as int))
  {
    MinusTextStripped(m);
    NatStrIsDigitGroups(m);
    NatStrValue(m);
    PyIntOfMinus(NatStr(m));
  }

  /** `int(str(i)) == i`. */
  lemma PyIntOfIntStr(i: int)
    ensures PyInt(IntStr(i)) == Some(i)
  {
    if i < 0 {
      var m: nat := -i;
      assert IntStr(i) == "-" + NatStr(m);
      PyIntOfMinusNatStr(m);
    } else {
      assert IntStr(i) == NatStr(i);
      PyIntOfNatStr(i);
    }
  }

  /** A Python float: a finite value together with the text `str()` gives
      for it, NaN, or an infinity. */
  datatype Float = Finite(value: real, repr: string) | NaN | Inf(negative: bool)

  predicate IsNonFinite(f: Float) { f.NaN? || f.Inf? }

  /** `str(f)`. */
  function FloatStr(f: Float): string {
    match f
    case Finite(_, repr) => repr
    case NaN => "nan"
    case Inf(negative) => if negative then "-inf" else "inf"
  }

  function Pow2(n: nat): (r: nat)
    ensures r >= 1
  {
    if n == 0 then 1 else 2 * Pow2(n - 1)
  }

  /** `float(i)` raises `OverflowError` exactly when `i` rounds to an
      infinity: the largest double is 2**1024 - 2**971, and from the halfway
      point 2**1024 - 2**970 on, rounding to even goes up to 2**1024. */
  predicate TooLargeForFloat(i: int) {
    i >= Pow2(1024) - Pow2(970) || i <= Pow2(970) - Pow2(1024)
  }

  /** An integer cast to a double: exact, and printed as its digits and
      `.0`, as Python prints integral doubles below 1e16. */
  function IntToFloat64(i: int): Float {
    Finite(i as real, IntStr(i) + ".0")
  }

  /** `int(x)` of a finite float: truncation toward zero. */
  function TruncToInt(r: real): (i: int)
    ensures 0.0 <= r ==> i as real <= r < i as real + 1.0
    ensures r < 0.0 ==> i as real - 1.0 < r <= i as real
  {
    if 0.0 <= r then r.Floor else -((-r).Floor)
  }
}
