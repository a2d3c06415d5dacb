/** Decimal numerals and Python's `float()` on text. */
module Numerals {
  import opened Wrappers
  import opened Text

  function DigitValue(c: char): (d: nat)
    requires IsDigit(c)
    ensures d <= 9
  {
    c as int - '0' as int
  }

  predicate AllDigits(s: string) {
    forall i :: 0 <= i < |s| ==> IsDigit(s[i])
  }

  /** The natural number a string of decimal digits denotes. */
  function DigitsValue(s: string): (n: nat)
    requires AllDigits(s)
    ensures n < Pow10(|s|)
  {
    if s == [] then 0 else DigitsValue(s[..|s| - 1]) * 10 + DigitValue(s[|s| - 1])
  }

  function Pow10(n: nat): (p: nat)
    ensures p >= 1
  {
    if n == 0 then 1 else 10 * Pow10(n - 1)
  }

  /** 10 raised to an integer exponent, as a real. */
  function Scale(e: int): (r: real)
    ensures r > 0.0
  {
    if e >= 0 then Pow10(e) as real else 1.0 / Pow10(-e) as real
  }

  /** Index of the first occurrence of `c` in `s`, or `|s|` when there is none. */
  function IndexOf(s: string, c: char): (k: nat)
    ensures k <= |s|
    ensures c !in s[..k]
    ensures k < |s| ==> s[k] == c
  {
    if s == [] then 0 else if s[0] == c then 0 else 1 + IndexOf(s[1..], c)
  }

  /** An unsigned decimal: digits with at most one `.` and at least one digit ("12", "1.5", "5.", ".5"). */
  predicate IsDecimal(s: string) {
    var d := IndexOf(s, '.');
    if d == |s| then s != [] && AllDigits(s)
    else AllDigits(s[..d]) && AllDigits(s[d + 1..]) && |s| >= 2
  }

  /** The value of an unsigned decimal: integer part plus fraction. */
  function DecimalValue(s: string): (v: real)
    requires IsDecimal(s)
    ensures v >= 0.0
  {
    var d := IndexOf(s, '.');
    if d == |s| then DigitsValue(s) as real
    else DigitsValue(s[..d]) as real + DigitsValue(s[d + 1..]) as real / Pow10(|s| - d - 1) as real
  }

  /** A decimal with an optional leading `-`: the numerals that both Python's `float()` and
    * JavaScript's `Number()` accept among strings over `[0-9.-]`. */
  function DecimalLiteral(s: string): (r: Option<real>)
    ensures r.Some? <==> (if s != [] && s[0] == '-' then IsDecimal(s[1..]) else IsDecimal(s))
  {
    if s != [] && s[0] == '-' then
      if IsDecimal(s[1..]) then Some(-DecimalValue(s[1..])) else None
    else if IsDecimal(s) then Some(DecimalValue(s)) else None
  }

  /** An exponent suffix after `e`/`E`: an optional sign and at least one digit. */
  function ExponentValue(s: string): (r: Option<int>)
    ensures r.Some? ==> s != []
  {
    if s != [] && (s[0] == '+' || s[0] == '-') then
      var t := s[1..];
      if t != [] && AllDigits(t) then Some(if s[0] == '-' then 0 - DigitsValue(t) as int else DigitsValue(t) as int) else None
    else if s != [] && AllDigits(s) then Some(DigitsValue(s))
    else None
  }

  /** Index of the first `e` or `E`, or `|s|`. */
  function ExponentMark(s: string): (k: nat)
    ensures k <= |s|
    ensures forall i :: 0 <= i < k ==> s[i] != 'e' && s[i] != 'E'
    ensures k < |s| ==> s[k] == 'e' || s[k] == 'E'
  {
    if s == [] then 0 else if s[0] == 'e' || s[0] == 'E' then 0 else 1 + ExponentMark(s[1..])
  }

  /** Python's `float(s)` for a `str`: surrounding whitespace is ignored, then an optional sign,
    * a decimal mantissa and an optional exponent. `None` stands for the `ValueError` it raises. */
  function PyFloat(s: string): (r: Option<real>)
    ensures Strip(s) == [] ==> r == None
  {
    var t := Strip(s);
    var neg := t != [] && t[0] == '-';
    var body := if t != [] && (t[0] == '-' || t[0] == '+') then t[1..] else t;
    var k := ExponentMark(body);
    var mantissa := body[..k];
    var exponent := if k < |body| then ExponentValue(body[k + 1..]) else Some(0);
    if IsDecimal(mantissa) && exponent.Some? then
      var magnitude := DecimalValue(mantissa) * Scale(exponent.value);
      Some(if neg then -magnitude else magnitude)
    else None
  }

  /** A string made only of `[0-9.-]` has no whitespace, so `Strip` leaves it alone. */
  lemma {:induction false} StripNumChars(s: string)
    requires forall i :: 0 <= i < |s| ==> IsNumChar(s[i])
    ensures Strip(s) == s
  {
    assert TrimStart(s) == s;
    assert TrimEnd(s) == s;
  }

  /** On the alphabet the number cleaners leave (`[0-9.-]`), Python's `float()` accepts exactly
    * the decimal literals and gives their value. */
  lemma {:induction false} PyFloatOnNumChars(s: string)
    requires forall i :: 0 <= i < |s| ==> IsNumChar(s[i])
    ensures PyFloat(s) == DecimalLiteral(s)
  {
    StripNumChars(s);
    var body := if s != [] && (s[0] == '-' || s[0] == '+') then s[1..] else s;
    assert forall i :: 0 <= i < |body| ==> IsNumChar(body[i]);
    assert ExponentMark(body) == |body|;
    assert body[..|body|] == body;
  }
}
