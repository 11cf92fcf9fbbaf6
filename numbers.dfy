/** Conversions between integers and their decimal text: `String(n)`,
    `padStart(2, "0")` and `Number(text)`. Amounts are whole numbers in
    this model, so `Number` accepts an optional sign followed by decimal
    digits, surrounding whitespace, and the blank string (which JavaScript
    reads as 0); any other text is `NaN`, represented by `None`. */
module Numbers {
  import opened Wrappers
  import opened Text

  predicate IsDigit(c: char) {
    '0' <= c <= '9'
  }

  predicate AllDigits(s: string) {
    forall k :: 0 <= k < |s| ==> IsDigit(s[k])
  }

  function DigitChar(d: nat): (c: char)
    requires d < 10
    ensures IsDigit(c)
  {
    (d + '0' as int) as char
  }

  function DigitValue(c: char): nat
    requires IsDigit(c)
  {
    c as int - '0' as int
  }

  /** `String(n)` for a non-negative integer: its decimal digits, without
      leading zeros. */
  function NatToString(n: nat): (r: string)
    ensures |r| >= 1 && AllDigits(r)
    ensures r[0] == '0' ==> n == 0
    decreases n
  {
    if n < 10 then [DigitChar(n)] else NatToString(n / 10) + [DigitChar(n % 10)]
  }

  /** `String(n)` for any integer. */
  function IntToString(n: int): (r: string)
    ensures |r| >= 1
    ensures n >= 0 ==> AllDigits(r)
    ensures n < 0 ==> r[0] == '-' && AllDigits(r[1..])
  {
    if n < 0 then "-" + NatToString(-n) else NatToString(n)
  }

  /** The value of a run of decimal digits, leading zeros allowed. */
  function DigitsValue(s: string): nat
    requires AllDigits(s)
    decreases |s|
  {
    if s == [] then 0 else DigitsValue(s[..|s| - 1]) * 10 + DigitValue(s[|s| - 1])
  }

  /** Reading back the digits of `String(n)` gives `n`. */
  lemma {:induction false} DigitsValueOfNatToString(n: nat)
    ensures DigitsValue(NatToString(n)) == n
    decreases n
  {
    if n >= 10 {
      DigitsValueOfNatToString(n / 10);
      var r := NatToString(n);
      assert r[..|r| - 1] == NatToString(n / 10);
    }
  }

  /** `String(n).padStart(2, "0")` */
  function PadStart2(s: string): (r: string)
    ensures |r| == if |s| >= 2 then |s| else 2
    ensures r[|r| - |s|..] == s
  {
    if |s| >= 2 then s else seq(2 - |s|, _ => '0') + s
  }

  /** `Number(text)`; `None` stands for `NaN`. */
  function ParseNumber(text: string): (r: Option<int>)
    ensures IsBlank(text) ==> r == Some(0)
  {
    var t := Trim(text);
    if t == [] then Some(0)
    else if t[0] == '-' && |t| > 1 && AllDigits(t[1..]) then Some(0 - DigitsValue(t[1..]) as int)
    else if t[0] == '+' && |t| > 1 && AllDigits(t[1..]) then Some(DigitsValue(t[1..]))
    else if AllDigits(t) then Some(DigitsValue(t))
    else None
  }

  /** `Number` reads a run of digits. */
  lemma ParseNumberOfDigits(d: string)
    requires |d| >= 1 && AllDigits(d)
    ensures ParseNumber(d) == Some(DigitsValue(d) as int)
  {
    assert IsDigit(d[0]) && IsDigit(d[|d| - 1]);
    TrimmedIsFixed(d);
  }

  /** `Number` reads a run of digits after a minus sign as a negative
      number. */
  lemma ParseNumberOfNegative(d: string)
    requires |d| >= 1 && AllDigits(d)
    ensures ParseNumber("-" + d) == Some(0 - DigitsValue(d) as int)
  {
    var m := "-" + d;
    assert IsDigit(d[|d| - 1]) && m[|m| - 1] == d[|d| - 1];
    TrimmedIsFixed(m);
    assert m[1..] == d;
  }

  /** `Number(String(n)) === n` */
  lemma ParseNumberOfIntToString(n: int)
    ensures ParseNumber(IntToString(n)) == Some(n)
  {
    if n < 0 {
      NegatedNatToStringReadsBack(-n);
      assert IntToString(n) == "-" + NatToString(-n);
    } else {
      NatToStringReadsBack(n);
      assert IntToString(n) == NatToString(n);
    }
  }

  lemma NatToStringReadsBack(k: nat)
    ensures ParseNumber(NatToString(k)) == Some(k)
  {
    DigitsValueOfNatToString(k);
    ParseNumberOfDigits(NatToString(k));
  }

  lemma NegatedNatToStringReadsBack(k: nat)
    ensures ParseNumber("-" + NatToString(k)) == Some(0 - k as int)
  {
    DigitsValueOfNatToString(k);
    ParseNumberOfNegative(NatToString(k));
  }
}
