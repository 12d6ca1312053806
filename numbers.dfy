/**
 * Decimal numbers in text: Rust's `i32::from_str` (the rating count), the
 * grammar `f32::from_str` accepts (the rating score), and the decimal
 * rendering `format!` gives an integer (the feed's page number).
 */
module Numbers {
  import opened Results

  const I32Min: int := -0x8000_0000
  const I32Max: int := 0x7FFF_FFFF

  predicate IsDigit(c: char) { '0' <= c <= '9' }

  predicate AllDigits(s: string) { forall i :: 0 <= i < |s| ==> IsDigit(s[i]) }

  function DigitValue(c: char): (d: nat)
    requires IsDigit(c)
    ensures d < 10
  {
    (c as int) - ('0' as int)
  }

  function DigitChar(d: nat): (c: char)
    requires d < 10
    ensures IsDigit(c) && DigitValue(c) == d
  {
    (('0' as int) + d) as char
  }

  /** The value of a string of decimal digits, most significant first. */
  function DigitsValue(s: string): nat
    requires AllDigits(s)
    decreases |s|
  {
    if s == [] then 0 else DigitsValue(s[..|s| - 1]) * 10 + DigitValue(s[|s| - 1])
  }

  /** The shortest decimal rendering of a natural number (no leading zeros). */
  function NatToDecimal(n: nat): (s: string)
    ensures |s| >= 1 && AllDigits(s)
    ensures |s| > 1 ==> s[0] != '0'
    decreases n
  {
    if n < 10 then [DigitChar(n)] else NatToDecimal(n / 10) + [DigitChar(n % 10)]
  }

  /** `format!("{}", n)` for an integer. */
  function FormatInt(n: int): (s: string)
    ensures |s| >= 1
  {
    if n < 0 then "-" + NatToDecimal(-n) else NatToDecimal(n)
  }

  /**
   * `i32::from_str`: an optional `+` or `-` followed by at least one ASCII
   * digit and nothing else, whose value fits in 32 bits.
   */
  function ParseI32(s: string): (r: Option<int>)
    ensures r.Some? ==> I32Min <= r.value <= I32Max
  {
    if s == [] then None
    else
      var digits := if s[0] == '+' || s[0] == '-' then s[1..] else s;
      if digits == [] || !AllDigits(digits) then None
      else
        var v: int := if s[0] == '-' then -(DigitsValue(digits) as int) else DigitsValue(digits);
        if I32Min <= v <= I32Max then Some(v) else None
  }

  lemma {:induction false} DigitsOfDecimal(n: nat)
    ensures DigitsValue(NatToDecimal(n)) == n
    decreases n
  {
    if n >= 10 {
      DigitsOfDecimal(n / 10);
      var s := NatToDecimal(n);
      assert s[..|s| - 1] == NatToDecimal(n / 10);
    }
  }

  /** Every 32-bit integer survives rendering and parsing back. */
  lemma ParseFormattedI32(n: int)
    requires I32Min <= n <= I32Max
    ensures ParseI32(FormatInt(n)) == Some(n)
  {
    var s := FormatInt(n);
    if n < 0 {
      var d := NatToDecimal(-n);
      DigitsOfDecimal(-n);
      assert s == "-" + d && s[0] == '-' && s[1..] == d;
      assert DigitsValue(d) == -n;
    } else {
      var d := NatToDecimal(n);
      DigitsOfDecimal(n);
      assert s == d && IsDigit(s[0]);
      assert DigitsValue(d) == n;
    }
  }

  /**
   * Any optional sign followed by digits is read as its value, leading zeros
   * and a `+` included, and accepted exactly when that value fits in 32 bits.
   */
  lemma ParseI32OfSignAndDigits(sign: string, digits: string)
    requires sign in {"", "+", "-"} && digits != [] && AllDigits(digits)
    ensures var v := if sign == "-" then -(DigitsValue(digits) as int) else DigitsValue(digits) as int;
            ParseI32(sign + digits) == (if I32Min <= v <= I32Max then Some(v) else None)
  {
    var s := sign + digits;
    assert IsDigit(digits[0]);
    if sign == "" {
      assert s == digits && s[0] == digits[0];
      assert s[0] != '+' && s[0] != '-';
    } else if sign == "+" {
      assert s[0] == '+' && s[1..] == digits;
    } else {
      assert s[0] == '-' && s[1..] == digits;
    }
  }

  /** The count parser accepts nothing but an optional sign followed by digits. */
  lemma ParsedI32IsSignAndDigits(s: string)
    requires ParseI32(s).Some?
    ensures |s| >= 1
    ensures AllDigits(s) || ((s[0] == '+' || s[0] == '-') && |s| >= 2 && AllDigits(s[1..]))
  {
  }

  /** ASCII letters in lower case, anything else unchanged. */
  function ToLower(s: string): (r: string)
    ensures |r| == |s|
  {
    seq(|s|, i requires 0 <= i < |s| => if 'A' <= s[i] <= 'Z' then ((s[i] as int) + 32) as char else s[i])
  }

  /** The number of leading decimal digits. */
  function LeadingDigits(s: string): (n: nat)
    ensures n <= |s| && AllDigits(s[..n])
    ensures n < |s| ==> !IsDigit(s[n])
    decreases |s|
  {
    if s != [] && IsDigit(s[0]) then 1 + LeadingDigits(s[1..]) else 0
  }

  /** `Exp ::= 'e' Sign? Digit+` (already lower-cased). */
  predicate IsExponent(s: string)
  {
    |s| >= 2 && s[0] == 'e' &&
    var digits := if s[1] == '+' || s[1] == '-' then s[2..] else s[1..];
    digits != [] && AllDigits(digits)
  }

  /** `Number ::= (Digit+ | Digit+ '.' Digit* | Digit* '.' Digit+) Exp?` (already lower-cased). */
  predicate IsDecimalNumber(s: string)
  {
    var i := LeadingDigits(s);
    var j := if i < |s| && s[i] == '.' then i + 1 + LeadingDigits(s[i + 1..]) else i;
    var fractionDigits := if j > i then j - i - 1 else 0;
    i + fractionDigits >= 1 && (j == |s| || IsExponent(s[j..]))
  }

  /**
   * The strings `f32::from_str` accepts: an optional sign, then `inf`,
   * `infinity`, `nan` or a decimal number, compared without regard to case.
   * Nothing empty, and no lone sign or point, is accepted; every non-empty
   * digit string is. Which binary32 value the string denotes is not part of
   * this model.
   */
  predicate IsF32Literal(s: string)
    ensures IsF32Literal(s) ==> s != [] && s != "+" && s != "-" && s != "."
    ensures s != [] && AllDigits(s) ==> IsF32Literal(s)
  {
    if s != [] && AllDigits(s) then
      assert ToLower(s) == s;
      LeadingDigitsOfDigits(s);
      true
    else
    var body := if s != [] && (s[0] == '+' || s[0] == '-') then s[1..] else s;
    var t := ToLower(body);
    t == "inf" || t == "infinity" || t == "nan" || IsDecimalNumber(t)
  }

  /** Every integer rendering is a float literal, so an integral score is accepted. */
  lemma IntegerIsF32Literal(n: int)
    ensures IsF32Literal(FormatInt(n))
  {
    var body := NatToDecimal(if n < 0 then -n else n);
    assert FormatInt(n)[if n < 0 then 1 else 0..] == body;
    assert ToLower(body) == body;
    assert LeadingDigits(body) == |body| by { LeadingDigitsOfDigits(body); }
  }

  lemma {:induction false} LeadingDigitsOfDigits(s: string)
    requires AllDigits(s)
    ensures LeadingDigits(s) == |s|
    decreases |s|
  {
    if s != [] {
      LeadingDigitsOfDigits(s[1..]);
    }
  }
}
