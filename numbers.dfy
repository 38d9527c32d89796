/** Decimal integers as the browser and Node read and print them: `parseInt` read in base
    10 and `Number.prototype.toString()` on integers. */
module Numbers {
  import opened Common
  import Text

  predicate IsDigit(c: char) {
    '0' <= c <= '9'
  }

  predicate AllDigits(s: string) {
    forall i :: 0 <= i < |s| ==> IsDigit(s[i])
  }

  function DigitValue(c: char): (d: nat)
    requires IsDigit(c)
    ensures d < 10
  {
    c as int - '0' as int
  }

  function DigitChar(d: nat): (c: char)
    requires d < 10
    ensures IsDigit(c) && DigitValue(c) == d
  {
    ('0' as int + d) as char
  }

  /** The length of the run of decimal digits that starts `s`. */
  function DigitRun(s: string): (n: nat)
    ensures n <= |s| && AllDigits(s[..n])
    ensures n < |s| ==> !IsDigit(s[n])
  {
    if s != [] && IsDigit(s[0]) then 1 + DigitRun(s[1..]) else 0
  }

  /** The value of a string of decimal digits, most significant digit first. */
  function DigitsValue(ds: string): nat
    requires AllDigits(ds)
  {
    if ds == [] then 0 else 10 * DigitsValue(ds[..|ds| - 1]) + DigitValue(ds[|ds| - 1])
  }

  /** `parseInt(s, 10)`, with `None` for NaN: leading white space is skipped, one optional
      sign is read, then the longest run of digits; anything after that run is ignored. The
      pages call `parseInt(s)` without a radix, which reads a `0x` prefix as hexadecimal;
      this function reads every input in base 10. */
  function ParseInt(s: string): Option<int>
  {
    var t := Text.TrimStart(s);
    var negative := t != [] && t[0] == '-';
    var body := if t != [] && (t[0] == '-' || t[0] == '+') then t[1..] else t;
    var n := DigitRun(body);
    if n == 0 then None
    else
      var magnitude: int := DigitsValue(body[..n]);
      Some(if negative then -magnitude else magnitude)
  }

  /** `String(n)` for a non-negative integer: its decimal digits without leading zeros. */
  function NatString(n: nat): (s: string)
    ensures |s| >= 1 && AllDigits(s)
  {
    if n < 10 then [DigitChar(n)] else NatString(n / 10) + [DigitChar(n % 10)]
  }

  /** `String(n)` for an integer. */
  function IntString(n: int): (s: string)
    ensures s != ""
  {
    if n < 0 then "-" + NatString(-n) else NatString(n)
  }

  lemma {:induction false} NatStringValue(n: nat)
    ensures DigitsValue(NatString(n)) == n
  {
    if n >= 10 {
      NatStringValue(n / 10);
      var s := NatString(n);
      assert s[..|s| - 1] == NatString(n / 10);
    }
  }

  lemma {:induction false} DigitRunAll(s: string)
    requires AllDigits(s)
    ensures DigitRun(s) == |s|
  {
    if s != [] {
      DigitRunAll(s[1..]);
    }
  }

  /** A digit string (leading zeros allowed) parses to its value. */
  lemma ParseIntDigits(s: string)
    requires s != [] && AllDigits(s)
    ensures ParseInt(s) == Some(DigitsValue(s))
  {
    Text.TrimStartKeeps(s);
    DigitRunAll(s);
    assert s[..|s|] == s;
  }

  /** A minus sign followed by digits parses to the negated value of the digits. */
  lemma ParseIntNegative(digits: string)
    requires digits != [] && AllDigits(digits)
    ensures ParseInt("-" + digits) == Some(-(DigitsValue(digits) as int))
  {
    var s := "-" + digits;
    assert s[0] == '-';
    Text.TrimStartKeeps(s);
    assert s[1..] == digits;
    DigitRunAll(digits);
    assert digits[..|digits|] == digits;
  }

  /** Printing an integer and parsing the text back gives the integer again. */
  lemma ParseIntString(n: int)
    ensures ParseInt(IntString(n)) == Some(n)
  {
    if n < 0 {
      var m: nat := -n;
      var digits := NatString(m);
      assert IntString(n) == "-" + digits;
      NatStringValue(m);
      ParseIntNegative(digits);
    } else {
      var digits := NatString(n);
      assert IntString(n) == digits;
      NatStringValue(n);
      ParseIntDigits(digits);
    }
  }
}
