/** Integers as decimal text, as `Display` writes them and `str::parse` reads them. */
module Decimals {
  import opened Common
  import opened GoJson

  function DigitChar(d: nat): char
    requires d < 10
  {
    (48 + d) as char
  }

  function NatText(n: nat): (r: string)
    ensures r != [] && forall c | c in r :: IsDigit(c)
    ensures n > 0 ==> r[0] != '0'
    ensures n == 0 ==> r == "0"
  {
    if n < 10 then [DigitChar(n)] else NatText(n / 10) + [DigitChar(n % 10)]
  }

  function IntText(n: int): string {
    if n < 0 then "-" + NatText(-n) else NatText(n)
  }

  function DigitValue(c: char): nat
    requires IsDigit(c)
  {
    c as int - 48
  }

  function DecimalValue(s: string, soFar: nat): nat
    requires forall c | c in s :: IsDigit(c)
  {
    if s == [] then soFar
    else
      DecimalValue(s[1..], 10 * soFar + DigitValue(s[0]))
  }

  /** `str::parse` into an integer type with these bounds: a minus only where there are negative values. */
  function ParseInt(s: string, low: int, high: int): (r: Option<int>)
    ensures r.Some? ==> low <= r.value <= high
  {
    var minus := StartsWith(s, '-') && low < 0;
    var sign := if minus || StartsWith(s, '+') then 1 else 0;
    var digits := s[sign..];
    if digits == [] || exists c | c in digits :: !IsDigit(c) then None
    else
      var value: int := DecimalValue(digits, 0);
      var signed := if minus then -value else value;
      if low <= signed <= high then Some(signed) else None
  }

  lemma {:induction false} DecimalLast(s: string, d: nat, soFar: nat)
    requires (forall c | c in s :: IsDigit(c)) && d < 10
    ensures DecimalValue(s + [DigitChar(d)], soFar) == 10 * DecimalValue(s, soFar) + d
  {
    if s == [] {
      assert s + [DigitChar(d)] == [DigitChar(d)];
      assert [DigitChar(d)][1..] == [];
    } else {
      assert (s + [DigitChar(d)])[1..] == s[1..] + [DigitChar(d)];
      DecimalLast(s[1..], d, 10 * soFar + DigitValue(s[0]));
    }
  }

  lemma {:induction false} NatTextValue(n: nat)
    ensures DecimalValue(NatText(n), 0) == n
  {
    if n >= 10 {
      NatTextValue(n / 10);
      DecimalLast(NatText(n / 10), n % 10, 0);
    } else {
      assert [DigitChar(n)][1..] == [];
    }
  }

  function Magnitude(n: int): nat {
    if n < 0 then -n else n
  }

  /** The text is a minus, if it needs one, and the digits of the magnitude. */
  lemma SignedDigits(n: int)
    ensures var text, digits := IntText(n), NatText(Magnitude(n));
            text[if n < 0 then 1 else 0..] == digits && IsDigit(digits[0]) && |text| > 0 &&
            StartsWith(text, '-') == (n < 0) && !StartsWith(text, '+')
  {
  }

  /** A written integer of a type is read back. */
  lemma IntTextParses(n: int, low: int, high: int)
    requires low <= n <= high
    ensures ParseInt(IntText(n), low, high) == Some(n)
  {
    SignedDigits(n);
    NatTextValue(Magnitude(n));
  }

  predicate DigitText(s: string) {
    s != [] && forall c | c in s :: c in "0123456789"
  }

  lemma DigitsOnly(s: string)
    ensures DigitText(s) <==> s != [] && forall c | c in s :: IsDigit(c)
  {
  }

  /** The value of digits that may be none. */
  function ValueOf(s: string): int {
    if forall c | c in s :: IsDigit(c) then DecimalValue(s, 0) else 0
  }

  /** What is read: digits alone, after a plus, or after a minus where there are negative values. */
  lemma ParseIntMeans(s: string, low: int, high: int, value: int)
    ensures ParseInt(s, low, high) == Some(value) <==>
            low <= value <= high &&
            exists sign, digits ::
              s == sign + digits && DigitText(digits) && (sign == "" || sign == "+" || (sign == "-" && low < 0)) &&
              value == if sign == "-" then -ValueOf(digits) else ValueOf(digits)
  {
    hide DecimalValue, DigitText;
    if ParseInt(s, low, high) == Some(value) {
      var sign := if (StartsWith(s, '-') && low < 0) || StartsWith(s, '+') then 1 else 0;
      DigitsOnly(s[sign..]);
      assert s == s[..sign] + s[sign..];
    }
    if sign, digits :| s == sign + digits && DigitText(digits) && (sign == "" || sign == "+" || (sign == "-" && low < 0)) &&
                       value == (if sign == "-" then -ValueOf(digits) else ValueOf(digits)) && low <= value <= high {
      DigitsOnly(digits);
      assert s[|sign|..] == digits && IsDigit(digits[0]);
      assert sign == "" ==> s == digits;
    }
  }

  /** `n` without its last `i` digits. */
  function Tens(n: nat, i: nat): nat
    decreases i
  {
    if i == 0 then n else Tens(n / 10, i - 1)
  }

  /** The digits of a number, from the last one on. */
  lemma {:induction false} NatTextMeans(n: nat, i: nat)
    ensures Tens(n, |NatText(n)|) == 0
    ensures i < |NatText(n)| ==> NatText(n)[|NatText(n)| - 1 - i] == "0123456789"[Tens(n, i) % 10]
  {
    if n >= 10 {
      NatTextMeans(n / 10, if i > 0 then i - 1 else 0);
    }
    DigitCharIs(Tens(n, i) % 10);
  }

  lemma DigitCharIs(d: nat)
    requires d < 10
    ensures DigitChar(d) == "0123456789"[d]
  {
  }

  /** A negative number is a minus and its magnitude. */
  lemma IntTextMeans(n: int)
    ensures IntText(n) == if n < 0 then "-" + NatText(-n) else NatText(n)
  {
  }
}
