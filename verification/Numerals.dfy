/** Numbers as the library prints them and `std::from_chars` reads them. */
module Numerals {
  import opened Visa

  function DigitChar(d: nat): char
    requires d < 16
  {
    if d < 10 then '0' + d as char else 'A' + (d - 10) as char
  }

  /** The value of a digit in either case, or 16 for any other character. */
  function DigitValue(c: char): (d: nat)
    ensures d <= 16
  {
    if '0' <= c <= '9' then c as int - '0' as int
    else if 'A' <= c <= 'F' then c as int - 'A' as int + 10
    else if 'a' <= c <= 'f' then c as int - 'a' as int + 10
    else 16
  }

  function Numeral(n: nat, base: nat): (s: string)
    requires 2 <= base <= 16
    ensures s != ""
  {
    if n < base then [DigitChar(n)] else Numeral(n / base, base) + [DigitChar(n % base)]
  }

  function NumeralValue(s: string, base: nat): Option<nat>
    requires 2 <= base <= 16
  {
    if s == "" || DigitValue(s[|s| - 1]) >= base then None
    else if |s| == 1 then Some(DigitValue(s[0]))
    else
      match NumeralValue(s[..|s| - 1], base)
      case None => None
      case Some(front) => Some(front * base + DigitValue(s[|s| - 1]))
  }

  predicate IsNumeral(s: string) {
    s != "" && forall k :: 0 <= k < |s| ==> DigitValue(s[k]) < 16
  }

  lemma DigitRoundTrip(d: nat)
    requires d < 16
    ensures DigitValue(DigitChar(d)) == d
  {
  }

  lemma DivMod(n: nat, base: nat)
    requires base > 0
    ensures n == n / base * base + n % base
  {
  }

  lemma AppendDigit(front: string, d: nat, base: nat)
    requires 2 <= base <= 16 && d < base && front != "" && NumeralValue(front, base).Some?
    ensures NumeralValue(front + [DigitChar(d)], base) == Some(NumeralValue(front, base).value * base + d)
  {
    DigitRoundTrip(d);
    assert (front + [DigitChar(d)])[..|front|] == front;
  }

  /** Reading back what was printed. */
  lemma {:induction false} NumeralRoundTrip(n: nat, base: nat)
    requires 2 <= base <= 16
    ensures NumeralValue(Numeral(n, base), base) == Some(n)
  {
    if n < base {
      DigitRoundTrip(n);
    } else {
      NumeralRoundTrip(n / base, base);
      AppendDigit(Numeral(n / base, base), n % base, base);
      DivMod(n, base);
    }
  }

  lemma {:induction false} NumeralDigits(n: nat, base: nat)
    requires 2 <= base <= 16
    ensures IsNumeral(Numeral(n, base))
  {
    if n < base {
      DigitRoundTrip(n);
    } else {
      NumeralDigits(n / base, base);
      DigitRoundTrip(n % base);
    }
  }

  lemma NumeralInjective(m: nat, n: nat, base: nat)
    requires 2 <= base <= 16 && Numeral(m, base) == Numeral(n, base)
    ensures m == n
  {
    NumeralRoundTrip(m, base);
    NumeralRoundTrip(n, base);
  }

  /** A four-digit hexadecimal field. */
  function HexField(n: nat): (s: string)
    requires n < 0x10000
    ensures |s| == 4
  {
    var upper := n / 16;
    var middle := upper / 16;
    [DigitChar(middle / 16), DigitChar(middle % 16), DigitChar(upper % 16), DigitChar(n % 16)]
  }

  lemma HexFieldRoundTrip(n: nat)
    requires n < 0x10000
    ensures NumeralValue(HexField(n), 16) == Some(n)
  {
    var upper := n / 16;
    var middle := upper / 16;
    var top := [DigitChar(middle / 16)];
    DigitRoundTrip(middle / 16);
    AppendDigit(top, middle % 16, 16);
    var two := top + [DigitChar(middle % 16)];
    AppendDigit(two, upper % 16, 16);
    var three := two + [DigitChar(upper % 16)];
    AppendDigit(three, n % 16, 16);
    assert HexField(n) == three + [DigitChar(n % 16)];
  }

  lemma HexFieldDigits(n: nat)
    requires n < 0x10000
    ensures IsNumeral(HexField(n))
  {
    var upper := n / 16;
    var middle := upper / 16;
    DigitRoundTrip(middle / 16);
    DigitRoundTrip(middle % 16);
    DigitRoundTrip(upper % 16);
    DigitRoundTrip(n % 16);
  }
}
