/** Numerals in the bases the repository prints: the digits of a number, and the number a run of
    digits stands for. */
module Numerals {
  import opened Lexer

  const WORD := 0x1_0000_0000

  type Int32 = x: int | -0x8000_0000 <= x < 0x8000_0000

  predicate IsRadix(base: nat) {
    base == 2 || base == 8 || base == 10 || base == 16
  }

  function DigitChar(d: nat, caps: bool): (c: char)
    requires d < 16
    ensures d < 10 ==> IsDigit(c)
    ensures DigitVal(c) == d && (d > 0 ==> c != '0')
  {
    if d < 10 then ('0' as int + d) as char
    else if caps then ('A' as int + (d - 10)) as char
    else ('a' as int + (d - 10)) as char
  }

  function DigitVal(c: char): nat {
    if '0' <= c <= '9' then c as int - '0' as int
    else if 'a' <= c <= 'f' then c as int - 'a' as int + 10
    else if 'A' <= c <= 'F' then c as int - 'A' as int + 10
    else 0
  }

  /** The digits of u in the base, most significant first. */
  function DigitsOf(u: nat, base: nat, caps: bool): (s: string)
    requires IsRadix(base)
    ensures |s| > 0
    decreases u
  {
    if u < base then [DigitChar(u, caps)] else DigitsOf(u / base, base, caps) + [DigitChar(u % base, caps)]
  }

  /** The number a digit string stands for, behind acc already read. */
  function ValueOf(s: string, base: nat, acc: nat := 0): nat
    decreases |s|
  {
    if s == "" then acc else ValueOf(s[..|s| - 1], base, acc) * base + DigitVal(s[|s| - 1])
  }

  /** Every character is the way this printer writes some digit of the base. */
  predicate AreDigits(s: string, base: nat, caps: bool)
    requires IsRadix(base)
  {
    forall i :: 0 <= i < |s| ==> DigitVal(s[i]) < base && s[i] == DigitChar(DigitVal(s[i]), caps)
  }

  predicate Digits(s: string) {
    forall i :: 0 <= i < |s| ==> IsDigit(s[i])
  }

  lemma DecimalDigits(s: string, caps: bool)
    requires AreDigits(s, 10, caps)
    ensures Digits(s)
  {
  }

  lemma {:induction false} DigitsReadBack(u: nat, base: nat, caps: bool)
    requires IsRadix(base)
    ensures ValueOf(DigitsOf(u, base, caps), base) == u
    decreases u
  {
    hide DigitChar, DigitVal;
    var s := DigitsOf(u, base, caps);
    if u < base {
      assert s[..0] == "";
    } else {
      DigitsReadBack(u / base, base, caps);
      assert s[..|s| - 1] == DigitsOf(u / base, base, caps);
      assert u == u / base * base + u % base;
    }
  }

  lemma {:induction false} DigitsOfShape(u: nat, base: nat, caps: bool)
    requires IsRadix(base)
    ensures AreDigits(DigitsOf(u, base, caps), base, caps)
    ensures u > 0 ==> DigitsOf(u, base, caps)[0] != '0'
    ensures u < base ==> DigitsOf(u, base, caps) == [DigitChar(u, caps)]
    decreases u
  {
    hide DigitChar, DigitVal;
    if u >= base {
      assert u / base > 0;
      DigitsOfShape(u / base, base, caps);
    }
  }

  /** Reading from the front: the first digit goes into the accumulator. */
  lemma {:induction false} ReadFirst(s: string, base: nat, acc: nat)
    requires s != ""
    ensures ValueOf(s, base, acc) == ValueOf(s[1..], base, acc * base + DigitVal(s[0]))
    decreases |s|
  {
    hide DigitVal;
    if |s| == 1 {
      assert s[..0] == "" && s[1..] == "";
    } else {
      var t := s[..|s| - 1];
      ReadFirst(t, base, acc);
      assert t[1..] == s[1..][..|s| - 2] && t[0] == s[0] && s[1..][|s| - 2] == s[|s| - 1];
    }
  }

  /** A number has one numeral without superfluous zeros. */
  lemma {:induction false} NumeralUnique(s: string, base: nat, caps: bool)
    requires IsRadix(base) && AreDigits(s, base, caps) && s != "" && (|s| > 1 ==> s[0] != '0')
    ensures s == DigitsOf(ValueOf(s, base), base, caps)
    decreases |s|
  {
    hide DigitChar, DigitVal, DigitsOf, ValueOf, AreDigits;
    var t, d := s[..|s| - 1], DigitVal(s[|s| - 1]);
    LastDigit(s, base, caps);
    if t == "" {
      OneDigit(d, base, caps);
      assert s == [DigitChar(d, caps)];
    } else {
      NumeralUnique(t, base, caps);
      LeadingDigitCounts(t, base, caps);
      NextDigitOf(ValueOf(t, base), d, base, caps);
    }
  }

  lemma LastDigit(s: string, base: nat, caps: bool)
    requires IsRadix(base) && AreDigits(s, base, caps) && s != ""
    ensures var t, d := s[..|s| - 1], DigitVal(s[|s| - 1]);
            d < base && AreDigits(t, base, caps) && s == t + [DigitChar(d, caps)]
              && ValueOf(s, base) == ValueOf(t, base) * base + d
  {
    hide DigitChar, DigitVal;
    assert forall i :: 0 <= i < |s| - 1 ==> s[..|s| - 1][i] == s[i];
  }

  lemma OneDigit(d: nat, base: nat, caps: bool)
    requires IsRadix(base) && d < base
    ensures DigitsOf(d, base, caps) == [DigitChar(d, caps)] && ValueOf("", base) == 0
  {
  }

  lemma NextDigitOf(q: nat, d: nat, base: nat, caps: bool)
    requires IsRadix(base) && q > 0 && d < base
    ensures DigitsOf(q * base + d, base, caps) == DigitsOf(q, base, caps) + [DigitChar(d, caps)]
  {
    hide DigitChar;
    Quotient(q, d, base);
  }

  lemma Quotient(q: nat, d: nat, base: nat)
    requires IsRadix(base) && d < base
    ensures (q * base + d) / base == q && (q * base + d) % base == d
  {
  }

  lemma {:induction false} LeadingDigitCounts(s: string, base: nat, caps: bool)
    requires IsRadix(base) && AreDigits(s, base, caps) && s != "" && s[0] != '0'
    ensures ValueOf(s, base) > 0
    decreases |s|
  {
    hide DigitVal;
    if |s| == 1 {
      assert s[..0] == "";
      ZeroIsZero(s[0], caps);
    } else {
      assert forall i :: 0 <= i < |s| - 1 ==> s[..|s| - 1][i] == s[i];
      LeadingDigitCounts(s[..|s| - 1], base, caps);
    }
  }

  lemma ZeroIsZero(c: char, caps: bool)
    requires DigitVal(c) < 16 && c == DigitChar(DigitVal(c), caps) && c != '0'
    ensures DigitVal(c) > 0
  {
  }

  // ---------- lengths ----------

  function Pow(base: nat, k: nat): (r: nat)
    ensures base > 0 ==> r > 0
  {
    if k == 0 then 1 else base * Pow(base, k - 1)
  }

  lemma {:induction false} PowMonotone(base: nat, a: nat, b: nat)
    requires base > 0 && a <= b
    ensures Pow(base, a) <= Pow(base, b)
    decreases b
  {
    if a < b {
      PowMonotone(base, a, b - 1);
      assert base * Pow(base, b - 1) >= Pow(base, b - 1);
    }
  }

  /** A numeral of a number below base^k has at most k digits. */
  lemma {:induction false} NumeralLength(u: nat, base: nat, caps: bool, k: nat)
    requires IsRadix(base) && u < Pow(base, k) && k >= 1
    ensures |DigitsOf(u, base, caps)| <= k
    decreases u
  {
    hide DigitChar;
    if u >= base {
      assert k >= 2 by {
        assert Pow(base, 1) == base * Pow(base, 0) == base;
      }
      QuotientBelow(u, base, Pow(base, k - 1));
      NumeralLength(u / base, base, caps, k - 1);
    }
  }

  lemma QuotientBelow(u: nat, base: nat, p: nat)
    requires IsRadix(base) && u < base * p
    ensures u / base < p
  {
  }

  lemma TenToTheNinth()
    ensures Pow(10, 9) == 1000000000 && Pow(10, 10) == 10000000000
  {
    assert Pow(10, 3) == 1000;
    assert Pow(10, 6) == 1000 * Pow(10, 3);
    assert Pow(10, 9) == 1000 * Pow(10, 6);
  }

  lemma PowersOfEight()
    ensures Pow(8, 10) == 0x4000_0000 && Pow(8, 11) == 2 * WORD
  {
    assert Pow(8, 3) == 512;
    assert Pow(8, 6) == 512 * Pow(8, 3);
    assert Pow(8, 9) == 512 * Pow(8, 6);
  }

  // ---------- signed numbers ----------

  function Magnitude(v: Int32): nat {
    if v < 0 then 0 - v as int else v
  }

  /** A minus sign if needed, and the digits. */
  function SignedText(v: Int32): string {
    (if v < 0 then "-" else "") + DigitsOf(Magnitude(v), 10, false)
  }
}
