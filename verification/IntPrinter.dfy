/** The integer printer UInt32ToStrBaseSign (Utilities/Scpi/Src/utils.c), which works by place
    value from the most significant digit down, and its agreement with fmtint
    (Utilities/Scpi/Src/snprintf.c), which divides from the other end. */
module IntPrinter {
  import opened Lexer
  import opened LexerLaws
  import opened Numerals
  import opened PrintfSpec

  /** An unknown base counts as ten. */
  function EffectiveBase(base: int): (b: nat)
    ensures IsRadix(b)
  {
    if base == 2 || base == 8 || base == 16 then base else 10
  }

  /** What is to be printed for a word; only base ten knows a sign. */
  function PrintedText(val: nat, base: int, sign: bool): (text: string)
    requires val < WORD
    ensures |text| > 0
  {
    var b := EffectiveBase(base);
    if sign && val >= 0x8000_0000 && b == 10 then "-" + DigitsOf(WORD - val, 10, true)
    else DigitsOf(val, b, true)
  }

  // ---------- digits by place value ----------

  /** Quotient and remainder. */
  function Divide(u: nat, p: nat): (r: (nat, nat))
    requires p > 0
    ensures r.1 < p && u == r.0 * p + r.1
  {
    (u / p, u - u / p * p)
  }

  lemma DivBound(u: nat, p: nat, base: nat)
    requires p > 0 && IsRadix(base) && u < base * p
    ensures Divide(u, p).0 < base
  {
  }

  /** The digit of u at the place of base^k, and what is below it. */
  function SplitAt(u: nat, base: nat, k: nat): (r: (nat, nat))
    requires IsRadix(base) && u < Pow(base, k + 1)
    ensures r.0 < base && r.1 < Pow(base, k) && u == r.0 * Pow(base, k) + r.1
  {
    hide Divide, IsRadix;
    DivBound(u, Pow(base, k), base);
    Divide(u, Pow(base, k))
  }

  /** The digits of u from the place of base^k down. */
  function FixedDigits(u: nat, base: nat, k: nat): (s: string)
    requires IsRadix(base) && u < Pow(base, k + 1)
    ensures |s| == k + 1
    decreases k
  {
    var (d, r) := SplitAt(u, base, k);
    [DigitChar(d, true)] + (if k == 0 then "" else FixedDigits(r, base, k - 1))
  }

  lemma Distribute(acc: nat, d: nat, base: nat, p: nat, r: nat)
    ensures (acc * base + d) * p + r == acc * (base * p) + (d * p + r)
  {
  }

  /** The digits by place value read back as the number. */
  lemma {:induction false} FixedValue(u: nat, base: nat, k: nat, acc: nat)
    requires IsRadix(base) && u < Pow(base, k + 1)
    ensures ValueOf(FixedDigits(u, base, k), base, acc) == acc * Pow(base, k + 1) + u
    decreases k
  {
    hide DigitChar, DigitVal, ValueOf, SplitAt, IsRadix;
    var s := FixedDigits(u, base, k);
    var (d, r) := SplitAt(u, base, k);
    ReadFirst(s, base, acc);
    Distribute(acc, d, base, Pow(base, k), r);
    if k == 0 {
      assert s[1..] == "";
      NothingRead(base, acc * base + d);
    } else {
      assert s[1..] == FixedDigits(r, base, k - 1);
      FixedValue(r, base, k - 1, acc * base + d);
    }
  }

  lemma NothingRead(base: nat, acc: nat)
    ensures ValueOf("", base, acc) == acc
  {
  }

  lemma {:induction false} FixedShape(u: nat, base: nat, k: nat)
    requires IsRadix(base) && u < Pow(base, k + 1)
    ensures AreDigits(FixedDigits(u, base, k), base, true)
    ensures u >= Pow(base, k) ==> FixedDigits(u, base, k)[0] != '0'
    decreases k
  {
    hide DigitChar, DigitVal, IsRadix, Pow;
    var (d, r) := SplitAt(u, base, k);
    PowStep(base, k);
    if u >= Pow(base, k) {
      AtLeastOnce(u, Pow(base, k), d, r);
    }
    if k > 0 {
      FixedShape(r, base, k - 1);
    }
  }

  lemma AtLeastOnce(u: nat, p: nat, d: nat, r: nat)
    requires u == d * p + r && r < p <= u
    ensures d >= 1
  {
  }

  /** From the right place on they are the digits of the number. */
  lemma FixedIsDigits(u: nat, base: nat, k: nat)
    requires IsRadix(base) && Pow(base, k) <= u < Pow(base, k + 1)
    ensures FixedDigits(u, base, k) == DigitsOf(u, base, true)
  {
    hide FixedDigits, Pow, DigitsOf, AreDigits;
    FixedValue(u, base, k, 0);
    FixedShape(u, base, k);
    NumeralUnique(FixedDigits(u, base, k), base, true);
  }

  // ---------- the printer ----------

  /** The place the printer starts from: no word reaches the one above it. */
  method FirstPlace(base: nat) returns (x: nat, ghost k: nat)
    requires IsRadix(base)
    ensures x == Pow(base, k) && WORD <= Pow(base, k + 1)
  {
    if base == 2 {
      x, k := 0x8000_0000, 31;
      PowersOfTwo();
    } else if base == 8 {
      x, k := 0x4000_0000, 10;
      PowersOfEight();
    } else if base == 10 {
      x, k := 1000000000, 9;
      TenToTheNinth();
    } else {
      x, k := 0x1000_0000, 7;
      PowersOfSixteen();
    }
  }

  lemma PowersOfTwo()
    ensures Pow(2, 31) == 0x8000_0000 && Pow(2, 32) == WORD
  {
    assert Pow(2, 4) == 16;
    assert Pow(2, 8) == 16 * Pow(2, 4);
    assert Pow(2, 12) == 16 * Pow(2, 8);
    assert Pow(2, 16) == 16 * Pow(2, 12);
    assert Pow(2, 20) == 16 * Pow(2, 16);
    assert Pow(2, 24) == 16 * Pow(2, 20);
    assert Pow(2, 28) == 16 * Pow(2, 24);
    assert Pow(2, 31) == 8 * Pow(2, 28);
  }

  lemma PowersOfSixteen()
    ensures Pow(16, 7) == 0x1000_0000 && Pow(16, 8) == WORD
  {
    assert Pow(16, 3) == 4096;
    assert Pow(16, 6) == 4096 * Pow(16, 3);
  }

  /** The place of the leading digit: base^k is the largest power not above u. */
  method LeadingPlace(u: nat, base: nat) returns (x: nat, ghost k: nat)
    requires 0 < u < WORD && IsRadix(base)
    ensures x == Pow(base, k) <= u < Pow(base, k + 1)
  {
    hide Pow;
    x, k := FirstPlace(base);
    PowStep(base, k);
    while u / x == 0
      invariant x == Pow(base, k) && x > 0 && u < Pow(base, k + 1)
      decreases k
    {
      ZeroQuotient(u, x);
      PowStep(base, k);
      x := x / base;
      k := k - 1;
      PowStep(base, k);
    }
    NonzeroQuotient(u, x);
  }

  lemma PowStep(base: nat, k: nat)
    requires IsRadix(base)
    ensures base > 0 && Pow(base, k) > 0 && Pow(base, 0) == 1
    ensures k > 0 ==> Pow(base, k) == base * Pow(base, k - 1) && Pow(base, k) / base == Pow(base, k - 1)
    ensures k == 0 ==> Pow(base, k) / base == 0
  {
    if k > 0 {
      Quotient(Pow(base, k - 1), 0, base);
    }
  }

  lemma ZeroQuotient(u: nat, p: nat)
    requires p > 0 && u / p == 0
    ensures u < p
  {
  }

  lemma NonzeroQuotient(u: nat, p: nat)
    requires p > 0 && u / p != 0
    ensures u >= p
  {
  }

  /** UInt32ToStrBaseSign: at most len characters are written, then a zero if there is room. */
  method UInt32ToStr(val: nat, str: array<char>, len: nat, base: int, sign: bool) returns (pos: nat)
    requires val < WORD && len <= str.Length
    modifies str
    ensures var text := PrintedText(val, base, sign);
            && pos == (if |text| <= len then |text| else len)
            && str[..pos] == text[..pos]
            && (pos < len ==> str[pos] == '\0')
    ensures str[len..] == old(str[len..])
  {
    hide PrintedText, DigitsOf, FixedDigits, Pow;
    pos := 0;
    if val == 0 {
      ZeroText(base, sign);
      pos := PutChar(str, pos, len, '0', PrintedText(val, base, sign));
    } else {
      pos := PrintPositive(val, str, len, EffectiveBase(base), base, sign);
    }
    if pos < len {
      str[pos] := '\0';
    }
  }

  lemma ZeroText(base: int, sign: bool)
    ensures PrintedText(0, base, sign) == "0"
  {
    DigitsOfShape(0, EffectiveBase(base), true);
  }

  /** The branch for a value that is not zero. */
  method PrintPositive(val: nat, str: array<char>, len: nat, b: nat, ghost base: int, sign: bool) returns (pos: nat)
    requires 0 < val < WORD && len <= str.Length && b == EffectiveBase(base)
    modifies str
    ensures var text := PrintedText(val, base, sign);
            pos == (if |text| <= len then |text| else len) && str[..pos] == text[..pos]
    ensures str[len..] == old(str[len..])
  {
    hide DigitsOf, FixedDigits, Pow, EffectiveBase;
    ghost var text := PrintedText(val, base, sign);
    pos := 0;
    var uval := val;
    ghost var prefix := "";
    if sign && val >= 0x8000_0000 && b == 10 {
      uval := WORD - val;
      prefix := "-";
      pos := PutChar(str, pos, len, '-', text);
    }
    var x, k := LeadingPlace(uval, b);
    FixedIsDigits(uval, b, k);
    assert text == prefix + FixedDigits(uval, b, k);
    TailOf(prefix, FixedDigits(uval, b, k));
    hide PrintedText;
    pos := PutDigits(uval, b, x, k, str, len, pos, text);
  }

  lemma TailOf(a: string, b: string)
    ensures (a + b)[|a|..] == b
  {
  }

  /** The digit loop of the printer. */
  method PutDigits(u: nat, base: nat, x0: nat, ghost k0: nat, str: array<char>, len: nat, start: nat,
      ghost text: string)
    returns (pos: nat)
    requires IsRadix(base) && u < Pow(base, k0 + 1) && x0 == Pow(base, k0) && start <= len <= str.Length
    requires start <= |text| - (k0 + 1) && text[|text| - (k0 + 1)..] == FixedDigits(u, base, k0)
    requires start == (if |text| - (k0 + 1) <= len then |text| - (k0 + 1) else len) && str[..start] == text[..start]
    modifies str
    ensures pos == (if |text| <= len then |text| else len) && str[..pos] == text[..pos]
    ensures str[len..] == old(str[len..])
  {
    hide FixedDigits, Pow, IsRadix, DigitChar;
    var uval: nat, x: nat := u, x0;
    ghost var k: nat := k0;
    pos := start;
    var more := true;
    while more
      invariant pos <= len && pos <= |text| && str[..pos] == text[..pos]
      invariant str[len..] == old(str[len..])
      invariant more ==> k <= k0 && x == Pow(base, k) && uval < Pow(base, k + 1)
      invariant more ==> text[|text| - (k + 1)..] == FixedDigits(uval, base, k)
      invariant more ==> pos == (if |text| - (k + 1) <= len then |text| - (k + 1) else len)
      invariant !more ==> pos == (if |text| <= len then |text| else len)
      decreases more, k
    {
      PowStep(base, k);
      var digit, rest := NextDigit(uval, base, x, k, text);
      pos := PutChar(str, pos, len, DigitChar(digit, true), text);
      uval := rest;
      x := x / base;
      more := x != 0 && pos < len;
      if k > 0 {
        k := k - 1;
      }
    }
  }

  /** The digit at place k, and what is left for the places below. */
  method NextDigit(uval: nat, base: nat, x: nat, ghost k: nat, ghost text: string) returns (digit: nat, rest: nat)
    requires IsRadix(base) && x == Pow(base, k) && uval < Pow(base, k + 1)
    requires |text| >= k + 1 && text[|text| - (k + 1)..] == FixedDigits(uval, base, k)
    ensures digit < 16 && text[|text| - (k + 1)] == DigitChar(digit, true)
    ensures rest < Pow(base, k)
    ensures k > 0 ==> text[|text| - k..] == FixedDigits(rest, base, k - 1)
  {
    hide Pow;
    ghost var split := SplitAt(uval, base, k);
    digit := uval / x;
    rest := uval - digit * x;
    assert (digit, rest) == split;
    ghost var tail := text[|text| - (k + 1)..];
    assert tail[0] == text[|text| - (k + 1)] && tail[1..] == text[|text| - k..];
  }

  /** ADD_CHAR */
  method PutChar(str: array<char>, at: nat, len: nat, c: char, ghost text: string) returns (pos: nat)
    requires at <= len <= str.Length && at <= |text| && str[..at] == text[..at]
    requires at < len ==> at < |text| && text[at] == c
    modifies str
    ensures pos == (if at < len then at + 1 else at) && str[..pos] == text[..pos]
    ensures str[len..] == old(str[len..])
  {
    pos := at;
    if pos < len {
      str[pos] := c;
      pos := pos + 1;
      assert text[..pos] == text[..at] + [c];
    }
  }

  // ---------- the two printers ----------

  lemma {:induction false} CapsDoNotMatter(u: nat)
    ensures DigitsOf(u, 10, true) == DigitsOf(u, 10, false)
    decreases u
  {
    if u >= 10 {
      CapsDoNotMatter(u / 10);
    }
  }

  /** What this printer writes for a word is what fmtint emits without width and precision, for
      every word, sign flag and base that both know. */
  lemma PrintersAgree(v: Int32, base: nat, sign: bool)
    requires IsFormatBase(base)
    ensures PrintedText(v % WORD, base, sign)
         == FmtInt(v, base, 0, -1, NO_FLAGS.(up := true, unsigned := !sign || base != 10))
  {
    var flags := NO_FLAGS.(up := true, unsigned := !sign || base != 10);
    hide DigitsOf, FmtInt;
    BareInteger(v, base, flags);
    CapsDoNotMatter(Magnitude(v));
  }

  // ---------- non-decimal results ----------

  /** getBasePrefix: the letter of the prefix of a non-decimal result. */
  function PrefixLetter(base: nat): char {
    if base == 2 then 'B' else if base == 8 then 'Q' else 'H'
  }

  /** What resultUInt32BaseSign writes in base 2, 8 or 16. */
  function NondecimalText(val: nat, base: nat): string
    requires base == 2 || base == 8 || base == 16
  {
    ['#', PrefixLetter(base)] + DigitsOf(val, base, true)
  }

  /** A non-decimal result is lexed as one number whose digits stand for the value, unless a
      further digit of its base follows. */
  lemma {:induction false} NondecimalRoundTrip(w: string, p: nat, e: nat, val: nat, base: nat)
    requires base == 2 || base == 8 || base == 16
    requires Holds(w, p, NondecimalText(val, base))
    requires var q := p + |NondecimalText(val, base)|;
             q <= e <= |w| && (q < e ==> !Is(w[q], Lexer.BaseOf(PrefixLetter(base)).0))
    ensures var digits := DigitsOf(val, base, true);
            && NondecimalData(w, p, e)
               == Lexed(Token(Lexer.BaseOf(PrefixLetter(base)).1, p + 2, |digits|), p + 2 + |digits|)
            && Holds(w, p + 2, digits) && ValueOf(digits, base) == val
  {
    hide DigitsOf, ValueOf, Holds, Span, AreDigits, Is;
    var text := NondecimalText(val, base);
    var digits := DigitsOf(val, base, true);
    DigitsReadBack(val, base, true);
    DigitsOfShape(val, base, true);
    HoldsAt(w, p, text, 0);
    HoldsAt(w, p, text, 1);
    HoldsTail(w, p, text, 2);
    assert text[2..] == digits;
    DigitsSpan(w, p + 2, e, digits, base);
  }

  /** For instance the value 250 in the three bases. */
  lemma NondecimalExample()
    ensures NondecimalText(250, 16) == "#HFA" && NondecimalText(250, 8) == "#Q372"
    ensures NondecimalText(250, 2) == "#B11111010"
  {
    assert DigitsOf(15, 16, true) == "F" && DigitsOf(250, 16, true) == "FA";
    assert DigitsOf(3, 8, true) == "3" && DigitsOf(31, 8, true) == "37" && DigitsOf(250, 8, true) == "372";
    assert DigitsOf(3, 2, true) == "11" && DigitsOf(7, 2, true) == "111" && DigitsOf(15, 2, true) == "1111";
    assert DigitsOf(31, 2, true) == "11111" && DigitsOf(62, 2, true) == "111110";
    assert DigitsOf(125, 2, true) == "1111101" && DigitsOf(250, 2, true) == "11111010";
  }

  lemma DigitsSpan(w: string, s: nat, e: nat, digits: string, base: nat)
    requires base == 2 || base == 8 || base == 16
    requires AreDigits(digits, base, true) && Holds(w, s, digits)
    requires var q := s + |digits|;
             q <= e <= |w| && (q < e ==> !Is(w[q], Lexer.BaseOf(PrefixLetter(base)).0))
    ensures Span(w, s, e, Lexer.BaseOf(PrefixLetter(base)).0) == s + |digits|
  {
    hide Holds, Span, DigitChar, DigitVal, Is;
    var cls := Lexer.BaseOf(PrefixLetter(base)).0;
    forall i | s <= i < s + |digits| ensures Is(w[i], cls) {
      HoldsAt(w, s, digits, i - s);
      DigitInClass(digits[i - s], base);
    }
    SpanIs(w, s, e, cls, s + |digits|);
  }

  lemma DigitInClass(c: char, base: nat)
    requires base == 2 || base == 8 || base == 16
    requires DigitVal(c) < base && c == DigitChar(DigitVal(c), true)
    ensures Is(c, Lexer.BaseOf(PrefixLetter(base)).0)
  {
  }
}
