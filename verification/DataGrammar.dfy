/** The program data of IEEE 488.2 sections 7.7.1 to 7.7.7 as texts put together from their parts,
    and what scpiParser_parseProgramData makes of them: an account of the data grammar that does
    not go through the lexer. */
module DataGrammar {
  import opened Lexer
  import opened LexerLaws
  import opened Grammar

  // ---------- numbers ----------

  predicate Figures(s: string) {
    forall i :: 0 <= i < |s| ==> Figure(s[i])
  }

  predicate Letters(s: string) {
    forall i :: 0 <= i < |s| ==> Letter(s[i])
  }

  predicate IsSign(s: string) {
    s == "" || s == "+" || s == "-"
  }

  /** A power of ten, with the white space that may stand around its letter. */
  datatype Power = NoPower | Power(before: string, letter: char, behind: string, sign: string, figures: string)

  /** A decimal number: sign, figures, a point with figures, a power of ten. */
  datatype Numeral = Numeral(sign: string, whole: string, point: bool, part: string, power: Power)

  predicate IsPower(x: Power) {
    x.Power? ==>
      && Blanks(x.before) && (x.letter == 'e' || x.letter == 'E') && Blanks(x.behind)
      && IsSign(x.sign) && Figures(x.figures) && x.figures != ""
  }

  predicate IsNumeral(n: Numeral) {
    && IsSign(n.sign) && Figures(n.whole) && Figures(n.part) && IsPower(n.power)
    && (n.part != "" ==> n.point) && (n.whole != "" || n.part != "")
  }

  function PowerText(x: Power): string {
    if x.NoPower? then "" else x.before + ([x.letter] + (x.behind + (x.sign + x.figures)))
  }

  function UnsignedText(n: Numeral): string {
    n.whole + ((if n.point then "." else "") + n.part)
  }

  function MantissaText(n: Numeral): string {
    n.sign + UnsignedText(n)
  }

  function NumeralText(n: Numeral): string {
    MantissaText(n) + PowerText(n.power)
  }

  // ---------- runs ----------

  lemma FiguresRead(w: string, p: nat, e: nat, s: string)
    requires Holds(w, p, s) && Figures(s) && p + |s| <= e <= |w|
    requires p + |s| < e ==> !Figure(w[p + |s|])
    ensures Span(w, p, e, Digit) == p + |s|
  {
    hide Holds, Is;
    HeldChars(w, p, s);
    forall i | p <= i < p + |s| ensures Is(w[i], Digit) {
      assert w[p + (i - p)] == s[i - p];
      IsDigitIs(w[i]);
    }
    if p + |s| < e {
      IsDigitIs(w[p + |s|]);
    }
    SpanIs(w, p, e, Digit, p + |s|);
  }

  lemma IsDigitIs(c: char)
    ensures Is(c, Digit) <==> Figure(c)
    ensures Is(c, Alpha) <==> Letter(c)
  {
  }

  lemma LettersRead(w: string, p: nat, e: nat, s: string)
    requires Holds(w, p, s) && Letters(s) && p + |s| <= e <= |w|
    requires p + |s| < e ==> !Letter(w[p + |s|])
    ensures Span(w, p, e, Alpha) == p + |s|
  {
    hide Holds, Is, Letter;
    HeldChars(w, p, s);
    forall i | p <= i < p + |s| ensures Is(w[i], Alpha) {
      assert w[p + (i - p)] == s[i - p];
      IsDigitIs(w[i]);
    }
    if p + |s| < e {
      IsDigitIs(w[p + |s|]);
    }
    SpanIs(w, p, e, Alpha, p + |s|);
  }

  lemma BlanksRead(w: string, p: nat, e: nat, s: string)
    requires Holds(w, p, s) && Blanks(s) && p + |s| <= e <= |w|
    requires p + |s| < e ==> !Blank(w[p + |s|])
    ensures Span(w, p, e, Ws) == p + |s|
  {
    hide Holds, Is, Blank;
    HeldChars(w, p, s);
    forall i | p <= i < p + |s| ensures Is(w[i], Ws) {
      assert w[p + (i - p)] == s[i - p];
      CharactersAgree(w[i]);
    }
    if p + |s| < e {
      CharactersAgree(w[p + |s|]);
    }
    SpanIs(w, p, e, Ws, p + |s|);
  }

  lemma SignRead(w: string, p: nat, e: nat, sign: string)
    requires Holds(w, p, sign) && IsSign(sign) && p + |sign| < e <= |w|
    requires sign == "" ==> w[p] != '+' && w[p] != '-'
    ensures SkipSign(w, p, e) == p + |sign|
  {
    hide Holds;
    HeldChars(w, p, sign);
    if sign != "" {
      assert w[p + 0] == sign[0];
    }
  }

  // ---------- reading a number ----------

  /** Nothing that could go on with the digits of a number stands at q. */
  predicate DigitsStop(w: string, q: nat, e: nat, point: bool)
    requires e <= |w|
  {
    q < e ==> !Figure(w[q]) && (point || w[q] != '.')
  }

  lemma MantissaRead(w: string, p: nat, e: nat, n: Numeral)
    requires IsNumeral(n) && Holds(w, p, MantissaText(n))
    requires var m := p + |MantissaText(n)|; m <= e <= |w| && DigitsStop(w, m, e, n.point)
    ensures Mantissa(w, p, e) == (|n.whole| + |n.part|, p + |MantissaText(n)|)
  {
    hide Holds, Figures, UnsignedMantissa, SkipSign, DigitsStop, UnsignedText;
    HoldsSplit(w, p, MantissaText(n), n.sign, UnsignedText(n));
    FirstFigure(w, p + |n.sign|, n);
    SignRead(w, p, e, n.sign);
    UnsignedRead(w, p + |n.sign|, e, n);
  }

  lemma UnsignedRead(w: string, s: nat, e: nat, n: Numeral)
    requires IsNumeral(n) && Holds(w, s, UnsignedText(n))
    requires var m := s + |UnsignedText(n)|; m <= e <= |w| && DigitsStop(w, m, e, n.point)
    ensures UnsignedMantissa(w, s, e) == (|n.whole| + |n.part|, s + |UnsignedText(n)|)
  {
    hide Holds, Span, Figures;
    var a := s + |n.whole|;
    if n.point {
      assert UnsignedText(n) == n.whole + ("." + n.part);
      PartRead(w, s, e, n);
    } else {
      assert UnsignedText(n) == n.whole + ("" + "") == n.whole;
      FiguresRead(w, s, e, n.whole);
    }
  }

  lemma PartRead(w: string, s: nat, e: nat, n: Numeral)
    requires Figures(n.whole) && Figures(n.part) && Holds(w, s, n.whole + ("." + n.part))
    requires var m := s + |n.whole| + 1 + |n.part|; m <= e <= |w| && (m < e ==> !Figure(w[m]))
    ensures var a := s + |n.whole|;
            Span(w, s, e, Digit) == a && w[a] == '.' && Span(w, a + 1, e, Digit) == a + 1 + |n.part|
  {
    hide Holds, Span, Figures;
    var tail := "." + n.part;
    HoldsSplit(w, s, n.whole + tail, n.whole, tail);
    var a := s + |n.whole|;
    HoldsSplit(w, a, tail, ".", n.part);
    HoldsAt(w, a, ".", 0);
    FiguresRead(w, a + 1, e, n.part);
    FiguresRead(w, s, e, n.whole);
  }

  lemma FirstFigure(w: string, s: nat, n: Numeral)
    requires IsNumeral(n) && Holds(w, s, UnsignedText(n))
    ensures s < |w| && UnsignedText(n) != "" && w[s] != '+' && w[s] != '-'
  {
    var t := UnsignedText(n);
    assert t[0] == if n.whole != "" then n.whole[0] else '.';
    HoldsAt(w, s, t, 0);
  }

  lemma SignedDigitsRead(w: string, t: nat, e: nat, sign: string, figures: string)
    requires IsSign(sign) && Figures(figures) && figures != "" && Holds(w, t, sign + figures)
    requires var q := t + |sign + figures|; q <= e <= |w| && (q < e ==> !Figure(w[q]))
    ensures SignedDigits(w, t, e) == (|figures|, t + |sign + figures|)
  {
    hide Holds, Span;
    HoldsSplit(w, t, sign + figures, sign, figures);
    HoldsAt(w, t + |sign|, figures, 0);
    SignRead(w, t, e, sign);
    FiguresRead(w, t + |sign|, e, figures);
  }

  lemma PowerParts(w: string, m: nat, x: Power)
    requires x.Power? && Holds(w, m, PowerText(x))
    ensures var s := m + |x.before|;
            var t := s + 1 + |x.behind|;
            && Holds(w, m, x.before) && s < |w| && w[s] == x.letter && Holds(w, s + 1, x.behind)
            && Holds(w, t, x.sign + x.figures) && m + |PowerText(x)| == t + |x.sign + x.figures| <= |w|
  {
    hide Holds;
    var signed := x.sign + x.figures;
    var rest := x.behind + signed;
    HoldsSplit(w, m, PowerText(x), x.before, [x.letter] + rest);
    var s := m + |x.before|;
    HoldsSplit(w, s, [x.letter] + rest, [x.letter], rest);
    HoldsAt(w, s, [x.letter], 0);
    HoldsSplit(w, s + 1, rest, x.behind, signed);
    HeldChars(w, s + 1 + |x.behind|, signed);
  }

  lemma PowerRead(w: string, m: nat, q: nat, e: nat, x: Power)
    requires x.Power? && IsPower(x) && Holds(w, m, PowerText(x))
    requires q == m + |PowerText(x)| <= e <= |w| && (q < e ==> !Figure(w[q]))
    ensures m + |x.before| <= e && Span(w, m, e, Ws) == m + |x.before|
    ensures Exponent(w, m + |x.before|, e) == (|x.figures|, q)
  {
    hide Holds, Span, Figures, Blanks, SignedDigits, PowerText, IsSign, Blank, Figure;
    PowerParts(w, m, x);
    LetterIsNoBlank(x);
    BlanksRead(w, m, e, x.before);
    var s := m + |x.before|;
    var t := s + 1 + |x.behind|;
    SignThenFigure(w, t, x);
    BlanksRead(w, s + 1, e, x.behind);
    SignedDigitsRead(w, t, e, x.sign, x.figures);
  }

  lemma LetterIsNoBlank(x: Power)
    requires x.Power? && IsPower(x)
    ensures !Blank(x.letter)
  {
  }

  lemma SignThenFigure(w: string, t: nat, x: Power)
    requires x.Power? && IsPower(x) && Holds(w, t, x.sign + x.figures)
    ensures t < |w| && !Blank(w[t]) && (x.sign == "" ==> w[t] != '+' && w[t] != '-')
  {
    var s := x.sign + x.figures;
    assert s[0] == if x.sign != "" then x.sign[0] else x.figures[0];
    HoldsAt(w, t, s, 0);
  }

  /** Behind the blanks from m to s no power of ten can be read. */
  ghost predicate NoPowerAt(w: string, m: nat, s: nat, e: nat) {
    && m <= s <= e <= |w| && (forall i :: m <= i < s ==> Blank(w[i])) && (s < e ==> !Blank(w[s]))
    && (s + 1 < e && (w[s] == 'e' || w[s] == 'E') ==>
          !Blank(w[s + 1]) && !Figure(w[s + 1]) && w[s + 1] != '+' && w[s + 1] != '-')
  }

  lemma NothingRead(w: string, m: nat, s: nat, e: nat)
    requires NoPowerAt(w, m, s, e)
    ensures Span(w, m, e, Ws) == s && Exponent(w, s, e).0 == 0
  {
    hide Span;
    SpanIs(w, m, e, Ws, s);
    if s < e && (w[s] == 'e' || w[s] == 'E') {
      SpanIs(w, s + 1, e, Ws, s + 1);
      SpanIs(w, s + 1, e, Digit, s + 1);
    }
  }

  /** The whole number is read, s being where white space behind it ends. */
  lemma NumeralRead(w: string, p: nat, e: nat, n: Numeral, s: nat)
    requires IsNumeral(n) && Holds(w, p, NumeralText(n))
    requires var q := p + |NumeralText(n)|;
             q <= s <= e <= |w| && DigitsStop(w, q, e, n.point || n.power.Power?)
             && (n.power.NoPower? ==> NoPowerAt(w, q, s, e))
    ensures DecimalEnd(w, p, e) == p + |NumeralText(n)| > p
  {
    hide Holds, Span, Figures, Mantissa, Exponent, IsPower, NoPowerAt, MantissaText, PowerText;
    var m := p + |MantissaText(n)|;
    HoldsSplit(w, p, NumeralText(n), MantissaText(n), PowerText(n.power));
    MantissaNotEmpty(n);
    if n.power.Power? {
      PowerStart(w, m, n.power);
      MantissaRead(w, p, e, n);
      PowerRead(w, m, m + |PowerText(n.power)|, e, n.power);
      PowerNotEmpty(n.power);
    } else {
      NoPowerText();
      MantissaRead(w, p, e, n);
      NothingRead(w, m, s, e);
    }
  }

  lemma MantissaNotEmpty(n: Numeral)
    requires IsNumeral(n)
    ensures |MantissaText(n)| > 0 && |n.whole| + |n.part| > 0
  {
  }

  lemma NoPowerText()
    ensures PowerText(NoPower) == ""
  {
  }

  lemma PowerNotEmpty(x: Power)
    requires x.Power? && IsPower(x)
    ensures |PowerText(x)| > 0 && |x.figures| > 0
  {
  }

  lemma PowerStart(w: string, m: nat, x: Power)
    requires x.Power? && IsPower(x) && Holds(w, m, PowerText(x))
    ensures m < |w| && !Figure(w[m]) && w[m] != '.'
  {
    var t := PowerText(x);
    assert t[0] == if x.before != "" then x.before[0] else x.letter;
    HoldsAt(w, m, t, 0);
  }

  // ---------- suffixes ----------

  /** A unit with its separator and its power, as in "/S2" or ".S-1". */
  datatype Part = Part(sep: string, letters: string, power: string)

  predicate IsPart(x: Part) {
    && x.letters != "" && Letters(x.letters)
    && (x.power == "" || (|x.power| == 1 && Figure(x.power[0]))
        || (|x.power| == 2 && x.power[0] == '-' && Figure(x.power[1])))
  }

  /** Units with a '/' or a '.' between them, and perhaps a '/' in front. */
  predicate IsSuffix(parts: seq<Part>) {
    && parts != [] && (parts[0].sep == "" || parts[0].sep == "/")
    && forall i :: 0 <= i < |parts| ==> IsPart(parts[i]) && (i > 0 ==> parts[i].sep == "/" || parts[i].sep == ".")
  }

  /** Units that go on with a suffix. */
  predicate IsTail(parts: seq<Part>) {
    forall i :: 0 <= i < |parts| ==> IsPart(parts[i]) && (parts[i].sep == "/" || parts[i].sep == ".")
  }

  function PartText(x: Part): string {
    x.sep + (x.letters + x.power)
  }

  function SuffixText(parts: seq<Part>): string {
    if parts == [] then "" else PartText(parts[0]) + SuffixText(parts[1..])
  }

  /** Nothing that could go on with a suffix stands at q. */
  predicate SuffixStops(w: string, q: nat, e: nat)
    requires e <= |w|
  {
    q < e ==> !Letter(w[q]) && !Figure(w[q]) && w[q] != '-' && w[q] != '/' && w[q] != '.'
  }

  lemma UnitRead(w: string, p: nat, e: nat, letters: string, power: string)
    requires IsPart(Part("", letters, power)) && Holds(w, p, letters + power)
    requires var q := p + |letters + power|;
             q <= e <= |w| && (q < e ==> !Letter(w[q]) && !Figure(w[q]) && w[q] != '-')
    ensures Span(w, p, e, Alpha) == p + |letters| > p
    ensures SuffixUnit(w, p + |letters|, e) == p + |letters + power|
  {
    hide Holds, Span, Letters;
    HoldsSplit(w, p, letters + power, letters, power);
    HeldChars(w, p + |letters|, power);
    if power != "" {
      assert w[p + |letters| + 0] == power[0];
      if |power| == 2 {
        assert w[p + |letters| + 1] == power[1];
      }
    }
    LettersRead(w, p, e, letters);
  }

  /** Behind a unit stands a separator, or what stops the suffix. */
  lemma TailStart(w: string, q: nat, e: nat, parts: seq<Part>)
    requires IsTail(parts) && Holds(w, q, SuffixText(parts)) && q + |SuffixText(parts)| <= e <= |w|
    requires SuffixStops(w, q + |SuffixText(parts)|, e)
    ensures q < e ==> !Letter(w[q]) && !Figure(w[q]) && w[q] != '-'
    ensures parts == [] ==> (q < e ==> w[q] != '/' && w[q] != '.')
  {
    if parts != [] {
      var t := SuffixText(parts);
      assert t[0] == parts[0].sep[0];
      HoldsAt(w, q, t, 0);
    }
  }

  lemma FirstPart(w: string, p: nat, parts: seq<Part>)
    requires parts != [] && Holds(w, p, SuffixText(parts))
    ensures var x := parts[0];
            && Holds(w, p, PartText(x)) && Holds(w, p, x.sep) && Holds(w, p + |x.sep|, x.letters + x.power)
            && Holds(w, p + |PartText(x)|, SuffixText(parts[1..]))
            && |SuffixText(parts)| == |PartText(x)| + |SuffixText(parts[1..])|
            && |PartText(x)| == |x.sep| + |x.letters + x.power|
  {
    hide Holds;
    var x := parts[0];
    HoldsSplit(w, p, SuffixText(parts), PartText(x), SuffixText(parts[1..]));
    HoldsSplit(w, p, PartText(x), x.sep, x.letters + x.power);
  }

  lemma {:induction false} TailRead(w: string, p: nat, e: nat, parts: seq<Part>)
    requires IsTail(parts) && Holds(w, p, SuffixText(parts)) && p + |SuffixText(parts)| <= e <= |w|
    requires SuffixStops(w, p + |SuffixText(parts)|, e)
    ensures SuffixTail(w, p, e) == p + |SuffixText(parts)|
    decreases |parts|
  {
    hide Holds, Span, SuffixUnit, SuffixTail, IsPart, SuffixStops, SuffixText, PartText, Letter, Figure;
    TailStart(w, p, e, parts);
    SuffixTailIs(w, p, e);
    NoParts();
    if parts != [] {
      var x := parts[0];
      FirstPart(w, p, parts);
      HoldsAt(w, p, x.sep, 0);
      TailStart(w, p + |PartText(x)|, e, parts[1..]);
      BarePart(x);
      UnitRead(w, p + 1, e, x.letters, x.power);
      TailRead(w, p + |PartText(x)|, e, parts[1..]);
    }
  }

  lemma BarePart(x: Part)
    ensures IsPart(x) <==> IsPart(Part("", x.letters, x.power))
  {
  }

  lemma SuffixRead(w: string, p: nat, e: nat, parts: seq<Part>)
    requires IsSuffix(parts) && Holds(w, p, SuffixText(parts)) && p + |SuffixText(parts)| <= e <= |w|
    requires SuffixStops(w, p + |SuffixText(parts)|, e)
    ensures SuffixEnd(w, p, e) == p + |SuffixText(parts)| > p
  {
    hide Holds, Span, SuffixUnit, SuffixTail, IsPart, SuffixStops, SuffixText, PartText, Letter, Figure, Skip;
    var x := parts[0];
    FirstPart(w, p, parts);
    TailOfSuffix(parts);
    TailStart(w, p + |PartText(x)|, e, parts[1..]);
    BarePart(x);
    UnitRead(w, p + |x.sep|, e, x.letters, x.power);
    SeparatorRead(w, p, e, x);
    TailRead(w, p + |PartText(x)|, e, parts[1..]);
  }

  lemma NoParts()
    ensures SuffixText([]) == ""
  {
  }

  lemma TailOfSuffix(parts: seq<Part>)
    requires IsSuffix(parts)
    ensures IsTail(parts[1..]) && IsPart(parts[0])
  {
    hide IsPart;
  }

  lemma SeparatorRead(w: string, p: nat, e: nat, x: Part)
    requires IsPart(x) && (x.sep == "" || x.sep == "/") && Holds(w, p, PartText(x)) && p + |PartText(x)| <= e <= |w|
    ensures Skip(w, p, e, '/') == p + |x.sep|
  {
    var t := PartText(x);
    assert t[0] == if x.sep == "" then x.letters[0] else '/';
    HoldsAt(w, p, t, 0);
  }
}
