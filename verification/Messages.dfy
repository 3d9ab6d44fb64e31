/** Program messages put together from their parts, and what SCPI_Parse makes of them
    (Utilities/Scpi/Src/parser.c, lines 182-235 and 1200-1333): headers and data come back as they
    were written. */
module Messages {
  import opened Lexer
  import opened LexerLaws
  import opened Framing
  import opened FramingLaws
  import opened Line
  import opened Grammar
  import opened DataGrammar
  import opened QuotedText
  import opened ArbitraryBlock
  import opened Resolution

  // ---------- data ----------

  datatype Item =
    | CharacterItem(name: string)
    | NumberItem(number: Numeral)
    | SuffixedItem(number: Numeral, gap: string, suffix: seq<Part>)
    | NondecimalItem(base: char, digits: string)
    | StringItem(text: string, quote: char)
    | BlockItem(payload: string)
    | ExpressionItem(body: string)

  predicate DigitOfBase(base: char, c: char) {
    match base
    case 'H' => Figure(c) || 'A' <= c <= 'F' || 'a' <= c <= 'f'
    case 'h' => Figure(c) || 'A' <= c <= 'F' || 'a' <= c <= 'f'
    case 'Q' => '0' <= c <= '7'
    case 'q' => '0' <= c <= '7'
    case 'B' => c == '0' || c == '1'
    case 'b' => c == '0' || c == '1'
    case _ => false
  }

  /** A printable character that neither a quote, a bracket, a semicolon nor a '#' is. */
  predicate Inner(c: char) {
    0x20 <= c as int <= 0x7e && c !in ['"', '#', '\'', '(', ')', ';']
  }

  /** The unit E with a power would pass for a power of ten. */
  predicate Ambiguous(n: Numeral, suffix: seq<Part>) {
    n.power.NoPower? && suffix != [] && suffix[0].sep == "" && suffix[0].power != ""
    && (suffix[0].letters == "E" || suffix[0].letters == "e")
  }

  predicate IsItem(x: Item) {
    match x
    case CharacterItem(name) => name != "" && Letter(name[0]) && forall i :: 0 <= i < |name| ==> WordChar(name[i])
    case NumberItem(n) => IsNumeral(n)
    case SuffixedItem(n, gap, suffix) => IsNumeral(n) && Blanks(gap) && IsSuffix(suffix) && !Ambiguous(n, suffix)
    case NondecimalItem(base, digits) => digits != "" && forall i :: 0 <= i < |digits| ==> DigitOfBase(base, digits[i])
    case StringItem(_, quote) => quote == '"' || quote == '\''
    case BlockItem(payload) => |payload| < 1000000000 && |LengthText(payload)| <= 9
    case ExpressionItem(body) => forall i :: 0 <= i < |body| ==> Inner(body[i])
  }

  function ItemText(x: Item): (s: string)
    requires IsItem(x)
  {
    match x
    case CharacterItem(name) => name
    case NumberItem(n) => NumeralText(n)
    case SuffixedItem(n, gap, suffix) => NumeralText(n) + (gap + SuffixText(suffix))
    case NondecimalItem(base, digits) => ['#', base] + digits
    case StringItem(text, quote) => Quote(text, quote)
    case BlockItem(payload) => BlockText(payload)
    case ExpressionItem(body) => "(" + (body + ")")
  }

  function BaseKind(base: char): Kind {
    if base == 'H' || base == 'h' then HexNum else if base == 'Q' || base == 'q' then OctNum else BinNum
  }

  /** The token of a datum that starts at p: without '#' and base letter, without the head of a
      block, and otherwise all of it. */
  function ItemToken(x: Item, p: nat): Token
    requires IsItem(x)
  {
    match x
    case CharacterItem(_) => Token(Mnemonic, p, |ItemText(x)|)
    case NumberItem(_) => Token(Decimal, p, |ItemText(x)|)
    case SuffixedItem(_, _, _) => Token(DecimalWithSuffix, p, |ItemText(x)|)
    case NondecimalItem(base, digits) => Token(BaseKind(base), p + 2, |digits|)
    case StringItem(_, quote) => Token(if quote == '"' then DoubleQuote else SingleQuote, p, |ItemText(x)|)
    case BlockItem(payload) => Token(BlockData, p + 2 + |LengthText(payload)|, |payload|)
    case ExpressionItem(_) => Token(ExpressionData, p, |ItemText(x)|)
  }

  /** What stands behind a datum: the end, a comma, a semicolon or a line terminator. */
  predicate Delimited(w: string, q: nat, e: nat)
    requires e <= |w|
  {
    q < e ==> w[q] == ',' || w[q] == ';' || LineEnd(w[q])
  }

  /** So it is nothing that could go on with it. */
  lemma DelimiterStops(w: string, q: nat, e: nat)
    requires q <= e <= |w| && Delimited(w, q, e)
    ensures DigitsStop(w, q, e, false) && DigitsStop(w, q, e, true) && SuffixStops(w, q, e) && NoPowerAt(w, q, q, e)
    ensures q < e ==> !WordChar(w[q]) && !Blank(w[q]) && !IsQuote(w[q])
    ensures q < e ==> !Is(w[q], Hex) && !Is(w[q], Oct) && !Is(w[q], Bin)
  {
  }

  // ---------- one datum ----------

  /** White space neither in front of the datum nor behind it. */
  lemma Bare(w: string, p: nat, e: nat, d: Datum)
    requires p < e <= |w| && !Blank(w[p]) && BareDatum(w, p, e) == d && Delimited(w, d.pos, e)
    ensures ProgramData(w, p, e) == d
  {
    hide BareDatum, Span, NoPowerAt, DigitsStop, SuffixStops;
    CharactersAgree(w[p]);
    SpanIs(w, p, e, Ws, p);
    DelimiterStops(w, d.pos, e);
    if d.pos < e {
      CharactersAgree(w[d.pos]);
    }
    SpanIs(w, d.pos, e, Ws, d.pos);
  }

  lemma NoNondecimal(w: string, p: nat, e: nat)
    requires p < e <= |w| && w[p] != '#'
    ensures NondecimalData(w, p, e).pos == p
  {
    hide Span;
  }

  lemma NoCharacter(w: string, p: nat, e: nat)
    requires p < e <= |w| && !Letter(w[p])
    ensures CharacterData(w, p, e).pos == p
  {
    hide Span;
  }

  lemma NoNumber(w: string, p: nat, e: nat)
    requires p < e <= |w| && !Figure(w[p]) && w[p] != '+' && w[p] != '-' && w[p] != '.'
    ensures Number(w, p, e).counted == 0
  {
    hide Span, Exponent;
    IsDigitIs(w[p]);
    SpanIs(w, p, e, Digit, p);
  }

  lemma CharacterReads(w: string, p: nat, e: nat, x: Item)
    requires x.CharacterItem? && IsItem(x) && Holds(w, p, x.name)
    requires p + |x.name| <= e <= |w| && Delimited(w, p + |x.name|, e)
    ensures ProgramData(w, p, e) == Datum(Token(Mnemonic, p, |x.name|), p + |x.name|, |x.name|)
  {
    hide Holds, Span, Is, ProgramData, NoPowerAt, DigitsStop, SuffixStops, WordChar;
    HeldChars(w, p, x.name);
    var q := p + |x.name|;
    DelimiterStops(w, q, e);
    assert w[p + 0] == x.name[0];
    FirstOfName(w[p]);
    forall i | p + 1 <= i < q ensures Is(w[i], Word) {
      assert w[p + (i - p)] == x.name[i - p];
      CharactersAgree(w[i]);
    }
    if q < e {
      CharactersAgree(w[q]);
    }
    SpanIs(w, p + 1, e, Word, q);
    NoNondecimal(w, p, e);
    Bare(w, p, e, Datum(Token(Mnemonic, p, |x.name|), q, |x.name|));
  }

  lemma FirstOfName(c: char)
    requires Letter(c)
    ensures c != '#' && !Blank(c) && IsAlpha(c)
  {
  }

  lemma FirstOfNumber(w: string, p: nat, n: Numeral)
    requires IsNumeral(n) && Holds(w, p, NumeralText(n))
    ensures p < |w| && (Figure(w[p]) || w[p] == '+' || w[p] == '-' || w[p] == '.')
  {
    hide PowerText, IsPower, Holds;
    var t := NumeralText(n);
    assert t[0] == MantissaText(n)[0];
    assert MantissaText(n)[0] == if n.sign != "" then n.sign[0] else UnsignedText(n)[0];
    assert UnsignedText(n)[0] == if n.whole != "" then n.whole[0] else '.';
    HeldChars(w, p, t);
    assert w[p + 0] == t[0];
  }

  lemma NumberFirst(w: string, p: nat, e: nat)
    requires p < e <= |w| && (Figure(w[p]) || w[p] == '+' || w[p] == '-' || w[p] == '.')
    ensures !Blank(w[p]) && NondecimalData(w, p, e).pos == p && CharacterData(w, p, e).pos == p
  {
    NoNondecimal(w, p, e);
    NoCharacter(w, p, e);
    hide NondecimalData, CharacterData;
  }

  lemma NumberReads(w: string, p: nat, e: nat, n: Numeral)
    requires IsNumeral(n) && Holds(w, p, NumeralText(n))
    requires var q := p + |NumeralText(n)|; q <= e <= |w| && Delimited(w, q, e)
    ensures var t := NumeralText(n);
            ProgramData(w, p, e) == Datum(Token(Decimal, p, |t|), p + |t|, |t|)
  {
    hide Holds, ProgramData, DecimalEnd, IsNumeral, NoPowerAt, DigitsStop, SuffixStops, NondecimalData, CharacterData,
         NumeralText;
    var t := NumeralText(n);
    var q := p + |t|;
    DelimiterStops(w, q, e);
    NumeralRead(w, p, e, n, q);
    NoSuffix(w, q, e);
    FirstOfNumber(w, p, n);
    NumberFirst(w, p, e);
    Bare(w, p, e, Datum(Token(Decimal, p, |t|), q, |t|));
  }

  lemma NoSuffix(w: string, q: nat, e: nat)
    requires q <= e <= |w| && Delimited(w, q, e)
    ensures Span(w, q, e, Ws) == q && SuffixEnd(w, q, e) == q
  {
    hide Span;
    SpanIs(w, q, e, Ws, q);
    SpanIs(w, q, e, Alpha, q);
  }

  lemma SuffixedReads(w: string, p: nat, e: nat, x: Item)
    requires x.SuffixedItem? && IsItem(x) && Holds(w, p, ItemText(x))
    requires var q := p + |ItemText(x)|; q <= e <= |w| && Delimited(w, q, e)
    ensures var t := ItemText(x);
            ProgramData(w, p, e) == Datum(Token(DecimalWithSuffix, p, |t|), p + |t|, |t|)
  {
    hide Holds, ProgramData, IsNumeral, NoPowerAt, DigitsStop, SuffixStops, NondecimalData, CharacterData, Number,
         NumeralText, SuffixText, IsSuffix, Span, Blanks, Ambiguous, Delimited;
    var n, t := x.number, ItemText(x);
    SuffixedNumber(w, p, p + |t|, e, x);
    HoldsSplit(w, p, t, NumeralText(n), x.gap + SuffixText(x.suffix));
    FirstOfNumber(w, p, n);
    NumberFirst(w, p, e);
    Bare(w, p, e, Datum(Token(DecimalWithSuffix, p, |t|), p + |t|, |t|));
  }

  lemma SuffixedNumber(w: string, p: nat, q: nat, e: nat, x: Item)
    requires x.SuffixedItem? && IsItem(x) && Holds(w, p, ItemText(x))
    requires q == p + |ItemText(x)| <= e <= |w| && Delimited(w, q, e)
    ensures p < q && Number(w, p, e) == Datum(Token(DecimalWithSuffix, p, q - p), q, q - p)
  {
    hide Holds, DecimalEnd, IsNumeral, NoPowerAt, DigitsStop, SuffixStops, NumeralText, SuffixText, IsSuffix, Span,
         SuffixEnd, Blanks, Ambiguous, Delimited;
    var n := x.number;
    var tail := x.gap + SuffixText(x.suffix);
    HoldsSplit(w, p, ItemText(x), NumeralText(n), tail);
    var m := p + |NumeralText(n)|;
    HoldsSplit(w, m, tail, x.gap, SuffixText(x.suffix));
    DelimiterStops(w, q, e);
    GapStops(w, m, m + |x.gap|, e, x);
    NumeralRead(w, p, e, n, m + |x.gap|);
    SuffixRead(w, m + |x.gap|, e, x.suffix);
  }

  /** How a suffix begins: not like a power of ten, unless it is ambiguous. */
  lemma SuffixStart(w: string, s: nat, e: nat, suffix: seq<Part>)
    requires IsSuffix(suffix) && Holds(w, s, SuffixText(suffix))
    requires var q := s + |SuffixText(suffix)|; q <= e <= |w| && Delimited(w, q, e)
    ensures s < e && (Letter(w[s]) || w[s] == '/')
    ensures (w[s] == 'e' || w[s] == 'E') && !Ambiguous(Numeral("", "", false, "", NoPower), suffix) && s + 1 < e ==>
              !Blank(w[s + 1]) && !Figure(w[s + 1]) && w[s + 1] != '+' && w[s + 1] != '-'
  {
    hide Holds, IsPart, SuffixText, PartText, Letters;
    var x := suffix[0];
    FirstPart(w, s, suffix);
    TailOfSuffix(suffix);
    PartStart(x);
    HoldsAt(w, s, PartText(x), 0);
    if x.sep == "" && |x.letters| > 1 {
      HoldsAt(w, s, x.letters + x.power, 1);
    } else if x.sep == "" && x.power == "" {
      assert x.letters + x.power == x.letters;
      DelimiterStops(w, s + |SuffixText(suffix)|, e);
      TailStart(w, s + 1, e, suffix[1..]);
      SecondPart(w, s + 1, suffix[1..]);
    } else if x.sep == "" && (x.letters[0] == 'e' || x.letters[0] == 'E') {
      OneLetterText(x);
    }
  }

  lemma PartStart(x: Part)
    requires IsPart(x) && (x.sep == "" || x.sep == "/")
    ensures x.letters != "" && PartText(x) != "" && PartText(x)[0] == if x.sep == "" then x.letters[0] else '/'
    ensures Letter(x.letters[0]) && (|x.letters| > 1 ==> Letter(x.letters[1]))
  {
  }

  lemma OneLetterText(x: Part)
    requires IsPart(x) && |x.letters| == 1 && (x.letters[0] == 'e' || x.letters[0] == 'E')
    ensures x.letters == "E" || x.letters == "e"
  {
  }

  lemma SecondPart(w: string, q: nat, parts: seq<Part>)
    requires IsTail(parts) && Holds(w, q, SuffixText(parts))
    ensures parts != [] ==> q < |w| && (w[q] == '/' || w[q] == '.')
    ensures parts == [] ==> SuffixText(parts) == ""
  {
    if parts != [] {
      assert SuffixText(parts)[0] == parts[0].sep[0];
      HoldsAt(w, q, SuffixText(parts), 0);
    }
  }

  lemma GapStops(w: string, m: nat, s: nat, e: nat, x: Item)
    requires x.SuffixedItem? && IsItem(x) && s == m + |x.gap| && Holds(w, m, x.gap) && Holds(w, s, SuffixText(x.suffix))
    requires var q := s + |SuffixText(x.suffix)|; q <= e <= |w| && Delimited(w, q, e)
    ensures s <= e && Span(w, m, e, Ws) == s
    ensures DigitsStop(w, m, e, x.number.point || x.number.power.Power?)
    ensures x.number.power.NoPower? ==> NoPowerAt(w, m, s, e)
  {
    hide Holds, IsSuffix, SuffixText, IsNumeral, Span, Letter;
    SuffixStart(w, s, e, x.suffix);
    NoBlankLetter(w[s]);
    BlanksRead(w, m, e, x.gap);
    HeldChars(w, m, x.gap);
    forall i | m <= i < s ensures Blank(w[i]) {
      assert w[m + (i - m)] == x.gap[i - m];
    }
    assert Ambiguous(x.number, x.suffix) <==>
             x.number.power.NoPower? && Ambiguous(Numeral("", "", false, "", NoPower), x.suffix);
  }

  lemma NoBlankLetter(c: char)
    requires Letter(c) || c == '/'
    ensures !Blank(c) && !Figure(c) && c != '.'
  {
  }

  lemma BaseIs(base: char)
    requires base in {'H', 'h', 'Q', 'q', 'B', 'b'}
    ensures IsBase(base) && BaseOf(base).1 == BaseKind(base)
    ensures forall c :: DigitOfBase(base, c) <==> Is(c, BaseOf(base).0)
  {
  }

  lemma BaseLetter(base: char, c: char)
    requires DigitOfBase(base, c)
    ensures base in {'H', 'h', 'Q', 'q', 'B', 'b'}
  {
  }

  lemma NondecimalReads(w: string, p: nat, e: nat, base: char, digits: string)
    requires digits != "" && (forall i :: 0 <= i < |digits| ==> DigitOfBase(base, digits[i]))
    requires Holds(w, p, ['#', base] + digits)
    requires var q := p + 2 + |digits|; q <= e <= |w| && Delimited(w, q, e)
    ensures var q := p + 2 + |digits|;
            ProgramData(w, p, e) == Datum(Token(BaseKind(base), p + 2, |digits|), q, q - p)
  {
    hide Holds, ProgramData, NoPowerAt, DigitsStop, SuffixStops, DigitOfBase, Is, Span, CharacterData, Number, Quoted;
    var t := ['#', base] + digits;
    HeldChars(w, p, t);
    assert w[p + 0] == t[0] == '#' && w[p + 1] == t[1] == base;
    var q := p + 2 + |digits|;
    BaseLetter(base, digits[0]);
    BaseIs(base);
    DelimiterStops(w, q, e);
    forall i | p + 2 <= i < q ensures Is(w[i], BaseOf(base).0) {
      assert w[p + (i - p)] == t[i - p] == digits[i - p - 2];
    }
    ClassOfBase(base);
    SpanIs(w, p + 2, e, BaseOf(base).0, q);
    Bare(w, p, e, Datum(Token(BaseKind(base), p + 2, |digits|), q, q - p));
  }

  lemma ClassOfBase(base: char)
    ensures BaseOf(base).0 in {Hex, Oct, Bin}
  {
  }

  lemma StringReads(w: string, p: nat, e: nat, text: string, quote: char)
    requires (quote == '"' || quote == '\'') && Holds(w, p, Quote(text, quote))
    requires var q := p + |Quote(text, quote)|; q <= e <= |w| && Delimited(w, q, e)
    ensures var n := |Quote(text, quote)|;
            ProgramData(w, p, e) == Datum(Token(if quote == '"' then DoubleQuote else SingleQuote, p, n), p + n, n)
  {
    hide Holds, ProgramData, NoPowerAt, DigitsStop, SuffixStops, QuoteEnd, Doubled, NondecimalData, CharacterData,
         Number;
    var t, d := Quote(text, quote), Doubled(text, quote);
    var q := p + |t|;
    assert t == [quote] + (d + [quote]);
    HoldsSplit(w, p, t, [quote], d + [quote]);
    HoldsAt(w, p, [quote], 0);
    DelimiterStops(w, q, e);
    QuoteEndOfDoubled(w, p + 1, e, text, quote);
    NoNondecimal(w, p, e);
    NoCharacter(w, p, e);
    NoNumber(w, p, e);
    Bare(w, p, e, Datum(Token(if quote == '"' then DoubleQuote else SingleQuote, p, |t|), q, |t|));
  }

  lemma BlockReads(w: string, p: nat, e: nat, payload: string)
    requires |payload| < 1000000000 && |LengthText(payload)| <= 9 && Holds(w, p, BlockText(payload))
    requires var q := p + |BlockText(payload)|; q <= e <= |w| && Delimited(w, q, e)
    ensures var n := |BlockText(payload)|;
            ProgramData(w, p, e) == Datum(Token(BlockData, p + 2 + |LengthText(payload)|, |payload|), p + n, n)
  {
    hide Holds, ProgramData, NoPowerAt, DigitsStop, SuffixStops, Block, NondecimalData, CharacterData, Number,
         LengthText;
    var t := BlockText(payload);
    HeldChars(w, p, t);
    assert w[p + 0] == t[0] == '#';
    LengthReads(payload);
    HeaderDigit(|LengthText(payload)|);
    assert w[p + 1] == t[1];
    BlockRoundTrip(w, p, e, payload);
    NoBase(w, p, e);
    NoCharacter(w, p, e);
    NoNumber(w, p, e);
    assert StringData(w, p, e) == Lexed(NoToken(p), p);
    Bare(w, p, e, Datum(Token(BlockData, p + |t| - |payload|, |payload|), p + |t|, |t|));
  }

  lemma NoBase(w: string, p: nat, e: nat)
    requires p + 1 < e <= |w| && IsDigit(w[p + 1])
    ensures NondecimalData(w, p, e).pos == p
  {
    hide Span;
  }

  lemma ExpressionReads(w: string, p: nat, e: nat, body: string)
    requires (forall i :: 0 <= i < |body| ==> Inner(body[i])) && Holds(w, p, "(" + (body + ")"))
    requires var q := p + |body| + 2; q <= e <= |w| && Delimited(w, q, e)
    ensures var n := |body| + 2;
            ProgramData(w, p, e) == Datum(Token(ExpressionData, p, n), p + n, n)
  {
    hide Holds, ProgramData, NoPowerAt, DigitsStop, SuffixStops, NondecimalData, CharacterData, Number, Span, Is, Inner;
    HoldsSplit(w, p, "(" + (body + ")"), "(", body + ")");
    HoldsSplit(w, p + 1, body + ")", body, ")");
    HoldsAt(w, p, "(", 0);
    var z := p + 1 + |body|;
    HoldsAt(w, z, ")", 0);
    HeldChars(w, p + 1, body);
    forall i | p + 1 <= i < z ensures Is(w[i], Expr) {
      assert w[p + 1 + (i - p - 1)] == body[i - p - 1];
      InnerIs(w[i]);
    }
    InnerIs(w[z]);
    SpanIs(w, p + 1, e, Expr, z);
    NoNondecimal(w, p, e);
    NoCharacter(w, p, e);
    NoNumber(w, p, e);
    assert StringData(w, p, e) == Lexed(NoToken(p), p) && Block(w, p, e) == Lexed(NoToken(p), p);
    Bare(w, p, e, Datum(Token(ExpressionData, p, |body| + 2), z + 1, |body| + 2));
  }

  lemma InnerIs(c: char)
    ensures Is(c, Expr) <==> Inner(c)
    ensures !Inner(')')
  {
  }

  // ---------- data that break off ----------

  /** A string without its closing quote is no string. */
  lemma {:induction false} OpenString(w: string, p: nat, e: nat, quote: char)
    requires IsQuote(quote) && p < e <= |w| && w[p] == quote && forall i :: p < i < e ==> w[i] != quote
    ensures StringData(w, p, e) == Lexed(NoToken(p), p)
  {
    assert QuoteEnd(w, p + 1, e, quote) == e;
    hide QuoteEnd;
  }

  /** Nor is an expression without its closing parenthesis an expression. */
  lemma OpenExpression(w: string, p: nat, q: nat, e: nat)
    requires p < q <= e <= |w| && w[p] == '(' && (forall i :: p < i < q ==> Inner(w[i]))
    requires q < e ==> !Inner(w[q]) && w[q] != ')'
    ensures Expression(w, p, e) == Lexed(NoToken(p), p)
  {
    hide Inner, Is, Span;
    forall i | p + 1 <= i < q ensures Is(w[i], Expr) {
      InnerIs(w[i]);
    }
    if q < e {
      InnerIs(w[q]);
    }
    SpanIs(w, p + 1, e, Expr, q);
  }

  /** Nor is the prefix of a non-decimal number without a digit behind it a number. */
  lemma NoDigitBehind(w: string, p: nat, e: nat)
    requires p + 1 < e <= |w| && w[p] == '#' && w[p + 1] in {'H', 'h', 'Q', 'q', 'B', 'b'}
    requires p + 2 < e ==> !DigitOfBase(w[p + 1], w[p + 2])
    ensures NondecimalData(w, p, e) == Lexed(NoToken(p), p)
  {
    hide DigitOfBase, Is;
    BaseIs(w[p + 1]);
  }

  // ---------- any datum ----------

  /** A datum in front of a separator is one token, which is all of it, and the length counted is
      its length. */
  lemma ItemReads(w: string, p: nat, e: nat, x: Item)
    requires IsItem(x) && Holds(w, p, ItemText(x))
    requires var q := p + |ItemText(x)|; q <= e <= |w| && Delimited(w, q, e)
    ensures var n := |ItemText(x)|;
            n > 0 && ProgramData(w, p, e) == Datum(ItemToken(x, p), p + n, n) && ItemToken(x, p).kind != Unknown
  {
    hide Holds, ProgramData, IsNumeral, NumeralText, Quote, BlockText, DigitOfBase, Inner, Delimited, IsSuffix,
         SuffixText, Blanks, Ambiguous, LengthText;
    match x
    case CharacterItem(name) => CharacterReads(w, p, e, x);
    case NumberItem(n) => NumberReads(w, p, e, n);
    case SuffixedItem(_, _, _) => SuffixedReads(w, p, e, x);
    case NondecimalItem(base, digits) => NondecimalReads(w, p, e, base, digits);
    case StringItem(text, quote) => StringReads(w, p, e, text, quote);
    case BlockItem(payload) => BlockReads(w, p, e, payload);
    case ExpressionItem(body) => ExpressionReads(w, p, e, body);
  }

  // ---------- a list of data ----------

  predicate AreItems(items: seq<Item>) {
    forall i :: 0 <= i < |items| ==> IsItem(items[i])
  }

  function ListText(items: seq<Item>): string
    requires AreItems(items)
  {
    if items == [] then ""
    else if |items| == 1 then ItemText(items[0])
    else ItemText(items[0]) + ("," + ListText(items[1..]))
  }

  /** The data of a list that starts at p. */
  function ItemData(items: seq<Item>, p: nat): (s: seq<Datum>)
    requires AreItems(items)
    ensures |s| == |items|
  {
    if items == [] then []
    else
      var n := |ItemText(items[0])|;
      [Datum(ItemToken(items[0], p), p + n, n)] + ItemData(items[1..], p + n + 1)
  }

  /** What stands behind a unit: a semicolon or a line terminator. */
  predicate Terminated(w: string, q: nat, e: nat)
    requires e <= |w|
  {
    q < e && (w[q] == ';' || LineEnd(w[q]))
  }

  lemma ListParts(w: string, p: nat, items: seq<Item>)
    requires |items| > 1 && AreItems(items) && Holds(w, p, ListText(items))
    ensures var n := |ItemText(items[0])|;
            && Holds(w, p, ItemText(items[0])) && p + n < |w| && w[p + n] == ','
            && Holds(w, p + n + 1, ListText(items[1..])) && |ListText(items)| == n + 1 + |ListText(items[1..])|
  {
    hide Holds, IsItem, ItemText;
    var first, rest := ItemText(items[0]), ListText(items[1..]);
    HoldsSplit(w, p, ListText(items), first, "," + rest);
    HoldsSplit(w, p + |first|, "," + rest, ",", rest);
    HeldChars(w, p + |first|, ",");
    assert w[p + |first| + 0] == ","[0];
  }

  lemma OneItem(items: seq<Item>, p: nat)
    requires |items| == 1 && AreItems(items)
    ensures var n := |ItemText(items[0])|;
            && ListText(items) == ItemText(items[0]) && ItemData(items, p) == [Datum(ItemToken(items[0], p), p + n, n)]
  {
    hide IsItem, ItemText, ItemToken;
    assert items[1..] == [];
  }

  lemma CountedCons(d: Datum, rest: seq<Datum>)
    ensures CountedLength([d] + rest) == d.counted + (if rest == [] then 0 else 1) + CountedLength(rest)
    ensures CountedLength([d]) == d.counted
  {
    assert ([d] + rest)[1..] == rest && [d][1..] == [];
  }

  lemma {:induction false} ListReads(w: string, p: nat, e: nat, items: seq<Item>)
    requires items != [] && AreItems(items) && Holds(w, p, ListText(items))
    requires var q := p + |ListText(items)|; q <= e <= |w| && Terminated(w, q, e)
    ensures AllProgramData(w, p, e) == DataList(true, ItemData(items, p), p + |ListText(items)|)
    ensures CountedLength(ItemData(items, p)) == |ListText(items)| > 0
    decreases |items|
  {
    hide Holds, ProgramData, IsItem, ItemText, ItemToken, AllProgramData, ListText, CountedLength, LineEnd;
    var x := items[0];
    var n := |ItemText(x)|;
    ListUnfold(w, p, e);
    if |items| == 1 {
      OneItem(items, p);
      NoComma();
      ItemReads(w, p, e, x);
      var d := Datum(ItemToken(x, p), p + n, n);
      CountedCons(d, []);
    } else {
      ListParts(w, p, items);
      ItemReads(w, p, e, x);
      ListReads(w, p + n + 1, e, items[1..]);
      CountedCons(Datum(ItemToken(x, p), p + n, n), ItemData(items[1..], p + n + 1));
    }
  }

  lemma NoComma()
    ensures !LineEnd(',')
  {
  }

  // ---------- a unit ----------

  /** White space, a header, white space, data. */
  datatype Phrase = Phrase(lead: string, header: HeaderText, gap: string, items: seq<Item>)

  predicate IsMessageUnit(u: Phrase) {
    && Blanks(u.lead) && IsHeader(u.header) && Blanks(u.gap) && AreItems(u.items)
    && (u.items != [] ==> u.gap != "")
  }

  function BodyText(u: Phrase): string
    requires IsMessageUnit(u)
  {
    Spelled(u.header) + (u.gap + ListText(u.items))
  }

  function UnitText(u: Phrase): string
    requires IsMessageUnit(u)
  {
    u.lead + BodyText(u)
  }

  /** The body of a unit that starts at p. */
  function UnitRead(u: Phrase, p: nat): Body
    requires IsMessageUnit(u)
  {
    var h := p + |u.lead|;
    var s := h + |Spelled(u.header)| + |u.gap|;
    var n := |ListText(u.items)|;
    Body(Token(KindOf(u.header), h, |Spelled(u.header)|),
         if u.items == [] then NoToken(s) else Token(AllData, s, n),
         if u.items != [] then |u.items| else if u.gap == "" then 0 else -1,
         s + n)
  }

  lemma ItemFirst(x: Item)
    requires IsItem(x)
    ensures ItemText(x) != "" && !Blank(ItemText(x)[0])
  {
    hide IsPower, PowerText, SuffixText, Doubled, LengthText, IsSuffix;
    match x
    case CharacterItem(_) =>
    case NumberItem(n) => NumeralFirst(n);
    case SuffixedItem(n, gap, suffix) =>
      NumeralFirst(n);
      assert ItemText(x)[0] == NumeralText(n)[0];
    case NondecimalItem(_, _) =>
    case StringItem(_, _) =>
    case BlockItem(_) =>
    case ExpressionItem(_) =>
  }

  lemma NumeralFirst(n: Numeral)
    requires IsNumeral(n)
    ensures NumeralText(n) != "" && !Blank(NumeralText(n)[0])
  {
    hide IsPower, PowerText;
    assert UnsignedText(n)[0] == if n.whole != "" then n.whole[0] else '.';
    assert MantissaText(n)[0] == if n.sign != "" then n.sign[0] else UnsignedText(n)[0];
    assert NumeralText(n)[0] == MantissaText(n)[0];
  }

  lemma ListFirst(items: seq<Item>)
    requires items != [] && AreItems(items)
    ensures ListText(items) != "" && !Blank(ListText(items)[0])
  {
    hide IsItem, ItemText, Blank;
    ItemFirst(items[0]);
    if |items| > 1 {
      assert ListText(items)[0] == ItemText(items[0])[0];
    }
  }

  lemma FirstHeld(w: string, p: nat, s: string)
    requires s != "" && Holds(w, p, s)
    ensures p < |w| && w[p] == s[0]
  {
    HeldChars(w, p, s);
    assert w[p + 0] == s[0];
  }

  /** What stands behind header and white space of a unit. */
  lemma BehindHeader(w: string, g: nat, s: nat, e: nat, gap: string, items: seq<Item>)
    requires Blanks(gap) && AreItems(items) && (items != [] ==> gap != "")
    requires Holds(w, g, gap) && Holds(w, s, ListText(items)) && s == g + |gap|
    requires var q := s + |ListText(items)|; q <= e <= |w| && Terminated(w, q, e)
    ensures HeaderStops(w, g, e) && s < e && !Blank(w[s])
  {
    hide Holds, AreItems, ListText;
    NoList();
    if items != [] {
      ListFirst(items);
      FirstHeld(w, s, ListText(items));
    }
    if gap != "" {
      FirstHeld(w, g, gap);
    }
  }

  lemma NoList()
    ensures ListText([]) == ""
  {
  }

  lemma NothingReads(w: string, s: nat, e: nat)
    requires e <= |w| && Terminated(w, s, e)
    ensures AllProgramData(w, s, e) == DataList(false, [], s)
  {
    hide Span, NondecimalData, CharacterData, Number;
    NoNondecimal(w, s, e);
    NoCharacter(w, s, e);
    NoNumber(w, s, e);
    assert StringData(w, s, e) == Lexed(NoToken(s), s) && Block(w, s, e) == Lexed(NoToken(s), s);
    assert Expression(w, s, e) == Lexed(NoToken(s), s);
    hide StringData, Block, Expression;
    assert BareDatum(w, s, e) == Datum(NoToken(s), s, 0);
    hide BareDatum;
    SpanIs(w, s, e, Ws, s);
    assert ProgramData(w, s, e) == Datum(NoToken(s), s, 0);
    hide ProgramData;
  }

  /** The data behind a header that ends at g. */
  lemma DataReads(w: string, g: nat, e: nat, gap: string, items: seq<Item>)
    requires Blanks(gap) && AreItems(items) && (items != [] ==> gap != "")
    requires Holds(w, g, gap) && Holds(w, g + |gap|, ListText(items))
    requires var q := g + |gap| + |ListText(items)|; q <= e <= |w| && Terminated(w, q, e)
    ensures var s, n := g + |gap|, |ListText(items)|;
            DataPart(w, g, e)
            == if items != [] then DataField(Token(AllData, s, n), |items|, s + n)
               else DataField(NoToken(s), if gap == "" then 0 else -1, s)
  {
    hide Holds, Span, AllProgramData, CountedLength, AreItems, Blanks, Terminated, ListText;
    var s := g + |gap|;
    BehindHeader(w, g, s, e, gap, items);
    BlanksRead(w, g, e, gap);
    NoList();
    if items != [] {
      ListReads(w, s, e, items);
    } else {
      NothingReads(w, s, e);
    }
  }

  lemma PhraseParts(w: string, p: nat, u: Phrase)
    requires IsMessageUnit(u) && Holds(w, p, UnitText(u))
    ensures var h := p + |u.lead|;
            var g := h + |Spelled(u.header)|;
            && Holds(w, p, u.lead) && Holds(w, h, Spelled(u.header)) && Holds(w, g, u.gap)
            && Holds(w, g + |u.gap|, ListText(u.items)) && p + |UnitText(u)| == g + |u.gap| + |ListText(u.items)| <= |w|
  {
    hide Holds, ListText, Spelled;
    var head, tail := Spelled(u.header), u.gap + ListText(u.items);
    HoldsSplit(w, p, UnitText(u), u.lead, head + tail);
    HoldsSplit(w, p + |u.lead|, head + tail, head, tail);
    HoldsSplit(w, p + |u.lead| + |head|, tail, u.gap, ListText(u.items));
  }

  /** Header and data are what was written; white space without data behind it counts -1. */
  lemma {:induction false} BodyReads(w: string, p: nat, e: nat, u: Phrase)
    requires IsMessageUnit(u) && Holds(w, p, UnitText(u))
    requires var q := p + |UnitText(u)|; q <= e <= |w| && Terminated(w, q, e)
    ensures UnitBody(w, p, e) == UnitRead(u, p) && UnitRead(u, p).pos == p + |UnitText(u)|
  {
    hide Holds, Span, Header, DataPart, IsHeader, AreItems, Blanks, Terminated, ListText, UnitText, Spelled, KindOf,
         HeaderStops;
    PhraseParts(w, p, u);
    var h := p + |u.lead|;
    var g := h + |Spelled(u.header)|;
    NoList();
    BehindHeader(w, g, g + |u.gap|, e, u.gap, u.items);
    HeaderStart(w, h, u.header);
    BlanksRead(w, p, e, u.lead);
    HeaderRead(w, h, e, u.header);
    DataReads(w, g, e, u.gap, u.items);
  }

  // ---------- a message ----------

  predicate AreUnits(units: seq<Phrase>) {
    forall i :: 0 <= i < |units| ==> IsMessageUnit(units[i])
  }

  /** The three line terminators. */
  predicate IsTerminator(t: string) {
    t == "\n" || t == "\r" || t == "\r\n"
  }

  function MessageText(units: seq<Phrase>): string
    requires AreUnits(units)
  {
    if units == [] then ""
    else if |units| == 1 then UnitText(units[0])
    else UnitText(units[0]) + (";" + MessageText(units[1..]))
  }

  /** What the units of a message call for behind a header: each header resolved, with its data. */
  function Called(units: seq<Phrase>, prev: string): seq<Event>
    requires AreUnits(units)
    decreases |units|
  {
    if units == [] then []
    else
      var header := Resolve(prev, Spelled(units[0].header));
      [Command(header, ListText(units[0].items))] + Called(units[1..], header)
  }

  /** The unit at p that ends at the position end with the given terminator. */
  predicate IsUnitOf(v: Unit, u: Phrase, p: nat, term: Termination, end: nat)
    requires IsMessageUnit(u)
  {
    var b := UnitRead(u, p);
    v == Unit(b.header, b.data, b.parameters, term, end)
  }

  /** A unit in front of a semicolon, and in front of a line terminator. */
  lemma UnitReads(w: string, p: nat, e: nat, u: Phrase)
    requires IsMessageUnit(u) && Holds(w, p, UnitText(u))
    requires var q := p + |UnitText(u)|; q <= e <= |w| && Terminated(w, q, e)
    ensures var q := p + |UnitText(u)|;
            && (w[q] == ';' ==> IsUnitOf(DetectUnit(w, p, e), u, p, SemicolonTermination, q + 1))
            && (LineEnd(w[q]) ==> IsUnitOf(DetectUnit(w, p, e), u, p, NlTermination, NewLineEnd(w, q, e)))
  {
    hide Holds, UnitBody, UnitRead, UnitText;
    BodyReads(w, p, e, u);
  }

  lemma UnitTexts(w: string, p: nat, u: Phrase)
    requires IsMessageUnit(u) && Holds(w, p, UnitText(u))
    ensures var b := UnitRead(u, p);
            && b.header.len > 0 && b.header.kind != Invalid && b.header.kind != Unknown
            && DataText(w, b.header) == Spelled(u.header) && DataText(w, b.data) == ListText(u.items)
  {
    hide Holds, ListText, Spelled, UnitText, IsHeader, AreItems;
    PhraseParts(w, p, u);
    HeaderStart(w, p + |u.lead|, u.header);
    NoList();
    HeldText(w, p + |u.lead|, Spelled(u.header));
    HeldText(w, p + |u.lead| + |Spelled(u.header)| + |u.gap|, ListText(u.items));
  }

  lemma HeldText(w: string, p: nat, s: string)
    requires Holds(w, p, s)
    ensures p + |s| <= |w| && w[p..p + |s|] == s
  {
  }

  lemma MessageParts(w: string, p: nat, units: seq<Phrase>)
    requires |units| > 1 && AreUnits(units) && Holds(w, p, MessageText(units))
    ensures var n := |UnitText(units[0])|;
            && Holds(w, p, UnitText(units[0])) && p + n < |w| && w[p + n] == ';'
            && Holds(w, p + n + 1, MessageText(units[1..])) && |MessageText(units)| == n + 1 + |MessageText(units[1..])|
  {
    hide Holds, IsMessageUnit, UnitText;
    var first, rest := UnitText(units[0]), MessageText(units[1..]);
    HoldsSplit(w, p, MessageText(units), first, ";" + rest);
    HoldsSplit(w, p + |first|, ";" + rest, ";", rest);
    FirstHeld(w, p + |first|, ";");
  }

  lemma OneUnitText(units: seq<Phrase>)
    requires |units| == 1 && AreUnits(units)
    ensures MessageText(units) == UnitText(units[0])
  {
    hide IsMessageUnit, UnitText;
  }

  lemma ScanStep(w: string, p: nat)
    requires p <= |w|
    ensures var u := DetectUnit(w, p, |w|);
            && (u.term == NlTermination ==> ScanLine(w, p).FoundLine? && ScanLine(w, p).end == u.pos)
            && (u.term != NlTermination && u.header.kind != Unknown && u.pos < |w| && ScanLine(w, u.pos).FoundLine? ==>
                  ScanLine(w, p).FoundLine? && ScanLine(w, p).end == ScanLine(w, u.pos).end)
  {
    hide DetectUnit;
  }

  /** SCPI_Input finds the line that a message and a terminator make. */
  lemma {:induction false} MessageScanned(w: string, p: nat, units: seq<Phrase>, end: nat)
    requires units != [] && AreUnits(units) && Holds(w, p, MessageText(units))
    requires var q := p + |MessageText(units)|; q < |w| && LineEnd(w[q]) && NewLineEnd(w, q, |w|) == end
    ensures ScanLine(w, p).FoundLine? && ScanLine(w, p).end == end
    decreases |units|
  {
    hide Holds, IsMessageUnit, UnitText, UnitRead, MessageText, DetectUnit, NewLineEnd, LineEnd, ScanLine, ListText,
         Spelled, DataText;
    ScanStep(w, p);
    if |units| == 1 {
      OneUnitText(units);
      UnitReads(w, p, |w|, units[0]);
    } else {
      MessageParts(w, p, units);
      NoEnd();
      UnitReads(w, p, |w|, units[0]);
      UnitTexts(w, p, units[0]);
      MessageScanned(w, p + |UnitText(units[0])| + 1, units[1..], end);
    }
  }

  lemma NoEnd()
    ensures !LineEnd(';')
  {
  }

  /** The units that SCPI_Parse cuts name what was written. */
  lemma {:induction false} MessageNamed(w: string, p: nat, units: seq<Phrase>, prev: string)
    requires units != [] && AreUnits(units) && Holds(w, p, MessageText(units))
    requires var q := p + |MessageText(units)|; q < |w| && LineEnd(w[q]) && NewLineEnd(w, q, |w|) == |w|
    ensures Named(w, ParseUnits(w, p, |w|), prev) == Called(units, prev)
    decreases |units|
  {
    hide Holds, IsMessageUnit, UnitText, UnitRead, MessageText, DetectUnit, NewLineEnd, LineEnd, Named, Resolve,
         ListText, Spelled, DataText;
    var u := units[0];
    var v := DetectUnit(w, p, |w|);
    if |units| == 1 {
      OneUnitText(units);
      UnitReads(w, p, |w|, u);
      UnitTexts(w, p, u);
      assert ParseUnits(w, p, |w|) == [v] + [];
      NamedUnfold(w, v, [], prev);
      NamedUnfold(w, v, [], Resolve(prev, Spelled(u.header)));
      assert units[1..] == [];
    } else {
      MessageParts(w, p, units);
      NoEnd();
      UnitReads(w, p, |w|, u);
      UnitTexts(w, p, u);
      var r := p + |UnitText(u)| + 1;
      assert ParseUnits(w, p, |w|) == [v] + ParseUnits(w, r, |w|);
      NamedUnfold(w, v, ParseUnits(w, r, |w|), prev);
      MessageNamed(w, r, units[1..], Resolve(prev, Spelled(u.header)));
    }
  }

  lemma TerminatorEnds(w: string, q: nat, t: string)
    requires IsTerminator(t) && Holds(w, q, t) && q + |t| == |w|
    ensures q < |w| && LineEnd(w[q]) && NewLineEnd(w, q, |w|) == |w|
  {
    HeldChars(w, q, t);
    assert w[q + 0] == t[0];
    if |t| == 2 {
      assert w[q + 1] == t[1];
    }
    hide Holds;
  }

  lemma TextHeld(text: string, t: string)
    ensures Holds(text + t, 0, text) && Holds(text + t, |text|, t)
  {
    assert (text + t)[0..|text|] == text && (text + t)[|text|..|text| + |t|] == t;
  }

  /** The round trip of program messages: SCPI_Parse finds every header of a message if and only if
      every header is defined that the message names, and then it executes the commands that were
      written, each with the data that were written, in order. */
  lemma {:induction false} MessageRoundTrip(units: seq<Phrase>, t: string, matches: string -> bool)
    requires units != [] && AreUnits(units) && IsTerminator(t)
    ensures var events := LineEvents(MessageText(units) + t, matches);
            var called := Called(units, "");
            && (AllFound(events) <==> AllDefined(called, matches))
            && (AllFound(events) ==> events == called)
  {
    hide Holds, IsMessageUnit, MessageText, DetectUnit, LineEnd, NewLineEnd, Named, Called, AllFound, AllDefined,
         LineEvents, IsTerminator;
    var text := MessageText(units);
    var w := text + t;
    TextHeld(text, t);
    TerminatorEnds(w, |text|, t);
    MessageNamed(w, 0, units, "");
    LineNames(w, matches);
  }

  /** Whatever follows in the buffer, SCPI_Input finds the message as its first line. */
  lemma {:induction false} MessageIsFound(units: seq<Phrase>, t: string, rest: string)
    requires units != [] && AreUnits(units) && IsTerminator(t)
    requires t == "\r" && rest != "" ==> rest[0] != '\n'
    ensures var line := MessageText(units) + t;
            ScanLine(line + rest, 0).FoundLine? && ScanLine(line + rest, 0).end == |line|
  {
    hide Holds, IsMessageUnit, MessageText, ScanLine, LineEnd, NewLineEnd, IsTerminator;
    var text := MessageText(units);
    var w := text + t + rest;
    assert w == text + (t + rest);
    TextHeld(text, t + rest);
    FoundEnd(w, |text|, t, rest);
    MessageScanned(w, 0, units, |text| + |t|);
  }

  lemma FoundEnd(w: string, q: nat, t: string, rest: string)
    requires IsTerminator(t) && (t == "\r" && rest != "" ==> rest[0] != '\n')
    requires Holds(w, q, t + rest) && q + |t + rest| == |w|
    ensures q < |w| && LineEnd(w[q]) && NewLineEnd(w, q, |w|) == q + |t|
  {
    var s := t + rest;
    HeldChars(w, q, s);
    assert w[q + 0] == s[0] == t[0];
    if |s| > 1 {
      assert w[q + 1] == s[1] == if |t| > 1 then t[1] else rest[0];
    }
    hide Holds;
  }

  // ---------- lines of one header ----------

  /** A line that is one header executes it under that name, a query with its question mark, or
      reports it. */
  lemma {:induction false} HeaderLine(h: HeaderText, t: string, matches: string -> bool)
    requires IsHeader(h) && IsTerminator(t)
    ensures LineEvents(Spelled(h) + t, matches)
         == [if matches(Spelled(h)) then Command(Spelled(h), "") else UndefinedHeader(Spelled(h))]
  {
    hide Holds, IsHeader, DetectUnit, LineEnd, NewLineEnd, IsTerminator, Spelled, UnitRead;
    var u := Phrase("", h, "", []);
    HeaderAlone(u);
    var w := Spelled(h) + t;
    TextHeld(Spelled(h), t);
    TerminatorEnds(w, |Spelled(h)|, t);
    UnitReads(w, 0, |w|, u);
    UnitTexts(w, 0, u);
    UnitAlone(u);
    RunUnfold(w, 0, NoToken(0), matches);
    hide LineRun;
    NoList();
  }

  lemma HeaderAlone(u: Phrase)
    requires IsHeader(u.header) && u.lead == "" && u.gap == "" && u.items == []
    ensures IsMessageUnit(u) && UnitText(u) == Spelled(u.header)
  {
    hide IsHeader, Spelled;
    NoList();
    assert Spelled(u.header) + ("" + "") == Spelled(u.header);
    assert "" + Spelled(u.header) == Spelled(u.header);
  }

  lemma UnitAlone(u: Phrase)
    requires IsMessageUnit(u) && u.lead == "" && u.gap == "" && u.items == []
    ensures UnitRead(u, 0).header == Token(KindOf(u.header), 0, |Spelled(u.header)|)
  {
  }

  /** A line of two headers, the second relative: it is executed under the path of the first. */
  lemma {:induction false} SharedPath(path: string, name: string, a: HeaderText, b: HeaderText, t: string,
      matches: string -> bool)
    requires IsHeader(a) && IsHeader(b) && IsTerminator(t) && Spelled(a) == path + name
    requires (path == "" || path[|path| - 1] == ':') && ':' !in name
    requires path + name != "" && (path + name)[0] != '*' && Spelled(b)[0] != '*' && Spelled(b)[0] != ':'
    requires matches(path + name) && matches(path + Spelled(b))
    ensures LineEvents(path + name + (";" + Spelled(b)) + t, matches)
         == [Command(path + name, ""), Command(path + Spelled(b), "")]
  {
    hide LineEvents, AllFound, MessageText, IsHeader, Spelled, IsTerminator, Called, Resolve;
    var units := [Phrase("", a, "", []), Phrase("", b, "", [])];
    HeaderAlone(units[0]);
    HeaderAlone(units[1]);
    TwoUnits(units);
    SpelledSome(b);
    RelativeHeader(path, name, Spelled(b));
    AbsoluteHeader("", path + name);
    MessageRoundTrip(units, t, matches);
    var called := [Command(path + name, ""), Command(path + Spelled(b), "")];
    assert Called(units, "") == called && MessageText(units) == path + name + (";" + Spelled(b));
    assert called[1..] == [called[1]] && called[1..][1..] == [];
    assert AllDefined(called[1..][1..], matches);
    assert AllDefined(called[1..], matches);
  }

  lemma SpelledSome(h: HeaderText)
    requires IsHeader(h)
    ensures Spelled(h) != ""
  {
  }

  lemma TwoUnits(units: seq<Phrase>)
    requires |units| == 2 && AreUnits(units) && units[0].items == [] == units[1].items
    ensures MessageText(units) == UnitText(units[0]) + (";" + UnitText(units[1]))
    ensures var first := Resolve("", Spelled(units[0].header));
            Called(units, "") == [Command(first, ""), Command(Resolve(first, Spelled(units[1].header)), "")]
  {
    hide UnitText, IsMessageUnit, Resolve, Spelled;
    OneUnitText(units[1..]);
    NoList();
    assert units[1..][1..] == [];
    assert Called(units[1..][1..], Resolve(Resolve("", Spelled(units[0].header)), Spelled(units[1].header))) == [];
  }

  /** For instance the identification query. */
  lemma {:induction false} IdnQuery(matches: string -> bool)
    requires matches("*IDN?")
    ensures LineEvents("*IDN?\n", matches) == [Command("*IDN?", "")]
  {
    hide LineEvents, IsCommon, IsCompound;
    IdnIsHeader();
    HeaderLine(HeaderText("*IDN", true), "\n", matches);
    assert "*IDN" + "?" == "*IDN?" && "*IDN?" + "\n" == "*IDN?\n";
  }

  lemma IdnIsHeader()
    ensures IsHeader(HeaderText("*IDN", true))
  {
  }

  /** And a command with a number that has a decimal point. */
  lemma {:induction false} VoltCommand(matches: string -> bool)
    requires matches("CONF:VOLT:DC")
    ensures LineEvents("CONF:VOLT:DC 1.5\n", matches) == [Command("CONF:VOLT:DC", "1.5")]
  {
    hide LineEvents, AllFound, Called, MessageText;
    VoltUnit();
    MessageRoundTrip(VoltMessage(), "\n", matches);
    assert "CONF:VOLT:DC 1.5" + "\n" == "CONF:VOLT:DC 1.5\n";
    var e := Command("CONF:VOLT:DC", "1.5");
    assert [e][1..] == [];
  }

  function VoltMessage(): seq<Phrase> {
    [Phrase("", HeaderText("CONF:VOLT:DC", false), " ", [NumberItem(Numeral("", "1", true, "5", NoPower))])]
  }

  lemma VoltUnit()
    ensures AreUnits(VoltMessage()) && MessageText(VoltMessage()) == "CONF:VOLT:DC 1.5"
    ensures Called(VoltMessage(), "") == [Command("CONF:VOLT:DC", "1.5")]
  {
    hide IsMessageUnit, UnitText, ListText, Spelled;
    VoltText();
    assert VoltMessage()[1..] == [];
    assert Called(VoltMessage()[1..], "CONF:VOLT:DC") == [];
    assert [Command("CONF:VOLT:DC", "1.5")] + [] == [Command("CONF:VOLT:DC", "1.5")];
  }

  lemma VoltText()
    ensures var u := VoltMessage()[0];
            && IsMessageUnit(u) && UnitText(u) == "CONF:VOLT:DC 1.5"
            && Spelled(u.header) == "CONF:VOLT:DC" && ListText(u.items) == "1.5"
  {
    hide IsHeader;
    VoltIsHeader();
    PointFive();
    assert "CONF:VOLT:DC" + (" " + "1.5") == "CONF:VOLT:DC 1.5";
    assert "" + "CONF:VOLT:DC 1.5" == "CONF:VOLT:DC 1.5";
    assert "CONF:VOLT:DC" + "" == "CONF:VOLT:DC";
  }

  lemma PointFive()
    ensures var items := VoltMessage()[0].items;
            AreItems(items) && ListText(items) == "1.5"
  {
    var n := Numeral("", "1", true, "5", NoPower);
    assert UnsignedText(n) == "1" + ("." + "5") == "1.5";
    assert MantissaText(n) == "" + "1.5" == "1.5";
    assert NumeralText(n) == "1.5" + "" == "1.5";
  }

  lemma VoltIsHeader()
    ensures IsHeader(HeaderText("CONF:VOLT:DC", false))
  {
  }
}
