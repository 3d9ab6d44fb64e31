/** Units of a header alone, and data of digits or of one string: what the specification makes of
    them. */
module SmallUnits {
  import opened Lexer
  import opened LexerLaws
  import opened Framing
  import opened FramingLaws
  import opened QuotedText
  import opened WholeLines

  /** The letters, digits and underscores from p to q are a mnemonic. */
  ghost predicate IsMnemonic(w: string, p: nat, e: nat, q: nat) {
    && p < q <= e <= |w| && IsAlpha(w[p])
    && (forall i :: p < i < q ==> Is(w[i], Word))
    && (q < e ==> !Is(w[q], Word))
  }

  lemma MnemonicIs(w: string, p: nat, e: nat, q: nat)
    requires IsMnemonic(w, p, e, q)
    ensures MnemonicEnd(w, p, e) == q
  {
    hide Is;
    SpanIs(w, p + 1, e, Word, q);
  }

  lemma OneLetter(w: string, p: nat, e: nat)
    requires p < e <= |w| && IsAlpha(w[p]) && (p + 1 < e ==> !Is(w[p + 1], Word))
    ensures IsMnemonic(w, p, e, p + 1)
  {
  }

  lemma ChainLink(w: string, p: nat, e: nat, q: nat)
    requires p < e <= |w| && w[p] == ':' && IsMnemonic(w, p + 1, e, q)
    ensures ColonChain(w, p, e) == ColonChain(w, q, e)
  {
    MnemonicIs(w, p + 1, e, q);
    hide MnemonicEnd, IsMnemonic;
  }

  lemma ChainEnd(w: string, p: nat, e: nat)
    requires p <= e <= |w| && (p < e ==> w[p] != ':')
    ensures ColonChain(w, p, e) == Skipped(Ok, p)
  {
  }

  /** A relative header with its mnemonics from p to q. */
  lemma HeaderIs(w: string, p: nat, e: nat, a: nat, q: nat)
    requires IsMnemonic(w, p, e, a) && a <= q < e && ColonChain(w, a, e) == Skipped(Ok, q) && w[q] != '?'
    ensures Span(w, p, e, Ws) == p && Header(w, p, e) == Lexed(Token(CompoundHeader, p, q - p), q)
  {
    hide ColonChain, MnemonicEnd, IsMnemonic;
    MnemonicIs(w, p, e, a);
    MnemonicStarts(w, p, e, a);
    SpanIs(w, p, e, Ws, p);
  }

  /** It is ended by a semicolon or a new line. */
  lemma HeaderUnit(w: string, p: nat, e: nat, a: nat, q: nat)
    requires IsMnemonic(w, p, e, a) && a <= q < e && ColonChain(w, a, e) == Skipped(Ok, q)
    requires w[q] == ';' || (w[q] == '\n' && q + 1 == e)
    ensures var term := if w[q] == ';' then SemicolonTermination else NlTermination;
            DetectUnit(w, p, e) == Unit(Token(CompoundHeader, p, q - p), NoToken(q), 0, term, q + 1)
  {
    hide ColonChain, IsMnemonic, Header, Span;
    MnemonicStarts(w, p, e, a);
    HeaderIs(w, p, e, a, q);
    assert !Is(w[q], Ws);
    SpanIs(w, q, e, Ws, q);
  }

  /** A header of one letter, white space, and data, or what can be read of them. */
  lemma DataBody(w: string, p: nat, e: nat, d: DataList)
    requires p + 2 < e <= |w| && IsAlpha(w[p]) && w[p + 1] == ' ' && !Is(w[p + 2], Ws)
    requires d == AllProgramData(w, p + 2, e)
    ensures var data := if d.ok then Token(AllData, p + 2, CountedLength(d.items)) else NoToken(p + 2);
            UnitBody(w, p, e) == Body(Token(CompoundHeader, p, 1), data, if d.ok then |d.items| else -1, d.pos)
  {
    hide ColonChain, IsMnemonic, Header, Span, AllProgramData, CountedLength;
    OneLetter(w, p, e);
    ChainEnd(w, p + 1, e);
    HeaderIs(w, p, e, p + 1, p + 1);
    SpanIs(w, p + 1, e, Ws, p + 2);
  }

  /** The data end in front of a semicolon or of the final new line, or break off there. */
  lemma DataUnit(w: string, p: nat, e: nat, d: DataList)
    requires p + 2 < e <= |w| && IsAlpha(w[p]) && w[p + 1] == ' ' && !Is(w[p + 2], Ws)
    requires d == AllProgramData(w, p + 2, e) && d.pos < e && (w[d.pos] == ';' || (w[d.pos] == '\n' && d.pos + 1 == e))
    ensures var term := if w[d.pos] == ';' then SemicolonTermination else NlTermination;
            var data := if d.ok then Token(AllData, p + 2, CountedLength(d.items)) else NoToken(p + 2);
            var count := if d.ok then |d.items| else -1;
            DetectUnit(w, p, e) == Unit(Token(CompoundHeader, p, 1), data, count, term, d.pos + 1)
  {
    hide AllProgramData, CountedLength, UnitBody;
    DataBody(w, p, e, d);
  }

  /** Neither a header nor white space starts at p. */
  lemma NoBody(w: string, p: nat, e: nat)
    requires p < e <= |w| && !Is(w[p], Ws) && !IsAlpha(w[p]) && w[p] != '*' && w[p] != ':'
    ensures UnitBody(w, p, e) == Body(NoToken(p), NoToken(p), 0, p)
  {
    SpanIs(w, p, e, Ws, p);
    assert Header(w, p, e) == Lexed(NoToken(p), p);
    hide Header, Span;
  }

  /** What cannot be read is skipped, one character at a time. */
  lemma InvalidUnit(w: string, p: nat, e: nat)
    requires p <= e <= |w|
    requires var q := UnitBody(w, p, e).pos; q < e && !IsNl(w[q]) && w[q] != ';'
    ensures var u := DetectUnit(w, p, e);
            u.header.kind == Invalid && u.term == NoTermination && u.pos == UnitBody(w, p, e).pos + 1
  {
    hide UnitBody;
  }

  lemma StrayQuote(w: string, p: nat, e: nat)
    requires p < e <= |w| && IsQuote(w[p])
    ensures var u := DetectUnit(w, p, e);
            u.header.kind == Invalid && u.term == NoTermination && u.pos == p + 1
  {
    hide DetectUnit, UnitBody;
    NoBody(w, p, e);
    InvalidUnit(w, p, e);
  }

  /** Nothing can be read at a line terminator. */
  lemma NothingAtNl(w: string, p: nat, e: nat)
    requires p < e <= |w| && IsNl(w[p])
    ensures ProgramData(w, p, e).token.kind == Unknown && ProgramData(w, p, e).pos == p
  {
    hide Span;
    SpanIs(w, p, e, Ws, p);
    SpanIs(w, p, e, Digit, p);
    assert Number(w, p, e) == Datum(NoToken(p), p, 0);
    hide Number;
    assert Quoted(w, p, e) == Datum(NoToken(p), p, 0);
    hide Quoted;
  }

  lemma MnemonicStarts(w: string, p: nat, e: nat, q: nat)
    requires IsMnemonic(w, p, e, q)
    ensures p < q <= e <= |w| && IsAlpha(w[p]) && !Is(w[p], Ws) && w[p] != '*' && w[p] != ':'
  {
  }

  /** A semicolon where a header should be. */
  lemma EmptyUnit(w: string, p: nat, e: nat)
    requires p < e <= |w| && w[p] == ';'
    ensures DetectUnit(w, p, e) == Unit(NoToken(p), NoToken(p), 0, SemicolonTermination, p + 1)
  {
    hide UnitBody;
    NoBody(w, p, e);
  }

  /** A line terminator where a header should be. */
  lemma NlUnitAt(w: string, p: nat, e: nat)
    requires p + 1 == e <= |w| && IsNl(w[p])
    ensures DetectUnit(w, p, e) == Unit(NoToken(p), NoToken(p), 0, NlTermination, e)
  {
    hide UnitBody;
    NoBody(w, p, e);
  }

  /** A number of digits from p to q, white space from q to s, and then a comma or the end. */
  ghost predicate IsNumber(w: string, p: nat, e: nat, q: nat, s: nat) {
    && p < q <= s <= e <= |w|
    && (forall i :: p <= i < q ==> IsDigit(w[i]))
    && (forall i :: q <= i < s ==> w[i] == ' ')
    && (s < e ==> w[s] == ',')
  }

  lemma NumberDatum(w: string, p: nat, e: nat, q: nat, s: nat)
    requires IsNumber(w, p, e, q, s)
    ensures ProgramData(w, p, e) == Datum(Token(Decimal, p, q - p), s, q - p)
  {
    hide Span;
    SpanIs(w, p, e, Ws, p);
    SpanIs(w, p, e, Digit, q);
    SpanIs(w, q, e, Ws, s);
    SpanIs(w, s, e, Ws, s);
    SpanIs(w, s, e, Alpha, s);
    assert Mantissa(w, p, e) == (q - p, q);
    assert Exponent(w, s, e) == (0, s);
    hide Mantissa, Exponent;
    assert DecimalEnd(w, p, e) == q;
    hide DecimalEnd;
    assert SuffixEnd(w, s, e) == s;
    hide SuffixEnd;
    assert Number(w, p, e) == Datum(Token(Decimal, p, q - p), s, q - p);
    hide Number;
    assert NondecimalData(w, p, e).pos == p && CharacterData(w, p, e).pos == p;
    hide NondecimalData, CharacterData, Quoted;
  }

  /** A string that is closed, and one that is not. */
  lemma StringDatum(w: string, p: nat, e: nat)
    requires p < e <= |w| && IsQuote(w[p])
    ensures var q := QuoteEnd(w, p + 1, e, w[p]);
            && (q < e && (q + 1 < e ==> !Is(w[q + 1], Ws)) ==>
                  ProgramData(w, p, e) == Datum(Token(QuoteKind(w[p]), p, q + 1 - p), q + 1, q + 1 - p))
            && (q == e ==> ProgramData(w, p, e).token.kind == Unknown && ProgramData(w, p, e).pos == p)
  {
    hide Span, QuoteEnd, NondecimalData, CharacterData, Number;
    QuoteFirst(w, p, e);
    var q := QuoteEnd(w, p + 1, e, w[p]);
    assert StringData(w, p, e)
        == if q < e then Lexed(Token(QuoteKind(w[p]), p, q + 1 - p), q + 1) else Lexed(NoToken(p), p);
    assert Block(w, p, e) == Lexed(NoToken(p), p) && Expression(w, p, e) == Lexed(NoToken(p), p);
    hide StringData, Block, Expression;
    if q < e && (q + 1 < e ==> !Is(w[q + 1], Ws)) {
      SpanIs(w, q + 1, e, Ws, q + 1);
    }
  }

  // ---------- a line with a string ----------

  lemma {:induction false} NoNlDoubled(text: string, quote: char)
    requires IsQuote(quote) && forall i :: 0 <= i < |text| ==> !IsNl(text[i])
    ensures forall i :: 0 <= i < |Doubled(text, quote)| ==> !IsNl(Doubled(text, quote)[i])
    decreases |text|
  {
    if text != "" {
      NoNlDoubled(text[1..], quote);
    }
  }

  /** The text of a line that sends a string to a command of one letter. */
  function StringLine(c: char, text: string, quote: char): string {
    [c, ' '] + (Quote(text, quote) + "\n")
  }

  lemma StringLineShape(c: char, text: string, quote: char)
    requires IsAlpha(c) && IsQuote(quote) && forall i :: 0 <= i < |text| ==> !IsNl(text[i])
    ensures var w := StringLine(c, text, quote);
            var k := 2 + |Quote(text, quote)|;
            && |w| == k + 1 && k >= 4 && w[0] == c && w[1] == ' ' && w[2] == quote && w[k] == '\n'
            && Holds(w, 3, Doubled(text, quote) + [quote]) && k == 4 + |Doubled(text, quote)| && FirstNl(w, 0, k)
  {
    hide IsNl, Doubled;
    NoNlDoubled(text, quote);
    var w, d := StringLine(c, text, quote), Doubled(text, quote);
    assert w == [c, ' ', quote] + (d + [quote]) + "\n";
    assert w[3..3 + |d + [quote]|] == d + [quote];
    assert IsNl('\n') && !IsNl(' ') && !IsNl(quote) && !IsNl(c) by {
      NotNl(c, quote);
    }
    forall i | 0 <= i < |w| - 1 ensures !IsNl(w[i]) {
      if 3 <= i < 3 + |d| {
        assert w[i] == d[i - 3];
      }
    }
  }

  lemma NotNl(c: char, quote: char)
    requires IsAlpha(c) && IsQuote(quote)
    ensures IsNl('\n') && !IsNl(' ') && !IsNl(quote) && !IsNl(c)
  {
  }

  /** It is whole, whatever the string is, as long as it holds no line terminator. */
  lemma {:induction false} StringLineIsWhole(c: char, text: string, quote: char)
    requires IsAlpha(c) && IsQuote(quote) && forall i :: 0 <= i < |text| ==> !IsNl(text[i])
    ensures WholeText(StringLine(c, text, quote))
  {
    hide StringLine, Quote, Doubled, Holds, FirstNl, LineWhole, NlIndex, NewLineEnd, WholeText;
    StringLineShape(c, text, quote);
    var w := StringLine(c, text, quote);
    var k := |w| - 1;
    StringUnitWhole(w, k, text, quote);
    OnlyNl(w, k);
    WholeUnfold(w);
    NothingIsWhole();
    assert w[|w|..] == "";
  }

  lemma OnlyNl(w: string, k: nat)
    requires |w| == k + 1 && FirstNl(w, 0, k)
    ensures NlIndex(w) == k && NewLineEnd(w, k, |w|) == |w|
  {
    hide NlIndex;
    if NlIndex(w) != k {
      assert false;
    }
  }

  lemma StringDataWhole(w: string, k: nat, text: string, quote: char)
    requires |w| == k + 1 && k >= 4 && w[2] == quote && w[k] == '\n' && IsQuote(quote)
    requires k == 4 + |Doubled(text, quote)| && Holds(w, 3, Doubled(text, quote) + [quote])
    ensures DataWhole(w, 2, k) && AllProgramData(w, 2, k + 1).pos == k
  {
    hide Doubled, Holds, ProgramData, QuoteEnd, Span, AllProgramData;
    var d := Doubled(text, quote);
    HoldsAt(w, 3, d + [quote], |d|);
    QuoteEndOfDoubled(w, 3, k + 1, text, quote);
    StringDatum(w, 2, k + 1);
    ListUnfold(w, 2, k + 1);
    SpanIs(w, 2, k + 1, Ws, 2);
  }

  lemma StringUnitWhole(w: string, k: nat, text: string, quote: char)
    requires |w| == k + 1 && k >= 4 && IsAlpha(w[0]) && w[1] == ' ' && w[2] == quote && w[k] == '\n'
    requires IsQuote(quote) && k == 4 + |Doubled(text, quote)| && Holds(w, 3, Doubled(text, quote) + [quote])
    ensures LineWhole(w, 0, k)
  {
    hide Doubled, Holds, ProgramData, QuoteEnd, DetectUnit, Header, Span, AllProgramData, CountedLength, IsMnemonic,
         DataWhole;
    StringDataWhole(w, k, text, quote);
    DataUnit(w, 0, k + 1, AllProgramData(w, 2, k + 1));
    OneLetter(w, 0, k + 1);
    ChainEnd(w, 1, k + 1);
    HeaderIs(w, 0, k + 1, 1, 1);
    SpanIs(w, 1, k + 1, Ws, 2);
    assert UnitWhole(w, 0, k);
  }
}
