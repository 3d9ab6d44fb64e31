/** Lines whose strings and blocks are complete: what is read of such a line does not depend on
    what follows its line terminator. */
module WholeLines {
  import opened Lexer
  import opened LexerLaws
  import opened Framing
  import opened FramingLaws

  /** k is the first line terminator at or behind p. */
  ghost predicate FirstNl(w: string, p: nat, k: nat) {
    && p <= k < |w| && IsNl(w[k])
    && forall i :: p <= i < k ==> !IsNl(w[i])
  }

  lemma FirstNlAt(w: string, p: nat, k: nat, q: nat)
    requires FirstNl(w, p, k) && p <= q <= k
    ensures k < |w| && (IsNl(w[q]) <==> q == k)
  {
  }

  lemma FirstNlLater(w: string, p: nat, q: nat, k: nat)
    requires FirstNl(w, p, k) && p <= q <= k
    ensures FirstNl(w, q, k)
  {
  }

  lemma FirstNlBounds(w: string, p: nat, k: nat)
    requires FirstNl(w, p, k)
    ensures p <= k < |w|
  {
  }

  function NlIndex(w: string): (k: nat)
    ensures k <= |w|
    ensures k < |w| ==> IsNl(w[k])
    ensures forall i :: 0 <= i < k ==> !IsNl(w[i])
    decreases |w|
  {
    if w == "" then 0 else if IsNl(w[0]) then 0 else 1 + NlIndex(w[1..])
  }

  lemma NlIndexFirst(w: string)
    requires NlIndex(w) < |w|
    ensures FirstNl(w, 0, NlIndex(w))
  {
    hide NlIndex;
  }

  // ---------- whole lines ----------

  /** A block that a text announces in front of its terminator at k is there. */
  ghost predicate BlockFits(w: string, p: nat, k: nat)
    requires p < k < |w|
  {
    IsDigit(w[p + 1]) && w[p + 1] != '0' ==>
      var h := BlockDigits(w, p + 2, k + 1, DigitValue(w[p + 1]), 0);
      h.missing == 0 ==> h.pos + h.length <= k
  }

  /** The string or block that starts at p, if any, is complete in front of k. */
  ghost predicate Closed(w: string, p: nat, k: nat)
    requires p <= k < |w|
  {
    && (IsQuote(w[p]) ==> QuoteEnd(w, p + 1, k + 1, w[p]) <= k)
    && (w[p] == '#' && p < k ==> BlockFits(w, p, k))
  }

  ghost predicate DatumWhole(w: string, p: nat, k: nat)
    requires p <= k < |w|
  {
    var s := Span(w, p, k + 1, Ws);
    s <= k ==> Closed(w, s, k)
  }

  /** So are those of a data list. */
  ghost predicate DataWhole(w: string, p: nat, k: nat)
    requires p <= k < |w|
    decreases k - p
  {
    && DatumWhole(w, p, k)
    && var d := ProgramData(w, p, k + 1);
       d.token.kind != Unknown && d.pos < k && w[d.pos] == ',' ==> DataWhole(w, d.pos + 1, k)
  }

  ghost predicate UnitWhole(w: string, p: nat, k: nat)
    requires p <= k < |w|
  {
    var h := Header(w, Span(w, p, k + 1, Ws), k + 1);
    var s := Span(w, h.pos, k + 1, Ws);
    h.pos < s <= k ==> DataWhole(w, s, k)
  }

  /** And those of all units from p on of the line that ends at k. */
  ghost predicate LineWhole(w: string, p: nat, k: nat)
    requires p <= k < |w|
    decreases k - p
  {
    var u := DetectUnit(w, p, k + 1);
    && UnitWhole(w, p, k)
    && (u.pos <= k ==> LineWhole(w, u.pos, k))
  }

  /** Every terminated line of a text is whole; what stands behind them is arbitrary. */
  ghost predicate WholeText(w: string)
    decreases |w|
  {
    var k := NlIndex(w);
    k < |w| ==> LineWhole(w, 0, k) && k < NewLineEnd(w, k, |w|) && WholeText(w[NewLineEnd(w, k, |w|)..])
  }

  // ---------- no other token crosses a line terminator ----------

  lemma SpanStays(w: string, p: nat, k: nat, e: nat, cls: Class)
    requires FirstNl(w, p, k) && k < e <= |w|
    ensures Span(w, p, e, cls) <= k
  {
    NlInNoClass(w[k], cls);
    hide Is, IsNl;
  }

  lemma MnemonicStays(w: string, p: nat, k: nat, e: nat)
    requires FirstNl(w, p, k) && k < e <= |w|
    ensures MnemonicEnd(w, p, e) <= k
  {
    if p < k {
      SpanStays(w, p + 1, k, e, Word);
    }
  }

  lemma {:induction false} ChainStays(w: string, p: nat, k: nat, e: nat)
    requires FirstNl(w, p, k) && k < e <= |w|
    ensures ColonChain(w, p, e).pos <= k
    decreases k - p
  {
    if p < k && w[p] == ':' {
      MnemonicStays(w, p + 1, k, e);
      hide MnemonicEnd;
      var q := MnemonicEnd(w, p + 1, e);
      if q > p + 1 {
        ChainStays(w, q, k, e);
      }
    }
  }

  lemma HeaderStays(w: string, p: nat, k: nat, e: nat)
    requires FirstNl(w, p, k) && k < e <= |w|
    ensures Header(w, p, e).pos <= k
  {
    hide MnemonicEnd, ColonChain, FirstNl;
    FirstNlBounds(w, p, k);
    FirstNlAt(w, p, k, p);
    FirstNlAt(w, p, k, k);
    if p < k {
      FirstNlLater(w, p, p + 1, k);
      MnemonicStays(w, p + 1, k, e);
    }
    var s := Skip(w, p, e, ':');
    FirstNlLater(w, p, s, k);
    MnemonicStays(w, s, k, e);
    var q := MnemonicEnd(w, s, e);
    FirstNlLater(w, p, q, k);
    ChainStays(w, q, k, e);
  }

  lemma SignedStays(w: string, p: nat, k: nat, e: nat)
    requires FirstNl(w, p, k) && k < e <= |w|
    ensures SignedDigits(w, p, e).1 <= k
  {
    var s := SkipSign(w, p, e);
    SpanStays(w, s, k, e, Digit);
    hide Span;
  }

  lemma MantissaStays(w: string, p: nat, k: nat, e: nat)
    requires FirstNl(w, p, k) && k < e <= |w|
    ensures Mantissa(w, p, e).1 <= k
  {
    hide Span;
    var s := SkipSign(w, p, e);
    SpanStays(w, s, k, e, Digit);
    var d := Span(w, s, e, Digit);
    if d < k {
      SpanStays(w, d + 1, k, e, Digit);
    }
  }

  lemma ExponentStays(w: string, p: nat, k: nat, e: nat)
    requires FirstNl(w, p, k) && k < e <= |w|
    ensures Exponent(w, p, e).1 <= k
  {
    hide Span, SignedDigits;
    if p < k {
      SpanStays(w, p + 1, k, e, Ws);
      SignedStays(w, Span(w, p + 1, e, Ws), k, e);
    }
  }

  lemma DecimalStays(w: string, p: nat, k: nat, e: nat)
    requires FirstNl(w, p, k) && k < e <= |w|
    ensures DecimalEnd(w, p, e) <= k
  {
    hide Span, Mantissa, Exponent;
    MantissaStays(w, p, k, e);
    var m := Mantissa(w, p, e).1;
    SpanStays(w, m, k, e, Ws);
    ExponentStays(w, Span(w, m, e, Ws), k, e);
  }

  lemma {:induction false} SuffixTailStays(w: string, p: nat, k: nat, e: nat)
    requires FirstNl(w, p, k) && k < e <= |w|
    ensures SuffixTail(w, p, e) <= k
    decreases k - p
  {
    if p < k && (w[p] == '/' || w[p] == '.') {
      SpanStays(w, p + 1, k, e, Alpha);
      hide Span;
      SuffixTailStays(w, SuffixUnit(w, Span(w, p + 1, e, Alpha), e), k, e);
    }
  }

  lemma SuffixStays(w: string, p: nat, k: nat, e: nat)
    requires FirstNl(w, p, k) && k < e <= |w|
    ensures SuffixEnd(w, p, e) <= k
  {
    hide Span, SuffixTail;
    var s := Skip(w, p, e, '/');
    SpanStays(w, s, k, e, Alpha);
    var a := Span(w, s, e, Alpha);
    SuffixTailStays(w, SuffixUnit(w, a, e), k, e);
  }

  lemma {:induction false} NumberStays(w: string, p: nat, k: nat, e: nat)
    requires FirstNl(w, p, k) && k < e <= |w|
    ensures Number(w, p, e).pos <= k
  {
    hide Span, DecimalEnd, SuffixEnd;
    DecimalStays(w, p, k, e);
    var q := DecimalEnd(w, p, e);
    SpanStays(w, q, k, e, Ws);
    SuffixStays(w, Span(w, q, e, Ws), k, e);
  }

  /** A string or a block crosses it only if it is not complete. */
  lemma QuotedStays(w: string, p: nat, k: nat, e: nat)
    requires FirstNl(w, p, k) && k < e <= |w| && Closed(w, p, k)
    ensures Quoted(w, p, e).pos <= k
  {
    hide StringData, Block, Expression, FirstNl, Closed, IsNl;
    FirstNlBounds(w, p, k);
    FirstNlAt(w, p, k, p);
    if p < k {
      ExpressionStays(w, p, k, e);
      StringStays(w, p, k, e);
      BlockStays(w, p, k, e);
    } else {
      AtNl(w, k, e);
    }
  }

  lemma ExpressionStays(w: string, p: nat, k: nat, e: nat)
    requires FirstNl(w, p, k) && p < k < e <= |w|
    ensures Expression(w, p, e).pos <= k
  {
    hide Span, FirstNl;
    FirstNlLater(w, p, p + 1, k);
    SpanStays(w, p + 1, k, e, Expr);
    var q := Span(w, p + 1, e, Expr);
    FirstNlAt(w, p, k, q);
  }

  lemma AtNl(w: string, k: nat, e: nat)
    requires k < e <= |w| && IsNl(w[k])
    ensures StringData(w, k, e) == Lexed(NoToken(k), k) && Block(w, k, e) == Lexed(NoToken(k), k)
    ensures Expression(w, k, e) == Lexed(NoToken(k), k) && NondecimalData(w, k, e) == Lexed(NoToken(k), k)
  {
  }

  /** The text up to a line terminator is a cut of any text that holds it. */
  lemma LineCut(w: string, p: nat, k: nat, e: nat)
    requires FirstNl(w, p, k) && k < e <= |w|
    ensures Fits(Frame(w, e, w, 0, k + 1), p) && Clean(Frame(w, e, w, 0, k + 1))
  {
    hide IsNl, FirstNl, Fits;
    FirstNlBounds(w, p, k);
    FirstNlAt(w, p, k, k);
    FitsItself(w, p, e, k + 1);
  }

  lemma StringStays(w: string, p: nat, k: nat, e: nat)
    requires FirstNl(w, p, k) && p < k < e <= |w| && Closed(w, p, k)
    ensures StringData(w, p, e).pos <= k
  {
    hide QuoteEnd, FirstNl, Fits, Clean, BlockFits;
    if IsQuote(w[p]) {
      FirstNlLater(w, p, p + 1, k);
      LineCut(w, p + 1, k, e);
      QuoteCut(Frame(w, e, w, 0, k + 1), p + 1, w[p]);
    }
  }

  lemma BlockStays(w: string, p: nat, k: nat, e: nat)
    requires FirstNl(w, p, k) && p < k < e <= |w| && Closed(w, p, k)
    ensures Block(w, p, e).pos <= k && (Block(w, p, e).token.kind == Unknown ==> Block(w, p, e).pos == p)
  {
    hide QuoteEnd, BlockDigits, FirstNl, Fits, Clean, IsNl, DigitValue;
    FirstNlAt(w, p, k, k);
    if w[p] == '#' && IsDigit(w[p + 1]) && p + 1 < k {
      FirstNlLater(w, p, p + 2, k);
      LineCut(w, p + 2, k, e);
      BlockDigitsCut(Frame(w, e, w, 0, k + 1), p + 2, DigitValue(w[p + 1]), 0);
      NlIsNoDigit(w[k]);
    } else {
      NlIsNoDigit(w[k]);
    }
  }

  lemma NlIsNoDigit(c: char)
    requires IsNl(c)
    ensures !IsDigit(c)
  {
  }

  lemma NondecimalStays(w: string, p: nat, k: nat, e: nat)
    requires FirstNl(w, p, k) && k < e <= |w|
    ensures NondecimalData(w, p, e).pos <= k
  {
    hide Span;
    if p + 1 < k {
      SpanStays(w, p + 2, k, e, BaseOf(w[p + 1]).0);
    }
  }

  lemma {:induction false} BareStays(w: string, p: nat, k: nat, e: nat)
    requires FirstNl(w, p, k) && k < e <= |w| && Closed(w, p, k)
    ensures BareDatum(w, p, e).pos <= k
  {
    hide NondecimalData, MnemonicEnd, Number, Quoted, FirstNl, Closed;
    FirstNlBounds(w, p, k);
    NondecimalStays(w, p, k, e);
    MnemonicStays(w, p, k, e);
    NumberStays(w, p, k, e);
    QuotedStays(w, p, k, e);
  }

  lemma {:induction false} ProgramDataStays(w: string, p: nat, k: nat, e: nat)
    requires FirstNl(w, p, k) && k < e <= |w| && DatumWhole(w, p, k)
    ensures ProgramData(w, p, e).pos <= k
  {
    hide Span, BareDatum, FirstNl, Closed, Fits, Clean;
    FirstNlBounds(w, p, k);
    SpanStays(w, p, k, e, Ws);
    LineCut(w, p, k, e);
    SpanCut(Frame(w, e, w, 0, k + 1), p, Ws);
    var s := Span(w, p, e, Ws);
    FirstNlLater(w, p, s, k);
    BareStays(w, s, k, e);
    FirstNlLater(w, p, BareDatum(w, s, e).pos, k);
    SpanStays(w, BareDatum(w, s, e).pos, k, e, Ws);
  }

  /** The datum is the same up to the line terminator and beyond. */
  lemma DatumOfLine(w: string, p: nat, k: nat, e: nat)
    requires FirstNl(w, p, k) && k < e <= |w| && DatumWhole(w, p, k)
    ensures ProgramData(w, p, k + 1).token == ProgramData(w, p, e).token
    ensures ProgramData(w, p, k + 1).pos == ProgramData(w, p, e).pos <= k
  {
    hide ProgramData, FirstNl, Fits, Clean, DatumWhole;
    FirstNlBounds(w, p, k);
    ProgramDataStays(w, p, k, e);
    LineCut(w, p, k, e);
    var fr := Frame(w, e, w, 0, k + 1);
    DatumLands(fr, ProgramData(w, p, e));
    ProgramDataCut(fr, p);
  }

  lemma {:induction false} AllDataStays(w: string, p: nat, k: nat, e: nat)
    requires FirstNl(w, p, k) && k < e <= |w| && DataWhole(w, p, k)
    ensures AllProgramData(w, p, e).pos <= k
    decreases k - p
  {
    hide ProgramData, FirstNl, DatumWhole;
    FirstNlBounds(w, p, k);
    DatumOfLine(w, p, k, e);
    var d := ProgramData(w, p, e);
    FirstNlAt(w, p, k, d.pos);
    if d.token.kind != Unknown && d.pos < k && w[d.pos] == ',' {
      FirstNlLater(w, p, d.pos + 1, k);
      AllDataStays(w, d.pos + 1, k, e);
    }
  }

  /** White space and header are the same up to the line terminator and beyond. */
  lemma HeaderOfLine(w: string, p: nat, k: nat, e: nat)
    requires FirstNl(w, p, k) && k < e <= |w|
    ensures Span(w, p, k + 1, Ws) == Span(w, p, e, Ws)
    ensures var a := Span(w, p, e, Ws);
            p <= a <= k && Header(w, a, k + 1) == Header(w, a, e) && Header(w, a, e).pos <= k
  {
    hide Span, Header, FirstNl;
    WsOfLine(w, p, k, e);
    var a := Span(w, p, e, Ws);
    FirstNlLater(w, p, a, k);
    HeaderFromHere(w, a, k, e);
  }

  lemma HeaderFromHere(w: string, a: nat, k: nat, e: nat)
    requires FirstNl(w, a, k) && k < e <= |w|
    ensures Header(w, a, k + 1) == Header(w, a, e) && Header(w, a, e).pos <= k
  {
    hide Span, Header, FirstNl, Fits, Clean;
    FirstNlBounds(w, a, k);
    LineCut(w, a, k, e);
    HeaderStays(w, a, k, e);
    HeaderCut(Frame(w, e, w, 0, k + 1), a);
    NotMoved(Header(w, a, e));
  }

  lemma NotMoved(r: Lexed)
    ensures MoveLexed(r, 0) == r
  {
  }

  lemma WsOfLine(w: string, p: nat, k: nat, e: nat)
    requires FirstNl(w, p, k) && k < e <= |w|
    ensures Span(w, p, k + 1, Ws) == Span(w, p, e, Ws) <= k
  {
    hide Span, FirstNl, Fits, Clean;
    FirstNlBounds(w, p, k);
    LineCut(w, p, k, e);
    SpanStays(w, p, k, e, Ws);
    SpanCut(Frame(w, e, w, 0, k + 1), p, Ws);
  }

  lemma BodyStays(w: string, p: nat, k: nat, e: nat)
    requires FirstNl(w, p, k) && k < e <= |w| && UnitWhole(w, p, k)
    ensures UnitBody(w, p, e).pos <= k
  {
    hide Span, Header, AllProgramData, CountedLength, FirstNl, DataWhole;
    FirstNlBounds(w, p, k);
    HeaderOfLine(w, p, k, e);
    var h := Header(w, Span(w, p, e, Ws), e);
    FirstNlLater(w, p, h.pos, k);
    WsOfLine(w, h.pos, k, e);
    var s := Span(w, h.pos, e, Ws);
    if s > h.pos {
      FirstNlLater(w, p, s, k);
      AllDataStays(w, s, k, e);
    }
  }

  // ---------- the same line elsewhere ----------

  /** From p to k the two texts hold the same characters. */
  ghost predicate SameUpTo(w: string, v: string, p: nat, k: nat) {
    p <= k < |w| && k < |v| && forall i :: p <= i <= k ==> v[i] == w[i]
  }

  lemma SameFits(w: string, v: string, p: nat, k: nat, q: nat)
    requires SameUpTo(w, v, p, k) && p <= q <= k + 1
    ensures k < |w| && k < |v| && Clean(Frame(w, k + 1, v, 0, k + 1)) && Fits(Frame(w, k + 1, v, 0, k + 1), q)
    ensures q <= k ==> v[q] == w[q] && SameUpTo(w, v, q, k)
  {
  }

  lemma ClosedSame(w: string, v: string, p: nat, k: nat)
    requires SameUpTo(w, v, p, k) && Closed(w, p, k)
    ensures k < |v| && Closed(v, p, k)
  {
    hide QuoteEnd, BlockDigits, Fits, Clean;
    SameFits(w, v, p, k, p);
    SameFits(w, v, p, k, p + 1);
    var fr := Frame(w, k + 1, v, 0, k + 1);
    if IsQuote(w[p]) {
      QuoteCut(fr, p + 1, w[p]);
    } else if w[p] == '#' && p < k && IsDigit(w[p + 1]) {
      SameFits(w, v, p, k, p + 2);
      BlockDigitsCut(fr, p + 2, DigitValue(w[p + 1]), 0);
    }
  }

  lemma DatumWholeSame(w: string, v: string, p: nat, k: nat)
    requires SameUpTo(w, v, p, k) && DatumWhole(w, p, k)
    ensures k < |v| && DatumWhole(v, p, k)
  {
    hide Span, Closed, SameUpTo, Fits, Clean;
    SameFits(w, v, p, k, p);
    SpanCut(Frame(w, k + 1, v, 0, k + 1), p, Ws);
    var s := Span(w, p, k + 1, Ws);
    if s <= k {
      SameFits(w, v, p, k, s);
      ClosedSame(w, v, s, k);
    }
  }

  lemma {:induction false} DataWholeSame(w: string, v: string, p: nat, k: nat)
    requires SameUpTo(w, v, p, k) && DataWhole(w, p, k)
    ensures k < |v| && DataWhole(v, p, k)
    decreases k - p
  {
    hide ProgramData, DatumWhole, SameUpTo, Fits, Clean;
    SameFits(w, v, p, k, p);
    DatumWholeSame(w, v, p, k);
    var fr := Frame(w, k + 1, v, 0, k + 1);
    var d := ProgramData(w, p, k + 1);
    DatumLands(fr, d);
    ProgramDataCut(fr, p);
    SameFits(w, v, p, k, d.pos);
    if d.token.kind != Unknown && d.pos < k && w[d.pos] == ',' {
      SameFits(w, v, p, k, d.pos + 1);
      DataWholeSame(w, v, d.pos + 1, k);
    }
  }

  lemma UnitWholeSame(w: string, v: string, p: nat, k: nat)
    requires SameUpTo(w, v, p, k) && UnitWhole(w, p, k)
    ensures k < |v| && UnitWhole(v, p, k)
  {
    hide Span, Header, DataWhole, SameUpTo, Fits, Clean;
    SameFits(w, v, p, k, p);
    var fr := Frame(w, k + 1, v, 0, k + 1);
    SpanCut(fr, p, Ws);
    var a := Span(w, p, k + 1, Ws);
    SameFits(w, v, p, k, a);
    HeaderCut(fr, a);
    var h := Header(w, a, k + 1);
    SameFits(w, v, p, k, h.pos);
    SpanCut(fr, h.pos, Ws);
    var s := Span(w, h.pos, k + 1, Ws);
    if h.pos < s <= k {
      SameFits(w, v, p, k, s);
      DataWholeSame(w, v, s, k);
    }
  }

  lemma {:induction false} LineWholeSame(w: string, v: string, p: nat, k: nat)
    requires SameUpTo(w, v, p, k) && LineWhole(w, p, k)
    ensures k < |v| && LineWhole(v, p, k)
    decreases k - p
  {
    hide DetectUnit, UnitWhole, SameUpTo, Fits, Clean;
    SameFits(w, v, p, k, p);
    UnitWholeSame(w, v, p, k);
    UnitCut(Frame(w, k + 1, v, 0, k + 1), p);
    var u := DetectUnit(w, p, k + 1);
    if u.pos <= k {
      SameFits(w, v, p, k, u.pos);
      LineWholeSame(w, v, u.pos, k);
    }
  }

  // ---------- whole texts ----------

  lemma WholeUnfold(w: string)
    requires NlIndex(w) < |w|
    ensures var k := NlIndex(w);
            && k < NewLineEnd(w, k, |w|)
            && (WholeText(w) <==> LineWhole(w, 0, k) && WholeText(w[NewLineEnd(w, k, |w|)..]))
  {
    hide NlIndex, LineWhole;
  }

  lemma NoNlIsWhole(w: string)
    requires NlIndex(w) == |w|
    ensures WholeText(w)
  {
    hide NlIndex;
  }

  lemma NlIndexAppend(b: string, c: string)
    requires NlIndex(b) < |b|
    ensures NlIndex(b + c) == NlIndex(b)
    ensures SameUpTo(b, b + c, 0, NlIndex(b)) && SameUpTo(b + c, b, 0, NlIndex(b))
  {
    hide NlIndex;
    var k, j := NlIndex(b), NlIndex(b + c);
    assert (b + c)[k] == b[k];
    assert forall i :: 0 <= i <= k ==> (b + c)[i] == b[i];
  }

  lemma NewLineAppend(b: string, c: string, k: nat)
    requires k < |b| && IsNl(b[k])
    ensures var t := NewLineEnd(b, k, |b|);
            var u := NewLineEnd(b + c, k, |b + c|);
            u == t || (u == t + 1 && t == |b| == k + 1 && c != "" && c[0] == '\n' && b[k] == '\r')
    ensures k < NewLineEnd(b, k, |b|)
  {
    assert (b + c)[k] == b[k];
    if k + 1 < |b| {
      assert (b + c)[k + 1] == b[k + 1];
    } else if c != "" {
      assert (b + c)[k + 1] == c[0];
    }
  }

  lemma WholePrefix(a: string, b: string)
    requires WholeText(a + b)
    ensures WholeText(a)
    decreases |a|
  {
    hide NlIndex, LineWhole, WholeText, NewLineEnd, SameUpTo, IsNl;
    var k := NlIndex(a);
    if k == |a| {
      NoNlIsWhole(a);
    } else {
      NlIndexAppend(a, b);
      NewLineAppend(a, b, k);
      WholeUnfold(a);
      WholeUnfold(a + b);
      LineWholeSame(a + b, a, 0, k);
      var t, u := NewLineEnd(a, k, |a|), NewLineEnd(a + b, k, |a + b|);
      if u == t {
        assert (a + b)[t..] == a[t..] + b;
        WholePrefix(a[t..], b);
      } else {
        assert a[t..] == "";
        NothingIsWhole();
      }
    }
  }

  lemma NothingIsWhole()
    ensures WholeText("")
  {
    NoNlIsWhole("");
  }

  /** A line terminator in front of a whole text, or of what is left of one. */
  lemma NlIsWhole(c: string)
    requires c != "" && IsNl(c[0])
    ensures FirstNl(c, 0, 0) && LineWhole(c, 0, 0) && NlIndex(c) == 0
  {
    hide Header, Span, DataWhole;
  }

  // ---------- plain text ----------

  predicate IsPlainChar(c: char) {
    c != '"' && c != '\'' && c != '#'
  }

  ghost predicate Plain(w: string) {
    forall i :: 0 <= i < |w| ==> IsPlainChar(w[i])
  }

  lemma {:induction false} PlainData(w: string, p: nat, k: nat)
    requires Plain(w) && p <= k < |w|
    ensures DataWhole(w, p, k)
    decreases k - p
  {
    hide ProgramData, Span, QuoteEnd, BlockFits;
    var d := ProgramData(w, p, k + 1);
    if d.token.kind != Unknown && d.pos < k && w[d.pos] == ',' {
      PlainData(w, d.pos + 1, k);
    }
  }

  lemma PlainUnit(w: string, p: nat, k: nat)
    requires Plain(w) && p <= k < |w|
    ensures UnitWhole(w, p, k)
  {
    hide Plain, Header, Span, DataWhole;
    var h := Header(w, Span(w, p, k + 1, Ws), k + 1);
    var s := Span(w, h.pos, k + 1, Ws);
    if h.pos < s <= k {
      PlainData(w, s, k);
    }
  }

  lemma {:induction false} PlainLine(w: string, p: nat, k: nat)
    requires Plain(w) && p <= k < |w|
    ensures LineWhole(w, p, k)
    decreases k - p
  {
    hide Plain, DetectUnit, UnitWhole;
    PlainUnit(w, p, k);
    var u := DetectUnit(w, p, k + 1);
    if u.pos <= k {
      PlainLine(w, u.pos, k);
    }
  }

  /** A text without quotes and '#' is whole. */
  lemma {:induction false} PlainIsWhole(w: string)
    requires Plain(w)
    ensures WholeText(w)
    decreases |w|
  {
    hide IsPlainChar, NlIndex, LineWhole, WholeText, NewLineEnd;
    var k := NlIndex(w);
    if k == |w| {
      NoNlIsWhole(w);
    } else {
      WholeUnfold(w);
      PlainLine(w, 0, k);
      PlainIsWhole(w[NewLineEnd(w, k, |w|)..]);
    }
  }
}
