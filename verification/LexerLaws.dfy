/** How the lexer behaves when its text is moved in memory or cut short. One frame describes
    both: text w up to e, and text v that repeats w[..m] shifted by d and ends there. */
module LexerLaws {
  import opened Basics
  import opened Lexer

  datatype Frame = Frame(w: string, e: nat, v: string, d: int, m: nat)

  /** From p to the cut the two texts hold the same characters. */
  ghost predicate Fits(fr: Frame, p: nat) {
    && p <= fr.m <= fr.e <= |fr.w|
    && 0 <= p + fr.d && fr.m + fr.d <= |fr.v|
    && forall i :: p <= i < fr.m ==> fr.v[i + fr.d] == fr.w[i]
  }

  /** The cut is the end of the text, or lies just behind a line terminator. */
  ghost predicate Clean(fr: Frame) {
    fr.m == fr.e || (0 < fr.m <= |fr.w| && IsNl(fr.w[fr.m - 1]))
  }

  function Move(t: Token, d: int): Token
    requires 0 <= t.ptr + d
  {
    t.(ptr := t.ptr + d)
  }

  function MoveLexed(r: Lexed, d: int): Lexed
    requires 0 <= r.pos + d && 0 <= r.token.ptr + d
  {
    Lexed(Move(r.token, d), r.pos + d)
  }

  // ---------- texts inside texts ----------

  /** w holds s at p. */
  ghost predicate Holds(w: string, p: nat, s: string) {
    p + |s| <= |w| && w[p..p + |s|] == s
  }

  lemma HoldsTail(w: string, p: nat, s: string, k: nat)
    requires Holds(w, p, s) && k <= |s|
    ensures Holds(w, p + k, s[k..])
  {
    assert w[p..p + |s|][k..] == w[p + k..p + |s|];
  }

  lemma HoldsAt(w: string, p: nat, s: string, k: nat)
    requires Holds(w, p, s) && k < |s|
    ensures w[p + k] == s[k]
  {
    assert w[p..p + |s|][k] == w[p + k];
  }

  lemma HoldsPart(w: string, p: nat, s: string, i: nat, j: nat)
    requires Holds(w, p, s) && i <= j <= |s|
    ensures Holds(w, p + i, s[i..j])
  {
    HoldsTail(w, p, s, i);
    var t := s[i..];
    assert t[..j - i] == s[i..j];
    assert w[p + i..p + i + |t|][..j - i] == w[p + i..p + i + (j - i)];
  }

  lemma HoldsSplit(w: string, p: nat, text: string, a: string, b: string)
    requires Holds(w, p, text) && text == a + b
    ensures Holds(w, p, a) && Holds(w, p + |a|, b) && p + |text| <= |w|
  {
    HoldsPart(w, p, text, 0, |a|);
    HoldsTail(w, p, text, |a|);
    assert text[0..|a|] == a && text[|a|..] == b;
  }

  // ---------- spans ----------

  /** A span is determined by its two defining properties. */
  lemma {:induction false} SpanIs(w: string, p: nat, e: nat, k: Class, q: nat)
    requires p <= q <= e <= |w|
    requires forall i :: p <= i < q ==> Is(w[i], k)
    requires q < e ==> !Is(w[q], k)
    ensures Span(w, p, e, k) == q
    decreases q - p
  {
    if p < q {
      SpanIs(w, p + 1, e, k, q);
    }
  }

  lemma SpanCut(fr: Frame, p: nat, k: Class)
    requires Fits(fr, p)
    ensures Span(fr.v, p + fr.d, fr.m + fr.d, k) == Min(Span(fr.w, p, fr.e, k), fr.m) + fr.d
  {
    var q := Min(Span(fr.w, p, fr.e, k), fr.m);
    hide Span, Is;
    forall j | p + fr.d <= j < q + fr.d ensures Is(fr.v[j], k) {
      assert fr.v[(j - fr.d) + fr.d] == fr.w[j - fr.d];
    }
    if q < fr.m {
      assert fr.v[q + fr.d] == fr.w[q];
    }
    SpanIs(fr.v, p + fr.d, fr.m + fr.d, k, q + fr.d);
  }

  lemma SkipCut(fr: Frame, p: nat, c: char)
    requires Fits(fr, p)
    ensures Skip(fr.v, p + fr.d, fr.m + fr.d, c) == Min(Skip(fr.w, p, fr.e, c), fr.m) + fr.d
  {
  }

  lemma SkipSignCut(fr: Frame, p: nat)
    requires Fits(fr, p)
    ensures SkipSign(fr.v, p + fr.d, fr.m + fr.d) == Min(SkipSign(fr.w, p, fr.e), fr.m) + fr.d
  {
  }

  lemma SkipDigitCut(fr: Frame, p: nat)
    requires Fits(fr, p)
    ensures SkipDigit(fr.v, p + fr.d, fr.m + fr.d) == Min(SkipDigit(fr.w, p, fr.e), fr.m) + fr.d
  {
  }

  lemma FitsBounds(fr: Frame, p: nat)
    requires Fits(fr, p)
    ensures p <= fr.m <= fr.e <= |fr.w| && 0 <= p + fr.d && fr.m + fr.d <= |fr.v|
  {
  }

  lemma FitsItself(w: string, s: nat, e: nat, m: nat)
    requires s <= m <= e <= |w|
    ensures Fits(Frame(w, e, w, 0, m), s)
  {
  }

  lemma FitsLater(fr: Frame, p: nat, q: nat)
    requires Fits(fr, p) && p <= q <= fr.m
    ensures Fits(fr, q)
  {
  }

  lemma SameChar(fr: Frame, p: nat)
    requires Fits(fr, p) && p < fr.m
    ensures fr.v[p + fr.d] == fr.w[p]
  {
  }

  // ---------- headers ----------

  lemma MnemonicCut(fr: Frame, p: nat)
    requires Fits(fr, p)
    ensures MnemonicEnd(fr.v, p + fr.d, fr.m + fr.d) == Min(MnemonicEnd(fr.w, p, fr.e), fr.m) + fr.d
  {
    if p < fr.m {
      SameChar(fr, p);
      FitsLater(fr, p, p + 1);
      SpanCut(fr, p + 1, Word);
    }
    hide Span, IsAlpha;
  }

  function MoveSkipped(s: Skipped, d: int): Skipped
    requires 0 <= s.pos + d
  {
    Skipped(s.res, s.pos + d)
  }

  lemma MovedOutcome()
    ensures forall s: Skipped, d: int | 0 <= s.pos + d :: MoveSkipped(s, d) == Skipped(s.res, s.pos + d)
  {
  }

  lemma CommonCut(fr: Frame, p: nat)
    requires Fits(fr, p) && CommonSkip(fr.w, p, fr.e).pos <= fr.m
    ensures CommonSkip(fr.v, p + fr.d, fr.m + fr.d) == MoveSkipped(CommonSkip(fr.w, p, fr.e), fr.d)
  {
    hide MnemonicEnd;
    if p < fr.m {
      SameChar(fr, p);
      FitsLater(fr, p, p + 1);
      MnemonicCut(fr, p + 1);
    }
  }

  lemma {:induction false} ChainCut(fr: Frame, p: nat)
    requires Fits(fr, p) && ColonChain(fr.w, p, fr.e).pos <= fr.m
    ensures ColonChain(fr.v, p + fr.d, fr.m + fr.d) == MoveSkipped(ColonChain(fr.w, p, fr.e), fr.d)
    decreases fr.m - p
  {
    hide MnemonicEnd;
    if p < fr.m {
      SameChar(fr, p);
      if fr.w[p] == ':' {
        FitsLater(fr, p, p + 1);
        MnemonicCut(fr, p + 1);
        var q := MnemonicEnd(fr.w, p + 1, fr.e);
        if q > p + 1 {
          FitsLater(fr, p, q);
          ChainCut(fr, q);
        }
      }
    }
  }

  lemma CompoundCut(fr: Frame, p: nat)
    requires Fits(fr, p) && CompoundSkip(fr.w, p, fr.e).pos <= fr.m
    ensures CompoundSkip(fr.v, p + fr.d, fr.m + fr.d) == MoveSkipped(CompoundSkip(fr.w, p, fr.e), fr.d)
  {
    hide MnemonicEnd, ColonChain, Skip, Fits, MoveSkipped;
    FitsBounds(fr, p);
    SkipCut(fr, p, ':');
    MovedOutcome();
    var s := Skip(fr.w, p, fr.e, ':');
    FitsLater(fr, p, s);
    MnemonicCut(fr, s);
    var q := MnemonicEnd(fr.w, s, fr.e);
    if q > s {
      FitsLater(fr, p, q);
      ChainCut(fr, q);
    }
  }

  lemma QueryCut(fr: Frame, s: Skipped, query: Kind, plain: Kind, incomplete: Kind)
    requires Fits(fr, s.pos)
    requires QueryOr(fr.w, s, fr.e, query, plain, incomplete).1 <= fr.m
    ensures var (k, q) := QueryOr(fr.w, s, fr.e, query, plain, incomplete);
            QueryOr(fr.v, MoveSkipped(s, fr.d), fr.m + fr.d, query, plain, incomplete) == (k, q + fr.d)
  {
    SkipCut(fr, s.pos, '?');
    hide Skip;
  }

  lemma {:induction false} HeaderCut(fr: Frame, p: nat)
    requires Fits(fr, p) && Header(fr.w, p, fr.e).pos <= fr.m
    ensures Header(fr.v, p + fr.d, fr.m + fr.d) == MoveLexed(Header(fr.w, p, fr.e), fr.d)
  {
    hide CommonSkip, CompoundSkip, QueryOr;
    var c := CommonSkip(fr.w, p, fr.e);
    CommonCut(fr, p);
    if !c.res.None? {
      FitsLater(fr, p, c.pos);
      QueryCut(fr, c, CommonQuery, CommonHeader, IncompleteCommonHeader);
    } else {
      var s := CompoundSkip(fr.w, p, fr.e);
      CompoundCut(fr, p);
      if !s.res.None? {
        FitsLater(fr, p, s.pos);
        QueryCut(fr, s, CompoundQuery, CompoundHeader, IncompleteCompoundHeader);
      }
    }
  }

  // ---------- numbers ----------

  lemma UnsignedMantissaCut(fr: Frame, p: nat)
    requires Fits(fr, p)
    ensures var (n, q) := UnsignedMantissa(fr.w, p, fr.e);
            var (n', q') := UnsignedMantissa(fr.v, p + fr.d, fr.m + fr.d);
            && n' <= n
            && (q <= fr.m ==> n' == n && q' == q + fr.d)
  {
    hide Span, Fits;
    FitsBounds(fr, p);
    SpanCut(fr, p, Digit);
    var g := Span(fr.w, p, fr.e, Digit);
    if g < fr.m {
      FitsLater(fr, p, g);
      SameChar(fr, g);
      FitsLater(fr, p, g + 1);
      SpanCut(fr, g + 1, Digit);
    }
  }

  lemma MantissaCut(fr: Frame, p: nat)
    requires Fits(fr, p)
    ensures var (n, q) := Mantissa(fr.w, p, fr.e);
            var (n', q') := Mantissa(fr.v, p + fr.d, fr.m + fr.d);
            && n' <= n
            && (q <= fr.m ==> n' == n && q' == q + fr.d)
  {
    hide SkipSign, Span, Fits, UnsignedMantissa;
    FitsBounds(fr, p);
    SkipSignCut(fr, p);
    var s := SkipSign(fr.w, p, fr.e);
    if s <= fr.m {
      FitsLater(fr, p, s);
      UnsignedMantissaCut(fr, s);
    }
  }

  lemma SignedDigitsCut(fr: Frame, p: nat)
    requires Fits(fr, p)
    ensures var (n, q) := SignedDigits(fr.w, p, fr.e);
            var (n', q') := SignedDigits(fr.v, p + fr.d, fr.m + fr.d);
            && n' <= n
            && (q <= fr.m ==> n' == n && q' == q + fr.d)
  {
    hide SkipSign, Span, Fits;
    FitsBounds(fr, p);
    SkipSignCut(fr, p);
    var g := SkipSign(fr.w, p, fr.e);
    if g <= fr.m {
      FitsLater(fr, p, g);
      SpanCut(fr, g, Digit);
    }
  }

  lemma ExponentCut(fr: Frame, p: nat)
    requires Fits(fr, p)
    ensures var (n, q) := Exponent(fr.w, p, fr.e);
            var (n', q') := Exponent(fr.v, p + fr.d, fr.m + fr.d);
            && n' <= n
            && (q <= fr.m ==> n' == n && q' == q + fr.d)
  {
    hide SignedDigits, Span, Fits;
    FitsBounds(fr, p);
    if p < fr.m {
      SameChar(fr, p);
      FitsLater(fr, p, p + 1);
      SpanCut(fr, p + 1, Ws);
      var s := Min(Span(fr.w, p + 1, fr.e, Ws), fr.m);
      FitsLater(fr, p, s);
      SignedDigitsCut(fr, s);
      if s == fr.m {
        NoDigitsAtEnd(fr.v, fr.m + fr.d);
      }
    }
  }

  lemma NoDigitsAtEnd(w: string, e: nat)
    requires e <= |w|
    ensures SignedDigits(w, e, e) == (0, e)
  {
  }

  lemma DecimalCut(fr: Frame, p: nat)
    requires Fits(fr, p) && DecimalEnd(fr.w, p, fr.e) <= fr.m
    ensures DecimalEnd(fr.v, p + fr.d, fr.m + fr.d) == DecimalEnd(fr.w, p, fr.e) + fr.d
  {
    hide Mantissa, Exponent, Span;
    MantissaCut(fr, p);
    var (n, g) := Mantissa(fr.w, p, fr.e);
    if n > 0 && g <= fr.m {
      FitsLater(fr, p, g);
      SpanCut(fr, g, Ws);
      var s := Span(fr.w, g, fr.e, Ws);
      if s <= fr.m {
        FitsLater(fr, p, s);
        ExponentCut(fr, s);
      } else {
        FitsLater(fr, p, fr.m);
        NoExponentAtEnd(fr.v, fr.m + fr.d);
      }
    }
  }

  lemma NoExponentAtEnd(w: string, e: nat)
    requires e <= |w|
    ensures Exponent(w, e, e) == (0, e)
  {
  }

  lemma SuffixUnitCut(fr: Frame, p: nat)
    requires Fits(fr, p)
    ensures SuffixUnit(fr.v, p + fr.d, fr.m + fr.d) == Min(SuffixUnit(fr.w, p, fr.e), fr.m) + fr.d
  {
    SkipCut(fr, p, '-');
    hide Skip;
    var s := Skip(fr.w, p, fr.e, '-');
    if s <= fr.m {
      FitsLater(fr, p, s);
      SkipDigitCut(fr, s);
    }
  }

  /** One round of the suffix loop. */
  lemma SuffixRoundCut(fr: Frame, p: nat)
    requires Fits(fr, p)
    requires SuffixUnit(fr.w, Span(fr.w, p, fr.e, Alpha), fr.e) <= fr.m
    ensures SuffixUnit(fr.v, Span(fr.v, p + fr.d, fr.m + fr.d, Alpha), fr.m + fr.d)
            == SuffixUnit(fr.w, Span(fr.w, p, fr.e, Alpha), fr.e) + fr.d
  {
    hide SuffixUnit, Span, Fits;
    FitsBounds(fr, p);
    SpanCut(fr, p, Alpha);
    var a := Span(fr.w, p, fr.e, Alpha);
    FitsLater(fr, p, a);
    SuffixUnitCut(fr, a);
  }

  lemma {:induction false} SuffixTailCut(fr: Frame, p: nat)
    requires Fits(fr, p) && SuffixTail(fr.w, p, fr.e) <= fr.m
    ensures SuffixTail(fr.v, p + fr.d, fr.m + fr.d) == SuffixTail(fr.w, p, fr.e) + fr.d
    decreases fr.m - p
  {
    hide SuffixUnit, SuffixTail, Span, Fits;
    FitsBounds(fr, p);
    SuffixTailIs(fr.w, p, fr.e);
    SuffixTailIs(fr.v, p + fr.d, fr.m + fr.d);
    if p < fr.m {
      SameChar(fr, p);
      if fr.w[p] == '/' || fr.w[p] == '.' {
        var u := SuffixUnit(fr.w, Span(fr.w, p + 1, fr.e, Alpha), fr.e);
        FitsLater(fr, p, p + 1);
        SuffixRoundCut(fr, p + 1);
        FitsLater(fr, p, u);
        SuffixTailCut(fr, u);
      }
    }
  }

  lemma SuffixRestCut(fr: Frame, a: nat)
    requires Fits(fr, a) && SuffixRest(fr.w, a, fr.e) <= fr.m
    ensures SuffixRest(fr.v, a + fr.d, fr.m + fr.d) == SuffixRest(fr.w, a, fr.e) + fr.d
  {
    hide SuffixUnit, SuffixTail;
    SuffixUnitCut(fr, a);
    var u := SuffixUnit(fr.w, a, fr.e);
    FitsLater(fr, a, u);
    SuffixTailCut(fr, u);
  }

  lemma SuffixCut(fr: Frame, p: nat)
    requires Fits(fr, p) && SuffixEnd(fr.w, p, fr.e) <= fr.m
    ensures SuffixEnd(fr.v, p + fr.d, fr.m + fr.d) == SuffixEnd(fr.w, p, fr.e) + fr.d
  {
    hide Span, Skip, SuffixRest, Fits;
    FitsBounds(fr, p);
    SkipCut(fr, p, '/');
    var s := Skip(fr.w, p, fr.e, '/');
    FitsLater(fr, p, s);
    SpanCut(fr, s, Alpha);
    var a := Span(fr.w, s, fr.e, Alpha);
    if a > s {
      FitsLater(fr, p, a);
      SuffixRestCut(fr, a);
    }
  }

  /** Cutting the text right where a suffix could start leaves no suffix. */
  lemma SuffixAtEnd(w: string, e: nat)
    requires e <= |w|
    ensures SuffixEnd(w, e, e) == e
  {
  }

  lemma NondecimalCut(fr: Frame, p: nat)
    requires Fits(fr, p) && NondecimalData(fr.w, p, fr.e).pos <= fr.m
    ensures NondecimalData(fr.v, p + fr.d, fr.m + fr.d) == MoveLexed(NondecimalData(fr.w, p, fr.e), fr.d)
  {
    if p + 1 < fr.m {
      SameChar(fr, p);
      FitsLater(fr, p, p + 1);
      SameChar(fr, p + 1);
      FitsLater(fr, p, p + 2);
      SpanCut(fr, p + 2, BaseOf(fr.w[p + 1]).0);
    }
    hide Span, IsBase, BaseOf;
  }

  lemma CharacterCut(fr: Frame, p: nat)
    requires Fits(fr, p) && CharacterData(fr.w, p, fr.e).pos <= fr.m
    ensures CharacterData(fr.v, p + fr.d, fr.m + fr.d) == MoveLexed(CharacterData(fr.w, p, fr.e), fr.d)
  {
    MnemonicCut(fr, p);
    hide MnemonicEnd;
  }

  // ---------- strings, blocks, expressions ----------

  lemma CleanEnd(fr: Frame)
    requires Clean(fr)
    ensures fr.m == fr.e || (0 < fr.m <= |fr.w| && IsNl(fr.w[fr.m - 1]))
  {
  }

  lemma QuoteEndIs(w: string, p: nat, e: nat, quote: char)
    requires p <= e <= |w|
    ensures QuoteEnd(w, p, e, quote)
            == (if p == e then p
                else if w[p] != quote then QuoteEnd(w, p + 1, e, quote)
                else if p + 1 < e && w[p + 1] == quote then QuoteEnd(w, p + 2, e, quote)
                else p)
  {
  }

  lemma {:induction false} QuoteCut(fr: Frame, p: nat, quote: char)
    requires Fits(fr, p) && Clean(fr) && !IsNl(quote)
    ensures QuoteEnd(fr.v, p + fr.d, fr.m + fr.d, quote) == Min(QuoteEnd(fr.w, p, fr.e, quote), fr.m) + fr.d
    decreases fr.m - p
  {
    hide Fits, Clean, IsNl, QuoteEnd;
    CleanEnd(fr);
    FitsBounds(fr, p);
    QuoteEndIs(fr.w, p, fr.e, quote);
    QuoteEndIs(fr.v, p + fr.d, fr.m + fr.d, quote);
    if p < fr.m {
      SameChar(fr, p);
      FitsLater(fr, p, p + 1);
      if fr.w[p] != quote {
        QuoteCut(fr, p + 1, quote);
      } else if p + 1 < fr.m {
        SameChar(fr, p + 1);
        if fr.w[p + 1] == quote {
          FitsLater(fr, p, p + 2);
          QuoteCut(fr, p + 2, quote);
        }
      }
    }
  }

  /** The closing quote found inside the cut is found again, wherever the cut is. */
  lemma {:induction false} QuoteFound(fr: Frame, p: nat, quote: char)
    requires Fits(fr, p) && QuoteEnd(fr.w, p, fr.e, quote) < fr.m
    ensures QuoteEnd(fr.v, p + fr.d, fr.m + fr.d, quote) == QuoteEnd(fr.w, p, fr.e, quote) + fr.d
    decreases fr.m - p
  {
    hide Fits, QuoteEnd;
    FitsBounds(fr, p);
    QuoteEndIs(fr.w, p, fr.e, quote);
    QuoteEndIs(fr.v, p + fr.d, fr.m + fr.d, quote);
    SameChar(fr, p);
    FitsLater(fr, p, p + 1);
    if fr.w[p] != quote {
      QuoteFound(fr, p + 1, quote);
    } else if p + 1 < fr.m {
      SameChar(fr, p + 1);
      if fr.w[p + 1] == quote {
        FitsLater(fr, p, p + 2);
        QuoteFound(fr, p + 2, quote);
      }
    }
  }

  lemma StringCut(fr: Frame, p: nat)
    requires Fits(fr, p) && StringData(fr.w, p, fr.e).pos <= fr.m
    requires Clean(fr) || StringData(fr.w, p, fr.e).token.kind != Unknown
    ensures StringData(fr.v, p + fr.d, fr.m + fr.d) == MoveLexed(StringData(fr.w, p, fr.e), fr.d)
  {
    hide QuoteEnd, Fits;
    FitsBounds(fr, p);
    if p < fr.m {
      SameChar(fr, p);
      FitsLater(fr, p, p + 1);
      var c := fr.w[p];
      if IsQuote(c) {
        if QuoteEnd(fr.w, p + 1, fr.e, c) < fr.m {
          QuoteFound(fr, p + 1, c);
        } else {
          QuoteCut(fr, p + 1, c);
        }
      }
    }
  }

  lemma {:induction false} BlockDigitsCut(fr: Frame, p: nat, i: nat, acc: nat)
    requires Fits(fr, p)
    ensures var h := BlockDigits(fr.w, p, fr.e, i, acc);
            var h' := BlockDigits(fr.v, p + fr.d, fr.m + fr.d, i, acc);
            && (h.pos <= fr.m ==> h' == BlockHead(h.missing, h.length, h.pos + fr.d))
            && (h.pos > fr.m ==> h'.missing > 0 && h'.pos == fr.m + fr.d)
            && (h.pos >= fr.m > p ==> IsDigit(fr.w[fr.m - 1]))
    decreases i
  {
    if i > 0 && p < fr.m {
      SameChar(fr, p);
      if IsDigit(fr.w[p]) {
        FitsLater(fr, p, p + 1);
        BlockDigitsCut(fr, p + 1, i - 1, acc * 10 + DigitValue(fr.w[p]));
      }
    }
  }

  lemma BlockCut(fr: Frame, p: nat)
    requires Fits(fr, p) && Block(fr.w, p, fr.e).pos <= fr.m
    requires Clean(fr) || Block(fr.w, p, fr.e).token.kind != Unknown
    ensures Block(fr.v, p + fr.d, fr.m + fr.d) == MoveLexed(Block(fr.w, p, fr.e), fr.d)
  {
    hide BlockDigits, DigitValue, Fits;
    FitsBounds(fr, p);
    if p < fr.m {
      SameChar(fr, p);
      if p + 1 < fr.m {
        FitsLater(fr, p, p + 1);
        SameChar(fr, p + 1);
        if IsDigit(fr.w[p + 1]) {
          FitsLater(fr, p, p + 2);
          BlockDigitsCut(fr, p + 2, DigitValue(fr.w[p + 1]), 0);
          var h := BlockDigits(fr.w, p + 2, fr.e, DigitValue(fr.w[p + 1]), 0);
          if h.pos >= fr.m {
            assert IsDigit(fr.w[fr.m - 1]);
            assert Clean(fr) ==> fr.m == fr.e;
          }
        }
      }
    }
  }

  lemma ExpressionCut(fr: Frame, p: nat)
    requires Fits(fr, p) && Expression(fr.w, p, fr.e).pos <= fr.m
    ensures Expression(fr.v, p + fr.d, fr.m + fr.d) == MoveLexed(Expression(fr.w, p, fr.e), fr.d)
  {
    hide Span, Fits, IsExpr;
    FitsBounds(fr, p);
    if p < fr.m {
      SameChar(fr, p);
      FitsLater(fr, p, p + 1);
      SpanCut(fr, p + 1, Expr);
      var q := Span(fr.w, p + 1, fr.e, Expr);
      if q < fr.m {
        FitsLater(fr, p, q);
        SameChar(fr, q);
      }
    }
  }

  lemma NewLineCut(fr: Frame, p: nat)
    requires Fits(fr, p)
    ensures NewLineEnd(fr.v, p + fr.d, fr.m + fr.d) == Min(NewLineEnd(fr.w, p, fr.e), fr.m) + fr.d
  {
    SkipCut(fr, p, '\r');
    hide Skip;
    var s := Skip(fr.w, p, fr.e, '\r');
    if s <= fr.m {
      FitsLater(fr, p, s);
      SkipCut(fr, s, '\n');
    }
  }
}
