/** Quoted strings (IEEE 488.2 section 7.7.5): lexing a text whose quotes were doubled and
    copying it out with SCPI_ParamCopyText gives the text back. */
module QuotedText {
  import opened Lexer
  import opened LexerLaws
  import opened Framing

  function Doubled(text: string, quote: char): string
    decreases |text|
  {
    if text == "" then "" else (if text[0] == quote then [quote, quote] else [text[0]]) + Doubled(text[1..], quote)
  }

  function Quote(text: string, quote: char): string {
    [quote] + Doubled(text, quote) + [quote]
  }

  /** The scan for the closing quote passes over the doubled text. */
  lemma {:induction false} QuoteEndOfDoubled(w: string, p: nat, e: nat, text: string, quote: char)
    requires p <= e <= |w| && Holds(w, p, Doubled(text, quote) + [quote])
    requires p + |Doubled(text, quote)| < e
    requires p + |Doubled(text, quote)| + 1 < e ==> w[p + |Doubled(text, quote)| + 1] != quote
    ensures QuoteEnd(w, p, e, quote) == p + |Doubled(text, quote)|
    decreases |text|
  {
    hide Holds;
    var s := Doubled(text, quote) + [quote];
    HoldsAt(w, p, s, 0);
    if text == "" {
      assert Doubled(text, quote) == "";
    } else {
      var rest := Doubled(text[1..], quote) + [quote];
      if text[0] == quote {
        assert s == [quote, quote] + rest;
        HoldsAt(w, p, s, 1);
        HoldsTail(w, p, s, 2);
        assert s[2..] == rest;
        QuoteEndOfDoubled(w, p + 2, e, text[1..], quote);
      } else {
        assert s == [text[0]] + rest;
        HoldsTail(w, p, s, 1);
        assert s[1..] == rest;
        QuoteEndOfDoubled(w, p + 1, e, text[1..], quote);
      }
    }
  }

  lemma {:induction false} DoubledSevenBit(text: string, quote: char)
    requires quote as int <= 0x7f
    ensures SevenBit(Doubled(text, quote), 0, |Doubled(text, quote)|) <==> SevenBit(text, 0, |text|)
    decreases |text|
  {
    if text != "" {
      DoubledSevenBit(text[1..], quote);
      var d, n := Doubled(text, quote), if text[0] == quote then 2 else 1;
      assert d[n..] == Doubled(text[1..], quote);
      assert d[0] == text[0] && d[n - 1] == text[0];
      assert SevenBit(d, 0, n) <==> d[0] as int <= 0x7f;
      assert SevenBit(text, 0, 1) <==> text[0] as int <= 0x7f;
      SevenBitSplit(d, n);
      SevenBitSplit(text, 1);
    }
  }

  lemma SevenBitSplit(s: string, n: nat)
    requires n <= |s|
    ensures SevenBit(s, 0, |s|) <==> SevenBit(s, 0, n) && SevenBit(s[n..], 0, |s[n..]|)
  {
    if SevenBit(s, 0, n) && SevenBit(s[n..], 0, |s[n..]|) {
      forall i | 0 <= i < |s| ensures s[i] as int <= 0x7f {
        if i >= n {
          assert s[n..][i - n] == s[i];
        }
      }
    }
  }

  lemma SevenBitHeld(w: string, p: nat, s: string)
    requires Holds(w, p, s)
    ensures p + |s| <= |w| && (SevenBit(w, p, p + |s|) <==> SevenBit(s, 0, |s|))
  {
    if SevenBit(s, 0, |s|) {
      forall i | p <= i < p + |s| ensures w[i] as int <= 0x7f {
        HoldsAt(w, p, s, i - p);
      }
    }
    if SevenBit(w, p, p + |s|) {
      forall i | 0 <= i < |s| ensures s[i] as int <= 0x7f {
        HoldsAt(w, p, s, i);
      }
    }
  }

  /** Lexing a quoted text comes to an end if and only if the text is 7-bit, and then yields
      exactly the quoted text, whatever follows but another such quote. */
  lemma LexQuoted(w: string, p: nat, e: nat, text: string, quote: char)
    requires IsQuote(quote) && p <= e <= |w| && Holds(w, p, Quote(text, quote))
    requires var end := p + |Quote(text, quote)|; end <= e && (end < e ==> w[end] != quote)
    ensures StringEnds(w, p, e) <==> SevenBit(text, 0, |text|)
    ensures var q := Quote(text, quote);
            SevenBit(text, 0, |text|) ==> StringData(w, p, e) == Lexed(Token(QuoteKind(quote), p, |q|), p + |q|)
  {
    hide QuoteEnd, Doubled, Holds, SevenBit;
    var s := Quote(text, quote);
    var d := Doubled(text, quote);
    HoldsAt(w, p, s, 0);
    HoldsTail(w, p, s, 1);
    assert s[1..] == d + [quote];
    QuoteEndOfDoubled(w, p + 1, e, text, quote);
    HoldsPart(w, p + 1, d + [quote], 0, |d|);
    assert (d + [quote])[0..|d|] == d;
    SevenBitHeld(w, p + 1, d);
    DoubledSevenBit(text, quote);
  }

  /** So does the parameter reader, which tries the other kinds of data first. */
  lemma {:induction false} ReadQuoted(w: string, p: nat, e: nat, text: string, quote: char)
    requires IsQuote(quote) && p <= e <= |w| && Holds(w, p, Quote(text, quote))
    requires var end := p + |Quote(text, quote)|; end <= e && (end < e ==> w[end] != quote)
    ensures DatumEnds(w, p, e) <==> SevenBit(text, 0, |text|)
    ensures SevenBit(text, 0, |text|) ==> ProgramData(w, p, e).token == Token(QuoteKind(quote), p, |Quote(text, quote)|)
  {
    hide StringData, StringEnds, NondecimalData, CharacterData, Number, Span, Quote, Holds, SevenBit;
    LexQuoted(w, p, e, text, quote);
    QuoteHeld(w, p, text, quote);
    QuoteFirst(w, p, e);
  }

  lemma QuoteHeld(w: string, p: nat, text: string, quote: char)
    requires Holds(w, p, Quote(text, quote))
    ensures p < |w| && w[p] == quote && |Quote(text, quote)| > 0
  {
    HoldsAt(w, p, Quote(text, quote), 0);
  }

  /** At a quote nothing but a string is recognized. */
  lemma QuoteFirst(w: string, p: nat, e: nat)
    requires p < e <= |w| && IsQuote(w[p])
    ensures Span(w, p, e, Ws) == p
    ensures NondecimalData(w, p, e).pos == p && CharacterData(w, p, e).pos == p && Number(w, p, e).counted == 0
  {
    hide Span;
    SpanIs(w, p, e, Ws, p);
    SpanIs(w, p, e, Digit, p);
  }

  // ---------- SCPI_ParamCopyText ----------

  /** The copy loop from index i of the token text s, into a buffer of limit bytes: the index
      into s, not the one into the buffer, is compared with the limit. */
  function Copy(s: string, i: nat, limit: nat, quote: char): (r: string)
    requires |s| >= 1
    ensures |r| <= if i <= limit then limit - i else 0
    decreases |s| - i
  {
    if i >= |s| - 1 || i >= limit then ""
    else [s[i]] + Copy(s, if s[i] == quote then i + 2 else i + 1, limit, quote)
  }

  /** How many characters of the text the loop copies: those whose place in the quoted text,
      counted from at, is below the limit. */
  function Fitting(text: string, at: nat, limit: nat, quote: char): (k: nat)
    ensures k <= |text|
    decreases |text|
  {
    if text == "" || at >= limit then 0
    else 1 + Fitting(text[1..], if text[0] == quote then at + 2 else at + 1, limit, quote)
  }

  lemma {:induction false} CopyFrom(s: string, i: nat, limit: nat, text: string, quote: char)
    requires |s| >= 1 && i <= |s| - 1 && s[i..] == Doubled(text, quote) + [quote]
    ensures Copy(s, i, limit, quote) == text[..Fitting(text, i, limit, quote)]
    decreases |text|
  {
    if text == "" {
      assert s[i..] == [quote];
    } else if i < limit {
      var d := Doubled(text, quote);
      assert s[i] == s[i..][0] == text[0];
      var next := if text[0] == quote then i + 2 else i + 1;
      assert s[next..] == s[i..][next - i..] == Doubled(text[1..], quote) + [quote];
      CopyFrom(s, next, limit, text[1..], quote);
      var k := Fitting(text[1..], next, limit, quote);
      assert [text[0]] + text[1..][..k] == text[..k + 1];
    }
  }

  /** Copying the quoted text out gives back a prefix of the text, whole when it all fits. */
  lemma CopyOfQuoted(text: string, quote: char, limit: nat)
    ensures Copy(Quote(text, quote), 1, limit, quote) == text[..Fitting(text, 1, limit, quote)]
  {
    var s := Quote(text, quote);
    assert s[1..] == Doubled(text, quote) + [quote];
    CopyFrom(s, 1, limit, text, quote);
  }

  lemma {:induction false} FittingAll(text: string, at: nat, limit: nat, quote: char)
    ensures Fitting(text, at, limit, quote) == |text|
       <==> text == "" || at + |Doubled(text[..|text| - 1], quote)| < limit
    decreases |text|
  {
    if text == "" {
    } else if |text| == 1 {
      assert text[..0] == "" && text[1..] == "";
    } else {
      var next := if text[0] == quote then at + 2 else at + 1;
      FittingAll(text[1..], next, limit, quote);
      var init := text[..|text| - 1];
      assert init[1..] == text[1..][..|text| - 2] && init[0] == text[0];
    }
  }

  /** The exact buffer size for a complete copy: a doubled quote costs two places, although it
      is stored as one character. */
  lemma CopyIsWhole(text: string, quote: char, limit: nat)
    ensures Copy(Quote(text, quote), 1, limit, quote) == text
       <==> text == "" || |Doubled(text[..|text| - 1], quote)| + 1 < limit
  {
    CopyOfQuoted(text, quote, limit);
    FittingAll(text, 1, limit, quote);
    var k := Fitting(text, 1, limit, quote);
    assert k < |text| ==> |text[..k]| < |text|;
    assert text[..|text|] == text;
  }

  /** The copy loop over the token text s, with its terminating zero. */
  method CopyText(s: string, quote: char, buffer: array<char>, bufferLen: nat) returns (copyLen: nat)
    requires |s| >= 1 && bufferLen <= buffer.Length
    modifies buffer
    ensures var r := Copy(s, 1, bufferLen, quote);
            && copyLen == |r| && copyLen <= bufferLen && buffer[..copyLen] == r
            && (bufferLen > 0 ==> copyLen < bufferLen && buffer[copyLen] == '\0')
            && (bufferLen == 0 ==> copyLen == 0)
    ensures buffer[bufferLen..] == old(buffer[bufferLen..])
  {
    ghost var all := Copy(s, 1, bufferLen, quote);
    var iFrom, iTo := 1, 0;
    while iFrom < |s| - 1
      invariant 0 <= iTo < iFrom && iTo <= |all|
      invariant buffer[..iTo] == all[..iTo]
      invariant iTo <= bufferLen && Copy(s, iFrom, bufferLen, quote) == all[iTo..]
      invariant buffer[bufferLen..] == old(buffer[bufferLen..])
      decreases |s| - iFrom
    {
      if iFrom >= bufferLen {
        break;
      }
      assert all[iTo..][0] == s[iFrom];
      assert all[iTo..][1..] == all[iTo + 1..];
      buffer[iTo] := s[iFrom];
      iTo := iTo + 1;
      if s[iFrom] == quote {
        iFrom := iFrom + 1;
      }
      iFrom := iFrom + 1;
    }
    copyLen := iTo;
    if iTo < bufferLen {
      buffer[iTo] := '\0';
    }
  }

  /** A doubled quote in front of the last character costs that character, although the buffer
      has a place for it and for the terminator: "a""b" is copied into four bytes as a". */
  lemma DoubledQuoteCosts()
    ensures Quote("a\"b", '"') == "\"a\"\"b\""
    ensures Copy(Quote("a\"b", '"'), 1, 4, '"') == "a\"" != "a\"b"
    ensures |"a\"b"| < 4
  {
    var text := "a\"b";
    assert text[1..] == "\"b" && text[1..][1..] == "b" && text[1..][1..][1..] == "";
    assert Doubled("", '"') == "";
    assert Doubled("b", '"') == "b";
    assert Doubled("\"b", '"') == "\"\"b";
    var s := "\"a\"\"b\"";
    assert Quote(text, '"') == s;
    assert Copy(s, 4, 4, '"') == "";
    assert Copy(s, 2, 4, '"') == [s[2]] + Copy(s, 4, 4, '"');
    assert Copy(s, 1, 4, '"') == [s[1]] + Copy(s, 2, 4, '"');
  }
}
