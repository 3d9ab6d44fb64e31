/** The headers of IEEE 488.2 section 7.6.1 and SCPI-99 section 6.2.4 written down character by
    character, and what scpiParser_detectProgramMessageUnit makes of them: an account of the header
    grammar that does not go through the lexer. */
module Grammar {
  import opened Lexer
  import opened LexerLaws
  import opened Framing

  // ---------- characters ----------

  predicate Letter(c: char) {
    'A' <= c <= 'Z' || 'a' <= c <= 'z'
  }

  predicate Figure(c: char) {
    '0' <= c <= '9'
  }

  predicate WordChar(c: char) {
    Letter(c) || Figure(c) || c == '_'
  }

  predicate Blank(c: char) {
    c == ' ' || c == '\t'
  }

  predicate LineEnd(c: char) {
    c == '\n' || c == '\r'
  }

  predicate Blanks(s: string) {
    forall i :: 0 <= i < |s| ==> Blank(s[i])
  }

  // ---------- headers ----------

  /** A character of a mnemonic, or a colon with a letter behind it, in front of q. */
  predicate InHeader(s: string, i: nat, q: nat)
    requires i < q <= |s|
  {
    WordChar(s[i]) || (s[i] == ':' && i + 1 < q && Letter(s[i + 1]))
  }

  /** Mnemonics joined by colons, with or without one in front. */
  predicate IsCompound(s: string) {
    s != "" && (Letter(s[0]) || s[0] == ':') && forall i :: 0 <= i < |s| ==> InHeader(s, i, |s|)
  }

  /** An asterisk and a mnemonic. */
  predicate IsCommon(s: string) {
    |s| >= 2 && s[0] == '*' && Letter(s[1]) && forall i :: 2 <= i < |s| ==> WordChar(s[i])
  }

  /** A command header, or a query header with its question mark. */
  datatype HeaderText = HeaderText(name: string, query: bool)

  predicate IsHeader(h: HeaderText) {
    IsCompound(h.name) || IsCommon(h.name)
  }

  function Spelled(h: HeaderText): string {
    h.name + (if h.query then "?" else "")
  }

  function KindOf(h: HeaderText): Kind {
    if h.name != "" && h.name[0] == '*' then (if h.query then CommonQuery else CommonHeader)
    else if h.query then CompoundQuery else CompoundHeader
  }

  /** Nothing that could belong to a header stands at q. */
  predicate HeaderStops(w: string, q: nat, e: nat)
    requires e <= |w|
  {
    q < e ==> !WordChar(w[q]) && w[q] != ':' && w[q] != '?'
  }

  // ---------- what the lexer makes of them ----------

  ghost predicate Chained(w: string, p: nat, q: nat) {
    p <= q <= |w| && forall i :: p <= i < q ==> InHeader(w, i, q)
  }

  predicate ChainStops(w: string, q: nat, e: nat)
    requires e <= |w|
  {
    q < e ==> !WordChar(w[q]) && w[q] != ':'
  }

  lemma CharactersAgree(c: char)
    ensures IsAlpha(c) <==> Letter(c)
    ensures IsDigit(c) <==> Figure(c)
    ensures Is(c, Word) <==> WordChar(c)
    ensures Is(c, Ws) <==> Blank(c)
    ensures IsNl(c) <==> LineEnd(c)
  {
  }

  /** A mnemonic ends at a colon or at the end of the header. */
  lemma MnemonicOfChain(w: string, p: nat, q: nat, e: nat)
    requires p < q <= e <= |w| && Chained(w, p, q) && Letter(w[p]) && (q < e ==> !WordChar(w[q]))
    ensures var m := MnemonicEnd(w, p, e);
            p < m <= q && (m < q ==> w[m] == ':')
  {
    hide Span, Is;
    var m := Span(w, p + 1, e, Word);
    CharactersAgree(w[p]);
    if m > q {
      CharactersAgree(w[q]);
      assert false;
    }
    if m < q {
      CharactersAgree(w[m]);
      assert InHeader(w, m, q);
    }
  }

  lemma {:induction false} ChainRead(w: string, p: nat, q: nat, e: nat)
    requires p <= q <= e <= |w| && Chained(w, p, q) && (p < q ==> w[p] == ':') && ChainStops(w, q, e)
    ensures ColonChain(w, p, e) == Skipped(Ok, q)
    decreases q - p
  {
    hide MnemonicEnd;
    if p < q {
      assert InHeader(w, p, q);
      MnemonicOfChain(w, p + 1, q, e);
      ChainRead(w, MnemonicEnd(w, p + 1, e), q, e);
    }
  }

  lemma CompoundRead(w: string, p: nat, q: nat, e: nat)
    requires p < q <= e <= |w| && Chained(w, p, q) && (Letter(w[p]) || w[p] == ':') && ChainStops(w, q, e)
    ensures CommonSkip(w, p, e).res.None? && CompoundSkip(w, p, e) == Skipped(Ok, q)
  {
    hide MnemonicEnd, ColonChain;
    var s := Skip(w, p, e, ':');
    if w[p] == ':' {
      assert InHeader(w, p, q);
      assert s == p + 1 < q && Letter(w[p + 1]);
    } else {
      assert s == p;
    }
    MnemonicOfChain(w, s, q, e);
    ChainRead(w, MnemonicEnd(w, s, e), q, e);
  }

  lemma CommonRead(w: string, p: nat, q: nat, e: nat)
    requires p + 2 <= q <= e <= |w| && w[p] == '*' && Letter(w[p + 1])
    requires (forall i :: p + 2 <= i < q ==> WordChar(w[i])) && (q < e ==> !WordChar(w[q]))
    ensures CommonSkip(w, p, e) == Skipped(Ok, q)
  {
    hide Span, Is;
    var m := Span(w, p + 2, e, Word);
    CharactersAgree(w[p + 1]);
    if m < q {
      CharactersAgree(w[m]);
      assert false;
    }
    if m > q {
      CharactersAgree(w[q]);
      assert false;
    }
  }

  lemma HeldChars(w: string, p: nat, s: string)
    requires Holds(w, p, s)
    ensures p + |s| <= |w| && forall i :: 0 <= i < |s| ==> w[p + i] == s[i]
  {
    forall i | 0 <= i < |s| ensures w[p + i] == s[i] {
      HoldsAt(w, p, s, i);
    }
  }

  lemma CompoundHeld(w: string, p: nat, s: string)
    requires Holds(w, p, s) && IsCompound(s)
    ensures Chained(w, p, p + |s|) && (Letter(w[p]) || w[p] == ':')
  {
    hide Letter, WordChar;
    HeldChars(w, p, s);
    var q := p + |s|;
    forall i | p <= i < q ensures InHeader(w, i, q) {
      var k := i - p;
      assert w[p + k] == s[k] && InHeader(s, k, |s|);
      if k + 1 < |s| {
        assert w[p + (k + 1)] == s[k + 1];
      }
    }
    assert w[p + 0] == s[0];
  }

  lemma CommonHeld(w: string, p: nat, s: string)
    requires Holds(w, p, s) && IsCommon(s)
    ensures p + |s| <= |w| && w[p] == '*' && Letter(w[p + 1])
    ensures forall i :: p + 2 <= i < p + |s| ==> WordChar(w[i])
  {
    hide Letter, WordChar;
    HeldChars(w, p, s);
    assert w[p + 0] == s[0] && w[p + 1] == s[1];
    forall i | p + 2 <= i < p + |s| ensures WordChar(w[i]) {
      assert w[i] == s[i - p];
    }
  }

  /** A header is one token of its kind, its question mark included. */
  lemma HeaderRead(w: string, p: nat, e: nat, h: HeaderText)
    requires IsHeader(h) && Holds(w, p, Spelled(h)) && p + |Spelled(h)| <= e <= |w|
    requires HeaderStops(w, p + |Spelled(h)|, e)
    ensures Header(w, p, e) == Lexed(Token(KindOf(h), p, |Spelled(h)|), p + |Spelled(h)|)
  {
    hide CommonSkip, CompoundSkip, IsCompound, IsCommon, Holds, Chained, WordChar;
    var q := p + |h.name|;
    NameHeld(w, p, h);
    if h.query {
      Marks();
    }
    if IsCommon(h.name) {
      CommonHeld(w, p, h.name);
      CommonFirst(h.name);
      CommonRead(w, p, q, e);
    } else {
      CompoundHeld(w, p, h.name);
      CompoundFirst(h.name);
      CompoundRead(w, p, q, e);
    }
  }

  lemma Marks()
    ensures !WordChar('?')
  {
  }

  lemma NameHeld(w: string, p: nat, h: HeaderText)
    requires Holds(w, p, Spelled(h))
    ensures Holds(w, p, h.name) && p + |Spelled(h)| <= |w| && (h.query ==> w[p + |h.name|] == '?')
  {
    hide Holds;
    HeldChars(w, p, Spelled(h));
    HoldsPart(w, p, Spelled(h), 0, |h.name|);
    assert Spelled(h)[0..|h.name|] == h.name;
    if h.query {
      assert Spelled(h)[|h.name|] == '?';
    }
  }

  lemma CommonFirst(s: string)
    requires IsCommon(s)
    ensures |s| >= 2 && s[0] == '*'
  {
  }

  lemma CompoundFirst(s: string)
    requires IsCompound(s)
    ensures s != "" && s[0] != '*'
  {
  }

  // ---------- incomplete headers ----------

  lemma {:induction false} ChainBroken(w: string, p: nat, q: nat, e: nat)
    requires p <= q < e <= |w| && Chained(w, p, q) && (p < q ==> w[p] == ':')
    requires w[q] == ':' && (q + 1 < e ==> !Letter(w[q + 1]))
    ensures ColonChain(w, p, e) == Skipped(Incomplete, q + 1)
    decreases q - p
  {
    hide Span;
    if p < q {
      assert InHeader(w, p, q);
      NoWord();
      MnemonicOfChain(w, p + 1, q, e);
      hide MnemonicEnd;
      ChainBroken(w, MnemonicEnd(w, p + 1, e), q, e);
    }
  }

  lemma NoWord()
    ensures !WordChar(':')
  {
  }

  /** A colon at the end of a header makes it incomplete, and belongs to it. */
  lemma {:induction false} IncompleteRead(w: string, p: nat, e: nat, name: string)
    requires IsCompound(name) && Letter(name[0]) && Holds(w, p, name) && p + |name| < e <= |w| && w[p + |name|] == ':'
    requires p + |name| + 1 < e ==> !Letter(w[p + |name| + 1])
    ensures Header(w, p, e) == Lexed(Token(IncompleteCompoundHeader, p, |name| + 1), p + |name| + 1)
  {
    hide IsCompound, Holds, Chained, WordChar, ColonChain, MnemonicEnd;
    var q := p + |name|;
    CompoundFirst(name);
    CompoundHeld(w, p, name);
    FirstLetter(w, p, name);
    NoWord();
    MnemonicOfChain(w, p, q, e);
    ChainTail(w, p, MnemonicEnd(w, p, e), q);
    ChainBroken(w, MnemonicEnd(w, p, e), q, e);
    assert Skip(w, p, e, ':') == p;
  }

  lemma ChainTail(w: string, p: nat, m: nat, q: nat)
    requires Chained(w, p, q) && p <= m <= q
    ensures Chained(w, m, q)
  {
  }

  /** An asterisk or a colon with no mnemonic behind it is an incomplete header of one character; with
      no letter, asterisk or colon at its start there is no header. */
  lemma NoMnemonicRead(w: string, p: nat, e: nat)
    requires p < e <= |w|
    ensures w[p] == '*' && (p + 1 < e ==> !Letter(w[p + 1])) ==>
              Header(w, p, e) == Lexed(Token(IncompleteCommonHeader, p, 1), p + 1)
    ensures w[p] == ':' && (p + 1 < e ==> !Letter(w[p + 1])) ==>
              Header(w, p, e) == Lexed(Token(IncompleteCompoundHeader, p, 1), p + 1)
    ensures !Letter(w[p]) && w[p] != '*' && w[p] != ':' ==> Header(w, p, e) == Lexed(NoToken(p), p)
  {
    hide Span, ColonChain;
  }

  lemma FirstLetter(w: string, p: nat, s: string)
    requires Holds(w, p, s) && s != "" && Letter(s[0])
    ensures p < |w| && w[p] == s[0] && w[p] != '*' && w[p] != ':' && IsAlpha(w[p])
  {
    HeldChars(w, p, s);
    assert w[p + 0] == s[0];
  }

  // ---------- invalid characters ----------

  /** Neither a part of a header, nor white space, nor a terminator. */
  predicate Strange(c: char) {
    !WordChar(c) && !Blank(c) && !LineEnd(c) && c != ':' && c != '?' && c != ';'
  }

  /** Such a character behind a header makes the unit invalid: it ends behind that character, its
      token is the first character of the header, and it has no data. */
  lemma StrangeCharacter(w: string, p: nat, e: nat, h: HeaderText)
    requires IsHeader(h) && Holds(w, p, Spelled(h)) && p + |Spelled(h)| < e <= |w| && Strange(w[p + |Spelled(h)|])
    ensures DetectUnit(w, p, e)
         == Unit(Token(Invalid, p, 1), NoToken(p), 0, NoTermination, p + |Spelled(h)| + 1)
  {
    hide Holds, Spelled, IsHeader, Header, AllProgramData, KindOf;
    HeaderRead(w, p, e, h);
    HeaderStart(w, p, h);
  }

  lemma HeaderStart(w: string, p: nat, h: HeaderText)
    requires IsHeader(h) && Holds(w, p, Spelled(h))
    ensures p < |w| && Spelled(h) != "" && !Blank(w[p])
  {
    hide Holds;
    HeldChars(w, p, Spelled(h));
    assert w[p + 0] == Spelled(h)[0] == h.name[0];
  }
}
