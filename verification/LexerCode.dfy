/** The code of lexer.c: a lexer state whose cursor each function moves, every function proved
    against its counterpart in Lexer. */
module LexerCode {
  import opened Lexer

  /** lex_state_t: text stands for the memory, start for buffer, eos for buffer + len. */
  class LexState {
    const text: string
    const start: nat
    const eos: nat
    var pos: nat

    ghost predicate Valid()
      reads this
    {
      start <= pos <= eos <= |text|
    }

    constructor (text: string, start: nat, eos: nat)
      requires start <= eos <= |text|
      ensures Valid() && this.text == text && this.start == start && this.eos == eos && pos == start
    {
      this.text, this.start, this.eos, this.pos := text, start, eos, start;
    }

    /** iseos and scpiLex_IsEos */
    predicate IsEos()
      reads this
    {
      eos <= pos
    }

    // ---------- skips ----------

    /** skipWs */
    method SkipWs() returns (n: nat)
      requires Valid()
      modifies this`pos
      ensures Valid() && pos == Span(text, old(pos), eos, Ws) && n == pos - old(pos)
    {
      n := 0;
      while !IsEos() && Is(text[pos], Ws)
        invariant Valid() && n == pos - old(pos)
        invariant Span(text, pos, eos, Ws) == Span(text, old(pos), eos, Ws)
        decreases eos - pos
      {
        pos := pos + 1;
        n := n + 1;
      }
    }

    /** skipNumbers */
    method SkipNumbers() returns (n: nat)
      requires Valid()
      modifies this`pos
      ensures Valid() && pos == Span(text, old(pos), eos, Digit) && n == pos - old(pos)
    {
      n := 0;
      while !IsEos() && Is(text[pos], Digit)
        invariant Valid() && n == pos - old(pos)
        invariant Span(text, pos, eos, Digit) == Span(text, old(pos), eos, Digit)
        decreases eos - pos
      {
        pos := pos + 1;
        n := n + 1;
      }
    }

    /** skipAlpha */
    method SkipAlpha() returns (n: nat)
      requires Valid()
      modifies this`pos
      ensures Valid() && pos == Span(text, old(pos), eos, Alpha) && n == pos - old(pos)
    {
      n := 0;
      while !IsEos() && Is(text[pos], Alpha)
        invariant Valid() && n == pos - old(pos)
        invariant Span(text, pos, eos, Alpha) == Span(text, old(pos), eos, Alpha)
        decreases eos - pos
      {
        pos := pos + 1;
        n := n + 1;
      }
    }

    /** skipHexNum */
    method SkipHexNum() returns (n: nat)
      requires Valid()
      modifies this`pos
      ensures Valid() && pos == Span(text, old(pos), eos, Hex) && n == pos - old(pos)
    {
      n := 0;
      while !IsEos() && Is(text[pos], Hex)
        invariant Valid() && n == pos - old(pos)
        invariant Span(text, pos, eos, Hex) == Span(text, old(pos), eos, Hex)
        decreases eos - pos
      {
        pos := pos + 1;
        n := n + 1;
      }
    }

    /** skipOctNum */
    method SkipOctNum() returns (n: nat)
      requires Valid()
      modifies this`pos
      ensures Valid() && pos == Span(text, old(pos), eos, Oct) && n == pos - old(pos)
    {
      n := 0;
      while !IsEos() && Is(text[pos], Oct)
        invariant Valid() && n == pos - old(pos)
        invariant Span(text, pos, eos, Oct) == Span(text, old(pos), eos, Oct)
        decreases eos - pos
      {
        pos := pos + 1;
        n := n + 1;
      }
    }

    /** skipBinNum */
    method SkipBinNum() returns (n: nat)
      requires Valid()
      modifies this`pos
      ensures Valid() && pos == Span(text, old(pos), eos, Bin) && n == pos - old(pos)
    {
      n := 0;
      while !IsEos() && Is(text[pos], Bin)
        invariant Valid() && n == pos - old(pos)
        invariant Span(text, pos, eos, Bin) == Span(text, old(pos), eos, Bin)
        decreases eos - pos
      {
        pos := pos + 1;
        n := n + 1;
      }
    }

    /** skipChr, skipStar and skipColon */
    method SkipChr(c: char) returns (ok: bool)
      requires Valid()
      modifies this`pos
      ensures Valid() && pos == Skip(text, old(pos), eos, c) && ok == (pos > old(pos))
    {
      if !IsEos() && text[pos] == c {
        pos := pos + 1;
        ok := true;
      } else {
        ok := false;
      }
    }

    /** skipPlusmn */
    method SkipPlusmn() returns (ok: bool)
      requires Valid()
      modifies this`pos
      ensures Valid() && pos == SkipSign(text, old(pos), eos) && ok == (pos > old(pos))
    {
      if !IsEos() && (text[pos] == '+' || text[pos] == '-') {
        pos := pos + 1;
        ok := true;
      } else {
        ok := false;
      }
    }

    /** skipDigit */
    method SkipOneDigit() returns (ok: bool)
      requires Valid()
      modifies this`pos
      ensures Valid() && pos == SkipDigit(text, old(pos), eos) && ok == (pos > old(pos))
    {
      if !IsEos() && IsDigit(text[pos]) {
        pos := pos + 1;
        ok := true;
      } else {
        ok := false;
      }
    }

    /** skipSlashDot */
    method SkipSlashDot() returns (ok: bool)
      requires Valid()
      modifies this`pos
      ensures Valid() && ok == (old(pos) < eos && (text[old(pos)] == '/' || text[old(pos)] == '.'))
      ensures pos == if ok then old(pos) + 1 else old(pos)
    {
      if !IsEos() && (text[pos] == '/' || text[pos] == '.') {
        pos := pos + 1;
        ok := true;
      } else {
        ok := false;
      }
    }

    /** skipProgramMnemonic: the length skipped, negative when it ran into the end. */
    method SkipProgramMnemonic() returns (res: int)
      requires Valid()
      modifies this`pos
      ensures Valid() && pos == MnemonicEnd(text, old(pos), eos)
      ensures res == if pos == eos then -(pos - old(pos)) else pos - old(pos)
    {
      var startPos := pos;
      if !IsEos() && IsAlpha(text[pos]) {
        pos := pos + 1;
        while !IsEos() && (IsAlpha(text[pos]) || IsDigit(text[pos]) || text[pos] == '_')
          invariant Valid() && old(pos) < pos
          invariant Span(text, pos, eos, Word) == Span(text, old(pos) + 1, eos, Word)
          decreases eos - pos
        {
          pos := pos + 1;
        }
      }
      if IsEos() {
        res := (pos - startPos) * -1;
      } else {
        res := pos - startPos;
      }
    }

    // ---------- headers ----------

    /** skipCommonProgramHeader */
    method SkipCommonProgramHeader() returns (res: Outcome)
      requires Valid()
      modifies this`pos
      ensures Valid() && Skipped(res, pos) == CommonSkip(text, old(pos), eos)
    {
      var star := SkipChr('*');
      if star {
        var r := SkipProgramMnemonic();
        if r == 0 && IsEos() {
          return Incomplete;
        } else if r <= -1 {
          return Ok;
        } else if r >= 1 {
          return Ok;
        } else {
          return Incomplete;
        }
      }
      return None;
    }

    /** The loop of skipCompoundProgramHeader. */
    method SkipColonChain() returns (res: Outcome)
      requires Valid()
      modifies this`pos
      ensures Valid() && Skipped(res, pos) == ColonChain(text, old(pos), eos)
    {
      hide MnemonicEnd;
      ghost var chain := ColonChain(text, pos, eos);
      var more := SkipChr(':');
      while more
        invariant Valid() && start < pos + 1
        invariant more ==> start < pos && text[pos - 1] == ':' && ColonChain(text, pos - 1, eos) == chain
        invariant !more ==> chain == Skipped(Ok, pos)
        decreases eos - pos, more
      {
        var r := SkipProgramMnemonic();
        if r <= -1 {
          assert ColonChain(text, pos, eos) == Skipped(Ok, pos);
          return Ok;
        } else if r == 0 {
          return Incomplete;
        }
        more := SkipChr(':');
      }
      return Ok;
    }

    /** skipCompoundProgramHeader */
    method SkipCompoundProgramHeader() returns (res: Outcome)
      requires Valid()
      modifies this`pos
      ensures Valid() && Skipped(res, pos) == CompoundSkip(text, old(pos), eos)
    {
      hide MnemonicEnd;
      var firstColon := SkipChr(':');
      var r := SkipProgramMnemonic();
      if r >= 1 {
        res := SkipColonChain();
      } else if r <= -1 {
        res := Ok;
      } else if firstColon {
        res := Incomplete;
      } else {
        res := None;
      }
    }

    /** scpiLex_ProgramHeader */
    method ProgramHeader() returns (token: Token)
      requires Valid()
      modifies this`pos
      ensures Valid() && Lexed(token, pos) == Header(text, old(pos), eos)
    {
      var ptr := pos;
      var kind := Unknown;
      var res := SkipCommonProgramHeader();
      if res == Ok {
        var query := SkipChr('?');
        kind := if query then CommonQuery else CommonHeader;
      } else if res == Incomplete {
        kind := IncompleteCommonHeader;
      } else {
        res := SkipCompoundProgramHeader();
        if res == Ok {
          var query := SkipChr('?');
          kind := if query then CompoundQuery else CompoundHeader;
        } else if res == Incomplete {
          kind := IncompleteCompoundHeader;
        }
      }
      if kind != Unknown {
        token := Token(kind, ptr, pos - ptr);
      } else {
        token := NoToken(ptr);
        pos := ptr;
      }
    }

    // ---------- program data ----------

    /** scpiLex_WhiteSpace */
    method WhiteSpace() returns (token: Token)
      requires Valid()
      modifies this`pos
      ensures Valid() && pos == Span(text, old(pos), eos, Ws) && token == Found(WsTok, old(pos), pos)
    {
      var ptr := pos;
      var _ := SkipWs();
      token := Found(WsTok, ptr, pos);
    }

    /** scpiLex_CharacterProgramData */
    method CharacterProgramData() returns (token: Token)
      requires Valid()
      modifies this`pos
      ensures Valid() && Lexed(token, pos) == CharacterData(text, old(pos), eos)
    {
      var ptr := pos;
      if !IsEos() && IsAlpha(text[pos]) {
        pos := pos + 1;
        while !IsEos() && (IsAlpha(text[pos]) || IsDigit(text[pos]) || text[pos] == '_')
          invariant Valid() && ptr < pos
          invariant Span(text, pos, eos, Word) == Span(text, ptr + 1, eos, Word)
          decreases eos - pos
        {
          pos := pos + 1;
        }
      }
      token := Found(Mnemonic, ptr, pos);
    }

    /** skipMantisa */
    method SkipMantisa() returns (someNumbers: nat)
      requires Valid()
      modifies this`pos
      ensures Valid() && (someNumbers, pos) == Mantissa(text, old(pos), eos)
    {
      hide Span, SkipSign;
      var _ := SkipPlusmn();
      someNumbers := SkipNumbers();
      var dot := SkipChr('.');
      if dot {
        var fraction := SkipNumbers();
        someNumbers := someNumbers + fraction;
      }
    }

    /** skipExponent */
    method SkipExponent() returns (someNumbers: nat)
      requires Valid()
      modifies this`pos
      ensures Valid() && (someNumbers, pos) == Exponent(text, old(pos), eos)
    {
      someNumbers := 0;
      if !IsEos() && (text[pos] == 'e' || text[pos] == 'E') {
        pos := pos + 1;
        var _ := SkipWs();
        var _ := SkipPlusmn();
        someNumbers := SkipNumbers();
      }
    }

    /** scpiLex_DecimalNumericProgramData */
    method DecimalNumericProgramData() returns (token: Token)
      requires Valid()
      modifies this`pos
      ensures Valid() && Lexed(token, pos) == DecimalData(text, old(pos), eos)
    {
      var ptr := pos;
      var digits := SkipMantisa();
      if digits > 0 {
        var rollback := pos;
        var _ := SkipWs();
        var exponent := SkipExponent();
        if exponent == 0 {
          pos := rollback;
        }
      } else {
        pos := ptr;
      }
      token := Found(Decimal, ptr, pos);
    }

    /** What the loop of scpiLex_SuffixProgramData skips behind '/' or '.'. */
    method SkipSuffixRound()
      requires Valid()
      modifies this`pos
      ensures Valid() && pos == SuffixUnit(text, Span(text, old(pos), eos, Alpha), eos)
    {
      hide Span;
      var _ := SkipAlpha();
      var _ := SkipChr('-');
      var _ := SkipOneDigit();
    }

    /** The loop of scpiLex_SuffixProgramData. */
    method SkipSuffixTail()
      requires Valid()
      modifies this`pos
      ensures Valid() && pos == SuffixTail(text, old(pos), eos)
    {
      hide Span, SuffixTail, SuffixUnit;
      ghost var end := SuffixTail(text, pos, eos);
      SuffixTailIs(text, pos, eos);
      var more := SkipSlashDot();
      while more
        invariant Valid()
        invariant more ==> SuffixTail(text, SuffixUnit(text, Span(text, pos, eos, Alpha), eos), eos) == end
        invariant !more ==> pos == end
        decreases eos - pos, more
      {
        SkipSuffixRound();
        SuffixTailIs(text, pos, eos);
        more := SkipSlashDot();
      }
    }

    /** scpiLex_SuffixProgramData */
    method SuffixProgramData() returns (token: Token)
      requires Valid()
      modifies this`pos
      ensures Valid() && Lexed(token, pos) == SuffixToken(text, old(pos), eos)
    {
      hide Span, SuffixTail;
      var ptr := pos;
      var _ := SkipChr('/');
      var letters := SkipAlpha();
      if letters > 0 {
        var _ := SkipChr('-');
        var _ := SkipOneDigit();
        SkipSuffixTail();
      }
      token := Found(SuffixData, ptr, pos);
    }

    /** The letter of the base and the digits behind it. */
    method SkipBaseDigits() returns (someNumbers: nat, kind: Kind)
      requires Valid()
      modifies this`pos
      ensures Valid()
      ensures var p := old(pos);
              if p < eos && IsBase(text[p]) then
                && pos == Span(text, p + 1, eos, BaseOf(text[p]).0)
                && someNumbers == pos - (p + 1) && kind == BaseOf(text[p]).1
              else pos == p && someNumbers == 0
    {
      hide Span, Is;
      someNumbers, kind := 0, Unknown;
      if !IsEos() {
        if text[pos] == 'h' || text[pos] == 'H' {
          pos := pos + 1;
          someNumbers := SkipHexNum();
          kind := HexNum;
        } else if text[pos] == 'q' || text[pos] == 'Q' {
          pos := pos + 1;
          someNumbers := SkipOctNum();
          kind := OctNum;
        } else if text[pos] == 'b' || text[pos] == 'B' {
          pos := pos + 1;
          someNumbers := SkipBinNum();
          kind := BinNum;
        }
      }
    }

    /** scpiLex_NondecimalNumericData: also answers how much it moved. */
    method NondecimalNumericData() returns (token: Token, moved: int)
      requires Valid()
      modifies this`pos
      ensures Valid() && Lexed(token, pos) == NondecimalData(text, old(pos), eos)
      ensures moved == pos - old(pos)
    {
      hide Span;
      var someNumbers, kind := 0, Unknown;
      var ptr := pos;
      var hash := SkipChr('#');
      if hash {
        someNumbers, kind := SkipBaseDigits();
      }
      if someNumbers > 0 {
        token := Token(kind, ptr + 2, pos - (ptr + 2));
      } else {
        pos := ptr;
        token := NoToken(ptr);
      }
      moved := if token.len > 0 then token.len + 2 else 0;
    }

    /** skipQuoteProgramData */
    method SkipQuoteProgramData(quote: char)
      requires Valid() && QuoteEnds(text, pos, eos, quote)
      modifies this`pos
      ensures Valid() && pos == QuoteEnd(text, old(pos), eos, quote)
    {
      while !IsEos()
        invariant Valid() && old(pos) <= pos && QuoteEnds(text, pos, eos, quote)
        invariant QuoteEnd(text, pos, eos, quote) == QuoteEnd(text, old(pos), eos, quote)
        decreases eos - pos
      {
        if text[pos] as int <= 0x7f && text[pos] != quote {
          pos := pos + 1;
        } else if text[pos] == quote {
          pos := pos + 1;
          if !IsEos() && text[pos] == quote {
            pos := pos + 1;
          } else {
            pos := pos - 1;
            break;
          }
        }
      }
    }

    /** scpiLex_StringProgramData */
    method StringProgramData() returns (token: Token)
      requires Valid() && StringEnds(text, pos, eos)
      modifies this`pos
      ensures Valid() && Lexed(token, pos) == StringData(text, old(pos), eos)
    {
      hide QuoteEnd, QuoteEnds;
      var ptr := pos;
      var kind := Unknown;
      if !IsEos() {
        if text[pos] == '"' {
          pos := pos + 1;
          kind := DoubleQuote;
          SkipQuoteProgramData('"');
          if !IsEos() && text[pos] == '"' {
            pos := pos + 1;
          } else {
            pos := ptr;
          }
        } else if text[pos] == '\'' {
          pos := pos + 1;
          kind := SingleQuote;
          SkipQuoteProgramData('\'');
          if !IsEos() && text[pos] == '\'' {
            pos := pos + 1;
          } else {
            pos := ptr;
          }
        }
      }
      token := Found(kind, ptr, pos);
    }

    /** scpiLex_ArbitraryBlockProgramData: also answers its return value, which is 0 for an
        incomplete block although the cursor has moved to the end. */
    method ArbitraryBlockProgramData() returns (token: Token, result: int)
      requires Valid()
      modifies this`pos
      ensures Valid() && Lexed(token, pos) == Block(text, old(pos), eos)
      ensures result == if token.kind == BlockData then pos - old(pos) else 0
    {
      var ptr := pos;
      var validData := -1;
      token := NoToken(ptr);
      var hash := SkipChr('#');
      if hash {
        if !IsEos() && IsDigit(text[pos]) && text[pos] != '0' {
          var i: nat := DigitValue(text[pos]);
          var length: nat := 0;
          pos := pos + 1;
          ghost var head := BlockDigits(text, pos, eos, i, 0);
          while i > 0 && !IsEos() && IsDigit(text[pos])
            invariant Valid() && ptr + 2 <= pos
            invariant BlockDigits(text, pos, eos, i, length) == head
            decreases i
          {
            length := length * 10 + DigitValue(text[pos]);
            pos := pos + 1;
            i := i - 1;
          }
          if i == 0 {
            if eos >= pos + length {
              pos := pos + length;
              token := Token(BlockData, pos - length, length);
              validData := 1;
            }
          } else if IsEos() {
            validData := 0;
          }
        } else if IsEos() {
          validData := 0;
        }
      }
      if validData == 1 {
      } else if validData == 0 {
        pos := eos;
      } else {
        pos := ptr;
      }
      result := token.len + (token.ptr - ptr);
    }

    /** scpiLex_ProgramExpression: without '(' it goes by the length already in the token. */
    method ProgramExpression(before: Token) returns (token: Token)
      requires Valid()
      modifies this`pos
      ensures Valid() && Lexed(token, pos) == ExpressionOver(text, old(pos), eos, before.len)
    {
      token := before.(ptr := pos);
      if !IsEos() && text[pos] == '(' {
        pos := pos + 1;
        while !IsEos() && IsExpr(text[pos])
          invariant Valid() && token.ptr < pos
          invariant Span(text, pos, eos, Expr) == Span(text, token.ptr + 1, eos, Expr)
          decreases eos - pos
        {
          pos := pos + 1;
        }
        if !IsEos() && text[pos] == ')' {
          pos := pos + 1;
          token := token.(len := pos - token.ptr);
        } else {
          token := token.(len := 0);
        }
      }
      if token.len > 0 {
        token := token.(kind := ExpressionData);
      } else {
        pos := token.ptr;
        token := NoToken(token.ptr);
      }
    }

    /** scpiLex_Comma, scpiLex_Semicolon, scpiLex_Colon and scpiLex_SpecificCharacter */
    method SpecificChar(c: char, kind: Kind) returns (token: Token)
      requires Valid()
      modifies this`pos
      ensures Valid() && Lexed(token, pos) == OneChar(text, old(pos), eos, c, kind)
    {
      var ptr := pos;
      var ok := SkipChr(c);
      token := if ok then Token(kind, ptr, 1) else NoToken(ptr);
    }

    /** scpiLex_NewLine */
    method NewLineToken() returns (token: Token)
      requires Valid()
      modifies this`pos
      ensures Valid() && Lexed(token, pos) == NewLine(text, old(pos), eos)
    {
      var ptr := pos;
      var _ := SkipChr('\r');
      var _ := SkipChr('\n');
      token := Found(Nl, ptr, pos);
    }
  }
}
