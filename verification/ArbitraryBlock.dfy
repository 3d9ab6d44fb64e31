/** Arbitrary blocks (IEEE 488.2 section 7.7.6): the lexer reads back exactly the payload that
    SCPI_ResultArbitraryBlock wrote (Utilities/Scpi/Src/parser.c and lexer.c). */
module ArbitraryBlock {
  import opened Lexer
  import opened LexerLaws
  import opened Numerals
  import opened IntPrinter

  /** The digit loop of the lexer over a run of digits, in front of something else or of the end,
      reads the number it stands for. */
  lemma {:induction false} DigitsRead(w: string, p: nat, e: nat, s: string, n: nat, acc: nat)
    requires p + |s| <= e <= |w| && Digits(s) && Holds(w, p, s) && |s| <= n
    requires |s| == n || p + |s| == e || !IsDigit(w[p + |s|])
    ensures BlockDigits(w, p, e, n, acc) == BlockHead(n - |s|, ValueOf(s, 10, acc), p + |s|)
    decreases |s|
  {
    hide ValueOf, Holds;
    if s == "" {
      NothingRead(10, acc);
    } else {
      ReadFirst(s, 10, acc);
      HoldsAt(w, p, s, 0);
      HoldsTail(w, p, s, 1);
      DigitsRead(w, p + 1, e, s[1..], n - 1, acc * 10 + DigitValue(s[0]));
    }
  }

  /** The length field: the decimal digits of the number of bytes. */
  function LengthText(payload: string): string {
    DigitsOf(|payload|, 10, true)
  }

  lemma LengthDigits(payload: string)
    requires |payload| < 1000000000
    ensures 1 <= |LengthText(payload)| <= 9
  {
    TenToTheNinth();
    NumeralLength(|payload|, 10, true, 9);
  }

  /** The bytes of a block: '#', the number of length digits, the length, the payload. */
  function BlockText(payload: string): string
    requires |LengthText(payload)| <= 9
  {
    ['#', DigitChar(|LengthText(payload)|, true)] + LengthText(payload) + payload
  }

  /** Wherever a block lies in a text, it lexes as one token that is exactly its payload, and
      the cursor moves over exactly its bytes. */
  lemma {:induction false} BlockRoundTrip(w: string, p: nat, e: nat, payload: string)
    requires |payload| < 1000000000 && |LengthText(payload)| <= 9
    requires e <= |w| && p + |BlockText(payload)| <= e && Holds(w, p, BlockText(payload))
    ensures var b := BlockText(payload);
            var r := Block(w, p, e);
            && r.token == Token(BlockData, p + |b| - |payload|, |payload|)
            && r.pos == p + |b|
            && Holds(w, r.token.ptr, payload)
  {
    var digits := LengthText(payload);
    var n := |digits|;
    LengthReads(payload);
    var b := BlockText(payload);
    hide LengthText, ValueOf, BlockDigits, Holds, DigitVal;
    HoldsAt(w, p, b, 0);
    HoldsAt(w, p, b, 1);
    HoldsPart(w, p, b, 2, 2 + n);
    assert b[2..2 + n] == digits;
    HoldsTail(w, p, b, 2 + n);
    assert b[2 + n..] == payload;
    DigitsRead(w, p + 2, e, digits, n, 0);
    HeaderDigit(n);
  }

  /** Where a block breaks off. With the end of the text inside the header the cursor goes to that end;
      a length field of indefinite size, a character in it that is no digit, and a payload that is
      too short leave the cursor where it was. There is no token in either case. */
  lemma {:induction false} BrokenBlock(w: string, p: nat, e: nat, s: string)
    requires p < e <= |w| && w[p] == '#' && Digits(s)
    ensures p + 1 == e ==> Block(w, p, e) == Lexed(NoToken(p), e)
    ensures p + 1 < e && (w[p + 1] == '0' || !IsDigit(w[p + 1])) ==> Block(w, p, e) == Lexed(NoToken(p), p)
    ensures p + 1 < e && w[p + 1] != '0' && IsDigit(w[p + 1]) && Holds(w, p + 2, s) && p + 2 + |s| <= e ==>
              var n := DigitValue(w[p + 1]);
              var q := p + 2 + |s|;
              && (|s| < n && q == e ==> Block(w, p, e) == Lexed(NoToken(p), e))
              && (|s| < n && q < e && !IsDigit(w[q]) ==> Block(w, p, e) == Lexed(NoToken(p), p))
              && (|s| == n && q + ValueOf(s, 10) > e ==> Block(w, p, e) == Lexed(NoToken(p), p))
  {
    hide Holds, BlockDigits, ValueOf, Digits;
    if p + 1 < e && IsDigit(w[p + 1]) && Holds(w, p + 2, s) && p + 2 + |s| <= e {
      var n := DigitValue(w[p + 1]);
      var q := p + 2 + |s|;
      if |s| == n || (|s| < n && (q == e || !IsDigit(w[q]))) {
        DigitsRead(w, p + 2, e, s, n, 0);
      }
    }
  }

  /** For instance the block of a single byte. */
  lemma BlockOfOne()
    ensures LengthText("A") == "1" && BlockText("A") == "#11A"
  {
    assert DigitsOf(1, 10, true) == "1";
    assert ['#', '1'] + "1" + "A" == "#11A";
  }

  lemma LengthReads(payload: string)
    ensures Digits(LengthText(payload)) && ValueOf(LengthText(payload), 10) == |payload|
    ensures |LengthText(payload)| > 0
  {
    DigitsReadBack(|payload|, 10, true);
    DigitsOfShape(|payload|, 10, true);
    DecimalDigits(LengthText(payload), true);
  }

  lemma HeaderDigit(n: nat)
    requires 1 <= n <= 9
    ensures IsDigit(DigitChar(n, true)) && DigitValue(DigitChar(n, true)) == n && DigitChar(n, true) != '0'
  {
  }

  /** SCPI_ResultArbitraryBlock: the two writes it makes, and what the lexer makes of them.
      From 10^9 bytes on, the ten digits would fill the header and leave it without its
      terminating zero. */
  method BlockResult(data: string) returns (header: string, body: string)
    requires |data| < 1000000000
    ensures |LengthText(data)| <= 9 && header + body == BlockText(data) && body == data
    ensures var b := header + body;
            Block(b, 0, |b|) == Lexed(Token(BlockData, |header|, |data|), |b|)
  {
    var length := new char[10];
    LengthDigits(data);
    LengthReads(data);
    var pos := UInt32ToStr(|data|, length, 10, 10, false);
    // strlen(block_header + 2): the text has no zero before the terminator.
    var headerLen := StrLen(length, LengthText(data));
    header := ['#', DigitChar(headerLen, true)] + length[..headerLen];
    body := data;
    ghost var b := header + body;
    assert b == BlockText(data);
    assert Holds(b, 0, b);
    BlockRoundTrip(b, 0, |b|, data);
  }

  /** strlen on a buffer that holds digits and their terminator. */
  method StrLen(a: array<char>, ghost text: string) returns (n: nat)
    requires Digits(text) && |text| < a.Length && a[..|text|] == text && a[|text|] == '\0'
    ensures n == |text|
  {
    n := 0;
    while a[n] != '\0'
      invariant n <= |text|
      decreases |text| - n
    {
      assert n < |text|;
      n := n + 1;
    }
  }
}
