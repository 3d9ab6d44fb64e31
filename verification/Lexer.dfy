/** The lexer of Utilities/Scpi/Src/lexer.c as functions of the text w, the cursor p and the
    end of string e: IEEE 488.2 section 7.6.1 (headers) and 7.7.1 to 7.7.7 (program data).
    A byte is a char; what lies at or beyond e is never looked at. */
module Lexer {

  // ---------- characters ----------

  datatype Class = Ws | Digit | Alpha | Word | Hex | Oct | Bin | Expr

  predicate IsDigit(c: char) {
    '0' <= c <= '9'
  }

  predicate IsAlpha(c: char) {
    'a' <= c <= 'z' || 'A' <= c <= 'Z'
  }

  predicate IsNl(c: char) {
    c == '\r' || c == '\n'
  }

  /** isProgramExpression */
  predicate IsExpr(c: char) {
    ' ' <= c <= '~' && c != '"' && c != '#' && c != '\'' && c != '(' && c != ')' && c != ';'
  }

  predicate Is(c: char, k: Class) {
    match k
    case Ws => c == ' ' || c == '\t'
    case Digit => IsDigit(c)
    case Alpha => IsAlpha(c)
    case Word => IsAlpha(c) || IsDigit(c) || c == '_'
    case Hex => IsDigit(c) || 'a' <= c <= 'f' || 'A' <= c <= 'F'
    case Oct => '0' <= c <= '7'
    case Bin => c == '0' || c == '1'
    case Expr => IsExpr(c)
  }

  lemma NlInNoClass(c: char, k: Class)
    requires IsNl(c)
    ensures !Is(c, k)
  {
  }

  // ---------- tokens ----------

  datatype Kind =
    | CommaTok | SemicolonTok | ColonTok | SpecificCharacter | Nl
    | HexNum | OctNum | BinNum | Mnemonic
    | Decimal | DecimalWithSuffix | SuffixData
    | BlockData | SingleQuote | DoubleQuote | ExpressionData
    | CompoundHeader | IncompleteCompoundHeader | CommonHeader | IncompleteCommonHeader
    | CompoundQuery | CommonQuery
    | WsTok | AllData | Invalid | Unknown

  /** scpi_token_t: a span of the text. */
  datatype Token = Token(kind: Kind, ptr: nat, len: int)

  /** A token and the cursor after it. */
  datatype Lexed = Lexed(token: Token, pos: nat)

  function NoToken(p: nat): Token {
    Token(Unknown, p, 0)
  }

  function Found(kind: Kind, p: nat, q: nat): Token {
    if q > p then Token(kind, p, q - p) else NoToken(p)
  }

  // ---------- spans ----------

  /** The end of the longest run of characters of class k that starts at p. */
  function Span(w: string, p: nat, e: nat, k: Class): (q: nat)
    requires p <= e <= |w|
    ensures p <= q <= e
    ensures forall i :: p <= i < q ==> Is(w[i], k)
    ensures q < e ==> !Is(w[q], k)
    decreases e - p
  {
    if p < e && Is(w[p], k) then Span(w, p + 1, e, k) else p
  }

  /** skipChr, skipStar and skipColon */
  function Skip(w: string, p: nat, e: nat, c: char): (q: nat)
    requires p <= e <= |w|
    ensures p <= q <= e
  {
    if p < e && w[p] == c then p + 1 else p
  }

  function SkipSign(w: string, p: nat, e: nat): (q: nat)
    requires p <= e <= |w|
    ensures p <= q <= e
  {
    if p < e && (w[p] == '+' || w[p] == '-') then p + 1 else p
  }

  function SkipDigit(w: string, p: nat, e: nat): (q: nat)
    requires p <= e <= |w|
    ensures p <= q <= e
  {
    if p < e && IsDigit(w[p]) then p + 1 else p
  }

  // ---------- 7.6.1 headers ----------

  /** [a-z][a-z0-9_]* */
  function MnemonicEnd(w: string, p: nat, e: nat): (q: nat)
    requires p <= e <= |w|
    ensures p <= q <= e
  {
    if p < e && IsAlpha(w[p]) then Span(w, p + 1, e, Word) else p
  }

  /** How far a header was skipped, and with which of the three results. */
  datatype Skipped = Skipped(res: Outcome, pos: nat)
  datatype Outcome = None | Ok | Incomplete

  function CommonSkip(w: string, p: nat, e: nat): (r: Skipped)
    requires p <= e <= |w|
    ensures p <= r.pos <= e
    ensures r.res.None? <==> r.pos == p
  {
    if p < e && w[p] == '*' then
      var q := MnemonicEnd(w, p + 1, e);
      Skipped(if q > p + 1 then Ok else Incomplete, q)
    else Skipped(None, p)
  }

  /** The loop over ":mnemonic" of a compound header. */
  function ColonChain(w: string, p: nat, e: nat): (r: Skipped)
    requires p <= e <= |w|
    ensures p <= r.pos <= e
    ensures !r.res.None?
    decreases e - p
  {
    if p < e && w[p] == ':' then
      var q := MnemonicEnd(w, p + 1, e);
      if q == p + 1 then Skipped(Incomplete, q) else ColonChain(w, q, e)
    else Skipped(Ok, p)
  }

  function CompoundSkip(w: string, p: nat, e: nat): (r: Skipped)
    requires p <= e <= |w|
    ensures p <= r.pos <= e
    ensures r.res.None? <==> r.pos == p
  {
    var s := Skip(w, p, e, ':');
    var q := MnemonicEnd(w, s, e);
    if q > s then ColonChain(w, q, e)
    else if s > p then Skipped(Incomplete, q)
    else Skipped(None, p)
  }

  function QueryOr(w: string, s: Skipped, e: nat, query: Kind, plain: Kind, incomplete: Kind): (r: (Kind, nat))
    requires s.pos <= e <= |w|
    ensures s.pos <= r.1 <= e
  {
    if s.res.Ok? then
      var q := Skip(w, s.pos, e, '?');
      (if q > s.pos then query else plain, q)
    else (incomplete, s.pos)
  }

  /** scpiLex_ProgramHeader */
  function Header(w: string, p: nat, e: nat): (r: Lexed)
    requires p <= e <= |w|
    ensures p <= r.pos <= e
    ensures r.token.ptr == p && r.token.len == r.pos - p
    ensures r.token.kind == Unknown <==> r.pos == p
    ensures r.token.kind != Invalid
  {
    var c := CommonSkip(w, p, e);
    if !c.res.None? then
      var (k, q) := QueryOr(w, c, e, CommonQuery, CommonHeader, IncompleteCommonHeader);
      Lexed(Token(k, p, q - p), q)
    else
      var s := CompoundSkip(w, p, e);
      if s.res.None? then Lexed(NoToken(p), p)
      else
        var (k, q) := QueryOr(w, s, e, CompoundQuery, CompoundHeader, IncompleteCompoundHeader);
        Lexed(Token(k, p, q - p), q)
  }

  // ---------- 7.7.1 to 7.7.3 ----------

  function CharacterData(w: string, p: nat, e: nat): (r: Lexed)
    requires p <= e <= |w|
    ensures p <= r.pos <= e
  {
    var q := MnemonicEnd(w, p, e);
    Lexed(Found(Mnemonic, p, q), q)
  }

  /** skipMantisa: the number of digits and the end. */
  function Mantissa(w: string, p: nat, e: nat): (r: (nat, nat))
    requires p <= e <= |w|
    ensures p <= r.1 <= e && r.0 <= r.1 - p
  {
    UnsignedMantissa(w, SkipSign(w, p, e), e)
  }

  function UnsignedMantissa(w: string, p: nat, e: nat): (r: (nat, nat))
    requires p <= e <= |w|
    ensures p <= r.1 <= e && r.0 <= r.1 - p
  {
    var d := Span(w, p, e, Digit);
    if d < e && w[d] == '.' then
      var f := Span(w, d + 1, e, Digit);
      (d - p + (f - (d + 1)), f)
    else (d - p, d)
  }

  /** An optional sign and digits: the number of digits and the end. */
  function SignedDigits(w: string, p: nat, e: nat): (r: (nat, nat))
    requires p <= e <= |w|
    ensures p <= r.1 <= e && r.0 <= r.1 - p
  {
    var s := SkipSign(w, p, e);
    var d := Span(w, s, e, Digit);
    (d - s, d)
  }

  /** skipExponent: the number of digits and the end. */
  function Exponent(w: string, p: nat, e: nat): (r: (nat, nat))
    requires p <= e <= |w|
    ensures p <= r.1 <= e && r.0 <= r.1 - p
  {
    if p < e && (w[p] == 'e' || w[p] == 'E') then SignedDigits(w, Span(w, p + 1, e, Ws), e) else (0, p)
  }

  function DecimalEnd(w: string, p: nat, e: nat): (q: nat)
    requires p <= e <= |w|
    ensures p <= q <= e
  {
    var (n, m) := Mantissa(w, p, e);
    if n == 0 then p
    else
      var (x, f) := Exponent(w, Span(w, m, e, Ws), e);
      if x > 0 then f else m
  }

  function DecimalData(w: string, p: nat, e: nat): (r: Lexed)
    requires p <= e <= |w|
    ensures p <= r.pos <= e
  {
    var q := DecimalEnd(w, p, e);
    Lexed(Found(Decimal, p, q), q)
  }

  function SuffixUnit(w: string, p: nat, e: nat): (q: nat)
    requires p <= e <= |w|
    ensures p <= q <= e
  {
    SkipDigit(w, Skip(w, p, e, '-'), e)
  }

  function SuffixTail(w: string, p: nat, e: nat): (q: nat)
    requires p <= e <= |w|
    ensures p <= q <= e
    decreases e - p
  {
    if p < e && (w[p] == '/' || w[p] == '.') then
      SuffixTail(w, SuffixUnit(w, Span(w, p + 1, e, Alpha), e), e)
    else p
  }

  lemma SuffixTailIs(w: string, p: nat, e: nat)
    requires p <= e <= |w|
    ensures SuffixTail(w, p, e)
            == (if p < e && (w[p] == '/' || w[p] == '.') then
                  SuffixTail(w, SuffixUnit(w, Span(w, p + 1, e, Alpha), e), e)
                else p)
  {
  }

  /** The part of a suffix behind its first letters. */
  function SuffixRest(w: string, a: nat, e: nat): (q: nat)
    requires a <= e <= |w|
    ensures a <= q <= e
  {
    SuffixTail(w, SuffixUnit(w, a, e), e)
  }

  function SuffixEnd(w: string, p: nat, e: nat): (q: nat)
    requires p <= e <= |w|
    ensures p <= q <= e
  {
    var s := Skip(w, p, e, '/');
    var a := Span(w, s, e, Alpha);
    if a > s then SuffixRest(w, a, e) else s
  }

  function SuffixToken(w: string, p: nat, e: nat): (r: Lexed)
    requires p <= e <= |w|
    ensures p <= r.pos <= e
  {
    var q := SuffixEnd(w, p, e);
    Lexed(Found(SuffixData, p, q), q)
  }

  // ---------- 7.7.4 ----------

  function BaseOf(c: char): (r: (Class, Kind)) {
    if c == 'h' || c == 'H' then (Hex, HexNum)
    else if c == 'q' || c == 'Q' then (Oct, OctNum)
    else (Bin, BinNum)
  }

  predicate IsBase(c: char) {
    c == 'h' || c == 'H' || c == 'q' || c == 'Q' || c == 'b' || c == 'B'
  }

  /** scpiLex_NondecimalNumericData: the token leaves out the two prefix characters. */
  function NondecimalData(w: string, p: nat, e: nat): (r: Lexed)
    requires p <= e <= |w|
    ensures p <= r.pos <= e
    ensures r.token.kind == Unknown <==> r.pos == p
  {
    if p + 1 < e && w[p] == '#' && IsBase(w[p + 1]) then
      var (cls, kind) := BaseOf(w[p + 1]);
      var q := Span(w, p + 2, e, cls);
      if q > p + 2 then Lexed(Token(kind, p + 2, q - (p + 2)), q) else Lexed(NoToken(p), p)
    else Lexed(NoToken(p), p)
  }

  // ---------- 7.7.5 ----------

  /** Where skipQuoteProgramData stops: at the quote that is not doubled, or at e. */
  function QuoteEnd(w: string, p: nat, e: nat, quote: char): (q: nat)
    requires p <= e <= |w|
    ensures p <= q <= e
    ensures q < e ==> w[q] == quote && (q + 1 < e ==> w[q + 1] != quote)
    decreases e - p
  {
    if p >= e then p
    else if w[p] != quote then QuoteEnd(w, p + 1, e, quote)
    else if p + 1 < e && w[p + 1] == quote then QuoteEnd(w, p + 2, e, quote)
    else p
  }

  predicate IsQuote(c: char) {
    c == '"' || c == '\''
  }

  function QuoteKind(c: char): Kind {
    if c == '"' then DoubleQuote else SingleQuote
  }

  ghost predicate SevenBit(w: string, p: nat, e: nat)
    requires e <= |w|
  {
    forall i :: p <= i < e ==> w[i] as int <= 0x7f
  }

  /** The loop that looks for the closing quote comes to an end: see QuoteLoop. */
  ghost predicate QuoteEnds(w: string, p: nat, e: nat, quote: char)
    requires p <= e <= |w|
  {
    SevenBit(w, p, QuoteEnd(w, p, e, quote))
  }

  /** So does the string that may start at p. */
  ghost predicate StringEnds(w: string, p: nat, e: nat)
    requires p <= e <= |w|
  {
    p < e && IsQuote(w[p]) ==> QuoteEnds(w, p + 1, e, w[p])
  }

  /** scpiLex_StringProgramData: the token keeps its quotes. */
  function StringData(w: string, p: nat, e: nat): (r: Lexed)
    requires p <= e <= |w|
    ensures p <= r.pos <= e
    ensures r.token.kind == Unknown <==> r.pos == p
  {
    if p < e && IsQuote(w[p]) then
      var q := QuoteEnd(w, p + 1, e, w[p]);
      if q < e then Lexed(Token(QuoteKind(w[p]), p, q + 1 - p), q + 1) else Lexed(NoToken(p), p)
    else Lexed(NoToken(p), p)
  }

  // ---------- 7.7.6 ----------

  function DigitValue(c: char): nat
    requires IsDigit(c)
  {
    c as int - '0' as int
  }

  /** The digit loop of a block header: digits still missing, length read, cursor. */
  datatype BlockHead = BlockHead(missing: nat, length: nat, pos: nat)

  function BlockDigits(w: string, p: nat, e: nat, i: nat, acc: nat): (r: BlockHead)
    requires p <= e <= |w|
    ensures p <= r.pos <= e && r.missing <= i
    decreases i
  {
    if i > 0 && p < e && IsDigit(w[p]) then BlockDigits(w, p + 1, e, i - 1, acc * 10 + DigitValue(w[p]))
    else BlockHead(i, acc, p)
  }

  /** scpiLex_ArbitraryBlockProgramData: a header cut off by e swallows the text up to e. */
  function Block(w: string, p: nat, e: nat): (r: Lexed)
    requires p <= e <= |w|
    ensures p <= r.pos <= e
    ensures r.token.kind in {BlockData, Unknown}
    ensures r.token.kind == Unknown ==> r.token.ptr == p && r.token.len == 0
    ensures r.token.kind == BlockData ==> p + 2 <= r.token.ptr && r.token.len >= 0 && r.token.ptr + r.token.len == r.pos
  {
    if p < e && w[p] == '#' then
      if p + 1 < e && IsDigit(w[p + 1]) && w[p + 1] != '0' then
        var h := BlockDigits(w, p + 2, e, DigitValue(w[p + 1]), 0);
        if h.missing == 0 then
          if h.pos + h.length <= e then Lexed(Token(BlockData, h.pos, h.length), h.pos + h.length)
          else Lexed(NoToken(p), p)
        else if h.pos == e then Lexed(NoToken(p), e)
        else Lexed(NoToken(p), p)
      else if p + 1 == e then Lexed(NoToken(p), e)
      else Lexed(NoToken(p), p)
    else Lexed(NoToken(p), p)
  }

  // ---------- 7.7.7 and separators ----------

  /** scpiLex_ProgramExpression, entered with an empty token */
  function Expression(w: string, p: nat, e: nat): (r: Lexed)
    requires p <= e <= |w|
    ensures p <= r.pos <= e
    ensures r.token.kind == Unknown <==> r.pos == p
  {
    if p < e && w[p] == '(' then
      var q := Span(w, p + 1, e, Expr);
      if q < e && w[q] == ')' then Lexed(Token(ExpressionData, p, q + 1 - p), q + 1) else Lexed(NoToken(p), p)
    else Lexed(NoToken(p), p)
  }

  /** scpiLex_ProgramExpression, entered with a token of any length: where there is no '(' a
      length left behind by the caller passes for an expression that takes no text. */
  function ExpressionOver(w: string, p: nat, e: nat, len: int): (r: Lexed)
    requires p <= e <= |w|
    ensures p <= r.pos <= e
    ensures len <= 0 ==> r == Expression(w, p, e)
  {
    if p < e && w[p] == '(' then Expression(w, p, e)
    else if len > 0 then Lexed(Token(ExpressionData, p, len), p)
    else Lexed(NoToken(p), p)
  }

  /** scpiLex_Comma, scpiLex_Semicolon, scpiLex_Colon and scpiLex_SpecificCharacter */
  function OneChar(w: string, p: nat, e: nat, c: char, kind: Kind): (r: Lexed)
    requires p <= e <= |w|
    ensures p <= r.pos <= e
  {
    var q := Skip(w, p, e, c);
    Lexed(Found(kind, p, q), q)
  }

  function NewLineEnd(w: string, p: nat, e: nat): (q: nat)
    requires p <= e <= |w|
    ensures p <= q <= e
  {
    Skip(w, Skip(w, p, e, '\r'), e, '\n')
  }

  /** scpiLex_NewLine */
  function NewLine(w: string, p: nat, e: nat): (r: Lexed)
    requires p <= e <= |w|
    ensures p <= r.pos <= e
  {
    var q := NewLineEnd(w, p, e);
    Lexed(Found(Nl, p, q), q)
  }
}
