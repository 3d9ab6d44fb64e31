/** Reading parameters (Utilities/Scpi/Src/parser.c, SCPI_Parameter) against the framing pass
    that counted them: when the two passes over the same bytes agree. */
module Params {
  import opened Basics
  import opened Lexer
  import opened LexerLaws
  import opened Framing
  import opened FramingLaws

  const MISSING_PARAMETER := -109
  const INVALID_SEPARATOR := -103
  const INVALID_STRING_DATA := -151

  /** The token types SCPI_Parameter accepts. */
  predicate IsParameter(k: Kind) {
    k in {HexNum, OctNum, BinNum, Mnemonic, Decimal, DecimalWithSuffix, BlockData, SingleQuote, DoubleQuote,
        ExpressionData}
  }

  /** The result of one call: the token if it succeeded, the error pushed (0 for none), the
      cursor and the number of parameters read. */
  datatype Read = Read(ok: bool, token: Token, err: int, pos: nat, count: nat)

  /** SCPI_Parameter on the window that ends at e, the cursor at p, count parameters read. A
      missing optional parameter is marked by a mnemonic token of length 0. */
  function ReadParameter(w: string, p: nat, e: nat, count: nat, mandatory: bool): (r: Read)
    requires p <= e <= |w|
    ensures p <= r.pos <= e
    ensures r.ok ==> r.pos > p && TokenEnd(r.token) <= e && r.token.kind != Unknown
    ensures r.ok ==> r.count == count + 1 && r.err == 0
  {
    if p == e then
      if mandatory then Read(false, NoToken(0), MISSING_PARAMETER, p, count)
      else Read(false, Token(Mnemonic, 0, 0), 0, p, count)
    else if count != 0 && w[p] != ',' then Read(false, NoToken(0), INVALID_SEPARATOR, p, count)
    else
      var d := ProgramData(w, if count != 0 then p + 1 else p, e);
      if d.token.kind != Unknown then Read(true, d.token, 0, d.pos, count + 1)
      else Read(false, NoToken(0), INVALID_STRING_DATA, d.pos, count + 1)
  }

  /** However often a handler asks for a parameter, no string it comes to read keeps the quote
      loop busy for ever. */
  ghost predicate Readable(w: string, p: nat, e: nat, count: nat)
    requires p <= e <= |w|
    decreases e - p, if count == 0 then 1 else 0
  {
    p == e || (count != 0 && w[p] != ',') ||
    var q := if count != 0 then p + 1 else p;
    DatumEnds(w, q, e) && Readable(w, ProgramData(w, q, e).pos, e, count + 1)
  }

  /** Every datum scpiParser_parseProgramData recognizes is of a type SCPI_Parameter accepts. */
  lemma DataAreParameters(w: string, p: nat, e: nat)
    requires p <= e <= |w|
    ensures IsParameter(ProgramData(w, p, e).token.kind) <==> ProgramData(w, p, e).token.kind != Unknown
  {
    hide Span, NondecimalData, CharacterData, Number, Quoted;
    var s := Span(w, p, e, Ws);
    KindsOfEarly(w, s, e);
    KindsOfQuoted(w, s, e);
  }

  lemma KindsOfEarly(w: string, p: nat, e: nat)
    requires p <= e <= |w|
    ensures NondecimalData(w, p, e).token.kind in {HexNum, OctNum, BinNum, Unknown}
    ensures CharacterData(w, p, e).token.kind in {Mnemonic, Unknown}
    ensures Number(w, p, e).token.kind in {Decimal, DecimalWithSuffix, Unknown}
  {
    hide Span, MnemonicEnd, DecimalEnd, SuffixEnd, IsBase;
  }

  lemma KindsOfQuoted(w: string, p: nat, e: nat)
    requires p <= e <= |w|
    ensures Quoted(w, p, e).token.kind in {SingleQuote, DoubleQuote, BlockData, ExpressionData, Unknown}
  {
    hide Block, Expression, QuoteEnd, Span;
    ExpressionKind(w, Block(w, p, e).pos, e);
    assert StringData(w, p, e).token.kind in {SingleQuote, DoubleQuote, Unknown};
    hide StringData;
  }

  /** n successive calls, stopping at the first that fails. */
  datatype Reads = Reads(ok: bool, tokens: seq<Token>, pos: nat)

  function ReadMany(w: string, p: nat, e: nat, count: nat, n: nat): (r: Reads)
    requires p <= e <= |w|
    ensures p <= r.pos <= e
    ensures r.ok ==> |r.tokens| == n
    ensures forall i :: 0 <= i < |r.tokens| ==> TokenEnd(r.tokens[i]) <= e
    decreases n
  {
    if n == 0 then Reads(true, [], p)
    else
      var r := ReadParameter(w, p, e, count, true);
      if !r.ok then Reads(false, [], r.pos)
      else
        var more := ReadMany(w, r.pos, e, r.count, n - 1);
        Reads(more.ok, [r.token] + more.tokens, more.pos)
  }

  function Tokens(items: seq<Datum>): (r: seq<Token>)
    ensures |r| == |items|
    ensures forall i :: 0 <= i < |items| ==> r[i] == items[i].token
    decreases |items|
  {
    if items == [] then [] else [items[0].token] + Tokens(items[1..])
  }

  // ---------- what the framing pass does not count ----------

  function Last(items: seq<Datum>): Datum
    requires |items| > 0
  {
    items[|items| - 1]
  }

  /** White space behind a bare decimal: skipped by the framing pass but not counted. */
  function Uncounted(d: Datum): int {
    if d.token.kind == Decimal then d.pos - TokenEnd(d.token) else 0
  }

  function UncountedAll(items: seq<Datum>): int
    decreases |items|
  {
    if items == [] then 0 else Uncounted(items[0]) + UncountedAll(items[1..])
  }

  /** White space behind a datum that is counted. */
  function Trailing(d: Datum): int {
    if d.token.kind == Decimal then 0 else d.pos - TokenEnd(d.token)
  }

  lemma NumberCounted(w: string, p: nat, e: nat)
    requires p <= e <= |w|
    ensures var d := Number(w, p, e);
            d.pos - p - d.counted == Uncounted(d) && Uncounted(d) >= 0
    ensures var d := Number(w, p, e);
            d.token.kind in {Decimal, DecimalWithSuffix, Unknown}
              && (d.token.kind == Decimal ==> Span(w, d.pos, e, Ws) == d.pos)
  {
    hide DecimalEnd, SuffixEnd;
    var q := DecimalEnd(w, p, e);
    if q > p {
      var s := Span(w, q, e, Ws);
      assert Span(w, s, e, Ws) == s;
    }
  }

  lemma OthersCounted(w: string, p: nat, e: nat)
    requires p <= e <= |w|
    ensures var d := Quoted(w, p, e);
            d.token.kind != Decimal && (d.token.kind != Unknown ==>
                d.counted == d.pos - p && TokenEnd(d.token) == d.pos)
    ensures NondecimalData(w, p, e).token.kind != Decimal && CharacterData(w, p, e).token.kind != Decimal
  {
    hide Span, StringData, Block, Expression, NondecimalData, CharacterData;
    KindsOfEarly(w, p, e);
    KindsOfQuoted(w, p, e);
    FirstChar(w, p, e);
    BlockStops(w, p, e);
    FirstChar(w, Block(w, p, e).pos, e);
  }

  lemma ExpressionKind(w: string, p: nat, e: nat)
    requires p <= e <= |w|
    ensures Expression(w, p, e).token.kind in {ExpressionData, Unknown}
  {
    hide Span;
  }

  lemma BareCounted(w: string, p: nat, e: nat)
    requires p <= e <= |w| && BareDatum(w, p, e).token.kind != Unknown
    ensures var d := BareDatum(w, p, e);
            && d.pos - p - d.counted == Uncounted(d) >= 0
            && (d.token.kind == Decimal ==> Span(w, d.pos, e, Ws) == d.pos)
            && (d.token.kind != Decimal ==> TokenEnd(d.token) == d.pos)
  {
    EarlyKinds(w, p, e);
    NumberCounted(w, p, e);
    OthersCounted(w, p, e);
    SuffixedEnd(w, p, e);
    hide Span, NondecimalData, CharacterData, Number, Quoted;
  }

  lemma SuffixedEnd(w: string, p: nat, e: nat)
    requires p <= e <= |w|
    ensures Number(w, p, e).token.kind == DecimalWithSuffix ==> TokenEnd(Number(w, p, e).token) == Number(w, p, e).pos
  {
    hide Span, DecimalEnd, SuffixEnd;
  }

  /** The one way a datum's counted length falls short of what it consumes. */
  lemma {:induction false} DatumCounted(w: string, p: nat, e: nat)
    requires p <= e <= |w| && ProgramData(w, p, e).token.kind != Unknown
    ensures var d := ProgramData(w, p, e);
            d.pos - p - d.counted == Uncounted(d) >= 0
    ensures Trailing(ProgramData(w, p, e)) >= 0
  {
    hide Span, BareDatum;
    var s := Span(w, p, e, Ws);
    BareCounted(w, s, e);
  }

  lemma ListIs(w: string, p: nat, e: nat)
    requires p <= e <= |w| && AllProgramData(w, p, e).ok
    ensures var d := ProgramData(w, p, e);
            && d.token.kind != Unknown
            && (d.pos < e && w[d.pos] == ',' ==>
                  var rest := AllProgramData(w, d.pos + 1, e);
                  rest.ok && AllProgramData(w, p, e) == DataList(true, [d] + rest.items, rest.pos))
            && (!(d.pos < e && w[d.pos] == ',') ==> AllProgramData(w, p, e) == DataList(true, [d], d.pos))
  {
    hide ProgramData;
  }

  /** The framing pass's length is short by exactly the uncounted white space. */
  lemma {:induction false} ListCounted(w: string, p: nat, e: nat)
    requires p <= e <= |w| && AllProgramData(w, p, e).ok
    ensures var a := AllProgramData(w, p, e);
            a.pos - p - CountedLength(a.items) == UncountedAll(a.items)
    ensures var a := AllProgramData(w, p, e);
            a.pos == Last(a.items).pos
    decreases e - p
  {
    hide ProgramData, Uncounted, AllProgramData;
    var d := ProgramData(w, p, e);
    ListIs(w, p, e);
    DatumCounted(w, p, e);
    if d.pos < e && w[d.pos] == ',' {
      ListCounted(w, d.pos + 1, e);
      var rest := AllProgramData(w, d.pos + 1, e);
      assert ([d] + rest.items)[1..] == rest.items;
    } else {
      assert [d][1..] == [];
    }
  }

  // ---------- the two passes ----------

  /** The cursor of SCPI_Parameter in front of the datum at p: for every parameter but the
      first it stands on the comma. */
  ghost predicate CursorFor(v: string, cursor: nat, count: nat, p: nat) {
    if count == 0 then cursor == p else cursor + 1 == p && cursor < |v| && v[cursor] == ','
  }

  lemma OneRead(v: string, cursor: nat, m: nat, count: nat, p: nat)
    requires CursorFor(v, cursor, count, p) && p <= m <= |v|
    requires ProgramData(v, p, m).token.kind != Unknown
    ensures ReadParameter(v, cursor, m, count, true)
         == Read(true, ProgramData(v, p, m).token, 0, ProgramData(v, p, m).pos, count + 1)
  {
    hide ProgramData;
  }

  /** The datum at p read again in the window that ends at m: only if the window cuts the white
      space behind it does the cursor stop earlier. */
  lemma ReadAgain(w: string, e: nat, v: string, p: nat, m: nat, cursor: nat, count: nat)
    requires p <= e <= |w| && ProgramData(w, p, e).token.kind != Unknown
    requires Fits(Frame(w, e, v, 0, m), p) && TokenEnd(ProgramData(w, p, e).token) <= m
    requires CursorFor(v, cursor, count, p)
    ensures var d := ProgramData(w, p, e);
            cursor <= m <= |v| && ReadParameter(v, cursor, m, count, true)
              == Read(true, d.token, 0, Min(d.pos, m), count + 1)
  {
    hide ProgramData, Fits, CursorFor, ReadParameter;
    var fr := Frame(w, e, v, 0, m);
    FitsBounds(fr, p);
    ProgramDataCut(fr, p);
    OneRead(v, cursor, m, count, p);
    assert cursor <= p by { CursorBefore(v, cursor, count, p); }
  }

  lemma CursorBefore(v: string, cursor: nat, count: nat, p: nat)
    requires CursorFor(v, cursor, count, p)
    ensures cursor <= p
  {
  }

  lemma ListUnfold(w: string, p: nat, e: nat)
    requires p <= e <= |w| && AllProgramData(w, p, e).ok
    ensures var a := AllProgramData(w, p, e);
            var d := ProgramData(w, p, e);
            && d.token.kind != Unknown
            && if d.pos < e && w[d.pos] == ',' then
                 var rest := AllProgramData(w, d.pos + 1, e);
                 && rest.ok && a.pos == rest.pos && |a.items| == |rest.items| + 1
                 && Last(a.items) == Last(rest.items) && Tokens(a.items) == [d.token] + Tokens(rest.items)
               else a.pos == d.pos && |a.items| == 1 && Last(a.items) == d && Tokens(a.items) == [d.token]
  {
    hide ProgramData;
    var d := ProgramData(w, p, e);
    if d.pos < e && w[d.pos] == ',' {
      assert ([d] + AllProgramData(w, d.pos + 1, e).items)[1..] == AllProgramData(w, d.pos + 1, e).items;
    } else {
      assert [d][1..] == [];
    }
  }

  lemma ReadManyStep(v: string, cursor: nat, m: nat, count: nat, n: nat, t: Token, q: nat)
    requires cursor <= m <= |v| && n > 0 && q <= m
    requires ReadParameter(v, cursor, m, count, true) == Read(true, t, 0, q, count + 1)
    ensures var more := ReadMany(v, q, m, count + 1, n - 1);
            ReadMany(v, cursor, m, count, n) == Reads(more.ok, [t] + more.tokens, more.pos)
  {
    hide ReadParameter;
  }

  lemma ReadNone(v: string, m: nat, count: nat)
    requires m <= |v|
    ensures ReadMany(v, m, m, count, 0) == Reads(true, [], m)
  {
  }

  /** v is the memory at execution time: equal to the framing pass's text from p to the end of
      the window. Reading from a cursor at p, or at the comma in front of p, reproduces the
      framing pass if the window holds the last token. */
  lemma {:induction false} ReadsAgree(w: string, e: nat, v: string, p: nat, m: nat, cursor: nat, count: nat)
    requires p <= e <= |w| && AllProgramData(w, p, e).ok
    requires Fits(Frame(w, e, v, 0, m), p)
    requires var a := AllProgramData(w, p, e); TokenEnd(Last(a.items).token) <= m <= a.pos
    requires CursorFor(v, cursor, count, p)
    ensures var a := AllProgramData(w, p, e);
            cursor <= m <= |v| && ReadMany(v, cursor, m, count, |a.items|) == Reads(true, Tokens(a.items), m)
    decreases e - p
  {
    hide ProgramData, Fits, ReadParameter, AllProgramData, ReadMany, Tokens, Last;
    var fr := Frame(w, e, v, 0, m);
    FitsBounds(fr, p);
    CursorBefore(v, cursor, count, p);
    ListUnfold(w, p, e);
    var n := |AllProgramData(w, p, e).items|;
    var d := ProgramData(w, p, e);
    if d.pos < e && w[d.pos] == ',' {
      var q := d.pos + 1;
      LastBehind(w, q, e);
      ReadAgain(w, e, v, p, m, cursor, count);
      FitsLater(fr, p, d.pos);
      SameChar(fr, d.pos);
      FitsLater(fr, p, q);
      ReadsAgree(w, e, v, q, m, d.pos, count + 1);
      ReadManyStep(v, cursor, m, count, n, d.token, d.pos);
    } else {
      ReadAgain(w, e, v, p, m, cursor, count);
      ReadManyStep(v, cursor, m, count, 1, d.token, m);
      ReadNone(v, m, count + 1);
    }
  }

  lemma {:induction false} LastBehind(w: string, p: nat, e: nat)
    requires p <= e <= |w| && AllProgramData(w, p, e).ok
    ensures var a := AllProgramData(w, p, e); p < TokenEnd(Last(a.items).token)
    decreases e - p
  {
    hide ProgramData;
    var d := ProgramData(w, p, e);
    if d.pos < e && w[d.pos] == ',' {
      LastBehind(w, d.pos + 1, e);
    }
  }

  /** The window SCPI_Parse gives the handler for the data list at p. */
  function WindowEnd(w: string, p: nat, e: nat): int
    requires p <= e <= |w|
  {
    p + CountedLength(AllProgramData(w, p, e).items)
  }

  /** n calls of SCPI_Parameter succeed with the tokens of the framing pass and leave the
      cursor at the end of the window. */
  ghost predicate PassesAgree(w: string, p: nat, e: nat, v: string, m: nat)
    requires p <= e <= |w| && p <= m <= |v|
  {
    var a := AllProgramData(w, p, e);
    ReadMany(v, p, m, 0, |a.items|) == Reads(true, Tokens(a.items), m)
  }

  /** The white space that the framing pass skipped behind bare decimals followed by a comma
      fits into the white space it counted behind the last datum. */
  ghost predicate SpaceFits(items: seq<Datum>)
    requires |items| > 0
  {
    UncountedAll(items[..|items| - 1]) <= Trailing(Last(items))
  }

  lemma {:induction false} UncountedSplit(items: seq<Datum>)
    requires |items| > 0
    ensures UncountedAll(items) == UncountedAll(items[..|items| - 1]) + Uncounted(Last(items))
    decreases |items|
  {
    hide Uncounted;
    if |items| == 1 {
      assert items[..0] == [] && items[1..] == [];
    } else {
      UncountedSplit(items[1..]);
      assert items[1..][..|items| - 2] == items[..|items| - 1][1..];
      assert items[1..][|items| - 2] == items[|items| - 1];
    }
  }

  /** The window holds the last token exactly when the white space fits. */
  lemma WindowHoldsLast(w: string, p: nat, e: nat)
    requires p <= e <= |w| && AllProgramData(w, p, e).ok
    ensures var a := AllProgramData(w, p, e);
            && (SpaceFits(a.items) <==> TokenEnd(Last(a.items).token) <= WindowEnd(w, p, e))
            && p <= WindowEnd(w, p, e) <= a.pos
  {
    hide AllProgramData, CountedLength, UncountedAll;
    var a := AllProgramData(w, p, e);
    ListCounted(w, p, e);
    UncountedSplit(a.items);
    WindowBounds(w, p, e);
  }

  lemma {:induction false} WindowBounds(w: string, p: nat, e: nat)
    requires p <= e <= |w| && AllProgramData(w, p, e).ok
    ensures var a := AllProgramData(w, p, e); p <= p + CountedLength(a.items) <= a.pos
    decreases e - p
  {
    hide ProgramData;
    var d := ProgramData(w, p, e);
    if d.pos < e && w[d.pos] == ',' {
      WindowBounds(w, d.pos + 1, e);
      var rest := AllProgramData(w, d.pos + 1, e);
      assert ([d] + rest.items)[1..] == rest.items;
    } else {
      assert CountedLength([d]) == d.counted;
    }
  }

  /** Two-pass agreement, exactly: the handler that asks for all n parameters gets the n tokens
      of the framing pass and ends with nothing left over, if and only if the uncounted white
      space fits. In particular it does when no bare decimal has white space before its comma. */
  lemma {:induction false} TwoPassAgreement(w: string, p: nat, e: nat, v: string, m: nat)
    requires p <= e <= |w| && AllProgramData(w, p, e).ok
    requires m == WindowEnd(w, p, e) && Fits(Frame(w, e, v, 0, m), p)
    ensures PassesAgree(w, p, e, v, m) <==> SpaceFits(AllProgramData(w, p, e).items)
  {
    hide Fits, SpaceFits, AllProgramData, CountedLength, ReadMany, CursorFor;
    WindowHoldsLast(w, p, e);
    FitsBounds(Frame(w, e, v, 0, m), p);
    var a := AllProgramData(w, p, e);
    if SpaceFits(a.items) {
      FirstCursor(v, p);
      ReadsAgree(w, e, v, p, m, p, 0);
    }
    if PassesAgree(w, p, e, v, m) {
      var r := ReadMany(v, p, m, 0, |a.items|);
      assert r.tokens[|a.items| - 1] == Last(a.items).token;
    }
  }

  lemma FirstCursor(v: string, p: nat)
    ensures CursorFor(v, p, 0, p)
  {
  }

  lemma {:induction false} NoSpaceFits(items: seq<Datum>)
    requires |items| > 0 && Trailing(Last(items)) >= 0
    requires forall i :: 0 <= i < |items| - 1 && items[i].token.kind == Decimal ==>
               items[i].pos == TokenEnd(items[i].token)
    ensures SpaceFits(items)
  {
    NoneUncounted(items[..|items| - 1]);
  }

  lemma {:induction false} NoneUncounted(items: seq<Datum>)
    requires forall i :: 0 <= i < |items| && items[i].token.kind == Decimal ==> items[i].pos == TokenEnd(items[i].token)
    ensures UncountedAll(items) == 0
    decreases |items|
  {
    if items != [] {
      NoneUncounted(items[1..]);
    }
  }
}
