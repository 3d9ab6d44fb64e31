/** Program data and message units (Utilities/Scpi/Src/parser.c, scpiParser_parseProgramData,
    scpiParser_parseAllProgramData and scpiParser_detectProgramMessageUnit) as functions of
    the text, the cursor and the end of string. */
module Framing {
  import opened Lexer

  // ---------- one program datum ----------

  /** The end of a datum's own text; a hexadecimal, octal or binary token starts two later. */
  function TokenEnd(t: Token): int {
    t.ptr + t.len
  }

  /** A datum: its token, the cursor after it and the length the C function returns. */
  datatype Datum = Datum(token: Token, pos: nat, counted: int)

  /** The decimal branch: a suffix belongs to the number, white space before it too. */
  function Number(w: string, p: nat, e: nat): (r: Datum)
    requires p <= e <= |w|
    ensures p <= r.pos <= e
    ensures r.counted == 0 <==> r.token.kind == Unknown
    ensures r.counted == 0 ==> r.pos == p
    ensures 0 <= r.counted <= r.pos - p
    ensures p <= r.token.ptr && TokenEnd(r.token) <= r.pos
  {
    var q := DecimalEnd(w, p, e);
    if q == p then Datum(NoToken(p), p, 0)
    else
      var s := Span(w, q, e, Ws);
      var x := SuffixEnd(w, s, e);
      if x > s then Datum(Token(DecimalWithSuffix, p, x - p), x, x - p)
      else Datum(Token(Decimal, p, q - p), s, q - p)
  }

  function OfLexed(r: Lexed, p: nat): Datum {
    Datum(r.token, r.pos, r.pos - p)
  }

  /** String, block and expression, tried in this order. */
  function Quoted(w: string, p: nat, e: nat): (r: Datum)
    requires p <= e <= |w|
    ensures p <= r.pos <= e
    ensures r.counted == 0 <==> r.token.kind == Unknown
    ensures 0 <= r.counted <= r.pos - p
    ensures p <= r.token.ptr && TokenEnd(r.token) <= r.pos
  {
    var s := StringData(w, p, e);
    if s.pos > p then OfLexed(s, p)
    else
      var b := Block(w, p, e);
      if b.token.kind == BlockData then OfLexed(b, p)
      else
        var x := Expression(w, b.pos, e);
        Datum(x.token, x.pos, x.pos - b.pos)
  }

  /** The alternatives of scpiParser_parseProgramData, without the white space around them. */
  function BareDatum(w: string, p: nat, e: nat): (r: Datum)
    requires p <= e <= |w|
    ensures p <= r.pos <= e
    ensures r.counted == 0 <==> r.token.kind == Unknown
    ensures 0 <= r.counted <= r.pos - p
    ensures p <= r.token.ptr && TokenEnd(r.token) <= r.pos
    ensures r.token.kind != Unknown ==> p < TokenEnd(r.token)
  {
    var h := NondecimalData(w, p, e);
    if h.pos > p then OfLexed(h, p)
    else
      var c := CharacterData(w, p, e);
      if c.pos > p then OfLexed(c, p)
      else
        var n := Number(w, p, e);
        if n.counted != 0 then n else Quoted(w, p, e)
  }

  /** scpiParser_parseProgramData */
  function ProgramData(w: string, p: nat, e: nat): (r: Datum)
    requires p <= e <= |w|
    ensures p <= r.pos <= e
    ensures 0 <= r.counted <= r.pos - p
    ensures r.token.kind != Unknown ==> r.pos > p && r.counted > 0
    ensures p <= r.token.ptr && TokenEnd(r.token) <= r.pos
    ensures r.token.kind != Unknown ==> p < TokenEnd(r.token)
  {
    var s := Span(w, p, e, Ws);
    var d := BareDatum(w, s, e);
    var t := Span(w, d.pos, e, Ws);
    Datum(d.token, t, d.counted + (s - p) + (t - d.pos))
  }

  // ---------- all program data of a unit ----------

  /** The comma-separated data that can be read from p, and where reading stopped. */
  datatype DataList = DataList(ok: bool, items: seq<Datum>, pos: nat)

  function AllProgramData(w: string, p: nat, e: nat): (r: DataList)
    requires p <= e <= |w|
    ensures p <= r.pos <= e
    ensures r.ok ==> |r.items| > 0 && r.pos > p
    decreases e - p
  {
    var d := ProgramData(w, p, e);
    if d.token.kind == Unknown then DataList(false, [], d.pos)
    else if d.pos < e && w[d.pos] == ',' then
      var rest := AllProgramData(w, d.pos + 1, e);
      DataList(rest.ok, [d] + rest.items, rest.pos)
    else DataList(true, [d], d.pos)
  }

  /** What the length of the data token adds up to: counted lengths and the commas. */
  function CountedLength(items: seq<Datum>): int {
    if items == [] then 0
    else items[0].counted + (if |items| > 1 then 1 else 0) + CountedLength(items[1..])
  }

  // ---------- message units ----------

  datatype Termination = NoTermination | NlTermination | SemicolonTermination

  /** A unit: header and data tokens, number of parameters (-1 for bad data), terminator and
      the cursor after the unit. */
  datatype Unit = Unit(header: Token, data: Token, parameters: int, term: Termination, pos: nat)

  /** Header and data of a unit, up to where a terminator is expected. */
  datatype Body = Body(header: Token, data: Token, parameters: int, pos: nat)

  function UnitBody(w: string, p: nat, e: nat): (r: Body)
    requires p <= e <= |w|
    ensures p <= r.pos <= e
    ensures r.header.ptr >= p && r.header.len >= 0 && TokenEnd(r.header) <= r.pos
    ensures r.data.ptr >= p
    ensures r.header.kind != Invalid
    ensures r.header.kind == Unknown <==> r.header.len == 0
  {
    var h := Header(w, Span(w, p, e, Ws), e);
    var d := DataPart(w, h.pos, e);
    Body(h.token, d.data, d.parameters, d.pos)
  }

  datatype DataField = DataField(data: Token, parameters: int, pos: nat)

  /** What follows a header: data only if white space separates them. */
  function DataPart(w: string, q: nat, e: nat): (r: DataField)
    requires q <= e <= |w|
    ensures q <= r.pos <= e && q <= r.data.ptr
  {
    var s := Span(w, q, e, Ws);
    if s > q then
      var d := AllProgramData(w, s, e);
      if d.ok then DataField(Token(AllData, s, CountedLength(d.items)), |d.items|, d.pos)
      else DataField(NoToken(s), -1, d.pos)
    else DataField(NoToken(s), 0, s)
  }

  /** scpiParser_detectProgramMessageUnit on the text from p to e: a unit of a non-empty text
      consumes at least one byte of it and no more than all. */
  function DetectUnit(w: string, p: nat, e: nat): (r: Unit)
    requires p <= e <= |w|
    ensures p <= r.pos <= e
    ensures p < e ==> p < r.pos
    ensures r.header.ptr >= p && r.data.ptr >= p && r.header.len >= 0 && r.header.ptr <= r.pos
    ensures r.header.kind != Invalid ==> TokenEnd(r.header) <= r.pos
  {
    var b := UnitBody(w, p, e);
    var n := NewLineEnd(w, b.pos, e);
    var m := Skip(w, b.pos, e, ';');
    if n > b.pos then Unit(b.header, b.data, b.parameters, NlTermination, n)
    else if m > b.pos then Unit(b.header, b.data, b.parameters, SemicolonTermination, m)
    else if b.pos < e then
      Unit(Token(Invalid, b.header.ptr, 1), NoToken(p), b.parameters, NoTermination, b.pos + 1)
    else Unit(b.header, b.data, b.parameters, NoTermination, b.pos)
  }

  // ---------- what ends ----------

  /** No string that reading a datum enters keeps the quote loop busy for ever. */
  ghost predicate DatumEnds(w: string, p: nat, e: nat)
    requires p <= e <= |w|
  {
    StringEnds(w, Span(w, p, e, Ws), e)
  }

  ghost predicate AllDataEnds(w: string, p: nat, e: nat)
    requires p <= e <= |w|
    decreases e - p
  {
    var d := ProgramData(w, p, e);
    && DatumEnds(w, p, e)
    && (d.token.kind != Unknown && d.pos < e && w[d.pos] == ',' ==> AllDataEnds(w, d.pos + 1, e))
  }

  /** The same for a whole unit: scpiParser_detectProgramMessageUnit returns. */
  ghost predicate UnitEnds(w: string, p: nat, e: nat)
    requires p <= e <= |w|
  {
    var h := Header(w, Span(w, p, e, Ws), e);
    var s := Span(w, h.pos, e, Ws);
    s > h.pos ==> AllDataEnds(w, s, e)
  }
}
