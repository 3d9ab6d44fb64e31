/** The framing functions of parser.c over a lexer state, proved against Framing. */
module FramingCode {
  import opened Lexer
  import opened LexerCode
  import opened Framing

  /** scpiParser_parseProgramData: the token and the returned length. */
  method ParseProgramData(state: LexState) returns (token: Token, length: int)
    requires state.Valid() && DatumEnds(state.text, state.pos, state.eos)
    modifies state`pos
    ensures state.Valid()
    ensures Datum(token, state.pos, length) == ProgramData(state.text, old(state.pos), state.eos)
  {
    hide StringEnds;
    var result := 0;
    var tmp := state.WhiteSpace();
    var realLen := tmp.len;
    token, result := ParseBare(state);
    tmp := state.WhiteSpace();
    realLen := realLen + tmp.len;
    length := result + realLen;
  }

  /** The alternatives tried in turn while nothing has been recognized. */
  method ParseBare(state: LexState) returns (token: Token, result: int)
    requires state.Valid() && StringEnds(state.text, state.pos, state.eos)
    modifies state`pos
    ensures state.Valid()
    ensures Datum(token, state.pos, result) == BareDatum(state.text, old(state.pos), state.eos)
  {
    hide NondecimalData, CharacterData, MnemonicEnd, Number, Quoted, StringEnds;
    ghost var p := state.pos;
    token, result := state.NondecimalNumericData();
    if result == 0 {
      token := state.CharacterProgramData();
      result := token.len;
      assert token.len == state.pos - p && (state.pos > p <==> token.len > 0) by {
        CharacterLength(state.text, p, state.eos);
      }
    }
    if result == 0 {
      token, result := ParseNumber(state);
    }
    if result == 0 {
      token, result := ParseQuoted(state);
    }
  }

  lemma CharacterLength(w: string, p: nat, e: nat)
    requires p <= e <= |w|
    ensures CharacterData(w, p, e).token.len == CharacterData(w, p, e).pos - p
  {
  }

  /** The decimal branch. */
  method ParseNumber(state: LexState) returns (token: Token, result: int)
    requires state.Valid()
    modifies state`pos
    ensures state.Valid()
    ensures Datum(token, state.pos, result) == Number(state.text, old(state.pos), state.eos)
  {
    hide DecimalEnd, SuffixEnd, Span;
    token := state.DecimalNumericProgramData();
    result := token.len;
    if result != 0 {
      var ws := state.WhiteSpace();
      var suffix := state.SuffixProgramData();
      if suffix.len > 0 {
        token := Token(DecimalWithSuffix, token.ptr, token.len + ws.len + suffix.len);
        result := token.len;
      }
    }
  }

  /** The last three alternatives. */
  method ParseQuoted(state: LexState) returns (token: Token, result: int)
    requires state.Valid() && StringEnds(state.text, state.pos, state.eos)
    modifies state`pos
    ensures state.Valid()
    ensures Datum(token, state.pos, result) == Quoted(state.text, old(state.pos), state.eos)
  {
    ghost var p := state.pos;
    token := state.StringProgramData();
    result := token.len;
    assert result == state.pos - p;
    if result == 0 {
      token, result := state.ArbitraryBlockProgramData();
      hide Block, StringData, Span;
      if result == 0 {
        ghost var b := state.pos;
        token := state.ProgramExpression(token);
        result := token.len;
        assert result == state.pos - b by { ExpressionLength(state.text, b, state.eos); }
      }
    }
  }

  lemma ExpressionLength(w: string, p: nat, e: nat)
    requires p <= e <= |w|
    ensures Expression(w, p, e).token.len == Expression(w, p, e).pos - p
  {
  }

  /** What a reading that has already passed the data in done amounts to. */
  ghost function Resume(done: seq<Datum>, rest: DataList): DataList {
    DataList(rest.ok, done + rest.items, rest.pos)
  }

  lemma ResumeStep(w: string, p: nat, e: nat, done: seq<Datum>)
    requires p <= e <= |w|
    ensures var d := ProgramData(w, p, e);
            Resume(done, AllProgramData(w, p, e)) ==
            if d.token.kind == Unknown then DataList(false, done, d.pos)
            else if d.pos < e && w[d.pos] == ',' then Resume(done + [d], AllProgramData(w, d.pos + 1, e))
            else DataList(true, done + [d], d.pos)
  {
    hide ProgramData;
    var d := ProgramData(w, p, e);
    if d.token.kind == Unknown {
      assert done + [] == done;
    } else if d.pos < e && w[d.pos] == ',' {
      var rest := AllProgramData(w, d.pos + 1, e);
      assert done + ([d] + rest.items) == done + [d] + rest.items;
    }
  }

  /** One round of the loop: a datum, and whether a comma follows it. */
  method ParseItem(state: LexState, ghost done: seq<Datum>)
    returns (token: Token, length: int, more: bool, ghost d: Datum)
    requires state.Valid() && AllDataEnds(state.text, state.pos, state.eos)
    modifies state`pos
    ensures state.Valid() && state.pos >= old(state.pos) && (more ==> state.pos > old(state.pos))
    ensures d.token == token && d.counted == length
    ensures token.kind == Unknown ==> !more
    ensures Resume(done, AllProgramData(state.text, old(state.pos), state.eos)) ==
            if token.kind == Unknown then DataList(false, done, state.pos)
            else if more then Resume(done + [d], AllProgramData(state.text, state.pos, state.eos))
            else DataList(true, done + [d], state.pos)
    ensures more ==> AllDataEnds(state.text, state.pos, state.eos)
  {
    hide ProgramData, AllProgramData, Resume, DatumEnds;
    ResumeStep(state.text, state.pos, state.eos, done);
    token, length := ParseProgramData(state);
    d := Datum(token, state.pos, length);
    more := false;
    if token.kind != Unknown {
      more := NextComma(state);
    }
  }

  /** scpiParser_parseAllProgramData: the data token and the number of parameters. */
  method ParseAllProgramData(state: LexState) returns (token: Token, parameters: int)
    requires state.Valid() && AllDataEnds(state.text, state.pos, state.eos)
    modifies state`pos
    ensures state.Valid()
    ensures var d := AllProgramData(state.text, old(state.pos), state.eos);
            && state.pos == d.pos
            && token == (if d.ok then Token(AllData, old(state.pos), CountedLength(d.items))
                         else NoToken(old(state.pos)))
            && parameters == (if d.ok then |d.items| else -1)
  {
    hide AllProgramData, CountedLength, Resume, AllDataEnds;
    var ptr := state.pos;
    ghost var all := AllProgramData(state.text, ptr, state.eos);
    ghost var done: seq<Datum> := [];
    var paramCount := 0;
    var len := 0;
    var more := true;
    ResumeNone(all);
    while more
      invariant state.Valid() && state.pos >= ptr && paramCount == |done|
      invariant more ==> AllDataEnds(state.text, state.pos, state.eos)
      invariant more ==> Resume(done, AllProgramData(state.text, state.pos, state.eos)) == all
      invariant more ==> len == CountedLength(done) + (if done == [] then 0 else 1)
      invariant !more ==> all == DataList(true, done, state.pos) && len == CountedLength(done)
      decreases state.eos - state.pos, more
    {
      var tmp, length, comma, d := ParseItem(state, done);
      if tmp.kind == Unknown {
        return NoToken(ptr), -1;
      }
      CountedAppend(done, d);
      done := done + [d];
      paramCount := paramCount + 1;
      more := comma;
      len := len + length + (if more then 1 else 0);
    }
    token, parameters := Token(AllData, ptr, len), paramCount;
  }

  method NextComma(state: LexState) returns (found: bool)
    requires state.Valid()
    modifies state`pos
    ensures state.Valid() && found == (old(state.pos) < state.eos && state.text[old(state.pos)] == ',')
    ensures state.pos == if found then old(state.pos) + 1 else old(state.pos)
  {
    var comma := state.SpecificChar(',', CommaTok);
    found := comma.kind == CommaTok;
  }

  lemma ResumeNone(all: DataList)
    ensures Resume([], all) == all && CountedLength([]) == 0
  {
    assert [] + all.items == all.items;
  }

  lemma {:induction false} CountedAppend(items: seq<Datum>, d: Datum)
    ensures CountedLength(items + [d]) == CountedLength(items) + (if items == [] then 0 else 1) + d.counted
    decreases |items|
  {
    if items != [] {
      assert (items + [d])[1..] == items[1..] + [d];
      CountedAppend(items[1..], d);
    }
  }

  /** scpi_parser_state_t */
  class ParserState {
    var programHeader: Token
    var programData: Token
    var numberOfParameters: int
    var termination: Termination

    constructor ()
    {
      programHeader, programData, numberOfParameters, termination := NoToken(0), NoToken(0), 0, NoTermination;
    }

    /** scpiParser_detectProgramMessageUnit: how many bytes the unit takes. */
    method DetectProgramMessageUnit(text: string, start: nat, end: nat) returns (consumed: nat)
      requires start <= end <= |text| && UnitEnds(text, start, end)
      modifies this
      ensures Unit(programHeader, programData, numberOfParameters, termination, start + consumed)
           == DetectUnit(text, start, end)
    {
      hide UnitBody, NewLineEnd, Skip, UnitEnds;
      var state := new LexState(text, start, end);
      numberOfParameters := 0;
      DetectBody(state);
      var tmp := DetectTerminator(state);
      var result := tmp.len;
      if !state.IsEos() && result == 0 {
        state.pos := state.pos + 1;
        programHeader := programHeader.(len := 1, kind := Invalid);
        programData := NoToken(start);
      }
      termination :=
        if tmp.kind == SemicolonTok then SemicolonTermination
        else if tmp.kind == Nl then NlTermination
        else NoTermination;
      consumed := state.pos - start;
    }

    /** The terminator of a unit: a new line or a semicolon. */
    method DetectTerminator(state: LexState) returns (tmp: Token)
      requires state.Valid()
      modifies state`pos
      ensures state.Valid()
      ensures var p, text, end := old(state.pos), state.text, state.eos;
              var n := NewLineEnd(text, p, end);
              var m := Skip(text, p, end, ';');
              state.pos == (if n > p then n else m) && tmp.len == state.pos - p
              && tmp.kind == (if n > p then Nl else if m > p then SemicolonTok else Unknown)
    {
      hide NewLineEnd, Skip;
      tmp := state.NewLineToken();
      if tmp.len == 0 {
        tmp := state.SpecificChar(';', SemicolonTok);
      }
    }

    /** Its first half: white space, header, white space and data. */
    method DetectBody(state: LexState)
      requires state.Valid() && UnitEnds(state.text, state.pos, state.eos)
      requires numberOfParameters == 0
      modifies this`programHeader, this`programData, this`numberOfParameters, state`pos
      ensures state.Valid()
      ensures Body(programHeader, programData, numberOfParameters, state.pos)
           == UnitBody(state.text, old(state.pos), state.eos)
    {
      hide Span, Header, AllProgramData, AllDataEnds;
      var _ := state.WhiteSpace();
      programHeader := state.ProgramHeader();
      var ws := state.WhiteSpace();
      if ws.len > 0 {
        programData, numberOfParameters := ParseAllProgramData(state);
      } else {
        programData := NoToken(state.pos);
      }
    }
  }
}
