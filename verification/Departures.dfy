/** Concrete inputs at which the code departs from what its comments and the standards lead one
    to expect. The exact conditions are the theorems that each of them names. */
module Departures {
  import opened Lexer
  import opened Framing
  import opened Line
  import opened Params
  import opened Response
  import opened Handlers
  import opened WholeLines
  import opened Chunking
  import opened SmallUnits
  import opened Numerals
  import opened PrintfSpec
  import StuckLines

  // ---------- Line.PathSurvives ----------

  /** One round of SCPI_Parse over a unit that is a header only, at the start of a line. */
  lemma FirstStep(mem: string, q: nat, matches: string -> bool, text: string)
    requires 0 < q < |mem| - 1 && mem[0..q] == text && matches(text)
    requires DetectUnit(mem, 0, |mem|) == Unit(Token(CompoundHeader, 0, q), NoToken(q), 0, SemicolonTermination, q + 1)
    ensures LineRun(mem, 0, NoToken(0), matches).events
         == [Command(text, "")] + LineRun(mem, q + 1, Token(CompoundHeader, 0, q), matches).events
  {
    hide DetectUnit;
    RunUnfold(mem, 0, NoToken(0), matches);
    hide LineRun;
    assert DataText(mem, NoToken(q)) == "";
  }

  /** A header of one character that is extended by the path of the first header of the line,
      and not found. */
  lemma RelativeUnit(mem: string, p: nat, len: nat, i: nat, now: string, matches: string -> bool, text: string, u: Unit)
    requires 0 < len < p && p + 1 < |mem| == |now| && mem[0] != '*' && mem[p] != '*' && mem[p] != ':'
    requires LastColon(mem, 0, len) == i && i <= p && now == MemMove(mem, p - i, 0, i)
    requires text == now[p - i..p + 1] && !matches(text)
    requires u.header == Token(CompoundHeader, p, 1)
    ensures UnitStep(mem, Token(CompoundHeader, 0, len), u, matches)
         == Step(now, Token(CompoundHeader, 0, len), [UndefinedHeader(text)])
  {
    hide LastColon, MemMove;
  }

  lemma RelativeStep(mem: string, p: nat, len: nat, i: nat, now: string, matches: string -> bool, text: string)
    requires 0 < len < p && p + 1 < |mem| == |now| && mem[0] != '*' && mem[p] != '*' && mem[p] != ':'
    requires LastColon(mem, 0, len) == i && i <= p && now == MemMove(mem, p - i, 0, i)
    requires text == now[p - i..p + 1] && !matches(text)
    requires var term := if p + 2 < |mem| then SemicolonTermination else NlTermination;
             DetectUnit(mem, p, |mem|) == Unit(Token(CompoundHeader, p, 1), NoToken(p + 1), 0, term, p + 2)
    ensures LineRun(mem, p, Token(CompoundHeader, 0, len), matches).events
         == [UndefinedHeader(text)]
            + (if p + 2 < |mem| then LineRun(now, p + 2, Token(CompoundHeader, 0, len), matches).events else [])
  {
    hide DetectUnit, LastColon, MemMove, LineRun, UnitStep;
    RelativeUnit(mem, p, len, i, now, matches, text, DetectUnit(mem, p, |mem|));
    RunUnfold(mem, p, Token(CompoundHeader, 0, len), matches);
  }

  predicate IsShort(h: string) {
    h == "A:B:C"
  }

  /** In "A:B:C;X;Y" with X undefined, Y is looked up as "A:A:Y": extending X overwrote the
      path of the header before it, which is still the previous header when Y comes. */
  lemma UndefinedHeaderSpoilsPath()
    ensures LineEvents("A:B:C;X;Y\n", IsShort)
         == [Command("A:B:C", ""), UndefinedHeader("A:B:X"), UndefinedHeader("A:A:Y")]
  {
    hide LineRun, DetectUnit, MemMove, LastColon;
    var w, v := "A:B:C;X;Y\n", "A:A:B:X;Y\n";
    ShortFirst();
    ShortSecond();
    ShortThird();
    ShortCopies();
    FirstStep(w, 5, IsShort, "A:B:C");
    RelativeStep(w, 6, 5, 4, v, IsShort, "A:B:X");
    RelativeStep(v, 8, 5, 4, "A:A:A:A:Y\n", IsShort, "A:A:Y");
  }

  lemma ShortFirst()
    ensures DetectUnit("A:B:C;X;Y\n", 0, 10)
            == Unit(Token(CompoundHeader, 0, 5), NoToken(5), 0, SemicolonTermination, 6)
  {
    var w := "A:B:C;X;Y\n";
    hide DetectUnit, IsMnemonic;
    OneLetter(w, 0, 10);
    OneLetter(w, 2, 10);
    OneLetter(w, 4, 10);
    ChainLink(w, 1, 10, 3);
    ChainLink(w, 3, 10, 5);
    ChainEnd(w, 5, 10);
    HeaderUnit(w, 0, 10, 1, 5);
  }

  lemma ShortSecond()
    ensures DetectUnit("A:B:C;X;Y\n", 6, 10)
            == Unit(Token(CompoundHeader, 6, 1), NoToken(7), 0, SemicolonTermination, 8)
  {
    var w := "A:B:C;X;Y\n";
    hide DetectUnit, IsMnemonic;
    OneLetter(w, 6, 10);
    ChainEnd(w, 7, 10);
    HeaderUnit(w, 6, 10, 7, 7);
  }

  lemma ShortThird()
    ensures DetectUnit("A:A:B:X;Y\n", 8, 10) == Unit(Token(CompoundHeader, 8, 1), NoToken(9), 0, NlTermination, 10)
  {
    var w := "A:A:B:X;Y\n";
    hide DetectUnit, IsMnemonic;
    OneLetter(w, 8, 10);
    ChainEnd(w, 9, 10);
    HeaderUnit(w, 8, 10, 9, 9);
  }

  lemma ShortCopies()
    ensures LastColon("A:B:C;X;Y\n", 0, 5) == 4 && MemMove("A:B:C;X;Y\n", 2, 0, 4) == "A:A:B:X;Y\n"
    ensures LastColon("A:A:B:X;Y\n", 0, 5) == 4 && MemMove("A:A:B:X;Y\n", 4, 0, 4) == "A:A:A:A:Y\n"
  {
    LastColonIs("A:B:C;X;Y\n", 0, 5, 4);
    LastColonIs("A:A:B:X;Y\n", 0, 5, 4);
    hide LastColon;
  }

  predicate IsLong(h: string) {
    h == "A:B:CDEFG"
  }

  /** The path may stay in place and still be lost: in "A:B:CDEFG;X;Y" the copy lands behind it,
      but puts a colon into the last mnemonic, and Y is looked up as "A:B:CDA:Y". */
  lemma ColonBehindPath()
    ensures LineEvents("A:B:CDEFG;X;Y\n", IsLong)
         == [Command("A:B:CDEFG", ""), UndefinedHeader("A:B:X"), UndefinedHeader("A:B:CDA:Y")]
  {
    hide LineRun, DetectUnit, MemMove, LastColon;
    var w, v := "A:B:CDEFG;X;Y\n", "A:B:CDA:B:X;Y\n";
    LongFirst();
    LongSecond();
    LongThird();
    LongCopies();
    FirstStep(w, 9, IsLong, "A:B:CDEFG");
    RelativeStep(w, 10, 9, 4, v, IsLong, "A:B:X");
    RelativeStep(v, 12, 9, 8, "A:B:A:B:CDA:Y\n", IsLong, "A:B:CDA:Y");
  }

  lemma LongFirst()
    ensures DetectUnit("A:B:CDEFG;X;Y\n", 0, 14)
            == Unit(Token(CompoundHeader, 0, 9), NoToken(9), 0, SemicolonTermination, 10)
  {
    var w := "A:B:CDEFG;X;Y\n";
    hide DetectUnit, IsMnemonic;
    OneLetter(w, 0, 14);
    OneLetter(w, 2, 14);
    LastMnemonic();
    ChainLink(w, 1, 14, 3);
    ChainLink(w, 3, 14, 9);
    ChainEnd(w, 9, 14);
    HeaderUnit(w, 0, 14, 1, 9);
  }

  lemma LastMnemonic()
    ensures IsMnemonic("A:B:CDEFG;X;Y\n", 4, 14, 9)
  {
  }

  lemma LongSecond()
    ensures DetectUnit("A:B:CDEFG;X;Y\n", 10, 14)
            == Unit(Token(CompoundHeader, 10, 1), NoToken(11), 0, SemicolonTermination, 12)
  {
    var w := "A:B:CDEFG;X;Y\n";
    hide DetectUnit, IsMnemonic;
    OneLetter(w, 10, 14);
    ChainEnd(w, 11, 14);
    HeaderUnit(w, 10, 14, 11, 11);
  }

  lemma LongThird()
    ensures DetectUnit("A:B:CDA:B:X;Y\n", 12, 14)
            == Unit(Token(CompoundHeader, 12, 1), NoToken(13), 0, NlTermination, 14)
  {
    var w := "A:B:CDA:B:X;Y\n";
    hide DetectUnit, IsMnemonic;
    OneLetter(w, 12, 14);
    ChainEnd(w, 13, 14);
    HeaderUnit(w, 12, 14, 13, 13);
  }

  lemma LongCopies()
    ensures LastColon("A:B:CDEFG;X;Y\n", 0, 9) == 4 && MemMove("A:B:CDEFG;X;Y\n", 6, 0, 4) == "A:B:CDA:B:X;Y\n"
    ensures LastColon("A:B:CDA:B:X;Y\n", 0, 9) == 8 && MemMove("A:B:CDA:B:X;Y\n", 4, 0, 8) == "A:B:A:B:CDA:Y\n"
  {
    LastColonIs("A:B:CDEFG;X;Y\n", 0, 9, 4);
    LastColonIs("A:B:CDA:B:X;Y\n", 0, 9, 8);
    hide LastColon;
  }

  // ---------- StuckLines.DrainStopsAtEmptyUnit ----------

  /** An empty unit keeps its own line and the good one behind it in the buffer, whatever
      arrives with data, until an empty call executes all of it at once. */
  lemma {:induction false} EmptyUnitSticks(chunks: seq<string>)
    requires NonEmptyCalls(chunks)
    ensures Drain(";;\nA\n") == Drained([], ";;\nA\n")
    ensures InputAll(";;\nA\n", chunks) == Drained([], ";;\nA\n" + Flatten(chunks))
    ensures InputAll(";;\nA\n", chunks + [""]) == Drained([";;\nA\n" + Flatten(chunks)], "")
  {
    hide ScanLine, NonEmptyCalls, Drain, FirstNl, LineWhole, InputAll, Flatten;
    var w := ";;\nA\n";
    EmptyUnitStops();
    EmptyUnitIsWhole();
    DrainNone(w);
    StuckLines.StuckForGood(w, 2, chunks);
    StuckLines.EmptyCallExecutes(w, 2, chunks);
  }

  lemma EmptyUnitIsWhole()
    ensures FirstNl(";;\nA\n", 0, 2) && LineWhole(";;\nA\n", 0, 2)
  {
    hide LineWhole;
    PlainLine(";;\nA\n", 0, 2);
  }

  lemma EmptyUnitStops()
    ensures ScanLine(";;\nA\n", 0).NoLine?
  {
    hide DetectUnit;
    EmptyUnit(";;\nA\n", 0, 5);
  }

  // ---------- Chunking.SameStreamSameUnits ----------

  /** A string that holds a line terminator: received at once, "A ", the string, ";B" are one
      line; cut behind that terminator, its first half is executed as a line of its own and the
      second half is stuck. */
  lemma {:induction false} OpenStringSplits()
    ensures InputAll("", ["A \"\n\";B\n"]) == Drained(["A \"\n\";B\n"], "")
    ensures InputAll("", ["A \"\n", "\";B\n"]) == Drained(["A \"\n"], "\";B\n")
  {
    hide ScanLine, Drain;
    var w, x, y := "A \"\n\";B\n", "A \"\n", "\";B\n";
    OneLineWithString();
    HalfString();
    OtherHalf();
    DrainFound(w);
    DrainFound(x);
    DrainNone(y);
    DrainEmpty();
    assert w[..8] == w && w[8..] == "" && x[..4] == x && x[4..] == "";
    assert "" + w == w && "" + x == x && "" + y == y;
    var none: seq<string> := [];
    assert [w][1..] == none && [x, y][1..] == [y] && [y][1..] == none;
    assert InputAll("", [y]) == Drained([], y);
  }

  lemma ClosingQuote()
    ensures QuoteEnd("A \"\n\";B\n", 3, 8, '"') == 4 && QuoteEnd("A \"\n", 3, 4, '"') == 4
  {
  }

  lemma OneLineWithString()
    ensures ScanLine("A \"\n\";B\n", 0).FoundLine? && ScanLine("A \"\n\";B\n", 0).end == 8
  {
    hide DetectUnit;
    StringUnit();
    OneLetter("A \"\n\";B\n", 6, 8);
    ChainEnd("A \"\n\";B\n", 7, 8);
    HeaderUnit("A \"\n\";B\n", 6, 8, 7, 7);
  }

  lemma StringUnit()
    ensures var u := DetectUnit("A \"\n\";B\n", 0, 8);
            u.header.kind == CompoundHeader && u.term == SemicolonTermination && u.pos == 6
  {
    hide ProgramData, QuoteEnd, DetectUnit, CountedLength;
    var w := "A \"\n\";B\n";
    ClosingQuote();
    StringDatum(w, 2, 8);
    var d := AllProgramData(w, 2, 8);
    assert d.ok && d.pos == 5;
    hide AllProgramData;
    DataUnit(w, 0, 8, d);
  }

  lemma HalfString()
    ensures ScanLine("A \"\n", 0).FoundLine? && ScanLine("A \"\n", 0).end == 4
  {
    hide DetectUnit;
    HalfUnit();
    NlUnitAt("A \"\n", 3, 4);
  }

  lemma HalfUnit()
    ensures var u := DetectUnit("A \"\n", 0, 4); u.header.kind == Invalid && u.term == NoTermination && u.pos == 3
  {
    hide ProgramData, QuoteEnd, DetectUnit, UnitBody;
    var w := "A \"\n";
    ClosingQuote();
    StringDatum(w, 2, 4);
    var d := AllProgramData(w, 2, 4);
    assert d.pos == 2;
    hide AllProgramData;
    DataBody(w, 0, 4, d);
    InvalidUnit(w, 0, 4);
  }

  lemma OtherHalf()
    ensures ScanLine("\";B\n", 0).NoLine?
  {
    hide DetectUnit;
    QuoteUnit();
    EmptyUnit("\";B\n", 1, 4);
  }

  lemma QuoteUnit()
    ensures var u := DetectUnit("\";B\n", 0, 4); u.header.kind == Invalid && u.term == NoTermination && u.pos == 1
  {
    hide DetectUnit;
    var w := "\";B\n";
    assert |w| == 4 && w[0] == '"';
    StrayQuote(w, 0, 4);
  }

  // ---------- Handlers.VerdictMisses ----------

  predicate IsA(h: string) {
    h == "A"
  }

  function Quiet(k: nat): Behaviour {
    Behaviour(true, [], true)
  }

  /** An undefined header reported by the first line is forgotten when the second line is good. */
  lemma {:induction false} GoodLineHidesError(w: string, lines: seq<string>)
    requires w == "X\nA\n" && lines == ["X\n", "A\n"]
    ensures Drain(w) == Drained(lines, "")
    ensures Reports(Quiet, 0, Reactions(lines, IsA)) == [-113] && Verdict(true, Quiet, 0, lines, IsA)
  {
    hide Drain, LineEvents, ErrorsFrom, Reactions, Reports, Executed, Verdict, LastCommand, IsA;
    TwoLines();
    TwoReactions();
    LastDecides(true, Quiet, 0, lines, IsA);
    ReportsOfLast(Quiet, 0, lines, IsA);
  }

  /** The undefined header executes nothing, so command 0 is that of the second line. */
  lemma TwoReactions()
    ensures var lines := ["X\n", "A\n"];
            && LastCommand(0, lines, IsA) == 0
            && Reports(Quiet, 0, Reactions(lines[..1], IsA)) == [-113]
            && ErrorsFrom(Quiet, 0, LineEvents(lines[1], IsA)) == []
  {
    hide LineEvents, ErrorsFrom, Reactions, Reports, Executed, IsA;
    var lines := ["X\n", "A\n"];
    assert lines[..1] == ["X\n"];
    BadLine();
    GoodLine();
    ErrorsOfOne([UndefinedHeader("X")]);
    ErrorsOfOne([Command("A", "")]);
    OneLine(Quiet, 0, "X\n", IsA);
    NoCommands("X\n", [UndefinedHeader("X")]);
  }

  lemma BadLine()
    ensures LineEvents("X\n", IsA) == [UndefinedHeader("X")]
  {
    hide LineEvents;
    LetterLine("X\n", IsA);
    assert "X\n"[..1] == "X";
  }

  lemma GoodLine()
    ensures LineEvents("A\n", IsA) == [Command("A", "")]
  {
    hide LineEvents;
    LetterLine("A\n", IsA);
    assert "A\n"[..1] == "A";
  }

  lemma NoCommands(line: string, events: seq<Event>)
    requires LineEvents(line, IsA) == events && Commands(events) == 0
    ensures Executed(Reactions([line], IsA)) == 0
  {
    hide LineEvents;
    assert [line][1..] == [];
    assert Noticed(events) + [] == Noticed(events);
    if events != [] {
      assert [events][1..] == [];
    }
  }

  lemma ErrorsOfOne(events: seq<Event>)
    requires |events| == 1 && !events[0].InvalidCharacter? && (events[0].Command? ==> events[0].data == "")
    ensures ErrorsFrom(Quiet, 0, events) == if events[0].Command? then [] else [-113]
    ensures Commands(events) == if events[0].Command? then 1 else 0
  {
    assert events[1..] == [];
  }

  lemma LetterUnit(line: string)
    requires |line| == 2 && IsAlpha(line[0]) && line[1] == '\n'
    ensures DetectUnit(line, 0, 2) == Unit(Token(CompoundHeader, 0, 1), NoToken(1), 0, NlTermination, 2)
  {
    hide DetectUnit, ColonChain, IsMnemonic;
    ChainEnd(line, 1, 2);
    OneLetter(line, 0, 2);
    HeaderUnit(line, 0, 2, 1, 1);
  }

  lemma LetterLine(line: string, matches: string -> bool)
    requires |line| == 2 && IsAlpha(line[0]) && line[1] == '\n'
    ensures LineEvents(line, matches)
         == [if matches(line[..1]) then Command(line[..1], "") else UndefinedHeader(line[..1])]
    ensures ScanLine(line, 0).FoundLine? && ScanLine(line, 0).end == 2
  {
    hide DetectUnit;
    LetterUnit(line);
    RunUnfold(line, 0, NoToken(0), matches);
    assert DataText(line, NoToken(1)) == "";
    assert line[0..1] == line[..1];
    hide LineRun;
  }

  lemma {:induction false} TwoLines()
    ensures Drain("X\nA\n") == Drained(["X\n", "A\n"], "")
  {
    hide ScanLine, Drain, LineEvents, DetectUnit;
    FirstOfTwo();
    LetterLine("A\n", IsA);
    var w, v := "X\nA\n", "A\n";
    DrainFound(w);
    DrainFound(v);
    DrainEmpty();
    assert w[..2] == "X\n" && w[2..] == v && v[..2] == v && v[2..] == "";
    assert Drain(v) == Drained([v], "");
  }

  lemma FirstOfTwo()
    ensures ScanLine("X\nA\n", 0).FoundLine? && ScanLine("X\nA\n", 0).end == 2
  {
    hide ScanLine, FirstNl, NewLineEnd, LineWhole;
    var w := "X\nA\n";
    TwoTerminated();
    PlainLine(w, 0, 1);
    assert w[..2] == "X\n";
    LetterLine("X\n", IsA);
    ScanOfLine(w, 0, 1);
  }

  lemma TwoTerminated()
    ensures FirstNl("X\nA\n", 0, 1) && NewLineEnd("X\nA\n", 1, 4) == 2
  {
  }

  // ---------- Params.TwoPassAgreement ----------

  /** White space before a comma costs the last parameter its last digit, and nothing reports
      it: the second parameter of "1 ,22" is read as 2. */
  lemma {:induction false} LastDigitLost()
    ensures var w := "1 ,22";
            var a := AllProgramData(w, 0, 5);
            && a.ok && Tokens(a.items) == [Token(Decimal, 0, 1), Token(Decimal, 3, 2)]
            && WindowEnd(w, 0, 5) == 4
            && ReadMany(w, 0, 4, 0, 2) == Reads(true, [Token(Decimal, 0, 1), Token(Decimal, 3, 1)], 4)
            && CommandErrors(Behaviour(true, Asks(2), true), w, 0, 4) == []
            && !SpaceFits(a.items)
  {
    hide AllProgramData, ReadMany, RunActions, CountedLength, Tokens, SpaceFits, Asks;
    var w := "1 ,22";
    TwoNumbers(w, 5);
    TwoItems(Datum(Token(Decimal, 0, 1), 2, 1), Datum(Token(Decimal, 3, 2), 5, 2));
    TwoReads(w);
    AsksSucceed(w, 0, 4, 0, 2);
  }

  /** A digit, a space, a comma, and digits up to e. */
  ghost predicate IsSpaced(w: string, e: nat) {
    && 4 <= e <= |w| && IsDigit(w[0]) && w[1] == ' ' && w[2] == ','
    && forall i :: 3 <= i < e ==> IsDigit(w[i])
  }

  lemma TwoNumbers(w: string, e: nat)
    requires IsSpaced(w, e)
    ensures AllProgramData(w, 0, e)
            == DataList(true, [Datum(Token(Decimal, 0, 1), 2, 1), Datum(Token(Decimal, 3, e - 3), e, e - 3)], e)
  {
    hide ProgramData;
    NumberDatum(w, 0, e, 1, 2);
    NumberDatum(w, 3, e, e, e);
    assert AllProgramData(w, 3, e) == DataList(true, [Datum(Token(Decimal, 3, e - 3), e, e - 3)], e);
  }

  lemma TwoReads(w: string)
    requires IsSpaced(w, 4)
    ensures ReadMany(w, 0, 4, 0, 2) == Reads(true, [Token(Decimal, 0, 1), Token(Decimal, 3, 1)], 4)
  {
    hide ProgramData;
    NumberDatum(w, 0, 4, 1, 2);
    NumberDatum(w, 3, 4, 4, 4);
    assert ReadParameter(w, 0, 4, 0, true) == Read(true, Token(Decimal, 0, 1), 0, 2, 1);
    assert ReadParameter(w, 2, 4, 1, true) == Read(true, Token(Decimal, 3, 1), 0, 4, 2);
    hide ReadParameter;
    assert ReadMany(w, 4, 4, 2, 0) == Reads(true, [], 4);
    assert ReadMany(w, 2, 4, 1, 1) == Reads(true, [Token(Decimal, 3, 1)], 4);
  }

  lemma TwoItems(x: Datum, y: Datum)
    requires x == Datum(Token(Decimal, 0, 1), 2, 1) && y.token.kind == Decimal
    ensures CountedLength([x, y]) == x.counted + 1 + y.counted
    ensures Tokens([x, y]) == [x.token, y.token]
    ensures !SpaceFits([x, y])
  {
    var items := [x, y];
    assert items[1..] == [y] && [y][1..] == [];
    assert items[..1] == [x] && [x][1..] == [];
    assert CountedLength([y]) == y.counted && Tokens([y]) == [y.token];
    assert UncountedAll([x]) == 1;
    assert Last(items) == y && Trailing(y) == 0;
  }

  /** With one digit less the parameter is lost altogether, and the error is "invalid string
      data". */
  lemma {:induction false} LastParameterLost()
    ensures var w := "1 ,2";
            && AllProgramData(w, 0, 4).ok && |AllProgramData(w, 0, 4).items| == 2
            && WindowEnd(w, 0, 4) == 3
            && CommandErrors(Behaviour(true, Asks(2), true), w, 0, 3) == [-151]
  {
    hide AllProgramData, CountedLength, RunActions, Asks;
    var w := "1 ,2";
    TwoNumbers(w, 4);
    TwoItems(Datum(Token(Decimal, 0, 1), 2, 1), Datum(Token(Decimal, 3, 1), 4, 1));
    SecondIsLost(w);
  }

  lemma SecondIsLost(w: string)
    requires IsSpaced(w, 4)
    ensures RunActions(Asks(2), w, 0, 3, 0) == Ran([-151], 3, 2)
  {
    hide ProgramData, Asks, RunActions, RunAction;
    FirstAsked(w);
    SecondAsked(w);
    AskedTwice(w, Ran([], 2, 1), Ran([-151], 3, 2));
  }

  lemma FirstAsked(w: string)
    requires IsSpaced(w, 4)
    ensures RunAction(AskParameter(true), w, 0, 3, 0) == Ran([], 2, 1)
  {
    hide ProgramData;
    NumberDatum(w, 0, 3, 1, 2);
  }

  lemma SecondAsked(w: string)
    requires IsSpaced(w, 4)
    ensures RunAction(AskParameter(true), w, 2, 3, 1) == Ran([-151], 3, 2)
  {
    hide ProgramData;
    NothingAtEnd(w, 3);
  }

  lemma AskedTwice(w: string, a: Ran, b: Ran)
    requires |w| >= 3 && a.pos <= 3 && RunAction(AskParameter(true), w, 0, 3, 0) == a
    requires RunAction(AskParameter(true), w, a.pos, 3, a.count) == b
    ensures RunActions(Asks(2), w, 0, 3, 0) == Ran(a.errors + b.errors, b.pos, b.count)
  {
    hide RunAction;
    var asks := Asks(2);
    assert asks[0] == AskParameter(true) && asks[1..] == [AskParameter(true)] && asks[1..][1..] == [];
    assert b.errors + [] == b.errors;
    assert RunActions(asks[1..], w, a.pos, 3, a.count) == b;
  }

  lemma NothingAtEnd(w: string, e: nat)
    requires e <= |w|
    ensures ProgramData(w, e, e).token.kind == Unknown && ProgramData(w, e, e).pos == e
  {
  }

  // ---------- Handlers.BrokenList ----------

  /** A list of data that breaks off in front of the line terminator: the command is executed on
      no data, and nothing is reported. */
  lemma {:induction false} BrokenListRuns()
    ensures DetectUnit("A 1,\n", 0, 5).parameters == -1
    ensures LineEvents("A 1,\n", IsA) == [Command("A", "")]
    ensures ErrorsFrom(Quiet, 0, LineEvents("A 1,\n", IsA)) == []
  {
    hide DetectUnit, LineEvents, ErrorsFrom;
    BrokenUnit();
    BrokenLine();
    ErrorsOfOne([Command("A", "")]);
  }

  lemma BrokenUnit()
    ensures DetectUnit("A 1,\n", 0, 5) == Unit(Token(CompoundHeader, 0, 1), NoToken(2), -1, NlTermination, 5)
  {
    var w := "A 1,\n";
    hide ProgramData, DetectUnit;
    NumberDatum(w, 2, 5, 3, 3);
    NothingAtNl(w, 4, 5);
    assert AllProgramData(w, 4, 5) == DataList(false, [], 4);
    var d := AllProgramData(w, 2, 5);
    assert d == DataList(false, [Datum(Token(Decimal, 2, 1), 3, 1)], 4);
    hide AllProgramData;
    DataUnit(w, 0, 5, d);
  }

  lemma BrokenLine()
    ensures LineEvents("A 1,\n", IsA) == [Command("A", "")]
  {
    var w := "A 1,\n";
    hide DetectUnit;
    BrokenUnit();
    RunUnfold(w, 0, NoToken(0), IsA);
    assert w[0..1] == "A" && DataText(w, NoToken(2)) == "";
    hide LineRun;
  }

  // ---------- Response.ResponseWellFormed ----------

  /** A block behind another result lacks its comma. */
  lemma LateBlockRunsOn()
    ensures LineOutput([[Plain("1"), BlockBytes("#11A")]], 0) == "1#11A\r\n"
    ensures ResponseMessage([[Plain("1"), BlockBytes("#11A")]]) == "1,#11A\r\n"
  {
    var rs := [Plain("1"), BlockBytes("#11A")];
    assert rs[1..] == [BlockBytes("#11A")] && rs[1..][1..] == [];
    assert CommandOutput(rs[1..], 1) == "#11A";
    assert CommandOutput(rs, 0) == "1#11A";
    var none: seq<seq<Result>> := [];
    assert [rs][1..] == none;
    assert NonEmpty([rs]) == [rs];
    assert JoinResults(rs) == "1,#11A";
  }

  // ---------- PrintfSpec.WidthExact ----------

  /** With %06.3d the number 5 takes four characters, where the field asks for six. */
  lemma ZeroFlagNarrows()
    ensures var flags := NO_FLAGS.(zero := true);
            FmtInt(5, 10, 6, 3, flags) == "0005" && WidthOf(5, 10, 6, 3, flags) == 6
  {
    var flags := NO_FLAGS.(zero := true);
    assert DigitsOf(5, 10, false) == "5";
    assert Repeat('0', 3) == "000" by {
      assert Repeat('0', 1) == "0";
    }
    assert PaddingOf(1, 0, 6, 3, flags) == Padding(0, 3, 0);
  }
}
