/** The interpreter of Utilities/Scpi/Src/parser.c: SCPI_Input, SCPI_Parse, processCommand and
    SCPI_Parameter over a context whose buffers they update in place. What it writes, reports
    and returns is what Handlers says of the events of the lines it executes. */
module Interpreter {
  import opened Basics
  import opened Lexer
  import opened LexerCode
  import opened Framing
  import opened FramingCode
  import opened FramingLaws
  import opened Line
  import opened WholeLines
  import opened Chunking
  import opened Ending
  import opened Handlers
  import opened Params
  import opened Response
  import Device
  import StatusModel

  const INPUT_BUFFER_OVERRUN := -363

  // ---------- the context ----------

  class Interpreter {
    const dev: Device.Device
    const parserState: ParserState
    const buffer: array<char>
    const matches: string -> bool
    const handler: nat -> Behaviour
    var position: nat
    var written: string
    var outputCount: nat
    var inputCount: nat
    var params: LexState
    /** How many commands have been executed. */
    var calls: nat
    /** What has been executed so far: the effects of units, and the lines they came from. */
    ghost var events: seq<Event>
    ghost var lines: seq<string>

    constructor (bufferLength: nat, matches: string -> bool, handler: nat -> Behaviour)
      requires bufferLength > 0
      ensures Valid() && fresh(dev.Footprint()) && fresh(parserState) && fresh(buffer) && fresh(params)
      ensures position == 0 && written == "" && events == [] && lines == []
      ensures dev.View() == StatusModel.POWER_ON && dev.pushed == []
    {
      dev := new Device.Device();
      parserState := new ParserState();
      buffer := new char[bufferLength](_ => '\0');
      this.matches, this.handler := matches, handler;
      StatusModel.PowerOnInv();
      position, written, outputCount, inputCount, calls := 0, "", 0, 0, 0;
      params := new LexState("", 0, 0);
      events, lines := [], [];
    }

    ghost predicate Valid()
      reads this, dev.Footprint()
    {
      && dev.Sound()
      && buffer !in dev.Footprint()
      && position < buffer.Length
    }

    // ---------- output ----------

    /** writeDelimiter and the write behind it; a block goes out without a delimiter. */
    method WriteResult(r: Result)
      modifies this`written, this`outputCount
      ensures written == old(written) + Written(r, old(outputCount)) && outputCount == old(outputCount) + 1
    {
      if r.Plain? {
        if outputCount > 0 {
          written := written + ",";
        }
      }
      written := written + r.bytes;
      outputCount := outputCount + 1;
    }

    /** writeSemicolon */
    method WriteSemicolon()
      modifies this`written
      ensures written == old(written) + (if outputCount > 0 then ";" else "")
    {
      if outputCount > 0 {
        written := written + ";";
      }
    }

    /** writeNewLine */
    method WriteNewLine()
      modifies this`written
      ensures written == old(written) + (if outputCount > 0 then LINE_ENDING else "")
    {
      if outputCount > 0 {
        written := written + LINE_ENDING;
      }
    }

    // ---------- parameters ----------

    /** SCPI_ErrorPush, as far as the interpreter needs it. */
    method Fail(err: int)
      requires Valid()
      modifies dev.Footprint()
      ensures Valid() && dev.cmdError && dev.pushed == old(dev.pushed) + [err]
    {
      hide StatusModel.Inv, StatusModel.PushError;
      StatusModel.PushInv(dev.View(), err);
      dev.ErrorPush(err);
    }

    /** SCPI_Parameter */
    method Parameter(mandatory: bool) returns (ok: bool, token: Token)
      requires InHandler()
      modifies this`inputCount, params`pos, dev.Footprint()
      ensures InHandler() && params.pos >= old(params.pos)
      ensures var r := ReadParameter(params.text, old(params.pos), params.eos, old(inputCount), mandatory);
              && r == Read(ok, token, r.err, params.pos, inputCount)
              && dev.pushed == old(dev.pushed) + Noted(r.err)
              && dev.cmdError == (r.err != 0 || old(dev.cmdError))
    {
      hide Device.Device.Sound, ProgramData, ReadParameter, DatumEnds;
      ghost var p := params.pos;
      ghost var r := ReadParameter(params.text, params.pos, params.eos, inputCount, mandatory);
      UnfoldRead(params.text, params.pos, params.eos, inputCount, mandatory);
      token := NoToken(0);
      ok := false;
      if params.IsEos() {
        if mandatory {
          Fail(MISSING_PARAMETER);
        } else {
          token := token.(kind := Mnemonic);
        }
        assert r == Read(ok, token, r.err, params.pos, inputCount);
        return;
      }
      if inputCount != 0 {
        var comma := NextComma(params);
        if !comma {
          Fail(INVALID_SEPARATOR);
          assert r == Read(ok, token, r.err, params.pos, inputCount);
          return;
        }
      }
      ok, token := Datum();
      assert r == Read(ok, token, r.err, params.pos, inputCount);
    }

    lemma UnfoldRead(w: string, p: nat, e: nat, count: nat, mandatory: bool)
      requires p <= e <= |w|
      ensures ReadParameter(w, p, e, count, mandatory) ==
              if p == e then
                (if mandatory then Read(false, NoToken(0), MISSING_PARAMETER, p, count)
                 else Read(false, Token(Mnemonic, 0, 0), 0, p, count))
              else if count != 0 && w[p] != ',' then Read(false, NoToken(0), INVALID_SEPARATOR, p, count)
              else ReadDatum(w, if count != 0 then p + 1 else p, e, count)
    {
      hide Device.Device.Sound, ProgramData;
    }

    ghost function ReadDatum(w: string, p: nat, e: nat, count: nat): Read
      requires p <= e <= |w|
    {
      var d := ProgramData(w, p, e);
      if d.token.kind != Unknown then Read(true, d.token, 0, d.pos, count + 1)
      else Read(false, NoToken(0), INVALID_STRING_DATA, d.pos, count + 1)
    }

    /** SCPI_Parameter behind the separator. */
    method Datum() returns (ok: bool, token: Token)
      requires Valid() && params.Valid() && DatumEnds(params.text, params.pos, params.eos)
      modifies this`inputCount, params`pos, dev.Footprint()
      ensures Valid() && params.Valid() && params.pos >= old(params.pos)
      ensures var r := ReadDatum(params.text, old(params.pos), params.eos, old(inputCount));
              && r == Read(ok, token, r.err, params.pos, inputCount)
              && dev.pushed == old(dev.pushed) + Noted(r.err)
              && dev.cmdError == (r.err != 0 || old(dev.cmdError))
    {
      hide Device.Device.Sound, ProgramData, DatumEnds;
      inputCount := inputCount + 1;
      DataAreParameters(params.text, params.pos, params.eos);
      var length;
      token, length := ParseProgramData(params);
      ok := IsParameter(token.kind);
      if !ok {
        token := NoToken(0);
        Fail(INVALID_STRING_DATA);
      }
    }

    // ---------- commands ----------

    /** What holds between the actions of a handler. */
    ghost predicate InHandler()
      reads this, dev.Footprint(), params
    {
      Valid() && params.Valid() && Readable(params.text, params.pos, params.eos, inputCount)
    }

    /** One action of a handler: any error it pushes is on record in cmd_error. */
    method Act(action: Action)
      requires InHandler()
      modifies this`written, this`outputCount, this`inputCount, params`pos, dev.Footprint()
      ensures InHandler() && params.pos >= old(params.pos)
      ensures var r := RunAction(action, params.text, old(params.pos), params.eos, old(inputCount));
              && dev.pushed == old(dev.pushed) + r.errors
              && dev.cmdError == (old(dev.cmdError) || r.errors != [])
              && params.pos == r.pos && inputCount == r.count
      ensures if action.Answer? then
                written == old(written) + Written(action.result, old(outputCount))
                  && outputCount == old(outputCount) + 1
              else written == old(written) && outputCount == old(outputCount)
    {
      hide Device.Device.Sound, ReadParameter, Readable;
      match action
      case AskParameter(mandatory) =>
        var _, _ := Parameter(mandatory);
      case Answer(result) =>
        WriteResult(result);
      case Report(err) =>
        Fail(err);
      case Operate(op) =>
        Operate(op);
    }

    /** A register write, an error pop or clear, *CLS, *OPC or *ESR? by a handler. */
    method Operate(op: Operation)
      requires Valid()
      modifies dev.Footprint()
      ensures Valid() && dev.cmdError == old(dev.cmdError) && dev.pushed == old(dev.pushed)
    {
      hide StatusModel.Apply, StatusModel.Inv;
      StatusModel.ApplyInv(dev.View(), op);
      dev.Perform(op);
    }

    /** The callback of a command. */
    method Callback(actions: seq<Action>)
      requires InHandler()
      modifies this`written, this`outputCount, this`inputCount, params`pos, dev.Footprint()
      ensures InHandler() && params.pos >= old(params.pos)
      ensures var r := RunActions(actions, params.text, old(params.pos), params.eos, old(inputCount));
              && dev.pushed == old(dev.pushed) + r.errors
              && dev.cmdError == (old(dev.cmdError) || r.errors != [])
              && params.pos == r.pos
      ensures written == old(written) + CommandOutput(Answers(actions), old(outputCount))
      ensures outputCount == old(outputCount) + |Answers(actions)|
    {
      hide Device.Device.Sound, Written, Readable, RunAction, RunActions, Answers, CommandOutput;
      ghost var text, eos := params.text, params.eos;
      ghost var all := RunActions(actions, text, params.pos, eos, inputCount);
      ghost var sofar: seq<int> := [];
      NoActions(text, params.pos, eos, inputCount, written, outputCount);
      assert [] + all.errors == all.errors && dev.pushed + [] == dev.pushed;
      var i := 0;
      while i < |actions|
        invariant 0 <= i <= |actions| && InHandler() && params.pos >= old(params.pos)
        invariant dev.pushed == old(dev.pushed) + sofar && dev.cmdError == (old(dev.cmdError) || sofar != [])
        invariant var r := RunActions(actions[i..], text, params.pos, eos, inputCount);
                  Ran(sofar + r.errors, r.pos, r.count) == all
        invariant written + CommandOutput(Answers(actions[i..]), outputCount)
                  == old(written) + CommandOutput(Answers(actions), old(outputCount))
        invariant outputCount + |Answers(actions[i..])| == old(outputCount) + |Answers(actions)|
      {
        AnswersStep(actions, i, written, outputCount);
        ErrorsStep(actions, i, text, params.pos, eos, inputCount, sofar);
        ghost var r := RunAction(actions[i], text, params.pos, eos, inputCount);
        Grouped(old(dev.pushed), sofar, r.errors);
        Act(actions[i]);
        sofar := sofar + r.errors;
        i := i + 1;
      }
      assert actions[i..] == [];
      NoActions(text, params.pos, eos, inputCount, written, outputCount);
      assert sofar + [] == sofar;
    }

    lemma NoActions(w: string, p: nat, e: nat, n: nat, out: string, count: nat)
      requires p <= e <= |w|
      ensures RunActions([], w, p, e, n) == Ran([], p, n)
      ensures Answers([]) == [] && out + CommandOutput([], count) == out
    {
      assert out + "" == out;
    }

    lemma ErrorsStep(actions: seq<Action>, i: nat, w: string, p: nat, e: nat, n: nat, sofar: seq<int>)
      requires i < |actions| && p <= e <= |w|
      ensures var a := RunAction(actions[i], w, p, e, n);
              var rest := RunActions(actions[i + 1..], w, a.pos, e, a.count);
              var r := RunActions(actions[i..], w, p, e, n);
              Ran(sofar + r.errors, r.pos, r.count) == Ran(sofar + a.errors + rest.errors, rest.pos, rest.count)
    {
      hide Device.Device.Sound, RunAction;
      assert actions[i..][1..] == actions[i + 1..];
      var a := RunAction(actions[i], w, p, e, n);
      Grouped(sofar, a.errors, RunActions(actions[i + 1..], w, a.pos, e, a.count).errors);
    }

    lemma AnswersStep(actions: seq<Action>, i: nat, out: string, count: nat)
      requires i < |actions|
      ensures var a := actions[i];
              var rest := Answers(actions[i + 1..]);
              && |Answers(actions[i..])| == (if a.Answer? then 1 else 0) + |rest|
              && out + CommandOutput(Answers(actions[i..]), count)
                 == if a.Answer? then out + Written(a.result, count) + CommandOutput(rest, count + 1)
                    else out + CommandOutput(rest, count)
    {
      hide Device.Device.Sound, Written;
      var rest := Answers(actions[i + 1..]);
      assert actions[i..][1..] == actions[i + 1..];
      if actions[i].Answer? {
        var r := actions[i].result;
        assert ([r] + rest)[1..] == rest;
        assert out + (Written(r, count) + CommandOutput(rest, count + 1))
               == out + Written(r, count) + CommandOutput(rest, count + 1);
      } else {
        assert [] + rest == rest;
      }
    }

    /** processCommand */
    method ProcessCommand() returns (result: bool)
      requires Valid() && params.Valid() && Readable(params.text, params.pos, params.eos, 0)
      modifies this`written, this`outputCount, this`inputCount, this`calls, params`pos, dev.Footprint()
      ensures Valid() && calls == old(calls) + 1
      ensures var errors := CommandErrors(handler(old(calls)), params.text, old(params.pos), params.eos);
              && dev.pushed == old(dev.pushed) + errors
              && result == (errors == [])
      ensures var rs := AnswersOf(handler(old(calls)));
              && written == old(written) + (if old(outputCount) > 0 then ";" else "") + CommandOutput(rs, 0)
              && outputCount == |rs|
    {
      hide Device.Device.Sound, CommandOutput, Answers, Readable, CallbackErrors;
      WriteSemicolon();
      ClearCmdError();
      outputCount, inputCount := 0, 0;
      var b := handler(calls);
      calls := calls + 1;
      result := CallCommand(b);
      if params.pos < params.eos && !dev.cmdError {
        Fail(PARAMETER_NOT_ALLOWED);
        result := false;
      }
    }

    /** The call of the callback and what its return code means. */
    method CallCommand(b: Behaviour) returns (result: bool)
      requires InHandler() && !dev.cmdError && outputCount == 0 && inputCount == 0
      modifies this`written, this`outputCount, this`inputCount, params`pos, dev.Footprint()
      ensures InHandler() && params.pos >= old(params.pos)
      ensures var r := CallbackErrors(b, params.text, old(params.pos), params.eos);
              && dev.pushed == old(dev.pushed) + r.errors
              && dev.cmdError == (r.errors != []) && result == (r.errors == [])
              && params.pos == r.pos
      ensures written == old(written) + CommandOutput(AnswersOf(b), 0) && outputCount == |AnswersOf(b)|
    {
      hide Device.Device.Sound, CommandOutput, Answers, Readable, RunActions;
      result := true;
      NoAnswers(written);
      if b.hasCallback {
        Callback(b.actions);
        if !b.ok {
          if !dev.cmdError {
            Fail(EXECUTION_ERROR);
          }
          result := false;
        } else {
          if dev.cmdError {
            result := false;
          }
        }
      }
    }

    /** context->cmd_error = FALSE */
    method ClearCmdError()
      requires Valid()
      modifies dev`cmdError
      ensures Valid() && !dev.cmdError
    {
      dev.cmdError := false;
    }

    lemma NoAnswers(out: string)
      ensures out + CommandOutput([], 0) == out
    {
    }

    // ---------- lines ----------

    /** The number of commands the rest of a line will execute. */
    ghost function Pending(mem: string, at: nat, prev: Token): nat
      requires at <= |mem| && Before(prev, at)
    {
      Commands(LineRun(mem, at, prev, matches).events)
    }

    ghost function PendingEvents(mem: string, at: nat, prev: Token): seq<Event>
      requires at <= |mem| && Before(prev, at)
    {
      LineRun(mem, at, prev, matches).events
    }

    /** The errors a line still has to report. */
    ghost function PendingErrors(mem: string, at: nat, prev: Token, k: nat): seq<int>
      requires at <= |mem| && Before(prev, at)
    {
      ErrorsFrom(handler, k, LineRun(mem, at, prev, matches).events)
    }

    /** The output a line still has to produce. */
    ghost function PendingOutput(mem: string, at: nat, prev: Token, count: nat, k: nat): string
      requires at <= |mem| && Before(prev, at)
    {
      LineOutput(AnswersFrom(handler, k, Pending(mem, at, prev)), count)
    }

    /** Executes the unit just detected: one round of the loop of SCPI_Parse. */
    method ExecuteUnit(data: array<char>, len: nat, prev: Token, ghost u: Unit)
      returns (result: bool, next: Token, ghost c: nat)
      requires Valid() && data !in dev.Footprint() && len <= data.Length
      requires u.header == parserState.programHeader && u.data == parserState.programData
      requires u.header.len >= 0 && u.data.len >= 0 && u.data.ptr + u.data.len <= len
      requires u.header.len > 0 && u.header.kind != Invalid ==>
                 Before(prev, u.header.ptr) && u.header.ptr + u.header.len <= len
      requires CommandEnds(UnitStep(data[..len], prev, u, matches), u)
      modifies this`written, this`outputCount, this`inputCount, this`params, this`calls, this`events,
               parserState`programHeader, data, dev.Footprint()
      ensures Valid() && data[len..] == old(data[len..])
      ensures var s := UnitStep(old(data[..len]), prev, u, matches);
              && data[..len] == s.mem && next == s.prev
              && c == Commands(s.events) && c <= 1 && events == old(events) + s.events
              && dev.pushed == old(dev.pushed) + ErrorsFrom(handler, old(calls), s.events)
              && result == (ErrorsFrom(handler, old(calls), s.events) == [])
      ensures calls == old(calls) + c
      ensures written == old(written) + UnitOutput(c, old(outputCount), old(calls))
      ensures outputCount == CountAfter(c, old(outputCount), old(calls))
    {
      hide Device.Device.Sound, Text, UnitOutput, CountAfter, Compose, Commands, Readable, EventErrors, ErrorsFrom,
           UnitStep, HeaderEvent, CommandEnds;
      next := prev;
      c := 0;
      ghost var s := UnitStep(data[..len], prev, u, matches);
      StepOfUnit(data[..len], prev, u);
      CommandsOfUnit(s.events);
      ErrorsOfUnit(calls, s.events);
      QuietUnit(outputCount, calls);
      if parserState.programHeader.kind == Invalid {
        ErrorsOfInvalid(calls);
        events := events + [InvalidCharacter];
        Fail(INVALID_CHARACTER);
        result := false;
      } else if parserState.programHeader.len > 0 {
        parserState.programHeader := ComposeCompoundCommand(data, len, prev, parserState.programHeader);
        var matched;
        result, matched := ExecuteHeader(data, len);
        if matched {
          next := parserState.programHeader;
          c := 1;
        }
      } else {
        result := true;
      }
    }

    /** The step of a unit by the event of its composed header. */
    lemma StepOfUnit(mem: string, prev: Token, u: Unit)
      requires u.header.len >= 0 && u.data.len >= 0 && TokenEnd(u.data) <= |mem|
      requires u.header.len > 0 && u.header.kind != Invalid ==>
                 Before(prev, u.header.ptr) && TokenEnd(u.header) <= |mem|
      ensures var s := UnitStep(mem, prev, u, matches);
              if u.header.kind == Invalid then s == Step(mem, prev, [InvalidCharacter])
              else if u.header.len == 0 then s == Step(mem, prev, [])
              else
                var composed := Compose(mem, prev, u.header);
                var event := HeaderEvent(composed.mem, composed.header, u.data);
                && s == Step(composed.mem, if event.Command? then composed.header else prev, [event])
                && (CommandEnds(s, u) && matches(Text(composed.mem, composed.header)) ==>
                      Readable(composed.mem, u.data.ptr, TokenEnd(u.data), 0))
                && (event.Command? || event.UndefinedHeader?)
    {
      hide Device.Device.Sound, Compose, Readable;
    }

    lemma ErrorsOfInvalid(k: nat)
      ensures EventErrors(InvalidCharacter, handler(k)) == [INVALID_CHARACTER]
    {
    }

    lemma ErrorsOfUnit(k: nat, events: seq<Event>)
      requires |events| <= 1
      ensures ErrorsFrom(handler, k, events) == if events == [] then [] else EventErrors(events[0], handler(k))
    {
      hide Device.Device.Sound, CommandErrors;
      if events != [] {
        assert events[1..] == [];
      }
    }

    lemma QuietUnit(count: nat, k: nat)
      ensures UnitOutput(0, count, k) == "" && CountAfter(0, count, k) == count
    {
    }

    /** What looking up and executing a header amounts to. */
    ghost function HeaderEvent(mem: string, h: Token, d: Token): Event
      requires h.len >= 0 && h.ptr + h.len <= |mem| && d.len >= 0 && d.ptr + d.len <= |mem|
    {
      if matches(Text(mem, h)) then Command(Text(mem, h), Text(mem, d)) else UndefinedHeader(Text(mem, h))
    }

    /** The search for the composed header in the command table and the execution of the
        command found. */
    method ExecuteHeader(data: array<char>, len: nat) returns (result: bool, matched: bool)
      requires Valid() && len <= data.Length
      requires var h, d := parserState.programHeader, parserState.programData;
               && h.len >= 0 && h.ptr + h.len <= len && d.len >= 0 && d.ptr + d.len <= len
               && (matches(Text(data[..len], h)) ==> Readable(data[..len], d.ptr, d.ptr + d.len, 0))
      modifies this`written, this`outputCount, this`inputCount, this`params, this`calls, this`events, dev.Footprint()
      ensures Valid()
      ensures var mem, h, d := old(data[..len]), parserState.programHeader, parserState.programData;
              var event := HeaderEvent(mem, h, d);
              && matched == event.Command? && events == old(events) + [event]
              && dev.pushed == old(dev.pushed) + EventErrors(event, handler(old(calls)))
              && result == (EventErrors(event, handler(old(calls))) == [])
      ensures var c := if matched then 1 else 0;
              && calls == old(calls) + c
              && written == old(written) + UnitOutput(c, old(outputCount), old(calls))
              && outputCount == CountAfter(c, old(outputCount), old(calls))
    {
      hide Device.Device.Sound, AnswersOf, CommandOutput, CommandErrors, Readable, UnitOutput, CountAfter;
      QuietUnit(outputCount, calls);
      LoudUnit(outputCount, calls);
      var h, d := parserState.programHeader, parserState.programData;
      var mem := data[..len];
      matched := matches(mem[h.ptr..h.ptr + h.len]);
      if matched {
        ErrorsOfText(handler(calls), mem, d);
        SetParameters(mem, d);
        events := events + [Command(mem[h.ptr..h.ptr + h.len], params.text[params.start..params.eos])];
        result := ProcessCommand();
      } else {
        events := events + [UndefinedHeader(mem[h.ptr..h.ptr + h.len])];
        Fail(UNDEFINED_HEADER);
        result := false;
      }
    }

    /** param_list.lex_state is set to the data of the unit. */
    method SetParameters(mem: string, d: Token)
      requires Valid() && d.len >= 0 && d.ptr + d.len <= |mem|
      modifies this`params
      ensures Valid() && params.Valid() && fresh(params)
      ensures params.text == mem && params.start == d.ptr == params.pos && params.eos == d.ptr + d.len
    {
      hide Device.Device.Sound;
      params := new LexState(mem, d.ptr, d.ptr + d.len);
    }

    lemma LoudUnit(count: nat, k: nat)
      ensures UnitOutput(1, count, k) == (if count > 0 then ";" else "") + CommandOutput(AnswersOf(handler(k)), 0)
      ensures CountAfter(1, count, k) == |AnswersOf(handler(k))|
    {
    }

    lemma CommandsOfUnit(events: seq<Event>)
      requires |events| <= 1
      ensures Commands(events) == if events != [] && events[0].Command? then 1 else 0
    {
    }

    /** composeCompoundCommand (utils.c) */
    method ComposeCompoundCommand(data: array<char>, len: nat, prev: Token, cur: Token) returns (header: Token)
      requires len <= data.Length
      requires Before(prev, cur.ptr) && 0 < cur.len && cur.ptr + cur.len <= len
      modifies data
      ensures Composed(data[..len], header) == Compose(old(data[..len]), prev, cur)
      ensures data[len..] == old(data[len..])
    {
      hide Device.Device.Sound, LastColon, MemMove;
      header := cur;
      if prev.len == 0 || data[cur.ptr] == '*' || data[cur.ptr] == ':' || data[prev.ptr] == '*' {
        return;
      }
      var i := FindColon(data, len, prev);
      header := Token(cur.kind, cur.ptr - i, cur.len + i);
      CopyWithin(data, len, cur.ptr - i, prev.ptr, i);
    }

    /** The loop of composeCompoundCommand: the length of prev up to its last colon. */
    method FindColon(data: array<char>, ghost len: nat, prev: Token) returns (i: nat)
      requires len <= data.Length && prev.len >= 0 && prev.ptr + prev.len <= len
      ensures i == LastColon(data[..len], prev.ptr, prev.len)
    {
      i := prev.len;
      while i > 0 && data[prev.ptr + i - 1] != ':'
        invariant i <= prev.len
        invariant LastColon(data[..len], prev.ptr, i) == LastColon(data[..len], prev.ptr, prev.len)
      {
        i := i - 1;
      }
    }

    /** memmove(data + dst, data + src, n) */
    method CopyWithin(data: array<char>, ghost len: nat, dst: nat, src: nat, n: nat)
      requires len <= data.Length && dst + n <= len && src + n <= len
      modifies data
      ensures data[..len] == MemMove(old(data[..len]), dst, src, n)
      ensures data[len..] == old(data[len..])
    {
      hide MemMove;
      ghost var w := data[..len];
      forall k | 0 <= k < n {
        data[dst + k] := data[src + k];
      }
      Moved(w, data[..len], dst, src, n);
    }

    lemma MovedAt(w: string, dst: nat, src: nat, n: nat, k: nat)
      requires dst + n <= |w| && src + n <= |w| && k < |w|
      ensures MemMove(w, dst, src, n)[k] == if dst <= k < dst + n then w[src + (k - dst)] else w[k]
    {
    }

    lemma Moved(w: string, v: string, dst: nat, src: nat, n: nat)
      requires |v| == |w| && dst + n <= |w| && src + n <= |w|
      requires forall k :: dst <= k < dst + n ==> v[k] == w[src + (k - dst)]
      requires forall k :: 0 <= k < |w| && !(dst <= k < dst + n) ==> v[k] == w[k]
      ensures v == MemMove(w, dst, src, n)
    {
      var m := MemMove(w, dst, src, n);
      assert |m| == |v|;
      forall k | 0 <= k < |w| ensures v[k] == m[k] {
        MovedAt(w, dst, src, n, k);
      }
    }

    /** What a unit with c commands writes when count results came before it. */
    ghost function UnitOutput(c: nat, count: nat, k: nat): string {
      if c == 0 then "" else (if count > 0 then ";" else "") + CommandOutput(AnswersOf(handler(k)), 0)
    }

    ghost function CountAfter(c: nat, count: nat, k: nat): nat {
      if c == 0 then count else |AnswersOf(handler(k))|
    }

    /** What one unit contributes to the commands, the errors and the output of a line. */
    lemma {:induction false} PendingStep(mem: string, at: nat, prev: Token, count: nat, k: nat)
      requires at <= |mem| && Before(prev, at)
      ensures var u := DetectUnit(mem, at, |mem|);
              var s := UnitStep(mem, prev, u, matches);
              var c := Commands(s.events);
              && c <= 1 && Before(s.prev, u.pos)
              && PendingEvents(mem, at, prev)
                 == s.events + (if u.pos < |mem| then PendingEvents(s.mem, u.pos, s.prev) else [])
              && Pending(mem, at, prev) == c + (if u.pos < |mem| then Pending(s.mem, u.pos, s.prev) else 0)
              && PendingErrors(mem, at, prev, k)
                 == ErrorsFrom(handler, k, s.events)
                    + (if u.pos < |mem| then PendingErrors(s.mem, u.pos, s.prev, k + c) else [])
              && PendingOutput(mem, at, prev, count, k)
                 == UnitOutput(c, count, k)
                    + (if u.pos < |mem| then PendingOutput(s.mem, u.pos, s.prev, CountAfter(c, count, k), k + c)
                       else LineOutput([], CountAfter(c, count, k)))
    {
      hide Device.Device.Sound, DetectUnit, UnitOutput, CountAfter, LineRun, UnitStep, LineOutput, AnswersFrom,
           ErrorsFrom;
      RunUnfold(mem, at, prev, matches);
      var u := DetectUnit(mem, at, |mem|);
      var s := UnitStep(mem, prev, u, matches);
      OneEvent(mem, prev, u);
      var c := Commands(s.events);
      if u.pos < |mem| {
        var rest := LineRun(s.mem, u.pos, s.prev, matches).events;
        CommandsJoin(s.events, rest);
        ErrorsJoin(handler, k, s.events, rest);
        OutputStep(count, k, Pending(s.mem, u.pos, s.prev), c);
      } else {
        assert s.events + [] == s.events;
        assert ErrorsFrom(handler, k, s.events) + [] == ErrorsFrom(handler, k, s.events);
        OutputStep(count, k, 0, c);
        NothingPending(k + c);
      }
    }

    lemma OneEvent(mem: string, prev: Token, u: Unit)
      requires u.header.len > 0 && u.header.kind != Invalid ==>
                 Before(prev, u.header.ptr) && u.header.ptr + u.header.len <= |mem|
      ensures |UnitStep(mem, prev, u, matches).events| <= 1
      ensures Commands(UnitStep(mem, prev, u, matches).events) <= 1
    {
      hide Device.Device.Sound, Compose, Commands, Text, DataText;
      CommandsOfUnit(UnitStep(mem, prev, u, matches).events);
    }

    lemma OutputStep(count: nat, k: nat, n: nat, c: nat)
      requires c <= 1
      ensures LineOutput(AnswersFrom(handler, k, c + n), count)
              == UnitOutput(c, count, k) + LineOutput(AnswersFrom(handler, k + c, n), CountAfter(c, count, k))
    {
      hide Device.Device.Sound, CommandOutput, AnswersOf;
      if c == 1 {
        var rs := AnswersOf(handler(k));
        assert ([rs] + AnswersFrom(handler, k + 1, n))[1..] == AnswersFrom(handler, k + 1, n);
      }
    }

    lemma NothingPending(k: nat)
      ensures AnswersFrom(handler, k, 0) == []
    {
    }

    /** SCPI_Parse: the units executed, the bytes written and the errors pushed are those of the
        line, and the result is FALSE exactly when there are errors. */
    method Parse(data: array<char>, len: nat) returns (result: bool)
      requires Valid() && data !in dev.Footprint() && len <= data.Length
      requires LineEnds(data[..len], 0, NoToken(0), matches)
      modifies this`written, this`outputCount, this`inputCount, this`params, this`calls, this`events, parserState,
               data, dev.Footprint()
      ensures Valid() && data[len..] == old(data[len..])
      ensures var line := LineEvents(old(data[..len]), matches);
              var n := Commands(line);
              && calls == old(calls) + n
              && events == old(events) + line
              && written == old(written) + LineOutput(AnswersFrom(handler, old(calls), n), 0)
              && dev.pushed == old(dev.pushed) + ErrorsFrom(handler, old(calls), line)
              && result == (ErrorsFrom(handler, old(calls), line) == [])
    {
      hide Device.Device.Sound, LineOutput, Pending, PendingEvents, PendingErrors, PendingOutput, LineRun, LineEnds,
           DetectUnit, UnitStep, UnitOutput, CountAfter, Commands, AnswersFrom, ErrorsFrom;
      result := true;
      outputCount := 0;
      var at := 0;
      var prev := NoToken(0);
      ghost var line := data[..len];
      ghost var n := Pending(line, 0, NoToken(0));
      ghost var all := old(written) + PendingOutput(line, 0, NoToken(0), 0, calls);
      ghost var allEvents := old(events) + PendingEvents(line, 0, NoToken(0));
      ghost var allErrors := old(dev.pushed) + PendingErrors(line, 0, NoToken(0), calls);
      ghost var reported: seq<int> := [];
      assert dev.pushed + [] == dev.pushed;
      var more := true;
      while more
        invariant Valid() && at <= len && Before(prev, at)
        invariant data[len..] == old(data[len..])
        invariant dev.pushed == old(dev.pushed) + reported && result == (reported == [])
        invariant more ==> LineEnds(data[..len], at, prev, matches)
        invariant more ==> calls + Pending(data[..len], at, prev) == old(calls) + n
        invariant more ==> written + PendingOutput(data[..len], at, prev, outputCount, calls) == all
        invariant more ==> events + PendingEvents(data[..len], at, prev) == allEvents
        invariant more ==> dev.pushed + PendingErrors(data[..len], at, prev, calls) == allErrors
        invariant !more ==> calls == old(calls) + n && written + LineOutput([], outputCount) == all
        invariant !more ==> events == allEvents && dev.pushed == allErrors
        decreases len - at, more
      {
        Accumulate(data[..len], at, prev, outputCount, calls, written, events, dev.pushed);
        ghost var before := dev.pushed;
        var ok, r, next, c, errors := ParseUnit(data, len, at, prev);
        Grouped(old(dev.pushed), reported, errors);
        reported := reported + errors;
        result := result && ok;
        more := r < len - at;
        at := at + r;
        prev := next;
      }
      WriteNewLine();
      NewLineIsRest(outputCount);
      LineTotals(line, old(calls));
      SameTail(old(dev.pushed), reported, PendingErrors(line, 0, NoToken(0), old(calls)));
    }

    lemma SameTail(a: seq<int>, b: seq<int>, c: seq<int>)
      requires a + b == a + c
      ensures b == c
    {
      assert (a + b)[|a|..] == b && (a + c)[|a|..] == c;
    }

    lemma NewLineIsRest(count: nat)
      ensures LineOutput([], count) == if count > 0 then LINE_ENDING else ""
    {
    }

    lemma LineTotals(line: string, k: nat)
      ensures Pending(line, 0, NoToken(0)) == Commands(LineEvents(line, matches))
      ensures PendingEvents(line, 0, NoToken(0)) == LineEvents(line, matches)
      ensures PendingErrors(line, 0, NoToken(0), k) == ErrorsFrom(handler, k, LineEvents(line, matches))
      ensures PendingOutput(line, 0, NoToken(0), 0, k)
              == LineOutput(AnswersFrom(handler, k, Commands(LineEvents(line, matches))), 0)
    {
    }

    /** One round of the loop of SCPI_Parse: detect the next unit and execute it. */
    method ParseUnit(data: array<char>, len: nat, at: nat, prev: Token)
      returns (ok: bool, r: nat, next: Token, ghost c: nat, ghost errors: seq<int>)
      requires Valid() && data !in dev.Footprint() && len <= data.Length
      requires at <= len && Before(prev, at) && LineEnds(data[..len], at, prev, matches)
      modifies this`written, this`outputCount, this`inputCount, this`params, this`calls, this`events, parserState,
               data, dev.Footprint()
      ensures Valid() && data[len..] == old(data[len..])
      ensures var u := DetectUnit(old(data[..len]), at, len);
              var s := UnitStep(old(data[..len]), prev, u, matches);
              && at + r == u.pos && data[..len] == s.mem && next == s.prev
              && c == Commands(s.events) && c <= 1 && events == old(events) + s.events
              && errors == ErrorsFrom(handler, old(calls), s.events)
              && dev.pushed == old(dev.pushed) + errors && ok == (errors == [])
              && Before(s.prev, u.pos)
              && (u.pos < len ==> LineEnds(s.mem, u.pos, s.prev, matches))
      ensures calls == old(calls) + c
      ensures written == old(written) + UnitOutput(c, old(outputCount), old(calls))
      ensures outputCount == CountAfter(c, old(outputCount), old(calls))
    {
      hide Device.Device.Sound, DetectUnit, UnitStep, UnitOutput, CountAfter, Commands, CommandEnds, UnitEnds,
           LineEnds, ErrorsFrom;
      ghost var mem := data[..len];
      NextEnds(mem, at, prev);
      ghost var u := DetectUnit(mem, at, len);
      ghost var s := UnitStep(mem, prev, u, matches);
      errors := ErrorsFrom(handler, calls, s.events);
      r := parserState.DetectProgramMessageUnit(data[..len], at, len);
      assert data[..len] == mem;
      ok, next, c := ExecuteUnit(data, len, prev, u);
    }

    lemma NextEnds(mem: string, p: nat, prev: Token)
      requires p <= |mem| && Before(prev, p) && LineEnds(mem, p, prev, matches)
      ensures var u := DetectUnit(mem, p, |mem|);
              var s := UnitStep(mem, prev, u, matches);
              && UnitEnds(mem, p, |mem|) && CommandEnds(s, u) && Before(s.prev, u.pos)
              && u.data.len >= 0 && TokenEnd(u.data) <= |mem|
              && (u.pos < |mem| ==> LineEnds(s.mem, u.pos, s.prev, matches))
    {
      hide Device.Device.Sound, DetectUnit, UnitStep, UnitEnds, CommandEnds;
      DataInUnit(mem, p, |mem|);
      StepKeepsRest(mem, prev, DetectUnit(mem, p, |mem|), matches);
    }

    /** What has been done and what is still to do, when the next unit is executed. */
    lemma {:induction false} Accumulate(mem: string, at: nat, prev: Token, count: nat, k: nat, out: string,
        evs: seq<Event>, errs: seq<int>)
      requires at <= |mem| && Before(prev, at)
      ensures var u := DetectUnit(mem, at, |mem|);
              var s := UnitStep(mem, prev, u, matches);
              var c := Commands(s.events);
              && c <= 1 && Before(s.prev, u.pos)
              && k + Pending(mem, at, prev) == k + c + (if u.pos < |mem| then Pending(s.mem, u.pos, s.prev) else 0)
              && out + PendingOutput(mem, at, prev, count, k)
                 == out + UnitOutput(c, count, k)
                    + (if u.pos < |mem| then PendingOutput(s.mem, u.pos, s.prev, CountAfter(c, count, k), k + c)
                       else LineOutput([], CountAfter(c, count, k)))
              && evs + PendingEvents(mem, at, prev)
                 == evs + s.events + (if u.pos < |mem| then PendingEvents(s.mem, u.pos, s.prev) else [])
              && errs + PendingErrors(mem, at, prev, k)
                 == errs + ErrorsFrom(handler, k, s.events)
                    + (if u.pos < |mem| then PendingErrors(s.mem, u.pos, s.prev, k + c) else [])
    {
      hide Device.Device.Sound, DetectUnit, UnitStep, UnitOutput, CountAfter, Commands, Pending, PendingOutput,
           PendingEvents, PendingErrors, LineOutput, ErrorsFrom;
      PendingStep(mem, at, prev, count, k);
      var u := DetectUnit(mem, at, |mem|);
      var s := UnitStep(mem, prev, u, matches);
      var c := Commands(s.events);
      Grouped(out, UnitOutput(c, count, k),
              if u.pos < |mem| then PendingOutput(s.mem, u.pos, s.prev, CountAfter(c, count, k), k + c)
              else LineOutput([], CountAfter(c, count, k)));
      Grouped(evs, s.events, if u.pos < |mem| then PendingEvents(s.mem, u.pos, s.prev) else []);
      Grouped(errs, ErrorsFrom(handler, k, s.events),
          if u.pos < |mem| then PendingErrors(s.mem, u.pos, s.prev, k + c) else []);
    }

    // ---------- input ----------

    ghost function Now(): Log
      reads this, dev
    {
      Log(lines, events, calls, written, dev.pushed)
    }

    /** Executes the first len bytes of the buffer as a line, and shifts the rest down. */
    method ExecuteLine(len: nat) returns (result: bool)
      requires Valid() && len <= position && LineEnds(buffer[..len], 0, NoToken(0), matches)
      modifies this, parserState, buffer, dev.Footprint()
      ensures Valid() && position == old(position) - len
      ensures buffer[..position] == old(buffer[len..position])
      ensures Now() == After(old(Now()), [old(buffer[..len])], handler, matches)
      ensures result == (ErrorsFrom(handler, old(calls), LineEvents(old(buffer[..len]), matches)) == [])
    {
      hide Device.Device.Sound, LineRun, LineEnds, LineOutput, AnswersFrom, Commands, ErrorsFrom, After, LineEvents;
      ghost var tail := buffer[len..];
      ghost var line := buffer[..len];
      AfterLine(Now(), line, handler, matches);
      lines := lines + [line];
      result := Parse(buffer, len);
      assert buffer[len..position] == tail[..position - len];
      ShiftDown(len);
    }

    /** memmove(buffer, buffer + len, position - len); position -= len */
    method ShiftDown(len: nat)
      requires Valid() && len <= position
      modifies this`position, buffer
      ensures Valid() && position == old(position) - len && buffer[..position] == old(buffer[len..position])
    {
      forall k | 0 <= k < position - len {
        buffer[k] := buffer[len + k];
      }
      position := position - len;
    }

    /** memcpy of the new data behind the old, and the terminating zero */
    method Append(data: string)
      requires Valid() && position + |data| < buffer.Length
      modifies this`position, buffer
      ensures Valid() && position == old(position) + |data| && buffer[..position] == old(buffer[..position]) + data
    {
      hide Device.Device.Sound;
      ghost var p := position;
      forall k | 0 <= k < |data| {
        buffer[position + k] := data[k];
      }
      assert buffer[p..p + |data|] == data;
      position := position + |data|;
      buffer[position] := '\0';
    }

    /** SCPI_Input: an empty call executes the whole buffer, an overrun drops it, and anything
        else executes the lines that the old text and the new data complete and keeps the rest.
        The last line executed alone decides the result. */
    method Input(data: string) returns (result: bool)
      requires Valid()
      requires CallEnds(buffer[..position], data, buffer.Length, matches)
      modifies this, parserState, buffer, dev.Footprint()
      ensures Valid()
      ensures data != "" && old(position) + |data| >= buffer.Length ==>
                && !result && position == 0
                && Now() == old(Now()).(pushed := old(dev.pushed) + [-363])
      ensures data == "" || old(position) + |data| < buffer.Length ==>
                var d := InputOnce(old(buffer[..position]), data);
                && Now() == After(old(Now()), d.lines, handler, matches)
                && buffer[..position] == d.rest
                && result == Verdict(true, handler, old(calls), d.lines, matches)
    {
      hide Device.Device.Sound, Drain, DrainEnds, LineEnds, Verdict, After, ErrorsFrom, LineEvents;
      result := true;
      if |data| == 0 {
        buffer[position] := '\0';
        VerdictOfOne(calls, buffer[..position]);
        result := ExecuteLine(position);
      } else {
        var bufferFree := buffer.Length - position;
        if |data| > bufferFree - 1 {
          position := 0;
          buffer[position] := '\0';
          Fail(INPUT_BUFFER_OVERRUN);
          return false;
        }
        Append(data);
        result := DrainLines();
      }
    }

    lemma VerdictOfOne(k: nat, line: string)
      ensures Verdict(true, handler, k, [line], matches) == (ErrorsFrom(handler, k, LineEvents(line, matches)) == [])
    {
      hide Device.Device.Sound, LineEvents, ErrorsFrom;
      assert [line][1..] == [];
    }

    /** The loop of SCPI_Input. */
    method DrainLines() returns (result: bool)
      requires Valid() && DrainEnds(buffer[..position], matches)
      modifies this, parserState, buffer, dev.Footprint()
      ensures Valid()
      ensures var d := Drain(old(buffer[..position]));
              && Now() == After(old(Now()), d.lines, handler, matches)
              && buffer[..position] == d.rest
              && result == Verdict(true, handler, old(calls), d.lines, matches)
    {
      hide Device.Device.Sound, Drain, DrainEnds, ScanEnds, LineEnds, UnitEnds, Verdict, After, Now, LineEvents,
           ScanLine, DetectUnit, SameScan, ErrorsFrom;
      result := true;
      ghost var w0, log0 := buffer[..position], Now();
      CallsNow();
      ghost var done: seq<string> := [];
      var totcmdlen: nat := 0;
      ScanStart(w0);
      EndsNow(w0);
      AfterNothing(log0, handler, matches);
      NoVerdictYet(log0.calls);
      assert done + Drain(w0).lines == Drain(w0).lines;
      while true
        invariant Valid() && totcmdlen <= position
        invariant Now() == After(log0, done, handler, matches)
        invariant result == Verdict(true, handler, log0.calls, done, matches)
        invariant done + Drain(buffer[..position]).lines == Drain(w0).lines
                  && Drain(buffer[..position]).rest == Drain(w0).rest
        invariant SameScan(buffer[..position], totcmdlen)
        invariant DrainEnds(buffer[..position], matches) && ScanEnds(buffer[..position], totcmdlen)
        decreases position, position - totcmdlen
      {
        ghost var w := buffer[..position];
        ScanUnfold(w, totcmdlen);
        EndsStep(w, totcmdlen);
        var cmdlen := DetectNext(totcmdlen);
        totcmdlen := totcmdlen + cmdlen;
        if parserState.termination == NlTermination {
          DrainNext(w, done);
          EndsLine(w, matches);
          result := DrainOne(w, totcmdlen, done, log0);
          done := done + [w[..totcmdlen]];
          totcmdlen := 0;
          ScanStart(buffer[..position]);
          EndsNow(buffer[..position]);
        } else {
          if parserState.programHeader.kind == Unknown || totcmdlen >= position {
            DrainNone(w);
            assert done + [] == done;
            break;
          }
        }
      }
    }

    lemma CallsNow()
      ensures Now().calls == calls
    {
    }

    lemma NoVerdictYet(k: nat)
      ensures Verdict(true, handler, k, [], matches)
    {
    }

    /** The detection of the unit at t in the buffer: nothing but the parser state changes. */
    method DetectNext(t: nat) returns (cmdlen: nat)
      requires Valid() && t <= position && UnitEnds(buffer[..position], t, position)
      modifies parserState
      ensures Valid() && Now() == old(Now()) && buffer[..position] == old(buffer[..position])
      ensures var u := DetectUnit(buffer[..position], t, position);
              && t + cmdlen == u.pos && parserState.termination == u.term && parserState.programHeader == u.header
    {
      hide Device.Device.Sound, DetectUnit, UnitEnds;
      cmdlen := parserState.DetectProgramMessageUnit(buffer[..position], t, position);
    }

    /** Executes the line found, behind the lines done before it. */
    method DrainOne(ghost w: string, len: nat, ghost done: seq<string>, ghost log0: Log) returns (result: bool)
      requires Valid() && w == buffer[..position] && len <= position && LineEnds(w[..len], 0, NoToken(0), matches)
      requires Now() == After(log0, done, handler, matches)
      modifies this, parserState, buffer, dev.Footprint()
      ensures Valid() && position == old(position) - len && buffer[..position] == w[len..]
      ensures Now() == After(log0, done + [w[..len]], handler, matches)
      ensures result == Verdict(true, handler, log0.calls, done + [w[..len]], matches)
    {
      hide Device.Device.Sound, LineEnds, Verdict, After, LineEvents, ErrorsFrom, Reactions, Executed;
      ghost var line := w[..len];
      assert buffer[..len] == line && buffer[len..position] == w[len..];
      AfterMore(log0, done, [line], handler, matches);
      CallsAfter(log0, done);
      VerdictBehind(handler, log0.calls, done, line, matches);
      result := ExecuteLine(len);
    }

    lemma CallsAfter(log: Log, done: seq<string>)
      ensures After(log, done, handler, matches).calls == log.calls + Executed(Reactions(done, matches))
    {
    }

    lemma EndsNow(w: string)
      requires DrainEnds(w, matches)
      ensures ScanEnds(w, 0)
    {
    }

    lemma EndsStep(w: string, t: nat)
      requires t <= |w| && ScanEnds(w, t)
      ensures UnitEnds(w, t, |w|)
      ensures var u := DetectUnit(w, t, |w|);
              u.term != NlTermination && u.header.kind != Unknown && u.pos < |w| ==> ScanEnds(w, u.pos)
    {
      hide Device.Device.Sound, DetectUnit, UnitEnds;
    }

    /** Successive SCPI_Input calls without overrun. */
    method Feed(chunks: seq<string>)
      requires Valid()
      requires NoOverrun(buffer[..position], chunks, buffer.Length, matches)
      modifies this, parserState, buffer, dev.Footprint()
      ensures Valid()
      ensures var d := InputAll(old(buffer[..position]), chunks);
              Now() == After(old(Now()), d.lines, handler, matches) && buffer[..position] == d.rest
    {
      hide Device.Device.Sound, InputOnce, InputAll, CallEnds, Verdict, After, Now;
      ghost var all, log0 := InputAll(buffer[..position], chunks), Now();
      ghost var done: seq<string> := [];
      AfterNothing(log0, handler, matches);
      FeedEnd(buffer[..position]);
      assert done + all.lines == all.lines;
      var i := 0;
      while i < |chunks|
        invariant i <= |chunks| && Valid() && Now() == After(log0, done, handler, matches)
        invariant NoOverrun(buffer[..position], chunks[i..], buffer.Length, matches)
        invariant done + InputAll(buffer[..position], chunks[i..]).lines == all.lines
        invariant InputAll(buffer[..position], chunks[i..]).rest == all.rest
      {
        ghost var rest := buffer[..position];
        ghost var d := InputOnce(rest, chunks[i]);
        FeedStep(rest, chunks[i..], buffer.Length);
        assert chunks[i..][1..] == chunks[i + 1..];
        AfterMore(log0, done, d.lines, handler, matches);
        var _ := Input(chunks[i]);
        Grouped(done, d.lines, InputAll(d.rest, chunks[i + 1..]).lines);
        done := done + d.lines;
        i := i + 1;
      }
      assert chunks[i..] == [];
      FeedEnd(buffer[..position]);
      assert done + [] == done;
    }

    lemma FeedEnd(rest: string)
      ensures InputAll(rest, []) == Drained([], rest)
    {
    }

    lemma FeedStep(rest: string, chunks: seq<string>, bufferLength: nat)
      requires chunks != [] && NoOverrun(rest, chunks, bufferLength, matches)
      ensures chunks[0] == "" || |rest| + |chunks[0]| < bufferLength
      ensures CallEnds(rest, chunks[0], bufferLength, matches)
      ensures var d := InputOnce(rest, chunks[0]);
              && NoOverrun(d.rest, chunks[1..], bufferLength, matches)
              && InputAll(rest, chunks).lines == d.lines + InputAll(d.rest, chunks[1..]).lines
              && InputAll(rest, chunks).rest == InputAll(d.rest, chunks[1..]).rest
    {
      hide Device.Device.Sound, InputOnce, CallEnds;
    }
  }

  /** A call of SCPI_Input returns. */
  ghost predicate CallEnds(rest: string, data: string, bufferLength: nat, matches: string -> bool) {
    if data == "" then LineEnds(rest, 0, NoToken(0), matches)
    else |rest| + |data| < bufferLength ==> DrainEnds(rest + data, matches)
  }

  /** The data arrives in calls that return, none of them too long for the buffer. */
  ghost predicate NoOverrun(rest: string, chunks: seq<string>, bufferLength: nat, matches: string -> bool)
    decreases |chunks|
  {
    chunks != [] ==>
      && (chunks[0] == "" || |rest| + |chunks[0]| < bufferLength)
      && CallEnds(rest, chunks[0], bufferLength, matches)
      && NoOverrun(InputOnce(rest, chunks[0]).rest, chunks[1..], bufferLength, matches)
  }

  // ---------- chunking ----------

  /** None of the calls is too long for the buffer. */
  predicate Room(rest: string, chunks: seq<string>, bufferLength: nat)
    decreases |chunks|
  {
    chunks != [] ==>
      |rest| + |chunks[0]| < bufferLength && Room(InputOnce(rest, chunks[0]).rest, chunks[1..], bufferLength)
  }

  /** On a stream of 7-bit text, or without quotes, every call returns. */
  lemma {:induction false} SafeCallsEnd(rest: string, chunks: seq<string>, bufferLength: nat, matches: string -> bool)
    requires Safe(rest + Flatten(chunks)) && NonEmptyCalls(chunks) && Room(rest, chunks, bufferLength)
    ensures NoOverrun(rest, chunks, bufferLength, matches)
    decreases |chunks|
  {
    hide Drain, DrainEnds, Safe;
    if chunks != [] {
      var w, tail := rest + chunks[0], Flatten(chunks[1..]);
      Grouped(rest, chunks[0], tail);
      assert (w + tail)[0..|w|] == w;
      SafePart(w + tail, 0, |w|);
      SafeDrain(w, matches);
      DrainConserves(w);
      var gone, kept := Flatten(Drain(w).lines), Drain(w).rest;
      Grouped(gone, kept, tail);
      assert (gone + (kept + tail))[|gone|..|gone| + |kept + tail|] == kept + tail;
      SafePart(w + tail, |gone|, |w + tail|);
      SafeCallsEnd(kept, chunks[1..], bufferLength, matches);
    }
  }

  /** Two interpreters with the same commands, both at the start of a line, are fed one stream
      of whole lines, cut in two ways: they execute the same units, write the same bytes and
      report the same errors. */
  method FeedBoth(a: Interpreter, b: Interpreter, xs: seq<string>, ys: seq<string>)
    returns (ghost out: string, ghost errors: seq<int>, ghost evs: seq<Event>)
    requires a.Valid() && b.Valid() && a.position == 0 == b.position
    requires ({a, a.parserState, a.buffer} + a.dev.Footprint()) !! ({b, b.parserState, b.buffer} + b.dev.Footprint())
    requires a.matches == b.matches && a.handler == b.handler && a.calls == b.calls
    requires Flatten(xs) == Flatten(ys) && NonEmptyCalls(xs) && NonEmptyCalls(ys)
    requires WholeText(Flatten(xs)) && Safe(Flatten(xs))
    requires Room("", xs, a.buffer.Length) && Room("", ys, b.buffer.Length)
    modifies a, a.parserState, a.buffer, a.dev.Footprint(), b, b.parserState, b.buffer, b.dev.Footprint()
    ensures a.Valid() && b.Valid() && a.calls == b.calls
    ensures a.buffer[..a.position] == b.buffer[..b.position]
    ensures a.events == old(a.events) + evs && b.events == old(b.events) + evs
    ensures a.written == old(a.written) + out && b.written == old(b.written) + out
    ensures a.dev.pushed == old(a.dev.pushed) + errors && b.dev.pushed == old(b.dev.pushed) + errors
  {
    hide Device.Device.Sound, InputAll, NonEmptyCalls, WholeText, Safe, Room, Reactions, Executed, Replies, Reports,
         Events, NoOverrun;
    ghost var matches := a.matches;
    ghost var d, e := InputAll("", xs), InputAll("", ys);
    ghost var r := Reactions(d.lines, matches);
    assert "" + Flatten(xs) == Flatten(xs) && "" + Flatten(ys) == Flatten(ys);
    SafeCallsEnd("", xs, a.buffer.Length, matches);
    SafeCallsEnd("", ys, b.buffer.Length, matches);
    SameStreamSameUnits(xs, ys, matches);
    EventsOfReactions(d.lines, matches);
    EventsOfReactions(e.lines, matches);
    out, errors, evs := Replies(a.handler, a.calls, r), Reports(a.handler, a.calls, r), Events(d.lines, matches);
    assert a.buffer[..a.position] == "" && b.buffer[..b.position] == "";
    a.Feed(xs);
    b.Feed(ys);
  }
}
