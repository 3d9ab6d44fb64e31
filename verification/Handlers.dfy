/** What a command may do, and what a sequence of lines therefore writes and reports: functions
    of the events of the lines alone (Utilities/Scpi/Src/parser.c, processCommand and
    SCPI_Parse). A handler is any sequence of actions with a return code, chosen afresh for
    every command executed. */
module Handlers {
  import opened Basics
  import opened Lexer
  import opened LexerLaws
  import opened Framing
  import opened FramingLaws
  import opened Line
  import opened Params
  import opened Response
  import StatusModel

  const INVALID_CHARACTER := -101
  const PARAMETER_NOT_ALLOWED := -108
  const UNDEFINED_HEADER := -113
  const EXECUTION_ERROR := -200

  /** A handler, like the rest of the library's callers, leaves the status byte to the library;
      errors it reports through SCPI_ErrorPush. */
  type Operation = op: StatusModel.Op | StatusModel.Allowed(op) && !op.ErrorPushOp?
    witness StatusModel.ClsOp

  datatype Action =
    | AskParameter(mandatory: bool)
    | Answer(result: Result)
    | Report(err: int)
    | Operate(op: Operation)

  /** A command of the table with or without a callback, what the callback does, and whether
      it returns SCPI_RES_OK. */
  datatype Behaviour = Behaviour(hasCallback: bool, actions: seq<Action>, ok: bool)

  // ---------- answers ----------

  function AnswerOf(action: Action): seq<Result> {
    if action.Answer? then [action.result] else []
  }

  function Answers(actions: seq<Action>): seq<Result>
    decreases |actions|
  {
    if actions == [] then [] else AnswerOf(actions[0]) + Answers(actions[1..])
  }

  function AnswersOf(b: Behaviour): seq<Result> {
    if b.hasCallback then Answers(b.actions) else []
  }

  /** The answers of n commands from the one numbered k on. */
  function AnswersFrom(handler: nat -> Behaviour, k: nat, n: nat): seq<seq<Result>>
    decreases n
  {
    if n == 0 then [] else [AnswersOf(handler(k))] + AnswersFrom(handler, k + 1, n - 1)
  }

  function Commands(events: seq<Event>): nat
    decreases |events|
  {
    if events == [] then 0 else (if events[0].Command? then 1 else 0) + Commands(events[1..])
  }

  lemma {:induction false} CommandsJoin(a: seq<Event>, b: seq<Event>)
    ensures Commands(a + b) == Commands(a) + Commands(b)
    decreases |a|
  {
    if a == [] {
      assert a + b == b;
    } else {
      assert (a + b)[1..] == a[1..] + b;
      CommandsJoin(a[1..], b);
    }
  }

  // ---------- errors ----------

  /** The errors that the actions of a handler push, and how far they read the data. */
  datatype Ran = Ran(errors: seq<int>, pos: nat, count: nat)

  function Noted(err: int): seq<int> {
    if err == 0 then [] else [err]
  }

  /** One action on the data from p to e, count parameters read before it. */
  function RunAction(a: Action, w: string, p: nat, e: nat, count: nat): (r: Ran)
    requires p <= e <= |w|
    ensures p <= r.pos <= e
  {
    match a
    case AskParameter(mandatory) =>
      var r := ReadParameter(w, p, e, count, mandatory);
      Ran(Noted(r.err), r.pos, r.count)
    case Report(err) => Ran([err], p, count)
    case Answer(_) => Ran([], p, count)
    case Operate(_) => Ran([], p, count)
  }

  function RunActions(actions: seq<Action>, w: string, p: nat, e: nat, count: nat): (r: Ran)
    requires p <= e <= |w|
    ensures p <= r.pos <= e
    decreases |actions|
  {
    if actions == [] then Ran([], p, count)
    else
      var a := RunAction(actions[0], w, p, e, count);
      var rest := RunActions(actions[1..], w, a.pos, e, a.count);
      Ran(a.errors + rest.errors, rest.pos, rest.count)
  }

  /** The errors pushed while the callback runs and for its return code: an execution error if
      it fails without any. */
  function CallbackErrors(b: Behaviour, w: string, p: nat, e: nat): (r: Ran)
    requires p <= e <= |w|
    ensures p <= r.pos <= e
  {
    if !b.hasCallback then Ran([], p, 0)
    else
      var r := RunActions(b.actions, w, p, e, 0);
      if !b.ok && r.errors == [] then r.(errors := [EXECUTION_ERROR]) else r
  }

  /** The errors of one command on its data: those of the callback, and a complaint about data
      left over if there is none so far. */
  function CommandErrors(b: Behaviour, w: string, p: nat, e: nat): seq<int>
    requires p <= e <= |w|
  {
    var r := CallbackErrors(b, w, p, e);
    if r.pos < e && r.errors == [] then [PARAMETER_NOT_ALLOWED] else r.errors
  }

  function EventErrors(event: Event, b: Behaviour): seq<int> {
    match event
    case InvalidCharacter => [INVALID_CHARACTER]
    case UndefinedHeader(_) => [UNDEFINED_HEADER]
    case Command(_, data) => CommandErrors(b, data, 0, |data|)
  }

  /** The errors of a line from its events, the first command being the k-th of all. */
  function ErrorsFrom(handler: nat -> Behaviour, k: nat, events: seq<Event>): seq<int>
    decreases |events|
  {
    if events == [] then []
    else
      EventErrors(events[0], handler(k))
      + ErrorsFrom(handler, k + (if events[0].Command? then 1 else 0), events[1..])
  }

  lemma ErrorsUnfold(handler: nat -> Behaviour, k: nat, events: seq<Event>)
    ensures ErrorsFrom(handler, k, events)
         == if events == [] then []
            else
              EventErrors(events[0], handler(k))
              + ErrorsFrom(handler, k + (if events[0].Command? then 1 else 0), events[1..])
  {
    hide EventErrors;
  }

  lemma {:induction false} ErrorsJoin(handler: nat -> Behaviour, k: nat, a: seq<Event>, b: seq<Event>)
    ensures ErrorsFrom(handler, k, a + b) == ErrorsFrom(handler, k, a) + ErrorsFrom(handler, k + Commands(a), b)
    decreases |a|
  {
    hide EventErrors, ErrorsFrom;
    ErrorsUnfold(handler, k, a);
    if a == [] {
      assert a + b == b;
    } else {
      ErrorsUnfold(handler, k, a + b);
      assert (a + b)[1..] == a[1..] + b;
      var c := if a[0].Command? then 1 else 0;
      ErrorsJoin(handler, k + c, a[1..], b);
      Grouped(EventErrors(a[0], handler(k)), ErrorsFrom(handler, k + c, a[1..]),
          ErrorsFrom(handler, k + Commands(a), b));
    }
  }

  // ---------- answers and counts ----------

  /** The answers of a handler are its results, in order, whatever else it does between them. */
  lemma {:induction false} AnswersJoin(a: seq<Action>, b: seq<Action>)
    ensures Answers(a + b) == Answers(a) + Answers(b)
    decreases |a|
  {
    hide Answers, AnswerOf;
    if a == [] {
      NoAnswers();
      assert a + b == b;
    } else {
      AnswersUnfold(a);
      AnswersUnfold(a + b);
      assert (a + b)[1..] == a[1..] + b;
      AnswersJoin(a[1..], b);
      Grouped(AnswerOf(a[0]), Answers(a[1..]), Answers(b));
    }
  }

  /** The i-th command behind the first k answers through its own handler, if it has one. */
  lemma {:induction false} AnswersAt(handler: nat -> Behaviour, k: nat, n: nat, i: nat)
    requires i < n
    ensures var b := handler(k + i);
            && |AnswersFrom(handler, k, n)| == n
            && AnswersFrom(handler, k, n)[i] == if b.hasCallback then Answers(b.actions) else []
    decreases n
  {
    hide Answers;
    if i > 0 {
      AnswersAt(handler, k + 1, n - 1, i - 1);
    } else if n > 1 {
      AnswersAt(handler, k + 1, n - 1, 0);
    }
  }

  lemma NoAnswers()
    ensures Answers([]) == []
  {
  }

  lemma AnswersUnfold(a: seq<Action>)
    requires a != []
    ensures Answers(a) == AnswerOf(a[0]) + Answers(a[1..])
  {
  }

  lemma AnswerOfOne(action: Action)
    ensures Answers([action]) == if action.Answer? then [action.result] else []
  {
    assert [action][1..] == [];
  }

  // ---------- return codes ----------

  /** What the actions of a command report by themselves. */
  function ActionErrors(b: Behaviour, w: string, p: nat, e: nat): seq<int>
    requires p <= e <= |w|
  {
    if b.hasCallback then RunActions(b.actions, w, p, e, 0).errors else []
  }

  /** A handler that fails without an error is reported as an execution error, whatever its data;
      one that fails with errors is reported as these, and nothing is added. */
  lemma FailingHandler(b: Behaviour, w: string, p: nat, e: nat)
    requires p <= e <= |w| && b.hasCallback && !b.ok
    ensures ActionErrors(b, w, p, e) == [] ==> CommandErrors(b, w, p, e) == [-200]
    ensures ActionErrors(b, w, p, e) != [] ==> CommandErrors(b, w, p, e) == ActionErrors(b, w, p, e)
    ensures CommandErrors(b, w, p, e) != []
  {
    hide RunActions;
  }

  /** A handler that succeeds, or a command without one, is reported as the errors of its actions;
      if there are none, as data left over, or not at all. */
  lemma OtherHandler(b: Behaviour, w: string, p: nat, e: nat)
    requires p <= e <= |w| && (!b.hasCallback || b.ok)
    ensures ActionErrors(b, w, p, e) != [] ==> CommandErrors(b, w, p, e) == ActionErrors(b, w, p, e)
    ensures ActionErrors(b, w, p, e) == [] ==>
              var end := if b.hasCallback then RunActions(b.actions, w, p, e, 0).pos else p;
              CommandErrors(b, w, p, e) == if end < e then [-108] else []
  {
    hide RunActions;
  }

  /** Actions that ask for no parameters report what they are told to report, in order. */
  function Told(actions: seq<Action>): seq<int>
    decreases |actions|
  {
    if actions == [] then [] else (if actions[0].Report? then [actions[0].err] else []) + Told(actions[1..])
  }

  lemma {:induction false} ToldErrors(actions: seq<Action>, w: string, p: nat, e: nat, count: nat)
    requires p <= e <= |w| && forall i :: 0 <= i < |actions| ==> !actions[i].AskParameter?
    ensures RunActions(actions, w, p, e, count) == Ran(Told(actions), p, count)
    decreases |actions|
  {
    if actions != [] {
      ToldErrors(actions[1..], w, p, e, count);
    }
  }

  /** A line that executes a failing handler has errors, so SCPI_Parse is FALSE on it. */
  lemma {:induction false} FailingLine(handler: nat -> Behaviour, k: nat, events: seq<Event>, i: nat)
    requires i < |events| && events[i].Command?
    requires var b := handler(k + Commands(events[..i])); b.hasCallback && !b.ok
    ensures ErrorsFrom(handler, k, events) != []
  {
    hide EventErrors, ErrorsFrom, Commands, CommandErrors;
    var before, rest := events[..i], events[i..];
    assert events == before + rest;
    ErrorsJoin(handler, k, before, rest);
    ErrorsUnfold(handler, k + Commands(before), rest);
    FailingEvent(rest[0], handler(k + Commands(before)));
  }

  lemma FailingEvent(event: Event, b: Behaviour)
    requires event.Command? && b.hasCallback && !b.ok
    ensures EventErrors(event, b) != []
  {
    hide CommandErrors;
    FailingHandler(b, event.data, 0, |event.data|);
  }

  /** The other two events have one error each. */
  lemma EventNumbers(b: Behaviour, header: string)
    ensures EventErrors(InvalidCharacter, b) == [-101] && EventErrors(UndefinedHeader(header), b) == [-113]
  {
  }

  // ---------- the same data elsewhere in memory ----------

  lemma ReadShift(fr: Frame, p: nat, count: nat, mandatory: bool)
    requires Fits(fr, p) && fr.m == fr.e
    ensures var r := ReadParameter(fr.w, p, fr.e, count, mandatory);
            var s := ReadParameter(fr.v, p + fr.d, fr.m + fr.d, count, mandatory);
            s.err == r.err && s.pos == r.pos + fr.d && s.count == r.count && s.ok == r.ok
  {
    hide ProgramData, Fits, Clean;
    FitsBounds(fr, p);
    if p < fr.e {
      SameChar(fr, p);
      var q := if count != 0 then p + 1 else p;
      FitsLater(fr, p, q);
      WholeIsClean(fr);
      DatumLands(fr, ProgramData(fr.w, q, fr.e));
      ProgramDataCut(fr, q);
    }
  }

  lemma WholeIsClean(fr: Frame)
    requires fr.m == fr.e
    ensures Clean(fr)
  {
  }

  lemma {:induction false} RunShift(fr: Frame, actions: seq<Action>, p: nat, count: nat)
    requires Fits(fr, p) && fr.m == fr.e
    ensures var r := RunActions(actions, fr.w, p, fr.e, count);
            RunActions(actions, fr.v, p + fr.d, fr.m + fr.d, count) == Ran(r.errors, r.pos + fr.d, r.count)
    decreases |actions|
  {
    hide Fits, ReadParameter;
    FitsBounds(fr, p);
    if actions != [] {
      var a := RunAction(actions[0], fr.w, p, fr.e, count);
      if actions[0].AskParameter? {
        ReadShift(fr, p, count, actions[0].mandatory);
      }
      FitsLater(fr, p, a.pos);
      RunShift(fr, actions[1..], a.pos, a.count);
    }
  }

  /** A handler sees the data token, not the memory around it. */
  lemma {:induction false} ErrorsOfText(b: Behaviour, mem: string, t: Token)
    requires t.len >= 0 && TokenEnd(t) <= |mem|
    ensures CommandErrors(b, mem, t.ptr, TokenEnd(t)) == CommandErrors(b, Text(mem, t), 0, t.len)
  {
    hide Fits, RunActions, Text;
    var fr := Frame(mem, TokenEnd(t), Text(mem, t), 0 - t.ptr as int, TokenEnd(t));
    TextFits(mem, t);
    RunShift(fr, b.actions, t.ptr, 0);
  }

  lemma TextFits(mem: string, t: Token)
    requires t.len >= 0 && TokenEnd(t) <= |mem|
    ensures |Text(mem, t)| == t.len
    ensures Fits(Frame(mem, TokenEnd(t), Text(mem, t), 0 - t.ptr as int, TokenEnd(t)), t.ptr)
  {
  }

  // ---------- a handler that asks for j parameters ----------

  function Asks(j: nat): (r: seq<Action>)
    ensures |r| == j
  {
    if j == 0 then [] else [AskParameter(true)] + Asks(j - 1)
  }

  function Times(err: int, n: nat): seq<int> {
    if n == 0 then [] else [err] + Times(err, n - 1)
  }

  /** As long as the reads succeed they report nothing. */
  lemma {:induction false} AsksSucceed(w: string, p: nat, e: nat, count: nat, j: nat)
    requires p <= e <= |w| && ReadMany(w, p, e, count, j).ok
    ensures RunActions(Asks(j), w, p, e, count) == Ran([], ReadMany(w, p, e, count, j).pos, count + j)
    decreases j
  {
    hide ReadParameter;
    if j > 0 {
      var r := ReadParameter(w, p, e, count, true);
      assert Asks(j)[1..] == Asks(j - 1);
      AsksSucceed(w, r.pos, e, r.count, j - 1);
    }
  }

  /** Each request behind the last parameter reports that one is missing. */
  lemma {:induction false} AsksMiss(w: string, e: nat, count: nat, j: nat)
    requires e <= |w|
    ensures RunActions(Asks(j), w, e, e, count) == Ran(Times(MISSING_PARAMETER, j), e, count)
    decreases j
  {
    if j > 0 {
      assert Asks(j)[1..] == Asks(j - 1);
      AsksMiss(w, e, count, j - 1);
    }
  }

  lemma {:induction false} AsksJoin(w: string, p: nat, e: nat, count: nat, i: nat, j: nat)
    requires p <= e <= |w|
    ensures var a := RunActions(Asks(i), w, p, e, count);
            var b := RunActions(Asks(j), w, a.pos, e, a.count);
            RunActions(Asks(i + j), w, p, e, count) == Ran(a.errors + b.errors, b.pos, b.count)
    decreases i
  {
    hide ReadParameter;
    if i == 0 {
      var b := RunActions(Asks(j), w, p, e, count);
      assert [] + b.errors == b.errors;
    } else {
      var r := RunAction(AskParameter(true), w, p, e, count);
      assert Asks(i)[1..] == Asks(i - 1) && Asks(i + j)[1..] == Asks(i + j - 1);
      AsksJoin(w, r.pos, e, r.count, i - 1, j);
      var a := RunActions(Asks(i - 1), w, r.pos, e, r.count);
      Grouped(r.errors, a.errors, RunActions(Asks(j), w, a.pos, e, a.count).errors);
    }
  }

  lemma {:induction false} FewerReads(w: string, p: nat, e: nat, count: nat, j: nat, n: nat)
    requires p <= e <= |w| && j <= n && ReadMany(w, p, e, count, n).ok
    ensures ReadMany(w, p, e, count, j).ok
    ensures j < n ==> ReadMany(w, p, e, count, j).pos < ReadMany(w, p, e, count, n).pos
    decreases j
  {
    hide ReadParameter;
    if j == 0 {
      MoreIsFurther(w, p, e, count, n);
    } else {
      var r := ReadParameter(w, p, e, count, true);
      FewerReads(w, r.pos, e, r.count, j - 1, n - 1);
    }
  }

  lemma MoreIsFurther(w: string, p: nat, e: nat, count: nat, n: nat)
    requires p <= e <= |w| && ReadMany(w, p, e, count, n).ok
    ensures n > 0 ==> ReadMany(w, p, e, count, n).pos > p
  {
  }

  /** What a unit's data token has to do with the data the framing pass read. */
  lemma DataOfUnit(w: string, p: nat)
    requires p <= |w|
    requires var u := DetectUnit(w, p, |w|); u.header.kind != Invalid && u.parameters > 0
    ensures var u := DetectUnit(w, p, |w|);
            && u.data.ptr <= |w| && AllProgramData(w, u.data.ptr, |w|).ok
            && u.parameters == |AllProgramData(w, u.data.ptr, |w|).items|
            && TokenEnd(u.data) == WindowEnd(w, u.data.ptr, |w|) && u.data.len >= 0 && TokenEnd(u.data) <= |w|
  {
    hide Header, Span, AllProgramData, CountedLength, NewLineEnd, Skip;
    var h := Header(w, Span(w, p, |w|, Ws), |w|);
    var s := Span(w, h.pos, |w|, Ws);
    if AllProgramData(w, s, |w|).ok {
      WindowHoldsLast(w, s, |w|);
    }
  }

  /** The uncounted white space in the data of the unit fits. */
  ghost predicate UnitFits(w: string, u: Unit) {
    u.data.ptr <= |w| &&
    var items := AllProgramData(w, u.data.ptr, |w|).items;
    items != [] && SpaceFits(items)
  }

  /** What is reported about a handler that does nothing but ask for j parameters in the data
      of a token. */
  function AskingErrors(w: string, t: Token, j: nat): seq<int>
    requires t.len >= 0 && TokenEnd(t) <= |w|
  {
    CommandErrors(Behaviour(true, Asks(j), true), Text(w, t), 0, t.len)
  }

  /** When the uncounted white space fits, a handler that does nothing but ask for j parameters
      goes through without an error exactly if j is the number counted; asking for fewer is
      answered by one complaint about left-over parameters, asking for more by one about a
      missing parameter each time. A broken list counts as none. */
  lemma {:induction false} RightNumberOfParameters(w: string, p: nat, u: Unit, j: nat)
    requires p <= |w| && u == DetectUnit(w, p, |w|)
    requires u.header.kind != Invalid && (u.parameters > 0 ==> UnitFits(w, u))
    ensures 0 <= u.data.len && TokenEnd(u.data) <= |w|
    ensures var n := Max(u.parameters, 0);
            AskingErrors(w, u.data, j) == if j < n then [-108] else Times(-109, j - n)
  {
    hide DetectUnit, AllProgramData, SpaceFits, WindowEnd, AskingErrors, Times;
    if u.parameters > 0 {
      DataOfUnit(w, p);
      AsksOfToken(w, u.data, j);
    } else {
      NoDataOfUnit(w, p);
      AsksOfNothing(w, u.data, j);
    }
  }

  lemma NoDataOfUnit(w: string, p: nat)
    requires p <= |w|
    requires var u := DetectUnit(w, p, |w|); u.header.kind != Invalid && u.parameters <= 0
    ensures var u := DetectUnit(w, p, |w|);
            u.data.len == 0 && u.data.ptr <= |w|
  {
    hide Header, Span, AllProgramData, CountedLength, NewLineEnd, Skip;
  }

  lemma AsksOfNothing(w: string, t: Token, j: nat)
    requires t.len == 0 && t.ptr <= |w|
    ensures AskingErrors(w, t, j) == Times(MISSING_PARAMETER, j)
  {
    hide Asks, Times, RunActions;
    AsksMiss(Text(w, t), 0, 0, j);
  }

  // ---------- optional parameters ----------

  function Options(j: nat): (r: seq<Action>)
    ensures |r| == j
  {
    if j == 0 then [] else [AskParameter(false)] + Options(j - 1)
  }

  /** As long as there is data an optional parameter is read like any other; behind it nothing is
      reported. */
  lemma OptionalRead(w: string, p: nat, e: nat, count: nat)
    requires p <= e <= |w|
    ensures p < e ==> RunAction(AskParameter(false), w, p, e, count) == RunAction(AskParameter(true), w, p, e, count)
    ensures RunAction(AskParameter(false), w, e, e, count) == Ran([], e, count)
    ensures RunAction(AskParameter(true), w, e, e, count) == Ran([-109], e, count)
    ensures p < e && count != 0 && w[p] != ',' ==>
              RunAction(AskParameter(true), w, p, e, count) == Ran([-103], p, count)
  {
    hide ProgramData;
  }

  lemma {:induction false} OptionsMiss(w: string, e: nat, count: nat, j: nat)
    requires e <= |w|
    ensures RunActions(Options(j), w, e, e, count) == Ran([], e, count)
    decreases j
  {
    hide RunAction;
    if j > 0 {
      OptionalRead(w, e, e, count);
      assert Options(j)[1..] == Options(j - 1);
      OptionsMiss(w, e, count, j - 1);
    }
  }

  /** Optional requests read the parameters that are left, and are silent about the rest. */
  lemma {:induction false} OptionsRead(w: string, p: nat, e: nat, count: nat, n: nat, j: nat)
    requires p <= e <= |w| && n <= j && ReadMany(w, p, e, count, n).ok && ReadMany(w, p, e, count, n).pos == e
    ensures RunActions(Options(j), w, p, e, count) == Ran([], e, count + n)
    decreases n
  {
    hide RunAction, ReadParameter;
    if n == 0 {
      OptionsMiss(w, e, count, j);
    } else {
      OptionalRead(w, p, e, count);
      MoreIsFurther(w, p, e, count, n);
      var r := ReadParameter(w, p, e, count, true);
      OneReadRun(w, p, e, count);
      assert Options(j)[1..] == Options(j - 1);
      OptionsRead(w, r.pos, e, r.count, n - 1, j - 1);
    }
  }

  lemma OneReadRun(w: string, p: nat, e: nat, count: nat)
    requires p <= e <= |w|
    ensures var r := ReadParameter(w, p, e, count, true);
            RunAction(AskParameter(true), w, p, e, count) == Ran(Noted(r.err), r.pos, r.count)
            && (r.ok ==> Noted(r.err) == [] && r.count == count + 1)
  {
    hide ReadParameter;
  }

  /** When the white space fits, a handler that asks for i parameters and then for m optional ones
      goes through without an error if i is not more and i + m not less than the number counted:
      it may ask for more than there are. */
  lemma {:induction false} OptionalParameters(w: string, s: nat, e: nat, i: nat, m: nat)
    requires s <= e <= |w| && AllProgramData(w, s, e).ok && SpaceFits(AllProgramData(w, s, e).items)
    requires i <= |AllProgramData(w, s, e).items| <= i + m
    ensures s <= WindowEnd(w, s, e) <= |w|
    ensures CommandErrors(Behaviour(true, Asks(i) + Options(m), true), w, s, WindowEnd(w, s, e)) == []
  {
    hide AllProgramData, SpaceFits, Fits, WindowEnd, ReadMany, RunActions, Asks, Options;
    var n := |AllProgramData(w, s, e).items|;
    WindowHoldsLast(w, s, e);
    var z := WindowEnd(w, s, e);
    FitsItself(w, s, e, z);
    TwoPassAgreement(w, s, e, w, z);
    PassesMeans(w, s, e, z);
    FewerReads(w, s, z, 0, i, n);
    AsksSucceed(w, s, z, 0, i);
    RestReads(w, s, z, 0, i, n);
    OptionsRead(w, ReadMany(w, s, z, 0, i).pos, z, i, n - i, m);
    RunsJoin(Asks(i), Options(m), w, s, z, 0);
  }

  lemma {:induction false} RestReads(w: string, p: nat, e: nat, count: nat, i: nat, n: nat)
    requires p <= e <= |w| && i <= n && ReadMany(w, p, e, count, n).ok
    ensures ReadMany(w, p, e, count, i).pos <= e
    ensures var r := ReadMany(w, ReadMany(w, p, e, count, i).pos, e, count + i, n - i);
            r.ok && r.pos == ReadMany(w, p, e, count, n).pos
    decreases i
  {
    hide ReadParameter;
    if i > 0 {
      var r := ReadParameter(w, p, e, count, true);
      RestReads(w, r.pos, e, r.count, i - 1, n - 1);
    }
  }

  lemma {:induction false} RunsJoin(a: seq<Action>, b: seq<Action>, w: string, p: nat, e: nat, count: nat)
    requires p <= e <= |w|
    ensures var x := RunActions(a, w, p, e, count);
            var y := RunActions(b, w, x.pos, e, x.count);
            RunActions(a + b, w, p, e, count) == Ran(x.errors + y.errors, y.pos, y.count)
    decreases |a|
  {
    hide RunAction;
    if a == [] {
      assert a + b == b;
      var y := RunActions(b, w, p, e, count);
      assert [] + y.errors == y.errors;
    } else {
      assert (a + b)[1..] == a[1..] + b;
      var r := RunAction(a[0], w, p, e, count);
      RunsJoin(a[1..], b, w, r.pos, e, r.count);
      var x := RunActions(a[1..], w, r.pos, e, r.count);
      Grouped(r.errors, x.errors, RunActions(b, w, x.pos, e, x.count).errors);
    }
  }

  /** Where the data of the unit at p would begin. */
  function DataStart(w: string, p: nat): (s: nat)
    requires p <= |w|
    ensures p <= s <= |w|
  {
    Span(w, Header(w, Span(w, p, |w|, Ws), |w|).pos, |w|, Ws)
  }

  /** A list of data that cannot be read makes the unit invalid unless reading it happened to
      stop at a terminator or at the end of the text: then the command runs without data. */
  lemma BrokenList(w: string, p: nat)
    requires p <= |w| && DetectUnit(w, p, |w|).parameters < 0
    ensures var u := DetectUnit(w, p, |w|);
            var d := AllProgramData(w, DataStart(w, p), |w|);
            && !d.ok
            && (u.header.kind != Invalid <==> d.pos == |w| || IsNl(w[d.pos]) || w[d.pos] == ';')
            && (u.header.kind != Invalid ==> u.data.len == 0)
  {
    hide Header, Span, AllProgramData, CountedLength;
  }

  lemma AsksOfToken(w: string, t: Token, j: nat)
    requires t.ptr <= |w| && t.len >= 0 && TokenEnd(t) == WindowEnd(w, t.ptr, |w|)
    requires var all := AllProgramData(w, t.ptr, |w|); all.ok && |all.items| > 0 && SpaceFits(all.items)
    ensures TokenEnd(t) <= |w|
    ensures AskingErrors(w, t, j)
         == (var n := |AllProgramData(w, t.ptr, |w|).items|;
             if j < n then [PARAMETER_NOT_ALLOWED] else Times(MISSING_PARAMETER, j - n))
  {
    hide AllProgramData, SpaceFits, WindowEnd, CommandErrors, Asks, Times;
    AsksInWindow(w, t.ptr, |w|, j);
    ErrorsOfText(Behaviour(true, Asks(j), true), w, t);
  }

  lemma {:induction false} AsksInWindow(w: string, s: nat, e: nat, j: nat)
    requires s <= e <= |w| && AllProgramData(w, s, e).ok && SpaceFits(AllProgramData(w, s, e).items)
    ensures var n := |AllProgramData(w, s, e).items|;
            && s <= WindowEnd(w, s, e) <= |w|
            && CommandErrors(Behaviour(true, Asks(j), true), w, s, WindowEnd(w, s, e))
               == if j < n then [PARAMETER_NOT_ALLOWED] else Times(MISSING_PARAMETER, j - n)
  {
    hide AllProgramData, SpaceFits, Fits, WindowEnd, ReadMany, RunActions, Asks;
    var n := |AllProgramData(w, s, e).items|;
    WindowHoldsLast(w, s, e);
    var m := WindowEnd(w, s, e);
    FitsItself(w, s, e, m);
    TwoPassAgreement(w, s, e, w, m);
    PassesMeans(w, s, e, m);
    if j < n {
      FewerReads(w, s, m, 0, j, n);
      AsksSucceed(w, s, m, 0, j);
    } else {
      AsksSucceed(w, s, m, 0, n);
      AsksMiss(w, m, n, j - n);
      AsksJoin(w, s, m, 0, n, j - n);
      assert [] + Times(MISSING_PARAMETER, j - n) == Times(MISSING_PARAMETER, j - n);
    }
  }

  lemma PassesMeans(w: string, s: nat, e: nat, m: nat)
    requires s <= e <= |w| && AllProgramData(w, s, e).ok && s <= m <= |w| && PassesAgree(w, s, e, w, m)
    ensures var r := ReadMany(w, s, m, 0, |AllProgramData(w, s, e).items|);
            r.ok && r.pos == m
  {
    hide ReadMany, AllProgramData;
  }

  // ---------- many lines ----------

  /** What lines write, and what they report, from the events of each. */
  function Replies(handler: nat -> Behaviour, k: nat, reactions: seq<seq<Event>>): string
    decreases |reactions|
  {
    if reactions == [] then ""
    else
      var n := Commands(reactions[0]);
      LineOutput(AnswersFrom(handler, k, n), 0) + Replies(handler, k + n, reactions[1..])
  }

  function Reports(handler: nat -> Behaviour, k: nat, reactions: seq<seq<Event>>): seq<int>
    decreases |reactions|
  {
    if reactions == [] then []
    else ErrorsFrom(handler, k, reactions[0]) + Reports(handler, k + Commands(reactions[0]), reactions[1..])
  }

  function Executed(reactions: seq<seq<Event>>): nat
    decreases |reactions|
  {
    if reactions == [] then 0 else Commands(reactions[0]) + Executed(reactions[1..])
  }

  /** A line without events neither writes nor reports anything. */
  lemma NextLine(handler: nat -> Behaviour, k: nat, events: seq<Event>, rest: seq<seq<Event>>)
    ensures var n := Commands(events);
            && Replies(handler, k, Noticed(events) + rest)
               == LineOutput(AnswersFrom(handler, k, n), 0) + Replies(handler, k + n, rest)
            && Reports(handler, k, Noticed(events) + rest)
               == ErrorsFrom(handler, k, events) + Reports(handler, k + n, rest)
            && Executed(Noticed(events) + rest) == n + Executed(rest)
  {
    hide LineOutput, AnswersFrom, ErrorsFrom, Commands, Replies, Reports, Executed;
    if events == [] {
      NothingOfNothing(handler, k);
      assert Noticed(events) + rest == rest;
      assert "" + Replies(handler, k, rest) == Replies(handler, k, rest);
      assert [] + Reports(handler, k, rest) == Reports(handler, k, rest);
    } else {
      FirstReaction(handler, k, events, rest);
    }
  }

  lemma NothingOfNothing(handler: nat -> Behaviour, k: nat)
    ensures Commands([]) == 0 && LineOutput(AnswersFrom(handler, k, 0), 0) == "" && ErrorsFrom(handler, k, []) == []
  {
  }

  lemma FirstReaction(handler: nat -> Behaviour, k: nat, events: seq<Event>, rest: seq<seq<Event>>)
    ensures var n := Commands(events);
            && Replies(handler, k, [events] + rest)
               == LineOutput(AnswersFrom(handler, k, n), 0) + Replies(handler, k + n, rest)
            && Reports(handler, k, [events] + rest) == ErrorsFrom(handler, k, events) + Reports(handler, k + n, rest)
            && Executed([events] + rest) == n + Executed(rest)
  {
    hide LineOutput, AnswersFrom, ErrorsFrom, Commands;
    assert ([events] + rest)[1..] == rest;
  }

  lemma {:induction false} ExecutedJoin(a: seq<seq<Event>>, b: seq<seq<Event>>)
    ensures Executed(a + b) == Executed(a) + Executed(b)
    decreases |a|
  {
    hide Commands;
    if a == [] {
      assert a + b == b;
    } else {
      assert (a + b)[1..] == a[1..] + b;
      ExecutedJoin(a[1..], b);
    }
  }

  lemma {:induction false} RepliesJoin(handler: nat -> Behaviour, k: nat, a: seq<seq<Event>>, b: seq<seq<Event>>)
    ensures Replies(handler, k, a + b) == Replies(handler, k, a) + Replies(handler, k + Executed(a), b)
    decreases |a|
  {
    hide LineOutput, AnswersFrom, Commands;
    if a == [] {
      assert a + b == b;
    } else {
      assert (a + b)[1..] == a[1..] + b;
      var n := Commands(a[0]);
      RepliesJoin(handler, k + n, a[1..], b);
      Grouped(LineOutput(AnswersFrom(handler, k, n), 0), Replies(handler, k + n, a[1..]),
          Replies(handler, k + Executed(a), b));
    }
  }

  lemma {:induction false} ReportsJoin(handler: nat -> Behaviour, k: nat, a: seq<seq<Event>>, b: seq<seq<Event>>)
    ensures Reports(handler, k, a + b) == Reports(handler, k, a) + Reports(handler, k + Executed(a), b)
    decreases |a|
  {
    hide ErrorsFrom, Commands;
    if a == [] {
      assert a + b == b;
    } else {
      assert (a + b)[1..] == a[1..] + b;
      var n := Commands(a[0]);
      ReportsJoin(handler, k + n, a[1..], b);
      Grouped(ErrorsFrom(handler, k, a[0]), Reports(handler, k + n, a[1..]), Reports(handler, k + Executed(a), b));
    }
  }

  // ---------- what has been done ----------

  /** What can be said of an interpreter from outside: lines executed, their events, commands
      run, bytes written, errors pushed. */
  datatype Log = Log(lines: seq<string>, events: seq<Event>, calls: nat, written: string, pushed: seq<int>)

  /** The log after some more lines. */
  function After(log: Log, lines: seq<string>, handler: nat -> Behaviour, matches: string -> bool): Log {
    var reactions := Reactions(lines, matches);
    Log(log.lines + lines,
        log.events + Events(lines, matches),
        log.calls + Executed(reactions),
        log.written + Replies(handler, log.calls, reactions),
        log.pushed + Reports(handler, log.calls, reactions))
  }

  lemma AfterNothing(log: Log, handler: nat -> Behaviour, matches: string -> bool)
    ensures After(log, [], handler, matches) == log
  {
    assert log.lines + [] == log.lines && log.events + [] == log.events;
    assert log.written + "" == log.written && log.pushed + [] == log.pushed;
  }

  /** Executing the lines a and then the lines b is executing all of them. */
  lemma AfterMore(log: Log, a: seq<string>, b: seq<string>, handler: nat -> Behaviour, matches: string -> bool)
    ensures After(After(log, a, handler, matches), b, handler, matches) == After(log, a + b, handler, matches)
  {
    hide Reactions, Events, Replies, Reports, Executed;
    var r, s, k := Reactions(a, matches), Reactions(b, matches), log.calls;
    EventsJoin(a, b, matches);
    ReactionsJoin(a, b, matches);
    ExecutedJoin(r, s);
    RepliesJoin(handler, k, r, s);
    ReportsJoin(handler, k, r, s);
    Grouped(log.lines, a, b);
    Grouped(log.events, Events(a, matches), Events(b, matches));
    Grouped(log.written, Replies(handler, k, r), Replies(handler, k + Executed(r), s));
    Grouped(log.pushed, Reports(handler, k, r), Reports(handler, k + Executed(r), s));
  }

  /** One line in its own terms. */
  lemma AfterLine(log: Log, line: string, handler: nat -> Behaviour, matches: string -> bool)
    ensures var e := LineEvents(line, matches);
            After(log, [line], handler, matches)
            == Log(log.lines + [line], log.events + e, log.calls + Commands(e),
                   log.written + LineOutput(AnswersFrom(handler, log.calls, Commands(e)), 0),
                   log.pushed + ErrorsFrom(handler, log.calls, e))
  {
    hide LineEvents, LineOutput, AnswersFrom, ErrorsFrom;
    var e, k := LineEvents(line, matches), log.calls;
    assert [line][1..] == [] && Reactions([line], matches) == Noticed(e) + [] && Events([line], matches) == e by {
      assert e + [] == e;
    }
    NextLine(handler, k, e, []);
    var out, errors := LineOutput(AnswersFrom(handler, k, Commands(e)), 0), ErrorsFrom(handler, k, e);
    assert Replies(handler, k, Reactions([line], matches)) == out by { assert out + "" == out; }
    assert Reports(handler, k, Reactions([line], matches)) == errors by { assert errors + [] == errors; }
  }

  // ---------- the verdict of SCPI_Input ----------

  /** What SCPI_Input returns behind the lines: FALSE for errors in the last of them. */
  function Verdict(before: bool, handler: nat -> Behaviour, k: nat, lines: seq<string>, matches: string -> bool): bool
    decreases |lines|
  {
    if lines == [] then before
    else
      var events := LineEvents(lines[0], matches);
      Verdict(ErrorsFrom(handler, k, events) == [], handler, k + Commands(events), lines[1..], matches)
  }

  /** The number of the first command of the last line. */
  function LastCommand(k: nat, lines: seq<string>, matches: string -> bool): nat
    requires lines != []
  {
    k + Executed(Reactions(lines[..|lines| - 1], matches))
  }

  lemma {:induction false} LastDecides(before: bool, handler: nat -> Behaviour, k: nat, lines: seq<string>,
      matches: string -> bool)
    requires lines != []
    ensures Verdict(before, handler, k, lines, matches)
         == (ErrorsFrom(handler, LastCommand(k, lines, matches), LineEvents(lines[|lines| - 1], matches)) == [])
    decreases |lines|
  {
    hide LineEvents, ErrorsFrom, Commands, Noticed;
    if |lines| == 1 {
      assert lines[..0] == [] && lines[1..] == [];
    } else {
      var e := LineEvents(lines[0], matches);
      LastDecides(ErrorsFrom(handler, k, e) == [], handler, k + Commands(e), lines[1..], matches);
      LastCommandStep(k, lines, matches);
    }
  }

  lemma LastCommandStep(k: nat, lines: seq<string>, matches: string -> bool)
    requires |lines| > 1
    ensures LastCommand(k, lines, matches)
            == LastCommand(k + Commands(LineEvents(lines[0], matches)), lines[1..], matches)
  {
    hide LineEvents, Commands, Noticed;
    var init := lines[..|lines| - 1];
    var e := LineEvents(lines[0], matches);
    assert lines[1..][..|lines| - 2] == init[1..] && init[0] == lines[0];
    NextLine(_ => Behaviour(false, [], true), k, e, Reactions(init[1..], matches));
  }

  lemma LastCommandIs(k: nat, lines: seq<string>, matches: string -> bool)
    requires lines != []
    ensures LastCommand(k, lines, matches) == k + Executed(Reactions(lines[..|lines| - 1], matches))
  {
    hide Executed, Reactions;
  }

  lemma ReportsOfLast(handler: nat -> Behaviour, k: nat, lines: seq<string>, matches: string -> bool)
    requires lines != []
    ensures Reports(handler, k, Reactions(lines, matches))
         == Reports(handler, k, Reactions(lines[..|lines| - 1], matches))
            + ErrorsFrom(handler, LastCommand(k, lines, matches), LineEvents(lines[|lines| - 1], matches))
  {
    hide LineEvents, ErrorsFrom, Reactions, Reports, Executed, LastCommand;
    LastCommandIs(k, lines, matches);
    var init, last := lines[..|lines| - 1], lines[|lines| - 1];
    assert lines == init + [last];
    ReactionsJoin(init, [last], matches);
    ReportsJoin(handler, k, Reactions(init, matches), Reactions([last], matches));
    OneLine(handler, LastCommand(k, lines, matches), last, matches);
  }

  lemma OneLine(handler: nat -> Behaviour, k: nat, line: string, matches: string -> bool)
    ensures Reports(handler, k, Reactions([line], matches)) == ErrorsFrom(handler, k, LineEvents(line, matches))
  {
    hide LineEvents, ErrorsFrom;
    assert [line][1..] == [];
    var e := LineEvents(line, matches);
    assert Noticed(e) + [] == Noticed(e);
    NextLine(handler, k, e, []);
    assert ErrorsFrom(handler, k, e) + [] == ErrorsFrom(handler, k, e);
  }

  lemma VerdictBehind(handler: nat -> Behaviour, k: nat, done: seq<string>, line: string, matches: string -> bool)
    ensures Verdict(true, handler, k, done + [line], matches)
         == (ErrorsFrom(handler, k + Executed(Reactions(done, matches)), LineEvents(line, matches)) == [])
  {
    hide Verdict, Reactions, Executed, LineEvents, ErrorsFrom;
    var all := done + [line];
    assert all[..|all| - 1] == done;
    LastDecides(true, handler, k, all, matches);
  }

  /** SCPI_Input returns TRUE although it pushed errors if and only if the last line pushed none
      and a line before it did. */
  lemma VerdictMisses(handler: nat -> Behaviour, k: nat, lines: seq<string>, matches: string -> bool)
    requires lines != []
    ensures (Verdict(true, handler, k, lines, matches) && Reports(handler, k, Reactions(lines, matches)) != [])
            <==>
            && ErrorsFrom(handler, LastCommand(k, lines, matches), LineEvents(lines[|lines| - 1], matches)) == []
            && Reports(handler, k, Reactions(lines[..|lines| - 1], matches)) != []
  {
    hide Verdict, LineEvents, ErrorsFrom, Reactions, Reports, LastCommand;
    LastDecides(true, handler, k, lines, matches);
    ReportsOfLast(handler, k, lines, matches);
  }
}
