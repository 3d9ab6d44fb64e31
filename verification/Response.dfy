/** The response of a line (Utilities/Scpi/Src/parser.c, writeDelimiter, writeSemicolon,
    writeNewLine): what the interpreter writes for the results of its commands, against the
    response message of IEEE 488.2, and exactly when the two are the same. */
module Response {

  const LINE_ENDING := "\r\n"

  /** What a handler emits: a result written with its delimiter, or an arbitrary block, which
      SCPI_ResultArbitraryBlock writes without one. */
  datatype Result = Plain(bytes: string) | BlockBytes(bytes: string)

  // ---------- what is written ----------

  /** One result when count results of the command have been written before it. */
  function Written(r: Result, count: nat): string {
    (if r.Plain? && count > 0 then "," else "") + r.bytes
  }

  function CommandOutput(rs: seq<Result>, count: nat): string
    decreases |rs|
  {
    if rs == [] then "" else Written(rs[0], count) + CommandOutput(rs[1..], count + 1)
  }

  /** The rest of a line's output: count is output_count left by the command before. */
  function LineOutput(cmds: seq<seq<Result>>, count: nat): string
    decreases |cmds|
  {
    if cmds == [] then (if count > 0 then LINE_ENDING else "")
    else (if count > 0 then ";" else "") + CommandOutput(cmds[0], 0) + LineOutput(cmds[1..], |cmds[0]|)
  }

  // ---------- what should be written ----------

  /** The results of one command, separated by commas. */
  function JoinResults(rs: seq<Result>): string
    decreases |rs|
  {
    if rs == [] then ""
    else if |rs| == 1 then rs[0].bytes
    else rs[0].bytes + "," + JoinResults(rs[1..])
  }

  function NonEmpty(cmds: seq<seq<Result>>): (r: seq<seq<Result>>)
    ensures forall i :: 0 <= i < |r| ==> r[i] != []
    decreases |cmds|
  {
    if cmds == [] then [] else (if cmds[0] == [] then [] else [cmds[0]]) + NonEmpty(cmds[1..])
  }

  /** The responses of the commands that have one, separated by semicolons. */
  function JoinCommands(cmds: seq<seq<Result>>): string
    decreases |cmds|
  {
    if cmds == [] then ""
    else if |cmds| == 1 then JoinResults(cmds[0])
    else JoinResults(cmds[0]) + ";" + JoinCommands(cmds[1..])
  }

  /** The response message: one line if any command answers, nothing otherwise. */
  function ResponseMessage(cmds: seq<seq<Result>>): string {
    var answers := NonEmpty(cmds);
    if answers == [] then "" else JoinCommands(answers) + LINE_ENDING
  }

  // ---------- one command ----------

  /** Blocks that are not the first result of their command. */
  function LateBlocks(rs: seq<Result>, count: nat): nat
    decreases |rs|
  {
    if rs == [] then 0
    else (if rs[0].BlockBytes? && count > 0 then 1 else 0) + LateBlocks(rs[1..], count + 1)
  }

  lemma {:induction false} CommandLengths(rs: seq<Result>, count: nat)
    ensures rs != [] ==>
              |CommandOutput(rs, count)| + LateBlocks(rs, count) == (if count > 0 then 1 else 0) + |JoinResults(rs)|
    decreases |rs|
  {
    if |rs| == 1 {
      assert rs[1..] == [];
    } else if |rs| > 1 {
      CommandLengths(rs[1..], count + 1);
    }
  }

  /** Without late blocks the results of a command come out joined by commas. */
  lemma {:induction false} CommandJoined(rs: seq<Result>, count: nat)
    requires LateBlocks(rs, count) == 0 && rs != []
    ensures CommandOutput(rs, count) == (if count > 0 then "," else "") + JoinResults(rs)
    decreases |rs|
  {
    if |rs| == 1 {
      assert rs[1..] == [];
    } else {
      CommandJoined(rs[1..], count + 1);
    }
  }

  // ---------- a line ----------

  function AllLate(cmds: seq<seq<Result>>): nat
    decreases |cmds|
  {
    if cmds == [] then 0 else LateBlocks(cmds[0], 0) + AllLate(cmds[1..])
  }

  /** The last command answers, or no command does. */
  predicate LastAnswers(cmds: seq<seq<Result>>) {
    NonEmpty(cmds) == [] || cmds[|cmds| - 1] != []
  }

  /** What should still be written behind a command that wrote count results. */
  function Continuation(cmds: seq<seq<Result>>, count: nat): string {
    var answers := NonEmpty(cmds);
    if answers == [] then (if count > 0 then LINE_ENDING else "")
    else (if count > 0 then ";" else "") + JoinCommands(answers) + LINE_ENDING
  }

  /** The rest of the line ends with an answer, or nothing has to be ended. */
  predicate Closes(cmds: seq<seq<Result>>, count: nat) {
    cmds == [] || cmds[|cmds| - 1] != [] || (NonEmpty(cmds) == [] && count == 0)
  }

  lemma ContinuationAnswer(cmds: seq<seq<Result>>, count: nat)
    requires cmds != [] && cmds[0] != []
    ensures Continuation(cmds, count)
         == (if count > 0 then ";" else "") + JoinResults(cmds[0]) + Continuation(cmds[1..], |cmds[0]|)
  {
    var c, a := cmds[0], NonEmpty(cmds[1..]);
    assert NonEmpty(cmds) == [c] + a;
    assert ([c] + a)[1..] == a;
    var sep := if count > 0 then ";" else "";
    hide JoinResults, NonEmpty;
    if a == [] {
      assert sep + JoinResults(c) + LINE_ENDING == sep + (JoinResults(c)) + LINE_ENDING;
    } else {
      var rest := JoinCommands(a);
      assert JoinCommands([c] + a) == JoinResults(c) + ";" + rest;
      assert sep + (JoinResults(c) + ";" + rest) + LINE_ENDING == sep + JoinResults(c) + (";" + rest + LINE_ENDING);
    }
  }

  lemma ContinuationSilent(cmds: seq<seq<Result>>, count: nat)
    requires cmds != [] && cmds[0] == []
    ensures NonEmpty(cmds) == NonEmpty(cmds[1..])
    ensures NonEmpty(cmds) == [] ==> Continuation(cmds[1..], 0) == ""
    ensures NonEmpty(cmds) != [] ==>
              Continuation(cmds, count) == (if count > 0 then ";" else "") + Continuation(cmds[1..], 0)
  {
    var a := NonEmpty(cmds[1..]);
    assert NonEmpty(cmds) == [] + a == a;
    hide NonEmpty, JoinCommands;
    var sep := if count > 0 then ";" else "";
    assert sep + JoinCommands(a) + LINE_ENDING == sep + ("" + JoinCommands(a) + LINE_ENDING);
  }

  lemma {:induction false} LastOfSilent(cmds: seq<seq<Result>>)
    requires cmds != [] && NonEmpty(cmds) == []
    ensures cmds[|cmds| - 1] == []
    decreases |cmds|
  {
    if |cmds| > 1 {
      assert NonEmpty(cmds[1..]) == [];
      LastOfSilent(cmds[1..]);
    }
  }

  lemma ClosesStep(cmds: seq<seq<Result>>, count: nat)
    requires cmds != []
    ensures cmds[0] != [] ==> (Closes(cmds, count) <==> Closes(cmds[1..], |cmds[0]|))
    ensures cmds[0] == [] && NonEmpty(cmds) != [] ==> (Closes(cmds, count) <==> Closes(cmds[1..], 0))
    ensures NonEmpty(cmds) == [] ==> (Closes(cmds, count) <==> count == 0) && Closes(cmds[1..], 0)
  {
    if NonEmpty(cmds) == [] {
      LastOfSilent(cmds);
      assert cmds[0] == [] && [] + NonEmpty(cmds[1..]) == NonEmpty(cmds[1..]);
    }
    if cmds[0] == [] {
      assert NonEmpty(cmds) == [] + NonEmpty(cmds[1..]) == NonEmpty(cmds[1..]);
    }
    if |cmds| > 1 {
      assert cmds[1..][|cmds| - 2] == cmds[|cmds| - 1];
    }
  }

  /** What is written falls short of what should be by one byte for each late block and one if
      the last command is silent: the two texts cannot be equal by accident. */
  lemma {:induction false} LineLengths(cmds: seq<seq<Result>>, count: nat)
    ensures |LineOutput(cmds, count)| + AllLate(cmds) + (if Closes(cmds, count) then 0 else 1)
            == |Continuation(cmds, count)|
    decreases |cmds|
  {
    if cmds != [] {
      var c := cmds[0];
      LineLengths(cmds[1..], |c|);
      ClosesStep(cmds, count);
      hide CommandOutput, JoinResults, Closes, Continuation;
      if c == [] {
        EmptyCommand();
        ContinuationSilent(cmds, count);
        if NonEmpty(cmds) == [] {
          SilentContinuation(cmds, count);
        }
      } else {
        CommandLengths(c, 0);
        ContinuationAnswer(cmds, count);
      }
    }
  }

  lemma EmptyCommand()
    ensures CommandOutput([], 0) == "" && LateBlocks([], 0) == 0
  {
  }

  lemma SilentContinuation(cmds: seq<seq<Result>>, count: nat)
    requires NonEmpty(cmds) == []
    ensures Continuation(cmds, count) == if count > 0 then LINE_ENDING else ""
  {
  }

  lemma EmptyFirst(cmds: seq<seq<Result>>)
    requires cmds != [] && NonEmpty(cmds) == []
    ensures cmds[0] == []
  {
  }

  lemma {:induction false} LineJoined(cmds: seq<seq<Result>>, count: nat)
    requires AllLate(cmds) == 0 && Closes(cmds, count)
    ensures LineOutput(cmds, count) == Continuation(cmds, count)
    decreases |cmds|
  {
    if cmds != [] {
      var c := cmds[0];
      hide CommandOutput, JoinResults, Closes, Continuation, LateBlocks;
      ClosesStep(cmds, count);
      if NonEmpty(cmds) == [] {
        EmptyFirst(cmds);
      }
      LineJoined(cmds[1..], |c|);
      var sep := if count > 0 then ";" else "";
      if c == [] {
        EmptyCommand();
        ContinuationSilent(cmds, count);
        assert sep + "" == sep;
        if NonEmpty(cmds) == [] {
          SilentContinuation(cmds, count);
        }
      } else {
        CommandJoined(c, 0);
        assert "" + JoinResults(c) == JoinResults(c);
        ContinuationAnswer(cmds, count);
      }
    }
  }

  /** The bytes written for a line are its response message if and only if the last command
      answers (or none does) and no block comes second: a silent last command leaves a
      dangling ";" and no line ending, and a late block lacks its comma. */
  lemma ResponseWellFormed(cmds: seq<seq<Result>>)
    ensures LineOutput(cmds, 0) == ResponseMessage(cmds) <==> LastAnswers(cmds) && AllLate(cmds) == 0
  {
    LineLengths(cmds, 0);
    assert Continuation(cmds, 0) == ResponseMessage(cmds) by {
      hide JoinCommands, NonEmpty;
      assert "" + JoinCommands(NonEmpty(cmds)) == JoinCommands(NonEmpty(cmds));
    }
    assert Closes(cmds, 0) == LastAnswers(cmds) by {
      assert NonEmpty([]) == [];
    }
    if LastAnswers(cmds) && AllLate(cmds) == 0 {
      LineJoined(cmds, 0);
    }
    hide LineOutput, ResponseMessage, Continuation;
  }

  predicate AllPlain(rs: seq<Result>) {
    forall i :: 0 <= i < |rs| ==> rs[i].Plain?
  }

  lemma {:induction false} NoLateBlocks(rs: seq<Result>, count: nat)
    requires AllPlain(rs)
    ensures LateBlocks(rs, count) == 0
    decreases |rs|
  {
    if rs != [] {
      NoLateBlocks(rs[1..], count + 1);
    }
  }

  lemma {:induction false} NoLateAtAll(cmds: seq<seq<Result>>)
    requires forall i :: 0 <= i < |cmds| ==> AllPlain(cmds[i])
    ensures AllLate(cmds) == 0
    decreases |cmds|
  {
    hide AllPlain;
    if cmds != [] {
      NoLateBlocks(cmds[0], 0);
      NoLateAtAll(cmds[1..]);
    }
  }

  /** In particular the message is well formed when every command answers through functions
      that write the delimiter. */
  lemma {:induction false} EveryCommandAnswers(cmds: seq<seq<Result>>)
    requires forall i :: 0 <= i < |cmds| ==> cmds[i] != [] && AllPlain(cmds[i])
    ensures LineOutput(cmds, 0) == if cmds == [] then "" else JoinCommands(cmds) + LINE_ENDING
  {
    NoLateAtAll(cmds);
    ResponseWellFormed(cmds);
    NonEmptyAll(cmds);
    hide LineOutput, JoinCommands;
  }

  lemma {:induction false} NonEmptyAll(cmds: seq<seq<Result>>)
    requires forall i :: 0 <= i < |cmds| ==> cmds[i] != []
    ensures NonEmpty(cmds) == cmds
    decreases |cmds|
  {
    if cmds != [] {
      NonEmptyAll(cmds[1..]);
    }
  }

  /** A query followed by a silent command: the answer keeps its separator and its line is
      never ended. */
  lemma SilentCommandDangles()
    ensures LineOutput([[Plain("1")], []], 0) == "1;"
    ensures ResponseMessage([[Plain("1")], []]) == "1\r\n"
  {
    var q: seq<Result> := [Plain("1")];
    var cmds := [q, []];
    assert cmds[1..] == [[]] && cmds[1..][1..] == [];
    assert CommandOutput(q, 0) == "1";
    assert NonEmpty(cmds[1..]) == [];
    assert NonEmpty(cmds) == [q];
  }
}
