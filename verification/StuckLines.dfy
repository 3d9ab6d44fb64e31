/** When a line that has been received completely is not executed: the scan of SCPI_Input
    (Utilities/Scpi/Src/parser.c, lines 297-310) gives up at an empty unit, and again in every
    later call with data. */
module StuckLines {
  import opened Basics
  import opened Lexer
  import opened Framing
  import opened Line
  import opened WholeLines
  import opened Chunking

  /** A unit of nothing but white space, ended by a semicolon. */
  predicate IsEmptyUnit(u: Unit) {
    u.header.kind == Unknown && u.term == SemicolonTermination
  }

  /** One of the units from p on is empty. */
  ghost predicate EmptyUnitFrom(w: string, p: nat)
    requires p <= |w|
  {
    exists i :: 0 <= i < |ParseUnits(w, p, |w|)| && IsEmptyUnit(ParseUnits(w, p, |w|)[i])
  }

  ghost predicate HasEmptyUnit(line: string) {
    EmptyUnitFrom(line, 0)
  }

  lemma EmptyUnitStep(w: string, p: nat)
    requires p <= |w|
    ensures var u := DetectUnit(w, p, |w|);
            EmptyUnitFrom(w, p) <==> IsEmptyUnit(u) || (u.pos < |w| && EmptyUnitFrom(w, u.pos))
  {
    hide DetectUnit, IsEmptyUnit;
    var u := DetectUnit(w, p, |w|);
    var us := ParseUnits(w, p, |w|);
    assert us[0] == u;
    if u.pos < |w| {
      var rest := ParseUnits(w, u.pos, |w|);
      assert forall i :: 0 <= i < |rest| ==> us[i + 1] == rest[i];
      if EmptyUnitFrom(w, p) && !IsEmptyUnit(u) {
        var i :| 0 <= i < |us| && IsEmptyUnit(us[i]);
        assert rest[i - 1] == us[i];
      }
    }
  }

  /** What the scan makes of the first unit of a text whose only line terminator is its last
      character. */
  lemma UnitOfTerminated(w: string, p: nat)
    requires p < |w| && FirstNl(w, p, |w| - 1) && UnitWhole(w, p, |w| - 1)
    ensures var u := DetectUnit(w, p, |w|);
            && (u.term == NlTermination ==> u.pos == |w|)
            && (u.term != NlTermination ==> p < u.pos < |w|)
            && (u.term == NoTermination ==> u.header.kind != Unknown)
  {
    hide UnitBody, NewLineEnd, FirstNl, UnitWhole;
    var k := |w| - 1;
    UnitOfLine(w, p, k);
    FirstNlBounds(w, p, k);
    LastNl(w, p);
  }

  lemma LastNl(w: string, p: nat)
    requires p < |w| && FirstNl(w, p, |w| - 1)
    ensures NewLineEnd(w, |w| - 1, |w|) == |w|
  {
  }

  lemma {:induction false} StuckFrom(w: string, p: nat)
    requires p < |w| && FirstNl(w, p, |w| - 1) && LineWhole(w, p, |w| - 1)
    ensures ScanLine(w, p).NoLine? <==> EmptyUnitFrom(w, p)
    decreases |w| - p
  {
    hide DetectUnit, FirstNl, EmptyUnitFrom, LineWhole, UnitWhole;
    EmptyUnitStep(w, p);
    WholeStep(w, p, |w| - 1);
    UnitOfTerminated(w, p);
    var u := DetectUnit(w, p, |w|);
    if u.term != NlTermination && u.header.kind != Unknown {
      FirstNlLater(w, p, u.pos, |w| - 1);
      StuckFrom(w, u.pos);
    }
  }

  /** A single whole line is not found if and only if one of its units is empty. */
  lemma {:induction false} LineIsStuck(line: string)
    requires line != "" && FirstNl(line, 0, |line| - 1) && LineWhole(line, 0, |line| - 1)
    ensures ScanLine(line, 0).NoLine? <==> HasEmptyUnit(line)
  {
    hide FirstNl, LineWhole;
    StuckFrom(line, 0);
  }

  // ---------- buffers of several lines ----------

  /** The text up to and including its first line terminator, CR LF being one. */
  function FirstLine(w: string): (line: string)
    requires NlIndex(w) < |w|
    ensures 0 < |line| <= |w| && line == w[..|line|]
  {
    w[..NewLineEnd(w, NlIndex(w), |w|)]
  }

  /** The terminated lines of a text. */
  function TextLines(w: string): seq<string>
    decreases |w|
  {
    if NlIndex(w) == |w| then [] else [FirstLine(w)] + TextLines(w[|FirstLine(w)|..])
  }

  /** The text behind the last line terminator. */
  function Unterminated(w: string): string
    decreases |w|
  {
    if NlIndex(w) == |w| then w else Unterminated(w[|FirstLine(w)|..])
  }

  /** How many lines precede the first one with an empty unit. Of CR LF only the CR counts. */
  ghost function Sound(lines: seq<string>): (k: nat)
    ensures k <= |lines|
    decreases |lines|
  {
    if lines == [] || HasEmptyUnit(Core(lines[0])) then 0 else 1 + Sound(lines[1..])
  }

  /** A line with one character for its terminator. */
  function Core(line: string): string {
    if NlIndex(line) < |line| then line[..NlIndex(line) + 1] else line
  }

  lemma CoreOfFirst(w: string)
    requires NlIndex(w) < |w|
    ensures Core(FirstLine(w)) == w[..NlIndex(w) + 1]
  {
    hide NlIndex;
    var line := FirstLine(w);
    var k := NlIndex(w);
    assert line[k] == w[k];
    assert forall i :: 0 <= i < k ==> line[i] == w[i];
    if NlIndex(line) != k {
      assert false;
    }
  }

  lemma FirstLineFound(w: string)
    requires NlIndex(w) < |w| && LineWhole(w, 0, NlIndex(w))
    ensures ScanLine(w, 0).NoLine? <==> HasEmptyUnit(Core(FirstLine(w)))
    ensures ScanLine(w, 0).FoundLine? ==> ScanLine(w, 0).end == |FirstLine(w)|
  {
    hide NewLineEnd, FirstNl, LineWhole, HasEmptyUnit, NlIndex, ScanLine, Core, SameUpTo;
    var k := NlIndex(w);
    NlIndexFirst(w);
    ScanOfLine(w, 0, k);
    CoreOfFirst(w);
    FirstNlOfPrefix(w, k);
    LineWholeSame(w, w[..k + 1], 0, k);
    LineIsStuck(w[..k + 1]);
  }

  lemma FirstNlOfPrefix(w: string, k: nat)
    requires FirstNl(w, 0, k)
    ensures k < |w| && FirstNl(w[..k + 1], 0, k) && SameUpTo(w, w[..k + 1], 0, k)
  {
  }

  /** Of the terminated lines in a whole buffer exactly those in front of the first line with an
      empty unit are executed; that line and everything behind it stay. */
  lemma {:induction false} DrainStopsAtEmptyUnit(w: string)
    requires WholeText(w)
    ensures var lines := TextLines(w);
            var k := Sound(lines);
            && Drain(w).lines == lines[..k]
            && Drain(w).rest == Flatten(lines[k..]) + Unterminated(w)
    decreases |w|
  {
    hide ScanLine, WholeText, LineWhole, NewLineEnd, Drain, TextLines, Unterminated, Sound, Flatten, NlIndex,
         FirstLine, Core;
    LinesUnfold(w);
    JoinUnfold(w);
    if NlIndex(w) == |w| {
      NoNlNoLine(w);
      DrainNone(w);
    } else {
      WholeUnfold(w);
      FirstLineIs(w);
      FirstLineFound(w);
      LinesJoined(w);
      var t := |FirstLine(w)|;
      var lines, rest := TextLines(w), TextLines(w[t..]);
      SoundUnfold(FirstLine(w), rest);
      if ScanLine(w, 0).NoLine? {
        DrainNone(w);
        assert lines[..0] == [] && lines[0..] == lines;
      } else {
        DrainFound(w);
        DrainStopsAtEmptyUnit(w[t..]);
        Shifted(lines[0], rest, Sound(rest));
      }
    }
  }

  lemma LinesUnfold(w: string)
    ensures TextLines(w) == if NlIndex(w) == |w| then [] else [FirstLine(w)] + TextLines(w[|FirstLine(w)|..])
    ensures Sound([]) == 0
  {
    hide NlIndex, FirstLine;
  }

  lemma SoundUnfold(line: string, rest: seq<string>)
    ensures Sound([line] + rest) == if HasEmptyUnit(Core(line)) then 0 else 1 + Sound(rest)
  {
    hide HasEmptyUnit, Core;
    assert ([line] + rest)[1..] == rest;
  }

  lemma Shifted(line: string, rest: seq<string>, k: nat)
    requires k <= |rest|
    ensures ([line] + rest)[..k + 1] == [line] + rest[..k] && ([line] + rest)[k + 1..] == rest[k..]
  {
  }

  lemma {:induction false} LinesJoined(w: string)
    ensures Flatten(TextLines(w)) + Unterminated(w) == w
    decreases |w|
  {
    hide NlIndex, FirstLine, Flatten, Unterminated, TextLines;
    JoinUnfold(w);
    LinesUnfold(w);
    if NlIndex(w) < |w| {
      var line := FirstLine(w);
      var rest := w[|line|..];
      LinesJoined(rest);
      JoinCons(line, TextLines(rest));
      Grouped(line, Flatten(TextLines(rest)), Unterminated(rest));
      assert w == line + rest;
    }
  }

  lemma JoinUnfold(w: string)
    ensures Flatten([]) == "" && "" + w == w
    ensures Unterminated(w) == if NlIndex(w) == |w| then w else Unterminated(w[|FirstLine(w)|..])
  {
    hide NlIndex, FirstLine;
  }

  lemma JoinCons(line: string, rest: seq<string>)
    ensures Flatten([line] + rest) == line + Flatten(rest)
  {
    assert ([line] + rest)[1..] == rest;
  }

  lemma FirstLineIs(w: string)
    requires NlIndex(w) < |w|
    ensures FirstLine(w) == w[..NewLineEnd(w, NlIndex(w), |w|)]
  {
    hide NlIndex, NewLineEnd;
  }

  // ---------- for good ----------

  /** Text behind a line that is stuck does not get it executed, whatever it is. */
  lemma StaysStuck(w: string, k: nat, c: string)
    requires FirstNl(w, 0, k) && LineWhole(w, 0, k) && ScanLine(w, 0).NoLine?
    ensures Drain(w + c) == Drained([], w + c)
    ensures FirstNl(w + c, 0, k) && LineWhole(w + c, 0, k) && ScanLine(w + c, 0).NoLine?
  {
    hide FirstNl, LineWhole, SameUpTo, ScanLine;
    SameFirst(w, k, c);
    LineWholeSame(w, w + c, 0, k);
    ScanOfLine(w, 0, k);
    ScanOfLine(w + c, 0, k);
    DrainNone(w + c);
  }

  lemma SameFirst(w: string, k: nat, c: string)
    requires FirstNl(w, 0, k)
    ensures k < |w| && FirstNl(w + c, 0, k) && SameUpTo(w, w + c, 0, k) && (w + c)[..k + 1] == w[..k + 1]
  {
    assert forall i :: 0 <= i <= k ==> (w + c)[i] == w[i];
  }

  /** However much arrives in calls with data, nothing is executed any more. */
  lemma {:induction false} StuckForGood(rest: string, k: nat, chunks: seq<string>)
    requires FirstNl(rest, 0, k) && LineWhole(rest, 0, k) && ScanLine(rest, 0).NoLine? && NonEmptyCalls(chunks)
    ensures InputAll(rest, chunks) == Drained([], rest + Flatten(chunks))
    decreases |chunks|
  {
    hide FirstNl, LineWhole, ScanLine, Drain;
    if chunks == [] {
      assert rest + "" == rest;
    } else {
      var c, tail := chunks[0], chunks[1..];
      StaysStuck(rest, k, c);
      StuckForGood(rest + c, k, tail);
      assert [] + InputAll(rest + c, tail).lines == InputAll(rest + c, tail).lines;
      Grouped(rest, c, Flatten(tail));
    }
  }

  /** Until a call without data: that one executes the stuck line, and all that has piled up
      behind it, as one line. */
  lemma {:induction false} EmptyCallExecutes(rest: string, k: nat, chunks: seq<string>)
    requires FirstNl(rest, 0, k) && LineWhole(rest, 0, k) && ScanLine(rest, 0).NoLine? && NonEmptyCalls(chunks)
    ensures InputAll(rest, chunks + [""]) == Drained([rest + Flatten(chunks)], "")
  {
    hide FirstNl, LineWhole, ScanLine, NonEmptyCalls, InputAll;
    StuckForGood(rest, k, chunks);
    InputJoin(rest, chunks, [""]);
    OneEmptyCall(rest + Flatten(chunks));
    assert [] + [rest + Flatten(chunks)] == [rest + Flatten(chunks)];
  }

  lemma OneEmptyCall(rest: string)
    ensures InputAll(rest, [""]) == Drained([rest], "")
  {
    assert [""][1..] == [] && [rest] + [] == [rest];
  }

  lemma {:induction false} InputJoin(rest: string, a: seq<string>, b: seq<string>)
    ensures var d := InputAll(rest, a);
            var e := InputAll(d.rest, b);
            InputAll(rest, a + b) == Drained(d.lines + e.lines, e.rest)
    decreases |a|
  {
    hide InputOnce;
    if a == [] {
      assert a + b == b && [] + InputAll(rest, b).lines == InputAll(rest, b).lines;
    } else {
      assert (a + b)[1..] == a[1..] + b;
      var d := InputOnce(rest, a[0]);
      InputJoin(d.rest, a[1..], b);
      var more := InputAll(d.rest, a[1..]);
      Grouped(d.lines, more.lines, InputAll(more.rest, b).lines);
    }
  }
}
