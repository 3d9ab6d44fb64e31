/** For a stream of whole lines, what SCPI_Input executes does not depend on how the stream is
    split into calls (Utilities/Scpi/Src/parser.c, SCPI_Input). */
module Chunking {
  import opened Lexer
  import opened LexerLaws
  import opened Framing
  import opened FramingLaws
  import opened Line
  import opened SmallUnits
  import opened WholeLines

  // ---------- the scan of a whole line reads up to the line terminator only ----------

  /** The unit at p in a text and in the line that ends at the first line terminator. */
  lemma {:induction false} UnitOfLine(w: string, p: nat, k: nat)
    requires FirstNl(w, p, k) && UnitWhole(w, p, k)
    ensures var u := DetectUnit(w, p, |w|);
            var v := DetectUnit(w[..k + 1], p, k + 1);
            && v.header == u.header && v.data == u.data && v.term == u.term
            && (u.term == NlTermination ==> u.pos == NewLineEnd(w, k, |w|) && v.pos == k + 1)
            && (u.term != NlTermination ==> u.pos == v.pos <= k)
  {
    hide UnitBody, NewLineEnd, FirstNl, UnitWhole;
    FirstNlBounds(w, p, k);
    var l := w[..k + 1];
    var b := UnitBody(w, p, |w|);
    BodyStays(w, p, k, |w|);
    BodyOfLine(w, p, k);
    FirstNlAt(w, p, k, b.pos);
    hide IsNl;
    assert l[b.pos] == w[b.pos];
    NlOrNot(w, b.pos, |w|);
    NlOrNot(l, b.pos, k + 1);
  }

  lemma NlOrNot(w: string, q: nat, e: nat)
    requires q < e <= |w|
    ensures NewLineEnd(w, q, e) > q <==> IsNl(w[q])
    ensures NewLineEnd(w, q, e) <= q + 2
  {
  }

  lemma {:induction false} BodyOfLine(w: string, p: nat, k: nat)
    requires FirstNl(w, p, k) && UnitBody(w, p, |w|).pos <= k
    ensures UnitBody(w[..k + 1], p, k + 1) == UnitBody(w, p, |w|)
  {
    hide UnitBody, FirstNl, Fits, Clean, MoveBody;
    FirstNlBounds(w, p, k);
    LineFits(w, p, k);
    BodyCut(Frame(w, |w|, w[..k + 1], 0, k + 1), p);
    MovedNowhere(UnitBody(w, p, |w|));
  }

  /** A line and the whole text are the same up to the end of the line. */
  lemma LineFits(w: string, p: nat, k: nat)
    requires FirstNl(w, p, k)
    ensures k < |w| && var fr := Frame(w, |w|, w[..k + 1], 0, k + 1); Fits(fr, p) && Clean(fr)
  {
    hide IsNl;
  }

  /** A whole line whose first unit does not end it is whole behind that unit. */
  lemma WholeStep(w: string, p: nat, k: nat)
    requires FirstNl(w, p, k) && LineWhole(w, p, k)
    ensures UnitWhole(w, p, k)
    ensures var u := DetectUnit(w, p, |w|);
            u.term != NlTermination ==> u.pos <= k && LineWhole(w, u.pos, k)
  {
    hide DetectUnit, FirstNl, UnitWhole, NewLineEnd;
    FirstNlBounds(w, p, k);
    UnitOfLine(w, p, k);
    UnitOfOwnLine(w, p, k);
  }

  lemma UnitOfOwnLine(w: string, p: nat, k: nat)
    requires p <= k < |w|
    ensures DetectUnit(w[..k + 1], p, k + 1) == DetectUnit(w, p, k + 1)
  {
    hide DetectUnit, IsNl;
    var fr := Frame(w, k + 1, w[..k + 1], 0, k + 1);
    assert Fits(fr, p) && Clean(fr);
    hide Fits, Clean;
    UnitCut(fr, p);
    assert MoveUnit(DetectUnit(w, p, k + 1), 0) == DetectUnit(w, p, k + 1);
  }

  /** Whether the scan gets through to the line terminator depends on the line alone; an
      empty unit in front of it stops the scan in any buffer that starts with this line. */
  lemma {:induction false} ScanOfLine(w: string, p: nat, k: nat)
    requires FirstNl(w, p, k) && LineWhole(w, p, k)
    ensures ScanLine(w, p).NoLine? <==> ScanLine(w[..k + 1], p).NoLine?
    ensures ScanLine(w, p).FoundLine? ==> ScanLine(w, p).end == NewLineEnd(w, k, |w|)
    decreases k - p
  {
    hide DetectUnit, NewLineEnd, FirstNl, LineWhole, UnitWhole;
    FirstNlBounds(w, p, k);
    WholeStep(w, p, k);
    UnitOfLine(w, p, k);
    var u := DetectUnit(w, p, |w|);
    if u.term != NlTermination && u.header.kind != Unknown {
      FirstNlLater(w, p, u.pos, k);
      ScanOfLine(w, u.pos, k);
    }
  }

  // ---------- "\r" and "\n" apart or together ----------

  /** A line ended by "\r" has the events of the same line ended by "\r\n". */
  lemma {:induction false} RunOfLine(w: string, p: nat, k: nat, prev: Token, matches: string -> bool)
    requires FirstNl(w, p, k) && LineWhole(w, p, k) && |w| == NewLineEnd(w, k, |w|) && Before(prev, p)
    ensures LineRun(w, p, prev, matches).events == LineRun(w[..k + 1], p, prev, matches).events
    decreases k - p
  {
    hide DetectUnit, NewLineEnd, FirstNl, UnitStep, LineWhole, UnitWhole, SameUpTo;
    FirstNlBounds(w, p, k);
    WholeStep(w, p, k);
    UnitOfLine(w, p, k);
    var l := w[..k + 1];
    var u := DetectUnit(w, p, |w|);
    var v := DetectUnit(l, p, k + 1);
    StepOfLine(w, p, k, prev, matches);
    if u.term != NlTermination {
      var s := UnitStep(w, prev, u, matches);
      StepKeepsRest(w, prev, u, matches);
      SameFirstNl(w, s.mem, p, u.pos, k);
      LineWholeSame(w, s.mem, u.pos, k);
      RunOfLine(s.mem, u.pos, k, s.prev, matches);
      assert s.mem[..k + 1] == UnitStep(l, prev, v, matches).mem;
    }
  }

  lemma {:induction false} StepOfLine(w: string, p: nat, k: nat, prev: Token, matches: string -> bool)
    requires FirstNl(w, p, k) && UnitWhole(w, p, k) && Before(prev, p)
    ensures var u := DetectUnit(w, p, |w|);
            var v := DetectUnit(w[..k + 1], p, k + 1);
            var s := UnitStep(w, prev, u, matches);
            var t := UnitStep(w[..k + 1], prev, v, matches);
            t.events == s.events && t.prev == s.prev && t.mem == s.mem[..k + 1]
  {
    hide DetectUnit, FirstNl, UnitStep, NewLineEnd, UnitWhole;
    FirstNlBounds(w, p, k);
    UnitOfLine(w, p, k);
    DataWithin(w, p, k);
    HeaderWithin(w, p, k);
    StepOfPrefix(w, k + 1, prev, DetectUnit(w, p, |w|), DetectUnit(w[..k + 1], p, k + 1), matches);
  }

  /** What a unit does is the same in any prefix of the memory that holds its tokens. */
  lemma {:induction false} StepOfPrefix(w: string, m: nat, prev: Token, u: Unit, v: Unit, matches: string -> bool)
    requires m <= |w| && v.header == u.header && v.data == u.data
    requires u.header.len > 0 && u.header.kind != Invalid ==>
               Before(prev, u.header.ptr) && u.header.ptr + u.header.len <= m
    requires u.data.len >= 0 && u.data.ptr + u.data.len <= m
    ensures var s := UnitStep(w, prev, u, matches);
            var t := UnitStep(w[..m], prev, v, matches);
            t.events == s.events && t.prev == s.prev && t.mem == s.mem[..m]
  {
    if u.header.kind != Invalid && u.header.len > 0 {
      ComposeOfPrefix(w, m, prev, u.header);
      hide Compose;
      var c := Compose(w, prev, u.header);
      TextOfPrefix(c.mem, m, c.header);
      TextOfPrefix(c.mem, m, u.data);
    }
  }

  lemma TextOfPrefix(w: string, m: nat, t: Token)
    requires 0 <= t.len && t.ptr + t.len <= m <= |w|
    ensures Text(w[..m], t) == Text(w, t)
  {
  }

  lemma HeaderWithin(w: string, p: nat, k: nat)
    requires FirstNl(w, p, k) && UnitWhole(w, p, k)
    ensures var u := DetectUnit(w, p, |w|);
            u.header.kind != Invalid ==> u.header.ptr + u.header.len <= k
  {
    hide UnitBody, NewLineEnd, FirstNl, UnitWhole;
    FirstNlBounds(w, p, k);
    BodyStays(w, p, k, |w|);
  }

  lemma DataWithin(w: string, p: nat, k: nat)
    requires FirstNl(w, p, k) && UnitWhole(w, p, k)
    ensures var u := DetectUnit(w, p, |w|);
            u.data.len >= 0 && u.data.ptr + u.data.len <= k
  {
    hide UnitBody, NewLineEnd, FirstNl, UnitWhole;
    FirstNlBounds(w, p, k);
    BodyStays(w, p, k, |w|);
    DataInUnit(w, p, |w|);
  }

  lemma {:induction false} LastColonOfPrefix(w: string, m: nat, ptr: nat, i: nat)
    requires ptr + i <= m <= |w|
    ensures LastColon(w[..m], ptr, i) == LastColon(w, ptr, i)
    decreases i
  {
    if i > 0 {
      LastColonOfPrefix(w, m, ptr, i - 1);
    }
  }

  lemma MoveOfPrefix(w: string, m: nat, dst: nat, src: nat, n: nat)
    requires dst + n <= m <= |w| && src + n <= m
    ensures MemMove(w[..m], dst, src, n) == MemMove(w, dst, src, n)[..m]
  {
    var l := w[..m];
    assert l[..dst] == w[..dst];
    assert l[src..src + n] == w[src..src + n];
    assert l[dst + n..] == w[dst + n..][..m - (dst + n)];
    var head := w[..dst] + w[src..src + n];
    assert (head + w[dst + n..])[..m] == head + w[dst + n..][..m - (dst + n)];
  }

  lemma ComposeOfPrefix(w: string, m: nat, prev: Token, cur: Token)
    requires Before(prev, cur.ptr) && 0 < cur.len && cur.ptr + cur.len <= m <= |w|
    ensures var c := Compose(w, prev, cur);
            Compose(w[..m], prev, cur) == Composed(c.mem[..m], c.header)
  {
    hide LastColon, MemMove;
    assert w[..m][cur.ptr] == w[cur.ptr];
    if prev.len != 0 {
      assert w[..m][prev.ptr] == w[prev.ptr];
      LastColonOfPrefix(w, m, prev.ptr, prev.len);
      var i := LastColon(w, prev.ptr, prev.len);
      MoveOfPrefix(w, m, cur.ptr - i, prev.ptr, i);
    }
  }

  lemma SameFirstNl(w: string, v: string, p: nat, q: nat, k: nat)
    requires FirstNl(w, p, k) && p <= q <= k && |v| == |w| && v[q..] == w[q..]
    requires |w| == NewLineEnd(w, k, |w|)
    ensures FirstNl(v, q, k) && |v| == NewLineEnd(v, k, |v|) && SameUpTo(w, v, q, k)
  {
    hide IsNl;
    forall i | q <= i < |w| ensures v[i] == w[i] {
      assert v[q..][i - q] == w[q..][i - q];
    }
  }

  // ---------- draining ----------

  lemma NoNlNoLine(w: string)
    requires NlIndex(w) == |w|
    ensures ScanLine(w, 0).NoLine?
  {
    if ScanLine(w, 0).FoundLine? {
      LineEndsInNl(w, 0);
      assert false;
    }
  }

  /** Appending text changes neither whether a line is found nor, except for a "\n" that joins
      a final "\r", where it ends. */
  lemma ScanAppend(b: string, c: string)
    requires WholeText(b + c) && ScanLine(b, 0).FoundLine?
    ensures ScanLine(b + c, 0).FoundLine?
    ensures var t := ScanLine(b, 0).end;
            var u := ScanLine(b + c, 0).end;
            var k := NlIndex(b);
            && FirstNl(b, 0, k) && FirstNl(b + c, 0, k) && LineWhole(b, 0, k)
            && t == NewLineEnd(b, k, |b|) && u == NewLineEnd(b + c, k, |b + c|)
  {
    hide ScanLine, FirstNl, NlIndex, WholeText, NewLineEnd, LineWhole, SameUpTo;
    var k := NlIndex(b);
    if k == |b| {
      NoNlNoLine(b);
      assert false;
    }
    NlIndexAppend(b, c);
    NlIndexFirst(b);
    NlIndexFirst(b + c);
    WholeUnfold(b + c);
    LineWholeSame(b + c, b, 0, k);
    ScanOfLine(b, 0, k);
    ScanOfLine(b + c, 0, k);
    assert (b + c)[..k + 1] == b[..k + 1];
  }

  /** A line terminator alone executes nothing. */
  lemma BareNewLine(matches: string -> bool)
    ensures LineEvents("\n", matches) == []
  {
    hide DetectUnit, LineRun;
    NlUnitAt("\n", 0, 1);
    RunUnfold("\n", 0, NoToken(0), matches);
  }

  lemma DrainNewLineFirst(c: string, matches: string -> bool)
    requires c != "" && c[0] == '\n'
    ensures Drain(c).rest == Drain(c[1..]).rest
    ensures Reactions(Drain(c).lines, matches) == Reactions(Drain(c[1..]).lines, matches)
  {
    hide ScanLine, Drain, Reactions, LineRun, FirstNl, LineWhole;
    NlIsWhole(c);
    assert NewLineEnd(c, 0, |c|) == 1;
    hide NewLineEnd;
    ScanOfLine(c, 0, 0);
    assert c[..1] == "\n";
    BareLineFound();
    DrainFound(c);
    BareNewLine(matches);
    ReactionsCons("\n", Drain(c[1..]).lines, matches);
    assert Noticed([]) + Reactions(Drain(c[1..]).lines, matches) == Reactions(Drain(c[1..]).lines, matches);
  }

  lemma BareLineFound()
    ensures ScanLine("\n", 0).FoundLine?
  {
    hide DetectUnit;
    NlUnitAt("\n", 0, 1);
  }

  // ---------- chunking ----------

  /** Two results that leave the same text behind lines with the same events: by Handlers,
      they also write the same bytes and report the same errors. */
  ghost predicate SameOutcome(a: Drained, b: Drained, matches: string -> bool) {
    a.rest == b.rest && Reactions(a.lines, matches) == Reactions(b.lines, matches)
  }

  /** What is drained when c arrives after b has been drained. */
  function DrainTwice(b: string, c: string): Drained {
    var d := Drain(b);
    var e := Drain(d.rest + c);
    Drained(d.lines + e.lines, e.rest)
  }

  /** Draining b and then c behind what is left is draining b and c at once. */
  lemma {:induction false} DrainSplit(b: string, c: string, matches: string -> bool)
    requires WholeText(b + c)
    ensures SameOutcome(DrainTwice(b, c), Drain(b + c), matches)
    decreases |b|
  {
    hide ScanLine, WholeText, FirstNl, Reactions, Drain, NewLineEnd, IsNl, NlIndex, LineWhole;
    if ScanLine(b, 0).NoLine? {
      DrainNone(b);
      assert [] + Drain(b + c).lines == Drain(b + c).lines;
    } else {
      ScanAppend(b, c);
      DrainFound(b);
      DrainFound(b + c);
      var t, u, k := ScanLine(b, 0).end, ScanLine(b + c, 0).end, NlIndex(b);
      FirstNlBounds(b, 0, k);
      FirstNlIsNl(b, k);
      NewLineAppend(b, c, k);
      NlIndexAppend(b, c);
      WholeUnfold(b + c);
      if u == t {
        assert (b + c)[t..] == b[t..] + c;
        DrainSplit(b[t..], c, matches);
        SplitAtLine(b, c, t, matches);
      } else {
        SplitInsideCrLf(b, c, k, matches);
      }
    }
  }

  lemma FirstNlIsNl(w: string, k: nat)
    requires FirstNl(w, 0, k)
    ensures IsNl(w[k])
  {
  }

  lemma SplitAtLine(b: string, c: string, t: nat, matches: string -> bool)
    requires t <= |b|
    requires SameOutcome(DrainTwice(b[t..], c), Drain(b[t..] + c), matches)
    requires Drain(b) == Drained([b[..t]] + Drain(b[t..]).lines, Drain(b[t..]).rest)
    requires Drain(b + c) == Drained([(b + c)[..t]] + Drain((b + c)[t..]).lines, Drain((b + c)[t..]).rest)
    ensures SameOutcome(DrainTwice(b, c), Drain(b + c), matches)
  {
    hide Reactions, Drain;
    assert (b + c)[t..] == b[t..] + c;
    assert (b + c)[..t] == b[..t];
    var d := Drain(b[t..]);
    var e := Drain(d.rest + c);
    assert [b[..t]] + d.lines + e.lines == [b[..t]] + (d.lines + e.lines);
    ReactionsCons(b[..t], d.lines + e.lines, matches);
    ReactionsCons(b[..t], Drain(b[t..] + c).lines, matches);
  }

  lemma SplitInsideCrLf(b: string, c: string, k: nat, matches: string -> bool)
    requires |b| == k + 1 && FirstNl(b, 0, k) && LineWhole(b, 0, k)
    requires c != "" && c[0] == '\n' && NewLineEnd(b + c, k, |b + c|) == k + 2
    requires Drain(b) == Drained([b[..k + 1]] + Drain(b[k + 1..]).lines, Drain(b[k + 1..]).rest)
    requires Drain(b + c) == Drained([(b + c)[..k + 2]] + Drain((b + c)[k + 2..]).lines, Drain((b + c)[k + 2..]).rest)
    ensures SameOutcome(DrainTwice(b, c), Drain(b + c), matches)
  {
    hide Reactions, Drain, FirstNl, NewLineEnd, LineWhole, LineRun;
    DrainEmpty();
    assert b[k + 1..] == "" && b[..k + 1] == b;
    assert Drain(b) == Drained([b], "");
    assert "" + c == c;
    DrainNewLineFirst(c, matches);
    assert (b + c)[k + 2..] == c[1..];
    var line := (b + c)[..k + 2];
    assert line == b + "\n";
    CrLfEnd(b, c, k);
    LineBothWays(b, k, matches);
    ReactionsCons(b, Drain(c).lines, matches);
    ReactionsCons(line, Drain(c[1..]).lines, matches);
  }

  lemma CrLfEnd(b: string, c: string, k: nat)
    requires |b| == k + 1 && NewLineEnd(b + c, k, |b + c|) == k + 2
    ensures NewLineEnd(b + "\n", k, k + 2) == k + 2
  {
    assert (b + c)[k] == b[k] == (b + "\n")[k];
    assert (b + "\n")[k + 1] == '\n';
  }

  lemma DrainEmpty()
    ensures Drain("") == Drained([], "")
  {
    hide ScanLine;
    NoNlNoLine("");
  }

  lemma LineBothWays(b: string, k: nat, matches: string -> bool)
    requires |b| == k + 1 && FirstNl(b, 0, k) && LineWhole(b, 0, k) && NewLineEnd(b + "\n", k, k + 2) == k + 2
    ensures LineEvents(b + "\n", matches) == LineEvents(b, matches)
  {
    var w := b + "\n";
    assert FirstNl(w, 0, k) && SameUpTo(b, w, 0, k);
    assert w[..k + 1] == b;
    hide FirstNl, NewLineEnd, LineRun, LineWhole, SameUpTo;
    LineWholeSame(b, w, 0, k);
    RunOfLine(w, 0, k, NoToken(0), matches);
  }

  /** One call of SCPI_Input without overrun: an empty one executes the whole buffer. */
  function InputOnce(rest: string, data: string): Drained {
    if data == "" then Drained([rest], "") else Drain(rest + data)
  }

  /** A sequence of calls without overrun: the lines executed and the text kept. */
  function InputAll(rest: string, chunks: seq<string>): Drained
    decreases |chunks|
  {
    if chunks == [] then Drained([], rest)
    else
      var d := InputOnce(rest, chunks[0]);
      var more := InputAll(d.rest, chunks[1..]);
      Drained(d.lines + more.lines, more.rest)
  }

  /** What is kept holds no further line. */
  lemma {:induction false} DrainedAgain(w: string)
    ensures Drain(Drain(w).rest) == Drained([], Drain(w).rest)
    decreases |w|
  {
    hide ScanLine, Drain;
    if ScanLine(w, 0).NoLine? {
      DrainNone(w);
    } else {
      DrainFound(w);
      DrainedAgain(w[ScanLine(w, 0).end..]);
    }
  }

  /** What is kept of a whole text is whole, with what follows it. */
  lemma {:induction false} DrainKeepsWhole(b: string, c: string)
    requires WholeText(b + c)
    ensures WholeText(Drain(b).rest + c)
    decreases |b|
  {
    hide ScanLine, WholeText, FirstNl, Drain, NewLineEnd, IsNl, NlIndex, LineWhole;
    if ScanLine(b, 0).NoLine? {
      DrainNone(b);
    } else {
      ScanAppend(b, c);
      DrainFound(b);
      var t, u, k := ScanLine(b, 0).end, ScanLine(b + c, 0).end, NlIndex(b);
      FirstNlBounds(b, 0, k);
      FirstNlIsNl(b, k);
      NewLineAppend(b, c, k);
      NlIndexAppend(b, c);
      WholeUnfold(b + c);
      if u == t {
        assert (b + c)[t..] == b[t..] + c;
        DrainKeepsWhole(b[t..], c);
      } else {
        DrainEmpty();
        assert b[t..] == "" && "" + c == c && (b + c)[u..] == c[1..];
        WholeBehindNl(c);
      }
    }
  }

  lemma WholeBehindNl(c: string)
    requires c != "" && c[0] == '\n' && WholeText(c[1..])
    ensures WholeText(c)
  {
    assert NewLineEnd(c, 0, |c|) == 1;
    hide WholeText, NewLineEnd, LineWhole, FirstNl, NlIndex;
    NlIsWhole(c);
    WholeUnfold(c);
  }

  /** No call is empty. */
  predicate NonEmptyCalls(chunks: seq<string>) {
    forall i :: 0 <= i < |chunks| ==> chunks[i] != ""
  }

  /** Chunking independence: any way of cutting a stream of whole lines into non-empty calls
      executes the units, and keeps the text, of the one call with the whole stream. */
  lemma {:induction false} ChunkingIrrelevant(rest: string, chunks: seq<string>, matches: string -> bool)
    requires WholeText(rest + Flatten(chunks)) && Drain(rest) == Drained([], rest) && NonEmptyCalls(chunks)
    ensures SameOutcome(InputAll(rest, chunks), Drain(rest + Flatten(chunks)), matches)
    decreases |chunks|
  {
    hide WholeText, Drain, Reactions;
    if chunks == [] {
      assert rest + "" == rest;
    } else {
      var c, tail := chunks[0], chunks[1..];
      var d := Drain(rest + c);
      assert rest + c + Flatten(tail) == rest + Flatten(chunks);
      DrainedAgain(rest + c);
      DrainKeepsWhole(rest + c, Flatten(tail));
      ChunkingIrrelevant(d.rest, tail, matches);
      DrainSplit(rest + c, Flatten(tail), matches);
      ReactionsJoin(d.lines, InputAll(d.rest, tail).lines, matches);
      ReactionsJoin(d.lines, Drain(d.rest + Flatten(tail)).lines, matches);
    }
  }

  /** Two ways of cutting the same stream execute the same units. */
  lemma {:induction false} SameStreamSameUnits(a: seq<string>, b: seq<string>, matches: string -> bool)
    requires Flatten(a) == Flatten(b) && WholeText(Flatten(a)) && NonEmptyCalls(a) && NonEmptyCalls(b)
    ensures SameOutcome(InputAll("", a), InputAll("", b), matches)
  {
    hide WholeText, NonEmptyCalls, Drain, Reactions, InputAll;
    DrainEmpty();
    assert "" + Flatten(a) == Flatten(a);
    ChunkingIrrelevant("", a, matches);
    ChunkingIrrelevant("", b, matches);
  }
}
