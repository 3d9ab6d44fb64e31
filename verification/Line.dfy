/** What SCPI_Input and SCPI_Parse make of buffered text (Utilities/Scpi/Src/parser.c): the
    units each of them cuts, the header composition of utils.c, the events of a line, and the
    lines drained from a buffer. */
module Line {
  import opened Lexer
  import opened LexerLaws
  import opened Framing
  import opened FramingLaws

  // ---------- the two scans ----------

  /** The units the loop of SCPI_Parse cuts from p on: at least one, until the end. */
  function ParseUnits(w: string, p: nat, e: nat): (r: seq<Unit>)
    requires p <= e <= |w|
    ensures |r| > 0
    decreases e - p
  {
    var u := DetectUnit(w, p, e);
    if u.pos < e then [u] + ParseUnits(w, u.pos, e) else [u]
  }

  /** The scan of SCPI_Input over the whole buffer: the units up to the first one that ends
      with a new line, or no line because an empty unit or the end of the buffer stops it. */
  datatype Scan = NoLine | FoundLine(units: seq<Unit>, end: nat)

  function ScanLine(w: string, p: nat): (r: Scan)
    requires p <= |w|
    ensures r.FoundLine? ==> p <= r.end <= |w| && |r.units| > 0
    decreases |w| - p
  {
    var u := DetectUnit(w, p, |w|);
    if u.term == NlTermination then FoundLine([u], u.pos)
    else if u.header.kind == Unknown || u.pos >= |w| then NoLine
    else
      match ScanLine(w, u.pos)
      case NoLine => NoLine
      case FoundLine(us, end) => FoundLine([u] + us, end)
  }

  lemma NlUnit(w: string, p: nat, e: nat)
    requires p <= e <= |w| && DetectUnit(w, p, e).term == NlTermination
    ensures p < DetectUnit(w, p, e).pos && IsNl(w[DetectUnit(w, p, e).pos - 1])
  {
    hide UnitBody;
  }

  /** A line found by the scan ends in a line terminator. */
  lemma {:induction false} LineEndsInNl(w: string, p: nat)
    requires p <= |w| && ScanLine(w, p).FoundLine?
    ensures var t := ScanLine(w, p).end; p < t && IsNl(w[t - 1])
    decreases |w| - p
  {
    hide DetectUnit, IsNl;
    var u := DetectUnit(w, p, |w|);
    if u.term == NlTermination {
      NlUnit(w, p, |w|);
    } else {
      LineEndsInNl(w, u.pos);
    }
  }

  lemma {:induction false} ParseRepeatsScan(w: string, p: nat)
    requires p <= |w| && ScanLine(w, p).FoundLine?
    ensures var s := ScanLine(w, p);
            ParseUnits(w[..s.end], p, s.end) == s.units
    decreases |w| - p
  {
    hide DetectUnit, IsNl;
    var s := ScanLine(w, p);
    var u := DetectUnit(w, p, |w|);
    LineEndsInNl(w, p);
    UnitOfPrefix(w, p, s.end);
    if u.term != NlTermination {
      LineEndsInNl(w, u.pos);
      ParseRepeatsScan(w, u.pos);
    }
  }

  lemma UnitOfPrefix(w: string, p: nat, t: nat)
    requires p <= t <= |w| && 0 < t && IsNl(w[t - 1]) && DetectUnit(w, p, |w|).pos <= t
    ensures DetectUnit(w[..t], p, t) == DetectUnit(w, p, |w|)
  {
    hide DetectUnit, IsNl;
    var fr := Frame(w, |w|, w[..t], 0, t);
    assert Fits(fr, p);
    assert Clean(fr);
    hide Fits, Clean;
    UnitCut(fr, p);
    assert MoveUnit(DetectUnit(w, p, |w|), 0) == DetectUnit(w, p, |w|);
  }

  /** Look-ahead locality: the line SCPI_Input finds by scanning the whole buffer is cut by
      SCPI_Parse, which sees the line alone, into exactly the same units. */
  lemma {:induction false} LookaheadIsLocal(w: string)
    requires ScanLine(w, 0).FoundLine?
    ensures var s := ScanLine(w, 0);
            ParseUnits(w[..s.end], 0, s.end) == s.units
  {
    ParseRepeatsScan(w, 0);
  }

  // ---------- conservation ----------

  /** What SCPI_Input executes from a buffer, line by line, and what it keeps. */
  datatype Drained = Drained(lines: seq<string>, rest: string)

  function Drain(w: string): (r: Drained)
    decreases |w|
  {
    match ScanLine(w, 0)
    case NoLine => Drained([], w)
    case FoundLine(_, end) =>
      LineEndsInNl(w, 0);
      var more := Drain(w[end..]);
      Drained([w[..end]] + more.lines, more.rest)
  }

  function Flatten(lines: seq<string>): string
    decreases |lines|
  {
    if lines == [] then "" else lines[0] + Flatten(lines[1..])
  }

  /** No byte is lost, invented or reordered: the lines executed, followed by what stays in
      the buffer, are the buffer. */
  lemma {:induction false} DrainConserves(w: string)
    ensures Flatten(Drain(w).lines) + Drain(w).rest == w
    decreases |w|
  {
    hide ScanLine;
    if ScanLine(w, 0).FoundLine? {
      var end := ScanLine(w, 0).end;
      LineEndsInNl(w, 0);
      DrainConserves(w[end..]);
      var more := Drain(w[end..]);
      assert ([w[..end]] + more.lines)[1..] == more.lines;
      assert w[..end] + (Flatten(more.lines) + more.rest) == w[..end] + Flatten(more.lines) + more.rest;
      assert w == w[..end] + w[end..];
    }
  }

  // ---------- header composition ----------

  /** The length of the prefix of a header token up to and including its last colon. */
  function LastColon(mem: string, ptr: nat, i: nat): (r: nat)
    requires ptr + i <= |mem|
    ensures r <= i
    ensures r > 0 ==> mem[ptr + r - 1] == ':'
    ensures forall k :: ptr + r <= k < ptr + i ==> mem[k] != ':'
    decreases i
  {
    if i == 0 then 0 else if mem[ptr + i - 1] == ':' then i else LastColon(mem, ptr, i - 1)
  }

  /** The previous header lies in the line, in front of position p. */
  ghost predicate Before(prev: Token, p: nat) {
    prev.len >= 0 && prev.ptr + prev.len <= p
  }

  function MemMove(mem: string, dst: nat, src: nat, n: nat): (r: string)
    requires dst + n <= |mem| && src + n <= |mem|
    ensures |r| == |mem|
  {
    mem[..dst] + mem[src..src + n] + mem[dst + n..]
  }

  datatype Composed = Composed(mem: string, header: Token)

  /** composeCompoundCommand: the path of the previous header is copied to the bytes in front
      of the current one, which then starts earlier. */
  function Compose(mem: string, prev: Token, cur: Token): (r: Composed)
    requires Before(prev, cur.ptr) && 0 < cur.len && cur.ptr + cur.len <= |mem|
    ensures |r.mem| == |mem| && r.mem[cur.ptr..] == mem[cur.ptr..]
    ensures r.header.ptr + r.header.len == cur.ptr + cur.len
    ensures r.header.ptr <= cur.ptr && r.header.kind == cur.kind
    ensures prev.len > 0 ==> prev.ptr <= r.header.ptr
  {
    if !Extends(mem, prev, cur) then Composed(mem, cur)
    else
      var i := LastColon(mem, prev.ptr, prev.len);
      Composed(MemMove(mem, cur.ptr - i, prev.ptr, i), Token(cur.kind, cur.ptr - i, cur.len + i))
  }

  /** A header is relative if there is one before it, neither is a common command, and it does
      not start at the root itself. */
  predicate Extends(mem: string, prev: Token, cur: Token)
    requires prev.len != 0 ==> prev.ptr < |mem|
    requires cur.ptr < |mem|
  {
    prev.len != 0 && mem[cur.ptr] != '*' && mem[cur.ptr] != ':' && mem[prev.ptr] != '*'
  }

  /** The path that the previous header leaves for the next one. */
  function Path(mem: string, prev: Token): string
    requires prev.len >= 0 && prev.ptr + prev.len <= |mem|
  {
    mem[prev.ptr..prev.ptr + LastColon(mem, prev.ptr, prev.len)]
  }

  /** A relative header becomes the path of the previous one followed by itself, although the
      bytes copied may overlap. */
  lemma ComposedText(mem: string, prev: Token, cur: Token)
    requires Before(prev, cur.ptr) && 0 < cur.len && cur.ptr + cur.len <= |mem|
    requires Extends(mem, prev, cur)
    ensures var c := Compose(mem, prev, cur);
            Text(c.mem, c.header) == Path(mem, prev) + Text(mem, cur)
  {
    hide LastColon, MemMove;
    var i := LastColon(mem, prev.ptr, prev.len);
    MovedIn(mem, cur.ptr - i, prev.ptr, i, cur.len);
  }

  lemma MovedIn(mem: string, dst: nat, src: nat, n: nat, len: nat)
    requires dst + n + len <= |mem| && src + n <= |mem|
    ensures MemMove(mem, dst, src, n)[dst..dst + n + len] == mem[src..src + n] + mem[dst + n..dst + n + len]
  {
    var a, b, c := mem[..dst], mem[src..src + n], mem[dst + n..];
    assert (a + b + c)[dst..dst + n] == b;
    assert (a + b + c)[dst + n..dst + n + len] == c[..len] == mem[dst + n..dst + n + len];
    assert (a + b + c)[dst..dst + n + len] == (a + b + c)[dst..dst + n] + (a + b + c)[dst + n..dst + n + len];
  }

  /** A block copied onto itself d places further on. */
  lemma MovedOver(mem: string, src: nat, n: nat, d: nat)
    requires src + d + n <= |mem|
    ensures var path := mem[src..src + n];
            MemMove(mem, src + d, src, n)[src..src + n] == if d >= n then path else path[..d] + path[..n - d]
  {
    hide MemMove;
    var now := MemMove(mem, src + d, src, n);
    var path := mem[src..src + n];
    var expected := if d >= n then path else path[..d] + path[..n - d];
    forall k | 0 <= k < n ensures now[src + k] == expected[k] {
      MovedBehind(mem, src, n, d, src + k);
    }
  }

  lemma Periodic(path: string, d: nat)
    requires d <= |path|
    ensures path[..d] + path[..|path| - d] == path <==> path[d..] == path[..|path| - d]
  {
    var now := path[..d] + path[..|path| - d];
    assert path == path[..d] + path[d..];
    assert now[d..] == path[..|path| - d];
  }

  lemma ComposeIs(mem: string, prev: Token, cur: Token)
    requires Before(prev, cur.ptr) && 0 < cur.len && cur.ptr + cur.len <= |mem|
    requires Extends(mem, prev, cur)
    ensures var n := |Path(mem, prev)|;
            && n <= prev.len && mem[prev.ptr..prev.ptr + n] == Path(mem, prev)
            && Compose(mem, prev, cur).mem == MemMove(mem, cur.ptr - n, prev.ptr, n)
  {
    hide LastColon, MemMove;
  }

  lemma {:induction false} LastColonIs(mem: string, ptr: nat, i: nat, r: nat)
    requires r <= i && ptr + i <= |mem|
    requires r > 0 ==> mem[ptr + r - 1] == ':'
    requires forall k :: ptr + r <= k < ptr + i ==> mem[k] != ':'
    ensures LastColon(mem, ptr, i) == r
    decreases i
  {
    if i > r {
      assert mem[ptr + i - 1] != ':';
      LastColonIs(mem, ptr, i - 1, r);
    }
  }

  /** No colon stands in a header behind its first n characters. */
  ghost predicate NoColonBehind(mem: string, t: Token, n: nat)
    requires t.len >= 0 && t.ptr + t.len <= |mem|
  {
    forall k :: t.ptr + n <= k < t.ptr + t.len ==> mem[k] != ':'
  }

  /** A header has this path if it starts with it and no colon follows. */
  lemma {:induction false} PathIs(mem: string, now: string, prev: Token)
    requires prev.len >= 0 && prev.ptr + prev.len <= |mem| == |now|
    ensures var n := |Path(mem, prev)|;
            && n <= prev.len
            && (Path(now, prev) == Path(mem, prev)
                <==> now[prev.ptr..prev.ptr + n] == Path(mem, prev) && NoColonBehind(now, prev, n))
  {
    hide LastColon;
    var path := Path(mem, prev);
    var n := |path|;
    if now[prev.ptr..prev.ptr + n] == path && NoColonBehind(now, prev, n) {
      if n > 0 {
        assert path[n - 1] == mem[prev.ptr + n - 1] == ':';
        assert now[prev.ptr..prev.ptr + n][n - 1] == now[prev.ptr + n - 1];
      }
      LastColonIs(now, prev.ptr, prev.len, n);
    }
    if Path(now, prev) == path {
      assert LastColon(now, prev.ptr, prev.len) == n;
    }
  }

  /** The copy of a path, d places behind the path itself, leaves a header of the given length
      its path: it does not run into it, or the path repeats itself at that distance, and it
      brings no colon into the rest of the header. */
  predicate Harmless(path: string, d: nat, len: nat) {
    && (d >= |path| || path[d..] == path[..|path| - d])
    && forall k :: 0 <= k < |path| && |path| <= d + k < len ==> path[k] != ':'
  }

  lemma MovedBehind(mem: string, src: nat, n: nat, d: nat, k: nat)
    requires src + d + n <= |mem| && k < |mem|
    ensures MemMove(mem, src + d, src, n)[k] == if src + d <= k < src + d + n then mem[k - d] else mem[k]
  {
  }

  lemma ColonsCopied(mem: string, prev: Token, d: nat)
    requires prev.len >= 0 && prev.ptr + prev.len <= |mem|
    requires prev.len <= d + |Path(mem, prev)| && prev.ptr + d + |Path(mem, prev)| <= |mem|
    ensures var path := Path(mem, prev);
            NoColonBehind(MemMove(mem, prev.ptr + d, prev.ptr, |path|), prev, |path|)
            <==> forall k :: 0 <= k < |path| && |path| <= d + k < prev.len ==> path[k] != ':'
  {
    hide MemMove;
    var path := Path(mem, prev);
    var n := |path|;
    var now := MemMove(mem, prev.ptr + d, prev.ptr, n);
    if NoColonBehind(now, prev, n) {
      forall k | 0 <= k < n && n <= d + k < prev.len ensures path[k] != ':' {
        MovedBehind(mem, prev.ptr, n, d, prev.ptr + d + k);
        assert now[prev.ptr + d + k] != ':';
      }
    }
    if forall k :: 0 <= k < n && n <= d + k < prev.len ==> path[k] != ':' {
      forall j | prev.ptr + n <= j < prev.ptr + prev.len ensures now[j] != ':' {
        MovedBehind(mem, prev.ptr, n, d, j);
        if j >= prev.ptr + d {
          assert path[j - d - prev.ptr] != ':';
        }
      }
    }
  }

  /** Whether the next header is still resolved under the path of the previous one when this one
      has been extended and not found: exactly when the copy was harmless. */
  lemma {:induction false} PathSurvives(mem: string, prev: Token, cur: Token)
    requires Before(prev, cur.ptr) && 0 < cur.len && cur.ptr + cur.len <= |mem|
    requires Extends(mem, prev, cur)
    ensures var path := Path(mem, prev);
            var d := cur.ptr - |path| - prev.ptr;
            && d >= 0
            && (Path(Compose(mem, prev, cur).mem, prev) == path <==> Harmless(path, d, prev.len))
  {
    hide Compose, Path, MemMove, NoColonBehind;
    ComposeIs(mem, prev, cur);
    var path := Path(mem, prev);
    var d := cur.ptr - |path| - prev.ptr;
    PathIs(mem, Compose(mem, prev, cur).mem, prev);
    ColonsCopied(mem, prev, d);
    MovedOver(mem, prev.ptr, |path|, d);
    if d < |path| {
      Periodic(path, d);
    }
  }

  // ---------- the events of a line ----------

  /** What one unit makes SCPI_Parse do, if anything. */
  datatype Event =
    | InvalidCharacter
    | UndefinedHeader(header: string)
    | Command(header: string, data: string)

  function Text(mem: string, t: Token): string
    requires 0 <= t.len && t.ptr + t.len <= |mem|
  {
    mem[t.ptr..t.ptr + t.len]
  }

  /** The part of a data token that lies in the memory. */
  function DataText(mem: string, t: Token): string {
    if 0 <= t.len && t.ptr + t.len <= |mem| then Text(mem, t) else ""
  }

  /** The effect of one unit: memory and previous header for the next one, and its events. */
  datatype Step = Step(mem: string, prev: Token, events: seq<Event>)

  function UnitStep(mem: string, prev: Token, u: Unit, matches: string -> bool): (r: Step)
    requires u.header.len > 0 && u.header.kind != Invalid ==>
               Before(prev, u.header.ptr) && u.header.ptr + u.header.len <= |mem|
    ensures |r.mem| == |mem|
    ensures r.prev == prev || (u.header.len > 0 && r.prev.len > 0 && TokenEnd(r.prev) == TokenEnd(u.header)
            && u.header.kind != Invalid)
  {
    if u.header.kind == Invalid then Step(mem, prev, [InvalidCharacter])
    else if u.header.len > 0 then
      var c := Compose(mem, prev, u.header);
      var text := Text(c.mem, c.header);
      if matches(text) then Step(c.mem, c.header, [Command(text, DataText(c.mem, u.data))])
      else Step(c.mem, prev, [UndefinedHeader(text)])
    else Step(mem, prev, [])
  }

  /** The run of SCPI_Parse over a line: the units cut, their events, the final memory. */
  datatype Run = Run(units: seq<Unit>, events: seq<Event>, mem: string)

  function LineRun(mem: string, p: nat, prev: Token, matches: string -> bool): (r: Run)
    requires p <= |mem| && Before(prev, p)
    ensures |r.mem| == |mem|
    decreases |mem| - p
  {
    var u := DetectUnit(mem, p, |mem|);
    var s := UnitStep(mem, prev, u, matches);
    if u.pos < |mem| then
      var more := LineRun(s.mem, u.pos, s.prev, matches);
      Run([u] + more.units, s.events + more.events, more.mem)
    else Run([u], s.events, s.mem)
  }

  function LineEvents(line: string, matches: string -> bool): seq<Event> {
    LineRun(line, 0, NoToken(0), matches).events
  }

  function Events(lines: seq<string>, matches: string -> bool): seq<Event>
    decreases |lines|
  {
    if lines == [] then [] else LineEvents(lines[0], matches) + Events(lines[1..], matches)
  }

  /** The events of each line that has any: what can be noticed of a sequence of lines. */
  function Reactions(lines: seq<string>, matches: string -> bool): seq<seq<Event>>
    decreases |lines|
  {
    if lines == [] then []
    else Noticed(LineEvents(lines[0], matches)) + Reactions(lines[1..], matches)
  }

  function Noticed(events: seq<Event>): seq<seq<Event>> {
    if events == [] then [] else [events]
  }

  lemma RunUnfold(mem: string, p: nat, prev: Token, matches: string -> bool)
    requires p <= |mem| && Before(prev, p)
    ensures var u := DetectUnit(mem, p, |mem|);
            var s := UnitStep(mem, prev, u, matches);
            && Before(s.prev, u.pos)
            && LineRun(mem, p, prev, matches).events
               == s.events + (if u.pos < |mem| then LineRun(s.mem, u.pos, s.prev, matches).events else [])
  {
    hide DetectUnit, UnitStep;
    StepKeepsRest(mem, prev, DetectUnit(mem, p, |mem|), matches);
  }

  /** Composition rewrites only bytes in front of the header it is given, so SCPI_Parse cuts
      the units of the line it was handed however many headers it has extended. */
  lemma {:induction false} CompositionIsHarmless(mem: string, w: string, p: nat, prev: Token, matches: string -> bool)
    requires p <= |mem| == |w| && Before(prev, p) && mem[p..] == w[p..]
    ensures LineRun(mem, p, prev, matches).units == ParseUnits(w, p, |w|)
    decreases |mem| - p
  {
    hide DetectUnit, UnitStep;
    var u := DetectUnit(mem, p, |mem|);
    SameWindow(w, mem, p);
    StepKeepsRest(mem, prev, u, matches);
    var s := UnitStep(mem, prev, u, matches);
    if u.pos < |mem| {
      assert s.mem[u.pos..] == w[u.pos..] by {
        assert mem[p..][u.pos - p..] == mem[u.pos..];
        assert w[p..][u.pos - p..] == w[u.pos..];
      }
      CompositionIsHarmless(s.mem, w, u.pos, s.prev, matches);
    }
  }

  lemma SameWindow(w: string, v: string, p: nat)
    requires p <= |w| == |v| && w[p..] == v[p..]
    ensures DetectUnit(v, p, |v|) == DetectUnit(w, p, |w|)
  {
    hide DetectUnit, IsNl;
    var fr := Frame(w, |w|, v, 0, |w|);
    assert Fits(fr, p) by {
      forall i | p <= i < |w| ensures v[i] == w[i] {
        assert w[p..][i - p] == v[p..][i - p];
      }
    }
    assert Clean(fr);
    hide Fits, Clean;
    UnitCut(fr, p);
    assert MoveUnit(DetectUnit(w, p, |w|), 0) == DetectUnit(w, p, |w|);
  }

  lemma StepKeepsRest(mem: string, prev: Token, u: Unit, matches: string -> bool)
    requires u.header.len > 0 && u.header.kind != Invalid ==>
               Before(prev, u.header.ptr) && u.header.ptr + u.header.len <= u.pos
    requires Before(prev, u.pos) && u.header.len >= 0 && u.header.ptr <= u.pos <= |mem|
    ensures var s := UnitStep(mem, prev, u, matches);
            s.mem[u.pos..] == mem[u.pos..] && Before(s.prev, u.pos)
  {
    if u.header.kind != Invalid && u.header.len > 0 {
      var c := Compose(mem, prev, u.header);
      assert c.mem[u.header.ptr..][u.pos - u.header.ptr..] == c.mem[u.pos..];
      assert mem[u.header.ptr..][u.pos - u.header.ptr..] == mem[u.pos..];
      hide Compose;
    }
  }

  // ---------- unfolding the scan and the drain ----------

  lemma DrainNone(w: string)
    requires ScanLine(w, 0).NoLine?
    ensures Drain(w) == Drained([], w)
  {
    hide ScanLine;
  }

  lemma DrainFound(w: string)
    requires ScanLine(w, 0).FoundLine?
    ensures var t := ScanLine(w, 0).end;
            0 < t && Drain(w) == Drained([w[..t]] + Drain(w[t..]).lines, Drain(w[t..]).rest)
  {
    hide ScanLine;
    LineEndsInNl(w, 0);
  }

  lemma ReactionsCons(line: string, lines: seq<string>, matches: string -> bool)
    ensures Reactions([line] + lines, matches) == Noticed(LineEvents(line, matches)) + Reactions(lines, matches)
  {
    assert ([line] + lines)[1..] == lines;
    hide LineEvents;
  }

  lemma {:induction false} ReactionsJoin(a: seq<string>, b: seq<string>, matches: string -> bool)
    ensures Reactions(a + b, matches) == Reactions(a, matches) + Reactions(b, matches)
    decreases |a|
  {
    hide LineEvents, Noticed;
    if a == [] {
      assert a + b == b;
    } else {
      assert (a + b)[1..] == a[1..] + b;
      ReactionsJoin(a[1..], b, matches);
    }
  }

  function Concatenated(reactions: seq<seq<Event>>): seq<Event>
    decreases |reactions|
  {
    if reactions == [] then [] else reactions[0] + Concatenated(reactions[1..])
  }

  lemma {:induction false} EventsOfReactions(lines: seq<string>, matches: string -> bool)
    ensures Events(lines, matches) == Concatenated(Reactions(lines, matches))
    decreases |lines|
  {
    hide LineEvents;
    if lines != [] {
      EventsOfReactions(lines[1..], matches);
      var e, rest := LineEvents(lines[0], matches), Reactions(lines[1..], matches);
      if e != [] {
        assert ([e] + rest)[1..] == rest;
      } else {
        assert [] + rest == rest;
      }
    }
  }

  lemma {:induction false} EventsJoin(a: seq<string>, b: seq<string>, matches: string -> bool)
    ensures Events(a + b, matches) == Events(a, matches) + Events(b, matches)
    decreases |a|
  {
    hide LineEvents;
    if a == [] {
      assert a + b == b;
    } else {
      assert (a + b)[1..] == a[1..] + b;
      EventsJoin(a[1..], b, matches);
    }
  }

  /** The scan from t finds what the scan from the beginning finds. */
  ghost predicate SameScan(w: string, t: nat) {
    && t <= |w|
    && ScanLine(w, 0).FoundLine? == ScanLine(w, t).FoundLine?
    && (ScanLine(w, t).FoundLine? ==> ScanLine(w, t).end == ScanLine(w, 0).end)
  }

  lemma ScanUnfold(w: string, t: nat)
    requires SameScan(w, t)
    ensures var u := DetectUnit(w, t, |w|);
            if u.term == NlTermination then ScanLine(w, 0).FoundLine? && ScanLine(w, 0).end == u.pos
            else if u.header.kind == Unknown || u.pos >= |w| then ScanLine(w, 0).NoLine?
            else SameScan(w, u.pos) && t < u.pos
  {
    hide DetectUnit;
  }

  lemma DrainNext(w: string, done: seq<string>)
    requires ScanLine(w, 0).FoundLine?
    ensures var t := ScanLine(w, 0).end;
            && 0 < t <= |w|
            && done + Drain(w).lines == (done + [w[..t]]) + Drain(w[t..]).lines && Drain(w).rest == Drain(w[t..]).rest
  {
    hide ScanLine, Drain;
    DrainFound(w);
    var t := ScanLine(w, 0).end;
    assert done + ([w[..t]] + Drain(w[t..]).lines) == (done + [w[..t]]) + Drain(w[t..]).lines;
  }

  lemma ScanStart(w: string)
    ensures SameScan(w, 0)
  {
  }
}
