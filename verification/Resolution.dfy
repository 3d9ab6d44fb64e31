/** Which headers a line names: each relative header stands for the path of the one before it
    followed by itself. SCPI_Parse (Utilities/Scpi/Src/parser.c, lines 195-229), which extends the
    headers in place, looks up these if all of them are defined. */
module Resolution {
  import opened Lexer
  import opened Framing
  import opened Line

  // ---------- the headers a line names ----------

  /** A header behind another one, or behind none. */
  function Resolve(prev: string, header: string): string {
    if prev == "" || header == "" || header[0] == '*' || header[0] == ':' || prev[0] == '*' then header
    else prev[..LastColon(prev, 0, |prev|)] + header
  }

  /** What the units of a line call for behind the header prev, the line being left alone. */
  function Named(line: string, units: seq<Unit>, prev: string): seq<Event>
    decreases |units|
  {
    if units == [] then []
    else
      var u := units[0];
      if u.header.kind == Invalid then [InvalidCharacter] + Named(line, units[1..], prev)
      else if u.header.len > 0 then
        var header := Resolve(prev, DataText(line, u.header));
        [Command(header, DataText(line, u.data))] + Named(line, units[1..], header)
      else Named(line, units[1..], prev)
  }

  predicate AllFound(events: seq<Event>)
    decreases |events|
  {
    events != [] ==> !events[0].UndefinedHeader? && AllFound(events[1..])
  }

  predicate AllDefined(events: seq<Event>, matches: string -> bool)
    decreases |events|
  {
    events != [] ==> (events[0].Command? ==> matches(events[0].header)) && AllDefined(events[1..], matches)
  }

  /** A relative header stands for the path of the one before it, which ends in the last colon,
      followed by itself. */
  lemma RelativeHeader(path: string, name: string, header: string)
    requires (path == "" || path[|path| - 1] == ':') && ':' !in name && path + name != "" && (path + name)[0] != '*'
    requires header != "" && header[0] != '*' && header[0] != ':'
    ensures Resolve(path + name, header) == path + header
  {
    var prev := path + name;
    assert forall i :: |path| <= i < |prev| ==> prev[i] == name[i - |path|];
    assert path != "" ==> prev[|path| - 1] == ':';
    assert prev[..|path|] == path;
  }

  /** Any other header stands for itself. */
  lemma AbsoluteHeader(prev: string, header: string)
    requires header != "" && (prev == "" || header[0] == '*' || header[0] == ':' || prev[0] == '*')
    ensures Resolve(prev, header) == header
  {
  }

  // ---------- one unit ----------

  lemma {:induction false} ColonInText(mem: string, ptr: nat, len: nat, i: nat)
    requires i <= len && ptr + len <= |mem|
    ensures LastColon(mem[ptr..ptr + len], 0, i) == LastColon(mem, ptr, i)
    decreases i
  {
    if i > 0 {
      assert mem[ptr..ptr + len][i - 1] == mem[ptr + i - 1];
      ColonInText(mem, ptr, len, i - 1);
    }
  }

  /** The text of the header before, if there is one. */
  function HeaderBefore(mem: string, prev: Token): string
    requires prev.len >= 0 && prev.ptr + prev.len <= |mem|
  {
    if prev.len == 0 then "" else Text(mem, prev)
  }

  lemma ComposedIsResolved(mem: string, prev: Token, cur: Token)
    requires Before(prev, cur.ptr) && 0 < cur.len && cur.ptr + cur.len <= |mem|
    ensures var c := Compose(mem, prev, cur);
            Text(c.mem, c.header) == Resolve(HeaderBefore(mem, prev), Text(mem, cur))
  {
    hide Path, Compose, Resolve, Text, HeaderBefore;
    ResolveIs(mem, prev, cur);
    NotExtended(mem, prev, cur);
    if Extends(mem, prev, cur) {
      ComposedText(mem, prev, cur);
    }
  }

  lemma ResolveIs(mem: string, prev: Token, cur: Token)
    requires Before(prev, cur.ptr) && 0 < cur.len && cur.ptr + cur.len <= |mem|
    ensures Resolve(HeaderBefore(mem, prev), Text(mem, cur))
         == if Extends(mem, prev, cur) then Path(mem, prev) + Text(mem, cur) else Text(mem, cur)
  {
    hide LastColon;
    assert Text(mem, cur)[0] == mem[cur.ptr];
    if prev.len > 0 {
      var before := Text(mem, prev);
      assert before[0] == mem[prev.ptr];
      ColonInText(mem, prev.ptr, prev.len, prev.len);
      var i := LastColon(mem, prev.ptr, prev.len);
      assert before[..i] == mem[prev.ptr..prev.ptr + i];
    }
  }

  lemma NotExtended(mem: string, prev: Token, cur: Token)
    requires Before(prev, cur.ptr) && 0 < cur.len && cur.ptr + cur.len <= |mem|
    ensures !Extends(mem, prev, cur) ==> Compose(mem, prev, cur) == Composed(mem, cur)
  {
    hide LastColon, MemMove;
  }

  lemma DataBehindHeader(w: string, p: nat, e: nat)
    requires p <= e <= |w|
    ensures var u := DetectUnit(w, p, e);
            u.header.kind != Invalid ==> u.header.ptr >= p && TokenEnd(u.header) <= u.data.ptr
  {
    hide Header, Span, DataPart, NewLineEnd, Skip;
    HeaderEnds(w, Span(w, p, e, Ws), e);
  }

  lemma HeaderEnds(w: string, p: nat, e: nat)
    requires p <= e <= |w|
    ensures TokenEnd(Header(w, p, e).token) <= Header(w, p, e).pos
  {
    hide CommonSkip, CompoundSkip, QueryOr;
  }

  lemma SameData(mem: string, line: string, p: nat, t: Token)
    requires |mem| == |line| && p <= t.ptr && p <= |mem| && mem[p..] == line[p..]
    ensures DataText(mem, t) == DataText(line, t)
  {
    if 0 <= t.len && t.ptr + t.len <= |mem| {
      assert mem[p..][t.ptr - p..t.ptr - p + t.len] == mem[t.ptr..t.ptr + t.len];
      assert line[p..][t.ptr - p..t.ptr - p + t.len] == line[t.ptr..t.ptr + t.len];
    }
  }

  /** A unit with a header does what its resolved header calls for. */
  lemma CommandOfUnit(mem: string, line: string, p: nat, prev: Token, u: Unit, matches: string -> bool)
    requires p <= |mem| == |line| && Before(prev, p) && mem[p..] == line[p..]
    requires u.header.kind != Invalid && u.header.len > 0 && p <= u.header.ptr
    requires TokenEnd(u.header) <= |mem| && TokenEnd(u.header) <= u.data.ptr
    ensures var s := UnitStep(mem, prev, u, matches);
            var header := Resolve(HeaderBefore(mem, prev), DataText(line, u.header));
            if matches(header) then
              && s.events == [Command(header, DataText(line, u.data))]
              && s.prev.len > 0 && s.prev.ptr + s.prev.len <= |s.mem| && HeaderBefore(s.mem, s.prev) == header
            else s.events == [UndefinedHeader(header)]
  {
    hide Compose, Resolve, LastColon;
    var c := Compose(mem, prev, u.header);
    ComposedIsResolved(mem, prev, u.header);
    SameData(mem, line, p, u.header);
    SameData(c.mem, mem, u.header.ptr, u.data);
    SameData(mem, line, p, u.data);
  }

  // ---------- a line ----------

  lemma NamedUnfold(line: string, u: Unit, rest: seq<Unit>, prev: string)
    ensures Named(line, [u] + rest, prev)
         == if u.header.kind == Invalid then [InvalidCharacter] + Named(line, rest, prev)
            else if u.header.len > 0 then
              var header := Resolve(prev, DataText(line, u.header));
              [Command(header, DataText(line, u.data))] + Named(line, rest, header)
            else Named(line, rest, prev)
    ensures Named(line, [], prev) == []
  {
    hide Resolve, DataText;
    assert ([u] + rest)[1..] == rest;
  }

  lemma DefinedCons(e: Event, rest: seq<Event>, matches: string -> bool)
    ensures AllDefined([e] + rest, matches) <==> (e.Command? ==> matches(e.header)) && AllDefined(rest, matches)
    ensures AllFound([e] + rest) <==> !e.UndefinedHeader? && AllFound(rest)
    ensures AllFound([]) && AllDefined([], matches)
  {
    assert ([e] + rest)[1..] == rest;
  }

  lemma {:induction false} RunNames(mem: string, line: string, p: nat, prev: Token, matches: string -> bool)
    requires p <= |mem| == |line| && Before(prev, p) && mem[p..] == line[p..]
    ensures var events := LineRun(mem, p, prev, matches).events;
            var named := Named(line, ParseUnits(line, p, |line|), HeaderBefore(mem, prev));
            && (AllFound(events) <==> AllDefined(named, matches))
            && (AllFound(events) ==> events == named)
    decreases |mem| - p
  {
    hide DetectUnit, UnitStep, LineRun, Named, AllFound, AllDefined, Resolve;
    var u := DetectUnit(mem, p, |mem|);
    var s := UnitStep(mem, prev, u, matches);
    var before := HeaderBefore(mem, prev);
    SameWindow(line, mem, p);
    RunUnfold(mem, p, prev, matches);
    StepKeepsRest(mem, prev, u, matches);
    DataBehindHeader(mem, p, |mem|);
    var rest := if u.pos < |mem| then ParseUnits(line, u.pos, |line|) else [];
    assert ParseUnits(line, p, |line|) == [u] + rest;
    NamedUnfold(line, u, rest, before);
    NamedUnfold(line, u, [], HeaderBefore(s.mem, s.prev));
    var more := if u.pos < |mem| then LineRun(s.mem, u.pos, s.prev, matches).events else [];
    if u.pos < |mem| {
      assert s.mem[u.pos..] == line[u.pos..] by {
        assert mem[p..][u.pos - p..] == mem[u.pos..];
        assert line[p..][u.pos - p..] == line[u.pos..];
      }
      RunNames(s.mem, line, u.pos, s.prev, matches);
    }
    DefinedCons(InvalidCharacter, [], matches);
    OneUnit(mem, line, p, prev, u, s, rest, more, matches);
  }

  /** One unit in front of what is known of the rest. */
  lemma OneUnit(mem: string, line: string, p: nat, prev: Token, u: Unit, s: Step, rest: seq<Unit>, more: seq<Event>,
      matches: string -> bool)
    requires p <= |mem| == |line| && Before(prev, p) && mem[p..] == line[p..]
    requires u.header.kind != Invalid ==>
               p <= u.header.ptr && TokenEnd(u.header) <= |mem| && TokenEnd(u.header) <= u.data.ptr
    requires u.header.len >= 0 && s == UnitStep(mem, prev, u, matches) && Before(s.prev, |mem|)
    requires var named := Named(line, rest, HeaderBefore(s.mem, s.prev));
             && (AllFound(more) <==> AllDefined(named, matches))
             && (AllFound(more) ==> more == named)
    ensures var named := Named(line, [u] + rest, HeaderBefore(mem, prev));
            && (AllFound(s.events + more) <==> AllDefined(named, matches))
            && (AllFound(s.events + more) ==> s.events + more == named)
  {
    hide Named, AllFound, AllDefined, Resolve, HeaderBefore, Compose, DataText, Text;
    var before := HeaderBefore(mem, prev);
    NamedUnfold(line, u, rest, before);
    if u.header.kind == Invalid {
      DefinedCons(InvalidCharacter, more, matches);
      DefinedCons(InvalidCharacter, Named(line, rest, before), matches);
    } else if u.header.len > 0 {
      CommandOfUnit(mem, line, p, prev, u, matches);
      var header := Resolve(before, DataText(line, u.header));
      var e := Command(header, DataText(line, u.data));
      DefinedCons(e, more, matches);
      DefinedCons(UndefinedHeader(header), more, matches);
      DefinedCons(e, Named(line, rest, header), matches);
    } else {
      assert s.events + more == more;
    }
  }

  /** SCPI_Parse finds every header of a line if and only if every header the line names is
      defined, and then it executes exactly what the line names, in order. */
  lemma {:induction false} LineNames(line: string, matches: string -> bool)
    ensures var named := Named(line, ParseUnits(line, 0, |line|), "");
            && (AllFound(LineEvents(line, matches)) <==> AllDefined(named, matches))
            && (AllFound(LineEvents(line, matches)) ==> LineEvents(line, matches) == named)
  {
    hide LineRun, Named, AllFound, AllDefined;
    RunNames(line, line, 0, NoToken(0), matches);
  }
}
