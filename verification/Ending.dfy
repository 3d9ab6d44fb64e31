/** When SCPI_Parse and SCPI_Input return: no string they come to lex, in any of their passes,
    keeps the quote loop of the lexer busy for ever. Any 7-bit text and any text without quotes
    will do, and so will bytes above 0x7f outside strings, for one in arbitrary blocks. */
module Ending {
  import opened Lexer
  import opened Framing
  import opened Line
  import opened Params

  /** A command that matches may have all its parameters read. */
  ghost predicate CommandEnds(s: Step, u: Unit) {
    s.events != [] && s.events[0].Command? && u.data.len >= 0 && TokenEnd(u.data) <= |s.mem| ==>
      Readable(s.mem, u.data.ptr, TokenEnd(u.data), 0)
  }

  /** SCPI_Parse returns. */
  ghost predicate LineEnds(mem: string, p: nat, prev: Token, matches: string -> bool)
    requires p <= |mem| && Before(prev, p)
    decreases |mem| - p
  {
    hide DetectUnit, UnitStep;
    var u := DetectUnit(mem, p, |mem|);
    var s := UnitStep(mem, prev, u, matches);
    && UnitEnds(mem, p, |mem|)
    && CommandEnds(s, u)
    && (u.pos < |mem| ==> LineEnds(s.mem, u.pos, s.prev, matches))
  }

  /** The scan of SCPI_Input for a line ends. */
  ghost predicate ScanEnds(w: string, p: nat)
    requires p <= |w|
    decreases |w| - p
  {
    var u := DetectUnit(w, p, |w|);
    && UnitEnds(w, p, |w|)
    && (u.term != NlTermination && u.header.kind != Unknown && u.pos < |w| ==> ScanEnds(w, u.pos))
  }

  /** SCPI_Input returns. */
  ghost predicate DrainEnds(w: string, matches: string -> bool)
    decreases |w|
  {
    && ScanEnds(w, 0)
    && match ScanLine(w, 0)
       case NoLine => true
       case FoundLine(_, end) =>
         LineEndsInNl(w, 0);
         LineEnds(w[..end], 0, NoToken(0), matches) && DrainEnds(w[end..], matches)
  }

  /** When the loop of SCPI_Input returns, so does executing the line it has found, and going on. */
  lemma EndsLine(w: string, matches: string -> bool)
    requires DrainEnds(w, matches) && ScanLine(w, 0).FoundLine?
    ensures var end := ScanLine(w, 0).end;
            0 < end <= |w| && LineEnds(w[..end], 0, NoToken(0), matches) && DrainEnds(w[end..], matches)
  {
    hide ScanLine, ScanEnds, LineEnds;
    LineEndsInNl(w, 0);
  }

  // ---------- texts that will do ----------

  ghost predicate Safe(w: string) {
    (forall i :: 0 <= i < |w| ==> w[i] as int <= 0x7f) || (forall i :: 0 <= i < |w| ==> !IsQuote(w[i]))
  }

  lemma SafeString(w: string, p: nat, e: nat)
    requires p <= e <= |w| && Safe(w)
    ensures StringEnds(w, p, e)
  {
    hide QuoteEnd;
  }

  lemma SafeDatum(w: string, p: nat, e: nat)
    requires p <= e <= |w| && Safe(w)
    ensures DatumEnds(w, p, e)
  {
    hide Span, StringEnds, Safe;
    SafeString(w, Span(w, p, e, Ws), e);
  }

  lemma {:induction false} SafeAllData(w: string, p: nat, e: nat)
    requires p <= e <= |w| && Safe(w)
    ensures AllDataEnds(w, p, e)
    decreases e - p
  {
    hide ProgramData, DatumEnds, Safe;
    SafeDatum(w, p, e);
    var d := ProgramData(w, p, e);
    if d.token.kind != Unknown && d.pos < e && w[d.pos] == ',' {
      SafeAllData(w, d.pos + 1, e);
    }
  }

  lemma SafeUnit(w: string, p: nat, e: nat)
    requires p <= e <= |w| && Safe(w)
    ensures UnitEnds(w, p, e)
  {
    hide Header, Span, AllDataEnds, Safe;
    var h := Header(w, Span(w, p, e, Ws), e);
    SafeAllData(w, Span(w, h.pos, e, Ws), e);
  }

  lemma {:induction false} SafeReadable(w: string, p: nat, e: nat, count: nat)
    requires p <= e <= |w| && Safe(w)
    ensures Readable(w, p, e, count)
    decreases e - p, if count == 0 then 1 else 0
  {
    hide ProgramData, DatumEnds, Safe;
    if p < e && (count == 0 || w[p] == ',') {
      var q := if count != 0 then p + 1 else p;
      SafeDatum(w, q, e);
      SafeReadable(w, ProgramData(w, q, e).pos, e, count + 1);
    }
  }

  lemma SafePart(w: string, i: nat, j: nat)
    requires i <= j <= |w| && Safe(w)
    ensures Safe(w[i..j])
  {
  }

  lemma SafeMove(mem: string, dst: nat, src: nat, n: nat)
    requires dst + n <= |mem| && src + n <= |mem| && Safe(mem)
    ensures Safe(MemMove(mem, dst, src, n))
  {
  }

  lemma SafeStep(mem: string, prev: Token, u: Unit, matches: string -> bool)
    requires u.header.len > 0 && u.header.kind != Invalid ==>
               Before(prev, u.header.ptr) && u.header.ptr + u.header.len <= |mem|
    requires Safe(mem)
    ensures Safe(UnitStep(mem, prev, u, matches).mem)
  {
    hide LastColon, MemMove, Safe;
    if u.header.kind != Invalid && u.header.len > 0 && Extends(mem, prev, u.header) {
      var i := LastColon(mem, prev.ptr, prev.len);
      SafeMove(mem, u.header.ptr - i, prev.ptr, i);
    }
  }

  lemma {:induction false} SafeLine(mem: string, p: nat, prev: Token, matches: string -> bool)
    requires p <= |mem| && Before(prev, p) && Safe(mem)
    ensures LineEnds(mem, p, prev, matches)
    decreases |mem| - p
  {
    hide DetectUnit, UnitStep, UnitEnds, Readable, Safe;
    var u := DetectUnit(mem, p, |mem|);
    var s := UnitStep(mem, prev, u, matches);
    SafeUnit(mem, p, |mem|);
    SafeStep(mem, prev, u, matches);
    StepKeepsRest(mem, prev, u, matches);
    if u.data.len >= 0 && TokenEnd(u.data) <= |s.mem| {
      SafeReadable(s.mem, u.data.ptr, TokenEnd(u.data), 0);
    }
    if u.pos < |mem| {
      SafeLine(s.mem, u.pos, s.prev, matches);
    }
  }

  lemma {:induction false} SafeScan(w: string, p: nat)
    requires p <= |w| && Safe(w)
    ensures ScanEnds(w, p)
    decreases |w| - p
  {
    hide DetectUnit, UnitEnds, Safe;
    SafeUnit(w, p, |w|);
    var u := DetectUnit(w, p, |w|);
    if u.term != NlTermination && u.header.kind != Unknown && u.pos < |w| {
      SafeScan(w, u.pos);
    }
  }

  /** SCPI_Input returns on any buffer of 7-bit text, and on any buffer without quotes. */
  lemma {:induction false} SafeDrain(w: string, matches: string -> bool)
    requires Safe(w)
    ensures DrainEnds(w, matches)
    decreases |w|
  {
    hide ScanLine, ScanEnds, LineEnds, Safe;
    SafeScan(w, 0);
    if ScanLine(w, 0).FoundLine? {
      var end := ScanLine(w, 0).end;
      LineEndsInNl(w, 0);
      SafePart(w, 0, end);
      SafePart(w, end, |w|);
      assert w[0..end] == w[..end] && w[end..|w|] == w[end..];
      SafeLine(w[..end], 0, NoToken(0), matches);
      SafeDrain(w[end..], matches);
    }
  }
}
