/** Message units do not depend on what lies behind the line terminator that ends them, nor
    on where in memory they lie: the laws of LexerLaws carried up to data lists and units. */
module FramingLaws {
  import opened Basics
  import opened Lexer
  import opened LexerLaws
  import opened Framing

  /** The datum is recognized before the cut, or it fails in front of a clean cut. */
  ghost predicate Lands(fr: Frame, d: Datum) {
    if d.token.kind != Unknown then TokenEnd(d.token) <= fr.m else d.pos <= fr.m && Clean(fr)
  }

  /** The same datum found in the moved and cut text: only white space behind it may be lost. */
  ghost predicate SameDatum(fr: Frame, d: Datum, d': Datum) {
    && 0 <= d.token.ptr + fr.d
    && d'.token == Move(d.token, fr.d)
    && d'.pos == Min(d.pos, fr.m) + fr.d
    && (d.pos <= fr.m ==> d'.counted == d.counted)
  }

  lemma NumberCut(fr: Frame, p: nat)
    requires Fits(fr, p)
    requires var d := Number(fr.w, p, fr.e); d.token.kind != Unknown ==> TokenEnd(d.token) <= fr.m
    ensures SameDatum(fr, Number(fr.w, p, fr.e), Number(fr.v, p + fr.d, fr.m + fr.d))
    ensures Number(fr.v, p + fr.d, fr.m + fr.d).counted == Number(fr.w, p, fr.e).counted
  {
    hide DecimalEnd, Span, SuffixEnd, Fits;
    FitsBounds(fr, p);
    var q := DecimalEnd(fr.w, p, fr.e);
    if q <= fr.m {
      DecimalCut(fr, p);
      if q > p {
        FitsLater(fr, p, q);
        SpanCut(fr, q, Ws);
        var s := Span(fr.w, q, fr.e, Ws);
        var x := SuffixEnd(fr.w, s, fr.e);
        if s <= fr.m && x <= fr.m {
          FitsLater(fr, p, s);
          SuffixCut(fr, s);
        } else {
          SuffixAtEnd(fr.v, fr.m + fr.d);
        }
      }
    }
  }

  lemma QuotedCut(fr: Frame, p: nat)
    requires Fits(fr, p) && Lands(fr, Quoted(fr.w, p, fr.e))
    ensures SameDatum(fr, Quoted(fr.w, p, fr.e), Quoted(fr.v, p + fr.d, fr.m + fr.d))
    ensures Quoted(fr.v, p + fr.d, fr.m + fr.d).counted == Quoted(fr.w, p, fr.e).counted
  {
    hide StringData, Block, Expression, Clean;
    var s := StringData(fr.w, p, fr.e);
    FirstChar(fr.w, p, fr.e);
    if s.pos > p {
      StringCut(fr, p);
    } else {
      var b := Block(fr.w, p, fr.e);
      var d := Quoted(fr.w, p, fr.e);
      if b.token.kind == BlockData {
        NotAString(fr, p);
        BlockCut(fr, p);
      } else if d.token.kind != Unknown {
        BlockStops(fr.w, p, fr.e);
        NotAString(fr, p);
        NotABlock(fr, p);
        ExpressionCut(fr, p);
      } else {
        StringCut(fr, p);
        BlockCut(fr, p);
        FitsLater(fr, p, b.pos);
        ExpressionCut(fr, b.pos);
      }
    }
  }

  /** A string, a block and an expression begin with different characters. */
  lemma FirstChar(w: string, p: nat, e: nat)
    requires p <= e <= |w|
    ensures StringData(w, p, e).pos > p ==> p < e && IsQuote(w[p])
    ensures StringData(w, p, e).token.kind != Unknown <==> StringData(w, p, e).pos > p
    ensures StringData(w, p, e).token.kind != Unknown ==> TokenEnd(StringData(w, p, e).token) == StringData(w, p, e).pos
    ensures Block(w, p, e).pos > p || Block(w, p, e).token.kind == BlockData ==> p < e && w[p] == '#'
    ensures Expression(w, p, e).token.kind != Unknown ==> p < e && w[p] == '('
    ensures Expression(w, p, e).token.kind != Unknown ==> TokenEnd(Expression(w, p, e).token) == Expression(w, p, e).pos
  {
    hide QuoteEnd, BlockDigits, Span;
  }

  lemma BlockStops(w: string, p: nat, e: nat)
    requires p <= e <= |w|
    ensures Block(w, p, e).token.kind == Unknown ==> Block(w, p, e).pos == p || Block(w, p, e).pos == e
    ensures Expression(w, e, e).token.kind == Unknown
  {
    hide BlockDigits;
  }

  lemma NotAString(fr: Frame, p: nat)
    requires Fits(fr, p) && (p < fr.m ==> !IsQuote(fr.w[p]))
    ensures StringData(fr.v, p + fr.d, fr.m + fr.d) == Lexed(NoToken(p + fr.d), p + fr.d)
  {
    if p < fr.m {
      SameChar(fr, p);
    }
    hide QuoteEnd;
  }

  lemma NotABlock(fr: Frame, p: nat)
    requires Fits(fr, p) && (p < fr.m ==> fr.w[p] != '#')
    ensures Block(fr.v, p + fr.d, fr.m + fr.d) == Lexed(NoToken(p + fr.d), p + fr.d)
  {
    if p < fr.m {
      SameChar(fr, p);
    }
    hide BlockDigits;
  }

  lemma EarlyKinds(w: string, p: nat, e: nat)
    requires p <= e <= |w|
    ensures NondecimalData(w, p, e).pos > p ==>
              NondecimalData(w, p, e).token.kind != Unknown
                && TokenEnd(NondecimalData(w, p, e).token) == NondecimalData(w, p, e).pos
    ensures CharacterData(w, p, e).pos > p ==>
              CharacterData(w, p, e).token.kind != Unknown
                && TokenEnd(CharacterData(w, p, e).token) == CharacterData(w, p, e).pos
    ensures p <= NondecimalData(w, p, e).token.ptr && p <= CharacterData(w, p, e).token.ptr
  {
    hide Span, MnemonicEnd;
  }

  lemma BareCut(fr: Frame, p: nat)
    requires Fits(fr, p) && Lands(fr, BareDatum(fr.w, p, fr.e))
    ensures SameDatum(fr, BareDatum(fr.w, p, fr.e), BareDatum(fr.v, p + fr.d, fr.m + fr.d))
    ensures BareDatum(fr.v, p + fr.d, fr.m + fr.d).counted == BareDatum(fr.w, p, fr.e).counted
  {
    hide NondecimalData, CharacterData, Number, Quoted, Clean, Fits;
    FitsBounds(fr, p);
    EarlyKinds(fr.w, p, fr.e);
    var h := NondecimalData(fr.w, p, fr.e);
    NondecimalCut(fr, p);
    if h.pos == p {
      var c := CharacterData(fr.w, p, fr.e);
      CharacterCut(fr, p);
      if c.pos == p {
        NumberCut(fr, p);
        if Number(fr.w, p, fr.e).counted == 0 {
          QuotedCut(fr, p);
        }
      }
    }
  }

  lemma {:induction false} ProgramDataCut(fr: Frame, p: nat)
    requires Fits(fr, p) && Lands(fr, ProgramData(fr.w, p, fr.e))
    ensures SameDatum(fr, ProgramData(fr.w, p, fr.e), ProgramData(fr.v, p + fr.d, fr.m + fr.d))
  {
    hide Span, BareDatum, Clean, Fits;
    FitsBounds(fr, p);
    SpanCut(fr, p, Ws);
    var s := Span(fr.w, p, fr.e, Ws);
    FitsLater(fr, p, s);
    BareCut(fr, s);
    EndCut(fr, p, BareDatum(fr.w, s, fr.e).pos);
  }

  /** White space in front of a cut and behind it. */
  lemma EndCut(fr: Frame, p: nat, q: nat)
    requires Fits(fr, p) && p <= q <= fr.e
    ensures var m := Min(q, fr.m);
            && p <= m && p <= fr.m <= fr.e <= |fr.w| && 0 <= m + fr.d && fr.m + fr.d <= |fr.v|
            && Span(fr.v, m + fr.d, fr.m + fr.d, Ws) == Min(Span(fr.w, q, fr.e, Ws), fr.m) + fr.d
  {
    hide Span, Fits;
    FitsBounds(fr, p);
    var m := Min(q, fr.m);
    FitsLater(fr, p, m);
    SpanCut(fr, m, Ws);
    if m < q {
      SpanAtEnd(fr.w, fr.m, fr.e, q);
    }
  }

  /** The white space behind a cut lies behind the cut. */
  lemma SpanAtEnd(w: string, m: nat, e: nat, q: nat)
    requires m <= q <= e <= |w|
    ensures Span(w, q, e, Ws) >= m && Span(w, m, e, Ws) >= m
  {
  }

  /** Two data lists with the same length, counted length and verdict, d apart. */
  ghost predicate SameList(a: DataList, b: DataList, d: int) {
    && b.ok == a.ok && b.pos == a.pos + d
    && |b.items| == |a.items| && CountedLength(b.items) == CountedLength(a.items)
  }

  lemma SameListCons(x: Datum, y: Datum, a: DataList, b: DataList, d: int)
    requires x.counted == y.counted && SameList(a, b, d)
    ensures SameList(DataList(a.ok, [x] + a.items, a.pos), DataList(b.ok, [y] + b.items, b.pos), d)
  {
    assert ([x] + a.items)[1..] == a.items;
    assert ([y] + b.items)[1..] == b.items;
  }

  lemma SameListOne(x: Datum, y: Datum, d: int)
    requires x.counted == y.counted && y.pos == x.pos + d
    ensures SameList(DataList(true, [x], x.pos), DataList(true, [y], y.pos), d)
    ensures SameList(DataList(false, [], x.pos), DataList(false, [], y.pos), d)
  {
  }

  lemma ListUnfold(w: string, p: nat, e: nat)
    requires p <= e <= |w|
    ensures var d := ProgramData(w, p, e);
            AllProgramData(w, p, e)
            == if d.token.kind == Unknown then DataList(false, [], d.pos)
               else if d.pos < e && w[d.pos] == ',' then
                 var rest := AllProgramData(w, d.pos + 1, e);
                 DataList(rest.ok, [d] + rest.items, rest.pos)
               else DataList(true, [d], d.pos)
  {
    hide ProgramData;
  }

  lemma {:induction false} AllDataCut(fr: Frame, p: nat)
    requires Fits(fr, p) && Clean(fr) && AllProgramData(fr.w, p, fr.e).pos <= fr.m
    ensures SameList(AllProgramData(fr.w, p, fr.e), AllProgramData(fr.v, p + fr.d, fr.m + fr.d), fr.d)
    decreases fr.m - p
  {
    hide ProgramData, AllProgramData, Clean, Fits, SameList;
    FitsBounds(fr, p);
    ListUnfold(fr.w, p, fr.e);
    ListUnfold(fr.v, p + fr.d, fr.m + fr.d);
    var d := ProgramData(fr.w, p, fr.e);
    var d' := ProgramData(fr.v, p + fr.d, fr.m + fr.d);
    DatumLands(fr, d);
    ProgramDataCut(fr, p);
    SameListOne(d, d', fr.d);
    if d.token.kind != Unknown && d.pos < fr.m {
      FitsLater(fr, p, d.pos);
      SameChar(fr, d.pos);
      if fr.w[d.pos] == ',' {
        FitsLater(fr, p, d.pos + 1);
        AllDataCut(fr, d.pos + 1);
        SameListCons(d, d', AllProgramData(fr.w, d.pos + 1, fr.e), AllProgramData(fr.v, d'.pos + 1, fr.m + fr.d), fr.d);
      }
    }
  }

  lemma DatumLands(fr: Frame, d: Datum)
    requires Clean(fr) && d.pos <= fr.m && TokenEnd(d.token) <= d.pos
    ensures Lands(fr, d)
  {
  }

  function MoveBody(b: Body, d: int): Body
    requires 0 <= b.pos + d && 0 <= b.header.ptr + d && 0 <= b.data.ptr + d
  {
    Body(Move(b.header, d), Move(b.data, d), b.parameters, b.pos + d)
  }

  lemma DataPartCut(fr: Frame, q: nat)
    requires Fits(fr, q) && Clean(fr) && DataPart(fr.w, q, fr.e).pos <= fr.m
    ensures var b := DataPart(fr.w, q, fr.e);
            DataPart(fr.v, q + fr.d, fr.m + fr.d) == DataField(Move(b.data, fr.d), b.parameters, b.pos + fr.d)
  {
    hide Span, AllProgramData, CountedLength, Clean, Fits;
    FitsBounds(fr, q);
    SpanCut(fr, q, Ws);
    var s := Span(fr.w, q, fr.e, Ws);
    if s > q {
      FitsLater(fr, q, s);
      AllDataCut(fr, s);
    }
  }

  lemma MovedNowhere(b: Body)
    ensures MoveBody(b, 0) == b
  {
  }

  lemma BodyCut(fr: Frame, p: nat)
    requires Fits(fr, p) && Clean(fr) && UnitBody(fr.w, p, fr.e).pos <= fr.m
    ensures UnitBody(fr.v, p + fr.d, fr.m + fr.d) == MoveBody(UnitBody(fr.w, p, fr.e), fr.d)
  {
    hide Span, Header, DataPart, Clean, Fits;
    FitsBounds(fr, p);
    SpanCut(fr, p, Ws);
    var a := Span(fr.w, p, fr.e, Ws);
    FitsLater(fr, p, a);
    HeaderCut(fr, a);
    var h := Header(fr.w, a, fr.e);
    FitsLater(fr, p, h.pos);
    DataPartCut(fr, h.pos);
  }

  function MoveUnit(u: Unit, d: int): Unit
    requires 0 <= u.pos + d && 0 <= u.header.ptr + d && 0 <= u.data.ptr + d
  {
    Unit(Move(u.header, d), Move(u.data, d), u.parameters, u.term, u.pos + d)
  }

  /** A unit that ends within the cut is cut out of the shorter text exactly alike. */
  lemma {:induction false} UnitCut(fr: Frame, p: nat)
    requires Fits(fr, p) && Clean(fr) && DetectUnit(fr.w, p, fr.e).pos <= fr.m
    ensures DetectUnit(fr.v, p + fr.d, fr.m + fr.d) == MoveUnit(DetectUnit(fr.w, p, fr.e), fr.d)
  {
    hide NewLineEnd, Skip, UnitBody, Fits, Clean;
    FitsBounds(fr, p);
    var b := UnitBody(fr.w, p, fr.e);
    BodyCut(fr, p);
    FitsLater(fr, p, b.pos);
    NewLineCut(fr, b.pos);
    SkipCut(fr, b.pos, ';');
  }

  lemma {:induction false} CountedBound(w: string, p: nat, e: nat)
    requires p <= e <= |w| && AllProgramData(w, p, e).ok
    ensures 0 <= CountedLength(AllProgramData(w, p, e).items) <= AllProgramData(w, p, e).pos - p
    decreases e - p
  {
    hide ProgramData;
    var d := ProgramData(w, p, e);
    if d.pos < e && w[d.pos] == ',' {
      CountedBound(w, d.pos + 1, e);
      var rest := AllProgramData(w, d.pos + 1, e);
      assert ([d] + rest.items)[1..] == rest.items;
    } else {
      assert CountedLength([d]) == d.counted;
    }
  }

  /** The data token of a unit lies within what the unit consumed. */
  lemma {:induction false} DataInUnit(w: string, p: nat, e: nat)
    requires p <= e <= |w|
    ensures var u := DetectUnit(w, p, e);
            u.data.len >= 0 && u.data.ptr + u.data.len <= u.pos
    ensures var b := UnitBody(w, p, e);
            b.data.len >= 0 && b.data.ptr + b.data.len <= b.pos
  {
    hide Header, AllProgramData, CountedLength, Span, NewLineEnd;
    var h := Header(w, Span(w, p, e, Ws), e);
    var s := Span(w, h.pos, e, Ws);
    if s > h.pos && AllProgramData(w, s, e).ok {
      CountedBound(w, s, e);
    }
  }
}
