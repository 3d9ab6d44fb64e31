/** Channel lists (SCPI-99 volume 1 section 8.3.2) as Utilities/Scpi/Src/expression.c reads
    them: functions of the memory w, the cursor p and the end e of the expression. */
module ChannelList {
  import opened Lexer
  import opened LexerLaws
  import PrintfSpec
  import opened Numerals

  /** scpi_expr_result_t */
  datatype Status = ExprOk | ExprError | NoMore

  /** One entry: a channel, or the range between two of them, in any number of dimensions. */
  datatype Entry = Single(first: seq<Int32>) | Range(first: seq<Int32>, last: seq<Int32>)

  // ---------- reading ----------

  function Saturated(n: int): Int32 {
    if n > 0x7fff_ffff then 0x7fff_ffff else if n < -0x8000_0000 then -0x8000_0000 else n
  }

  /** strBaseToInt32 in base 10: strtol reads on in memory, whatever the end of the token. */
  function ReadInt(w: string, p: nat): Int32
    requires p <= |w|
  {
    var s := SkipSign(w, p, |w|);
    var n := ValueOf(w[s..Span(w, s, |w|, Digit)], 10);
    Saturated(if p < s && w[p] == '-' then 0 - n else n)
  }

  /** What channelSpec does: the numbers it reads and where it stops. */
  datatype SpecRead = SpecRead(res: Status, values: seq<Int32>, pos: nat)

  function ReadSpec(w: string, p: nat, e: nat, before: seq<Int32>): (r: SpecRead)
    requires p <= e <= |w|
    ensures p <= r.pos <= e
    ensures before <= r.values
    ensures r.res == ExprOk ==> |r.values| > |before| && r.pos > p
    ensures r.res == NoMore ==> before == [] && r.values == []
    decreases e - p
  {
    var q := DecimalEnd(w, p, e);
    if q == p then SpecRead(if before == [] then NoMore else ExprError, before, p)
    else
      var values := before + [ReadInt(w, p)];
      if q < e && w[q] == '!' then ReadSpec(w, q + 1, e, values) else SpecRead(ExprOk, values, q)
  }

  /** What channelRange does; colon says whether it went on to a second channel. */
  datatype RangeRead = RangeRead(res: Status, first: seq<Int32>, colon: bool, last: seq<Int32>, pos: nat)

  function ReadRange(w: string, p: nat, e: nat): (r: RangeRead)
    requires p <= e <= |w|
    ensures p <= r.pos <= e
    ensures r.res == ExprOk ==> r.pos > p && |r.first| > 0 && (r.colon ==> |r.last| == |r.first|)
    ensures !r.colon ==> r.last == []
    ensures r.res == NoMore ==> !r.colon
  {
    var a := ReadSpec(w, p, e, []);
    if a.res == ExprOk && a.pos < e && w[a.pos] == ':' then
      var b := ReadSpec(w, a.pos + 1, e, []);
      var res := if b.res == ExprOk && |b.values| == |a.values| then ExprOk else ExprError;
      RangeRead(res, a.values, true, b.values, b.pos)
    else RangeRead(a.res, a.values, false, [], a.pos)
  }

  function EntryOf(r: RangeRead): Entry {
    if r.colon then Range(r.first, r.last) else Single(r.first)
  }

  /** The whole list: its entries, and how and where reading ends. */
  datatype Parsed = Parsed(entries: seq<Entry>, stop: Status, pos: nat)

  function WholeParse(w: string, p: nat, e: nat): (r: Parsed)
    requires p <= e <= |w|
    ensures p <= r.pos <= e
    ensures r.stop != ExprOk
    decreases e - p
  {
    var r := ReadRange(w, p, e);
    if r.res != ExprOk then Parsed([], r.res, r.pos)
    else if r.pos < e && w[r.pos] == ',' then
      var rest := WholeParse(w, r.pos + 1, e);
      Parsed([EntryOf(r)] + rest.entries, rest.stop, rest.pos)
    else Parsed([EntryOf(r)], if r.pos == e then NoMore else ExprError, r.pos)
  }

  /** What is read for index k, if reading gets that far. */
  datatype Reading = NotReached | Reached(range: RangeRead)

  function RangeAt(w: string, p: nat, e: nat, k: nat): Reading
    requires p <= e <= |w|
    decreases k
  {
    var r := ReadRange(w, p, e);
    if k == 0 then Reached(r)
    else if r.res == ExprOk && r.pos < e && w[r.pos] == ',' then RangeAt(w, r.pos + 1, e, k - 1)
    else NotReached
  }

  /** What an index behind the last entry yields. */
  function Finish(r: Parsed, e: nat): Status {
    if r.stop == NoMore && r.pos < e then ExprError else r.stop
  }

  function Dimensions(entry: Entry): nat {
    |entry.first|
  }

  // ---------- printing ----------

  function IntText(v: Int32): string {
    PrintfSpec.FmtInt(v, 10, 0, -1, PrintfSpec.NO_FLAGS)
  }

  function SpecText(values: seq<Int32>): string
    requires |values| > 0
  {
    IntText(values[0]) + (if |values| == 1 then "" else "!" + SpecText(values[1..]))
  }

  predicate WellFormed(entry: Entry) {
    |entry.first| > 0 && (entry.Range? ==> |entry.last| == |entry.first|)
  }

  function EntryText(entry: Entry): string
    requires WellFormed(entry)
  {
    SpecText(entry.first) + (if entry.Single? then "" else ":" + SpecText(entry.last))
  }

  predicate AllWellFormed(entries: seq<Entry>) {
    forall i :: 0 <= i < |entries| ==> WellFormed(entries[i])
  }

  function ListText(entries: seq<Entry>): string
    requires AllWellFormed(entries)
  {
    if entries == [] then ""
    else EntryText(entries[0]) + (if |entries| == 1 then "" else "," + ListText(entries[1..]))
  }

  /** The expression as a parameter: "(@...)". */
  function ExpressionText(entries: seq<Entry>): string
    requires AllWellFormed(entries)
  {
    "(@" + ListText(entries) + ")"
  }

  // ---------- one number ----------

  /** No character that an integer could go on with is at q. */
  predicate Stops(w: string, q: nat) {
    q < |w| && !IsDigit(w[q]) && w[q] !in ".eE \t"
  }

  /** An integer prints as a sign, if it is negative, and digits that stand for its absolute
      value. */
  lemma IntTextIs(v: Int32)
    ensures var digits := DigitsOf(Magnitude(v), 10, false);
            && IntText(v) == (if v < 0 then "-" else "") + digits
            && Digits(digits) && ValueOf(digits, 10) == Magnitude(v)
  {
    PrintfSpec.PlainInteger(v);
    DigitsReadBack(Magnitude(v), 10, false);
    DigitsOfShape(Magnitude(v), 10, false);
    DecimalDigits(DigitsOf(Magnitude(v), 10, false), false);
    hide DigitsOf, ValueOf, PrintfSpec.FmtInt;
  }

  /** A text in two parts with a separator between them. */
  lemma HoldsSeparated(w: string, p: nat, text: string, a: string, c: char, b: string)
    requires Holds(w, p, text) && text == a + ([c] + b)
    ensures Holds(w, p, a) && Holds(w, p + |a| + 1, b) && p + |a| + 1 + |b| == p + |text| <= |w|
    ensures w[p + |a|] == c
  {
    HoldsSplit(w, p, text, a, [c] + b);
    HoldsSplit(w, p + |a|, [c] + b, [c], b);
    HoldsAt(w, p + |a|, [c], 0);
  }

  lemma DigitsHeld(w: string, s: nat, e: nat, digits: string)
    requires Holds(w, s, digits) && Digits(digits)
    requires s + |digits| <= e <= |w| && Stops(w, s + |digits|)
    ensures Span(w, s, e, Digit) == s + |digits|
  {
    var q := s + |digits|;
    forall i | s <= i < q ensures Is(w[i], Digit) {
      HoldsAt(w, s, digits, i - s);
    }
    SpanIs(w, s, e, Digit, q);
  }

  lemma SignHeld(w: string, p: nat, e: nat, negative: bool, digits: string)
    requires Holds(w, p, (if negative then "-" else "") + digits) && |digits| > 0 && IsDigit(digits[0])
    requires p + (if negative then 1 else 0) + |digits| <= e <= |w|
    ensures SkipSign(w, p, e) == if negative then p + 1 else p
    ensures negative <==> w[p] == '-'
    ensures Holds(w, SkipSign(w, p, e), digits)
  {
    var sign := if negative then "-" else "";
    HoldsSplit(w, p, sign + digits, sign, digits);
    if negative {
      HoldsAt(w, p, sign, 0);
    } else {
      HoldsAt(w, p, digits, 0);
    }
    hide Holds;
  }

  /** A sign and digits in front of a separator: how far they reach, and what they stand for. */
  lemma SignedHeld(w: string, p: nat, e: nat, negative: bool, digits: string)
    requires Holds(w, p, (if negative then "-" else "") + digits) && |digits| > 0 && Digits(digits)
    requires var q := p + (if negative then 1 else 0) + |digits|;
             q <= e <= |w| && Stops(w, q)
    ensures DecimalEnd(w, p, e) == p + (if negative then 1 else 0) + |digits|
  {
    hide Span, Holds, Exponent, SkipSign;
    var s := if negative then p + 1 else p;
    SignHeld(w, p, e, negative, digits);
    DigitsHeld(w, s, e, digits);
    NoExponent(w, s + |digits|, e);
    assert Mantissa(w, p, e) == (|digits|, s + |digits|);
  }

  lemma SignedReadBack(w: string, p: nat, negative: bool, digits: string)
    requires Holds(w, p, (if negative then "-" else "") + digits) && |digits| > 0 && Digits(digits)
    requires Stops(w, p + (if negative then 1 else 0) + |digits|)
    ensures p <= |w|
    ensures var n := ValueOf(digits, 10);
            ReadInt(w, p) == Saturated(if negative then 0 - n else n)
  {
    hide Span, Holds, SkipSign, ValueOf, Saturated;
    var s := if negative then p + 1 else p;
    SignHeld(w, p, |w|, negative, digits);
    DigitsHeld(w, s, |w|, digits);
    HeldIs(w, s, digits);
  }

  /** A printed integer in front of a separator is one decimal token and reads back. */
  lemma NumberHeld(w: string, p: nat, e: nat, v: Int32)
    requires var q := p + |IntText(v)|;
             Holds(w, p, IntText(v)) && q <= e <= |w| && Stops(w, q)
    ensures DecimalEnd(w, p, e) == p + |IntText(v)| > p
    ensures ReadInt(w, p) == v
  {
    hide IntText, DigitsOf, ValueOf, Holds, ReadInt, DecimalEnd, Digits, Stops;
    IntTextIs(v);
    var digits := DigitsOf(Magnitude(v), 10, false);
    SignedHeld(w, p, e, v < 0, digits);
    SignedReadBack(w, p, v < 0, digits);
  }

  lemma HeldIs(w: string, s: nat, digits: string)
    requires Holds(w, s, digits)
    ensures s + |digits| <= |w| && w[s..s + |digits|] == digits
  {
  }

  lemma NoExponent(w: string, q: nat, e: nat)
    requires q <= e <= |w| && Stops(w, q)
    ensures Exponent(w, Span(w, q, e, Ws), e).0 == 0
  {
  }

  // ---------- the round trip ----------

  lemma {:induction false} SpecHeld(w: string, p: nat, e: nat, values: seq<Int32>, before: seq<Int32>)
    requires |values| > 0 && Holds(w, p, SpecText(values))
    requires var q := p + |SpecText(values)|;
             q <= e <= |w| && Stops(w, q) && w[q] != '!'
    ensures ReadSpec(w, p, e, before) == SpecRead(ExprOk, before + values, p + |SpecText(values)|)
    decreases |values|
  {
    hide IntText, DecimalEnd, ReadInt, Holds;
    var head := IntText(values[0]);
    var now := before + [values[0]];
    if |values| == 1 {
      assert head + "" == head;
      NumberHeld(w, p, e, values[0]);
      assert now == before + values;
    } else {
      var rest := SpecText(values[1..]);
      HoldsSeparated(w, p, SpecText(values), head, '!', rest);
      NumberHeld(w, p, e, values[0]);
      SpecHeld(w, p + |head| + 1, e, values[1..], now);
      assert now + values[1..] == before + values;
    }
  }

  lemma {:induction false} EntryHeld(w: string, p: nat, e: nat, entry: Entry)
    requires WellFormed(entry) && Holds(w, p, EntryText(entry))
    requires var q := p + |EntryText(entry)|;
             q <= e <= |w| && Stops(w, q) && w[q] != ':' && w[q] != '!'
    ensures var r := ReadRange(w, p, e);
            r.res == ExprOk && EntryOf(r) == entry && r.pos == p + |EntryText(entry)|
  {
    hide SpecText, ReadSpec, Holds;
    var a := SpecText(entry.first);
    assert [] + entry.first == entry.first;
    if entry.Range? {
      HoldsSeparated(w, p, EntryText(entry), a, ':', SpecText(entry.last));
      SpecHeld(w, p, e, entry.first, []);
      SpecHeld(w, p + |a| + 1, e, entry.last, []);
      assert [] + entry.last == entry.last;
    } else {
      assert a + "" == a;
      SpecHeld(w, p, e, entry.first, []);
    }
  }

  lemma {:induction false} ListHeld(w: string, p: nat, e: nat, entries: seq<Entry>)
    requires AllWellFormed(entries) && Holds(w, p, ListText(entries))
    requires p + |ListText(entries)| == e < |w| && w[e] == ')'
    ensures WholeParse(w, p, e) == Parsed(entries, NoMore, e)
    decreases |entries|
  {
    hide EntryText, ReadRange, Holds, EntryOf;
    if entries == [] {
      NothingToRead(w, e);
    } else {
      var head := EntryText(entries[0]);
      if |entries| == 1 {
        assert head + "" == head;
        EntryHeld(w, p, e, entries[0]);
        assert [entries[0]] == entries;
      } else {
        HoldsSeparated(w, p, ListText(entries), head, ',', ListText(entries[1..]));
        EntryHeld(w, p, e, entries[0]);
        ListHeld(w, p + |head| + 1, e, entries[1..]);
        assert [entries[0]] + entries[1..] == entries;
      }
    }
  }

  lemma NothingToRead(w: string, e: nat)
    requires e <= |w|
    ensures ReadRange(w, e, e).res == NoMore && ReadRange(w, e, e).pos == e
  {
  }

  // ---------- lists that are not well formed ----------

  lemma SeparatorStops(w: string, q: nat)
    requires q < |w| && w[q] in "!:,"
    ensures Stops(w, q)
  {
  }

  /** A list goes on behind a comma, whatever stands there. */
  lemma {:induction false} ListGoesOn(w: string, p: nat, q: nat, e: nat, entries: seq<Entry>)
    requires entries != [] && AllWellFormed(entries) && Holds(w, p, ListText(entries))
    requires q == p + |ListText(entries)| + 1 <= e <= |w| && w[q - 1] == ','
    ensures var rest := WholeParse(w, q, e);
            WholeParse(w, p, e) == Parsed(entries + rest.entries, rest.stop, rest.pos)
    decreases |entries|
  {
    hide EntryText, ReadRange, Holds, EntryOf, Stops;
    var head := EntryText(entries[0]);
    if |entries| == 1 {
      assert head + "" == head;
      SeparatorStops(w, q - 1);
      EntryHeld(w, p, e, entries[0]);
      assert [entries[0]] == entries;
    } else {
      HoldsSeparated(w, p, ListText(entries), head, ',', ListText(entries[1..]));
      SeparatorStops(w, p + |head|);
      EntryHeld(w, p, e, entries[0]);
      ListGoesOn(w, p + |head| + 1, q, e, entries[1..]);
      var rest := WholeParse(w, q, e);
      assert [entries[0]] + (entries[1..] + rest.entries) == entries + rest.entries;
    }
  }

  /** Behind a list of entries nothing but a comma or the closing parenthesis will do. */
  lemma {:induction false} ForeignCharacter(w: string, p: nat, q: nat, e: nat, entries: seq<Entry>)
    requires entries != [] && AllWellFormed(entries) && Holds(w, p, ListText(entries))
    requires q == p + |ListText(entries)| < e <= |w| && Stops(w, q) && w[q] !in ":!,"
    ensures WholeParse(w, p, e) == Parsed(entries, ExprError, q)
    ensures Finish(WholeParse(w, p, e), e) == ExprError
    decreases |entries|
  {
    hide EntryText, ReadRange, Holds, EntryOf, Stops;
    var head := EntryText(entries[0]);
    if |entries| == 1 {
      assert head + "" == head;
      EntryHeld(w, p, e, entries[0]);
      assert [entries[0]] == entries;
    } else {
      HoldsSeparated(w, p, ListText(entries), head, ',', ListText(entries[1..]));
      SeparatorStops(w, p + |head|);
      EntryHeld(w, p, e, entries[0]);
      ForeignCharacter(w, p + |head| + 1, q, e, entries[1..]);
      assert [entries[0]] + entries[1..] == entries;
    }
  }

  /** A comma behind the last entry is accepted, but behind it nothing that is not a number. */
  lemma {:induction false} CommaLast(w: string, p: nat, q: nat, e: nat, entries: seq<Entry>)
    requires entries != [] && AllWellFormed(entries) && Holds(w, p, ListText(entries))
    requires q == p + |ListText(entries)| + 1 <= e <= |w| && w[q - 1] == ','
    requires q < e ==> !IsDigit(w[q]) && w[q] !in "+-."
    ensures WholeParse(w, p, e) == Parsed(entries, NoMore, q)
    ensures Finish(WholeParse(w, p, e), e) == if q == e then NoMore else ExprError
  {
    hide ListText, Holds, AllWellFormed, ReadRange;
    ListGoesOn(w, p, q, e, entries);
    NoNumberAt(w, q, e);
    assert entries + [] == entries;
  }

  lemma NoNumberAt(w: string, q: nat, e: nat)
    requires q <= e <= |w| && (q < e ==> !IsDigit(w[q]) && w[q] !in "+-.")
    ensures DecimalEnd(w, q, e) == q && ReadRange(w, q, e).res == NoMore && ReadRange(w, q, e).pos == q
  {
  }

  /** A number that no 32-bit word holds is read as the nearest that one does. */
  lemma {:induction false} OutOfRange(w: string, p: nat, digits: string)
    requires |digits| > 0 && Digits(digits) && ValueOf(digits, 10) > 0x8000_0000
    ensures Holds(w, p, digits) && Stops(w, p + |digits|) ==> p <= |w| && ReadInt(w, p) == 0x7fff_ffff
    ensures Holds(w, p, "-" + digits) && Stops(w, p + 1 + |digits|) ==> p <= |w| && ReadInt(w, p) == -0x8000_0000
  {
    hide Holds, Stops, ReadInt, ValueOf, Digits;
    if Holds(w, p, digits) && Stops(w, p + |digits|) {
      assert "" + digits == digits;
      SignedReadBack(w, p, false, digits);
    }
    if Holds(w, p, "-" + digits) && Stops(w, p + 1 + |digits|) {
      SignedReadBack(w, p, true, digits);
    }
  }

  lemma SpecAlone(w: string, p: nat, e: nat, values: seq<Int32>)
    requires |values| > 0 && Holds(w, p, SpecText(values)) && p + |SpecText(values)| <= e <= |w|
    requires Stops(w, p + |SpecText(values)|) && w[p + |SpecText(values)|] != '!'
    ensures ReadSpec(w, p, e, []) == SpecRead(ExprOk, values, p + |SpecText(values)|)
  {
    hide *;
    SpecHeld(w, p, e, values, []);
    assert [] + values == values;
  }

  /** The two channels of a range have the same number of dimensions, or it is refused. */
  lemma UnequalRange(w: string, p: nat, q: nat, r: nat, e: nat, a: seq<Int32>, b: seq<Int32>)
    requires |a| > 0 && |b| > 0 && |a| != |b| && Holds(w, p, SpecText(a)) && Holds(w, q, SpecText(b))
    requires q == p + |SpecText(a)| + 1 && r == q + |SpecText(b)| && r <= e <= |w| && w[q - 1] == ':'
    requires Stops(w, r) && w[r] != '!'
    ensures ReadRange(w, p, e) == RangeRead(ExprError, a, true, b, r)
  {
    hide *;
    SeparatorStops(w, q - 1);
    SpecAlone(w, p, e, a);
    SpecAlone(w, q, e, b);
    RangeParts(w, p, e, SpecRead(ExprOk, a, q - 1), SpecRead(ExprOk, b, r));
  }

  lemma RangeParts(w: string, p: nat, e: nat, a: SpecRead, b: SpecRead)
    requires p <= e <= |w|
    requires a == ReadSpec(w, p, e, []) && a.res == ExprOk && a.pos < e && w[a.pos] == ':'
    requires b == ReadSpec(w, a.pos + 1, e, []) && b.res == ExprOk && |a.values| != |b.values|
    ensures ReadRange(w, p, e) == RangeRead(ExprError, a.values, true, b.values, b.pos)
  {
    hide ReadSpec;
  }

  /** Behind an exclamation mark another number must follow. */
  lemma {:induction false} DanglingMark(w: string, p: nat, e: nat, values: seq<Int32>, before: seq<Int32>)
    requires |values| > 0 && Holds(w, p, SpecText(values))
    requires p + |SpecText(values)| + 1 == e <= |w| && w[e - 1] == '!'
    ensures ReadSpec(w, p, e, before) == SpecRead(ExprError, before + values, e)
    decreases |values|
  {
    hide IntText, ReadInt, Holds, DecimalEnd, Stops;
    var head := IntText(values[0]);
    var now := before + [values[0]];
    if |values| == 1 {
      assert head + "" == head;
      SeparatorStops(w, e - 1);
      NumberHeld(w, p, e, values[0]);
      NoNumberAt(w, e, e);
      assert now == before + values;
    } else {
      var rest := SpecText(values[1..]);
      HoldsSeparated(w, p, SpecText(values), head, '!', rest);
      SeparatorStops(w, p + |head|);
      NumberHeld(w, p, e, values[0]);
      DanglingMark(w, p + |head| + 1, e, values[1..], now);
      assert now + values[1..] == before + values;
    }
  }

  // ---------- the printed list is one expression ----------

  predicate AllExpr(s: string) {
    forall i :: 0 <= i < |s| ==> IsExpr(s[i])
  }

  lemma IntIsExpr(v: Int32)
    ensures AllExpr(IntText(v))
  {
    hide IntText, DigitsOf;
    IntTextIs(v);
  }

  lemma {:induction false} SpecIsExpr(values: seq<Int32>)
    requires |values| > 0
    ensures AllExpr(SpecText(values))
    decreases |values|
  {
    hide IntText;
    IntIsExpr(values[0]);
    if |values| > 1 {
      SpecIsExpr(values[1..]);
    }
  }

  lemma EntryIsExpr(entry: Entry)
    requires WellFormed(entry)
    ensures AllExpr(EntryText(entry))
  {
    hide SpecText;
    SpecIsExpr(entry.first);
    if entry.Range? {
      SpecIsExpr(entry.last);
    }
  }

  lemma {:induction false} ListIsExpr(entries: seq<Entry>)
    requires AllWellFormed(entries)
    ensures AllExpr(ListText(entries))
    decreases |entries|
  {
    hide EntryText;
    if entries != [] {
      EntryIsExpr(entries[0]);
      if |entries| > 1 {
        ListIsExpr(entries[1..]);
      }
    }
  }

  /** The n characters at p are lexed as one expression, '@' follows its '(', and the text
      between '@' and ')' is read as the entries and nothing else. */
  ghost predicate ReadsBack(w: string, p: nat, e: nat, n: nat, entries: seq<Entry>) {
    && n >= 3 && p + n <= e <= |w|
    && Expression(w, p, e) == Lexed(Token(ExpressionData, p, n), p + n)
    && w[p + 1] == '@'
    && WholeParse(w, p + 2, p + n - 1) == Parsed(entries, NoMore, p + n - 1)
  }

  /** Wherever in a line a list is printed, it is read back. */
  lemma {:induction false} ChannelListRoundTrip(w: string, p: nat, e: nat, entries: seq<Entry>)
    requires AllWellFormed(entries) && Holds(w, p, ExpressionText(entries))
    requires p + |ExpressionText(entries)| <= e <= |w|
    ensures ReadsBack(w, p, e, |ExpressionText(entries)|, entries)
  {
    hide WholeParse, ListText, Holds, ReadsBack, ExpressionText;
    TextIs(entries);
    ListReadsBack(w, p, e, ListText(entries), entries);
  }

  lemma {:induction false} ListReadsBack(w: string, p: nat, e: nat, list: string, entries: seq<Entry>)
    requires AllWellFormed(entries) && list == ListText(entries) && Holds(w, p, "(@" + list + ")")
    requires p + |list| + 3 <= e <= |w|
    ensures ReadsBack(w, p, e, |list| + 3, entries)
  {
    hide ListText, WholeParse, Holds, AllWellFormed, AllExpr, Expression;
    ListIsExpr(entries);
    Wrapped(w, p, e, list);
    ListHeld(w, p + 2, p + 2 + |list|, entries);
  }

  lemma TextIs(entries: seq<Entry>)
    requires AllWellFormed(entries)
    ensures ExpressionText(entries) == "(@" + ListText(entries) + ")"
    ensures |ExpressionText(entries)| == |ListText(entries)| + 3
  {
    hide ListText;
  }

  lemma Wrapped(w: string, p: nat, e: nat, list: string)
    requires Holds(w, p, "(@" + list + ")") && AllExpr(list)
    requires p + |list| + 3 <= e <= |w|
    ensures Expression(w, p, e) == Lexed(Token(ExpressionData, p, |list| + 3), p + |list| + 3)
    ensures w[p + 1] == '@' && Holds(w, p + 2, list) && w[p + 2 + |list|] == ')'
  {
    hide Holds, Span, AllExpr;
    HoldsSplit(w, p, "(@" + list + ")", "(@", list + ")");
    HoldsAt(w, p, "(@", 0);
    HoldsAt(w, p, "(@", 1);
    HoldsSplit(w, p + 2, list + ")", list, ")");
    HoldsAt(w, p + 2 + |list|, ")", 0);
    ExprHeld(w, p + 1, e, list);
  }

  lemma ExprHeld(w: string, p: nat, e: nat, list: string)
    requires AllExpr(list) && Holds(w, p + 1, list)
    requires p + 1 + |list| < e <= |w| && w[p] == '@' && w[p + 1 + |list|] == ')'
    ensures Span(w, p, e, Expr) == p + 1 + |list|
  {
    hide Holds;
    var q := p + 1 + |list|;
    forall i | p <= i < q ensures Is(w[i], Expr) {
      if i > p {
        HoldsAt(w, p + 1, list, i - (p + 1));
      }
    }
    SpanIs(w, p, e, Expr, q);
  }
}
