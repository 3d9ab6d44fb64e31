/** Format strings put together from their parts, and what dopr (Utilities/Scpi/Src/snprintf.c)
    makes of them: which value, base, sign, width and precision every conversion stands for. */
module Formats {
  import opened Basics
  import opened Numerals
  import opened PrintfSpec
  import opened LexerLaws

  /** A width or precision: none, a number, or an argument. */
  datatype Amount = Absent | Given(n: nat) | Star

  /** A conversion as it is written: flags, width, precision, length modifier and letter. */
  datatype Conversion = Conversion(flags: FlagSet, width: Amount, precision: Amount, length: string, letter: char)

  datatype FlagSet = FlagSet(minus: bool, plus: bool, space: bool, num: bool, zero: bool)

  /** Literal text, or a conversion. */
  datatype Piece = Literal(text: string) | Converts(conversion: Conversion)

  predicate IsConversion(c: Conversion) {
    && c.letter in {'d', 'i', 'u', 'o', 'x', 'X', 'p', 'c', 's', '%'}
    && (c.length == "" || c.length == "h" || c.length == "l" || c.length == "ll" || c.length == "L")
    && c.width != Given(0)
  }

  predicate IsPiece(p: Piece) {
    match p
    case Literal(text) => '\0' !in text && '%' !in text
    case Converts(c) => IsConversion(c)
  }

  function Mark(on: bool, c: char): string {
    if on then [c] else ""
  }

  function FlagText(f: FlagSet): string {
    Mark(f.minus, '-') + (Mark(f.plus, '+') + (Mark(f.space, ' ') + (Mark(f.num, '#') + (Mark(f.zero, '0') + ""))))
  }

  function AmountText(a: Amount): string {
    match a
    case Absent => ""
    case Given(n) => DigitsOf(n, 10, false)
    case Star => "*"
  }

  function PrecisionText(c: Conversion): string {
    if c.precision.Absent? then "" else "." + AmountText(c.precision)
  }

  function EndText(c: Conversion): string {
    c.length + [c.letter]
  }

  function ConversionText(c: Conversion): string {
    "%" + (FlagText(c.flags) + (AmountText(c.width) + (PrecisionText(c) + EndText(c))))
  }

  // ---------- what it means ----------

  /** The value of an amount, the next argument being the one numbered arg, and how many it takes. */
  function Amounts(a: Amount, absent: int, args: VaList, arg: nat): (int, nat) {
    match a
    case Absent => (absent, 0)
    case Given(n) => (n, 0)
    case Star => (args(arg).word, 1)
  }

  function FlagsOf(f: FlagSet, up: bool, unsigned: bool): Flags {
    Flags(f.minus, f.plus, f.space, f.num, f.zero, up, unsigned)
  }

  /** The letters d and i are for signed numbers, u, o, x and X for unsigned ones in the bases 10, 8
      and 16, the last in capitals; c is for a character and s for a string. */
  function Meaning(c: Conversion, width: int, precision: int, a: Arg): string {
    match c.letter
    case 'd' => FmtInt(a.word, 10, width, precision, FlagsOf(c.flags, false, false))
    case 'i' => FmtInt(a.word, 10, width, precision, FlagsOf(c.flags, false, false))
    case 'u' => FmtInt(a.word, 10, width, precision, FlagsOf(c.flags, false, true))
    case 'o' => FmtInt(a.word, 8, width, precision, FlagsOf(c.flags, false, true))
    case 'x' => FmtInt(a.word, 16, width, precision, FlagsOf(c.flags, false, true))
    case 'X' => FmtInt(a.word, 16, width, precision, FlagsOf(c.flags, true, true))
    case 'p' => FmtInt(a.word, 16, width, precision, FlagsOf(c.flags, false, false))
    case 'c' => [(a.word % 256) as char]
    case 's' =>
      var s: CString := match a.text case None => "(NULL)" case Some(t) => t;
      FmtStr(s, FlagsOf(c.flags, false, false), width, Limit(s, width, precision))
    case _ => "%"
  }

  /** How many characters a string conversion may print. */
  function Limit(s: string, width: int, precision: int): int {
    var max := if precision == -1 then |s| else precision;
    if max < 0 then max else Max(width, max)
  }

  /** A conversion in its place: width, precision and value are the next arguments. */
  function Prints(c: Conversion, args: VaList, arg: nat): (r: (string, nat)) {
    var (width, k) := Amounts(c.width, 0, args, arg);
    var (precision, l) := Amounts(c.precision, -1, args, arg + k);
    (Meaning(c, width, precision, args(arg + k + l)), k + l + (if c.letter == '%' then 0 else 1))
  }

  // ---------- the machine over a run of characters ----------

  lemma OneRound(format: CString, m: Machine, args: VaList, fp: FloatPrinter)
    requires m.i < |format|
    ensures var (text, next) := Round(format, m, args, fp);
            Render(format, m, args, fp) == text + Render(format, next, args, fp)
  {
    hide Round;
    assert format[m.i] in format;
  }

  lemma Silent(text: string)
    ensures "" + text == text
  {
  }

  predicate AreFlags(s: string) {
    forall i :: 0 <= i < |s| ==> IsFlag(s[i])
  }

  function AddFlags(f: Flags, s: string): Flags
    decreases |s|
  {
    if s == "" then f else AddFlags(AddFlag(f, s[0]), s[1..])
  }

  lemma {:induction false} FlagsRead(format: CString, m: Machine, s: string, args: VaList, fp: FloatPrinter)
    requires m.state == InFlags && AreFlags(s) && Holds(format, m.i, s) && m.i + |s| < |format|
    requires !IsFlag(format[m.i + |s|])
    ensures Render(format, m, args, fp)
         == Render(format, m.(i := m.i + |s|, flags := AddFlags(m.flags, s), state := InMin), args, fp)
    decreases |s|
  {
    hide Render, Holds;
    OneRound(format, m, args, fp);
    if s != "" {
      HoldsAt(format, m.i, s, 0);
      HoldsTail(format, m.i, s, 1);
      var next := m.(i := m.i + 1, flags := AddFlag(m.flags, s[0]));
      FlagsRead(format, next, s[1..], args, fp);
      Silent(Render(format, next, args, fp));
    } else {
      Silent(Render(format, m.(state := InMin), args, fp));
    }
  }

  lemma {:induction false} WidthRead(format: CString, m: Machine, s: string, args: VaList, fp: FloatPrinter)
    requires m.state == InMin && m.min >= 0 && Digits(s) && Holds(format, m.i, s) && m.i + |s| < |format|
    requires var c := format[m.i + |s|]; !Lexer.IsDigit(c) && c != '*'
    ensures Render(format, m, args, fp)
         == Render(format, m.(i := m.i + |s|, min := ValueOf(s, 10, m.min), state := InDot), args, fp)
    decreases |s|
  {
    hide Render, Holds, ValueOf;
    OneRound(format, m, args, fp);
    NothingIn(10, m.min);
    if s != "" {
      HoldsAt(format, m.i, s, 0);
      HoldsTail(format, m.i, s, 1);
      ReadFirst(s, 10, m.min);
      var next := m.(i := m.i + 1, min := m.min * 10 + DigitVal(s[0]));
      WidthRead(format, next, s[1..], args, fp);
      Silent(Render(format, next, args, fp));
    } else {
      Silent(Render(format, m.(state := InDot), args, fp));
    }
  }

  lemma NothingIn(base: nat, acc: nat)
    ensures ValueOf("", base, acc) == acc
  {
  }

  lemma {:induction false} PrecisionRead(format: CString, m: Machine, s: string, args: VaList, fp: FloatPrinter)
    requires m.state == InMax && (s == "" ==> m.max >= 0) && Digits(s) && Holds(format, m.i, s) && m.i + |s| < |format|
    requires var c := format[m.i + |s|]; !Lexer.IsDigit(c) && c != '*'
    ensures Render(format, m, args, fp)
         == Render(format, m.(i := m.i + |s|, max := ValueOf(s, 10, Max(m.max, 0)), state := InMod), args, fp)
    decreases |s|
  {
    hide Render, Holds, ValueOf;
    OneRound(format, m, args, fp);
    NothingIn(10, Max(m.max, 0));
    if s != "" {
      HoldsAt(format, m.i, s, 0);
      HoldsTail(format, m.i, s, 1);
      ReadFirst(s, 10, Max(m.max, 0));
      var next := m.(i := m.i + 1, max := Max(m.max, 0) * 10 + DigitVal(s[0]));
      PrecisionRead(format, next, s[1..], args, fp);
      Silent(Render(format, next, args, fp));
    } else {
      Silent(Render(format, m.(state := InMod), args, fp));
    }
  }

  // ---------- a conversion ----------

  lemma MarkRead(f: Flags, on: bool, c: char, rest: string)
    requires IsFlag(c) && AreFlags(rest)
    ensures AddFlags(f, Mark(on, c) + rest) == AddFlags(if on then AddFlag(f, c) else f, rest)
    ensures AreFlags(Mark(on, c) + rest)
  {
    hide AddFlag, IsFlag;
    assert (Mark(true, c) + rest)[1..] == rest;
    assert "" + rest == rest;
  }

  lemma FlagsAre(f: FlagSet)
    ensures AddFlags(NO_FLAGS, FlagText(f)) == FlagsOf(f, false, false) && AreFlags(FlagText(f))
  {
    hide AddFlags, AreFlags, Mark;
    var flags := NO_FLAGS;
    NoMarks(FlagsOf(f, false, false));
    MarkRead(flags.(minus := f.minus, plus := f.plus, space := f.space, num := f.num), f.zero, '0', "");
    var zero := Mark(f.zero, '0') + "";
    MarkRead(flags.(minus := f.minus, plus := f.plus, space := f.space), f.num, '#', zero);
    var num := Mark(f.num, '#') + zero;
    MarkRead(flags.(minus := f.minus, plus := f.plus), f.space, ' ', num);
    var space := Mark(f.space, ' ') + num;
    MarkRead(flags.(minus := f.minus), f.plus, '+', space);
    MarkRead(flags, f.minus, '-', Mark(f.plus, '+') + space);
  }

  lemma NoMarks(f: Flags)
    ensures AddFlags(f, "") == f && AreFlags("")
  {
  }

  lemma NumberText(n: nat)
    ensures var s := DigitsOf(n, 10, false);
            && Digits(s) && s != "" && ValueOf(s, 10) == n && Lexer.IsDigit(s[0]) && (n > 0 ==> s[0] != '0')
  {
    DigitsReadBack(n, 10, false);
    DigitsOfShape(n, 10, false);
    DecimalDigits(DigitsOf(n, 10, false), false);
    hide DigitsOf, ValueOf;
  }

  predicate Plain(c: char) {
    !IsFlag(c) && !Lexer.IsDigit(c) && c != '*' && c != '.'
  }

  lemma EndStarts(c: Conversion)
    requires IsConversion(c)
    ensures Plain(EndText(c)[0]) && Plain(c.letter) && c.letter != 'h' && c.letter != 'l' && c.letter != 'L'
    ensures c.letter != 'w'
  {
    assert EndText(c)[0] == if c.length == "" then c.letter else c.length[0];
  }

  /** What stands behind the flags and behind the width. */
  lemma TailStarts(c: Conversion)
    requires IsConversion(c)
    ensures var t := PrecisionText(c) + EndText(c);
            !IsFlag(t[0]) && !Lexer.IsDigit(t[0]) && t[0] != '*'
    ensures !IsFlag((AmountText(c.width) + (PrecisionText(c) + EndText(c)))[0])
  {
    EndStarts(c);
    if c.width.Given? {
      NumberText(c.width.n);
    }
    hide DigitsOf, EndText;
    assert (PrecisionText(c) + EndText(c))[0] == if c.precision.Absent? then EndText(c)[0] else '.';
  }

  /** The machine behind the width. */
  lemma WidthPart(format: CString, m: Machine, c: Conversion, args: VaList, fp: FloatPrinter)
    requires IsConversion(c) && m.state == InMin && m.min == 0
    requires Holds(format, m.i, AmountText(c.width)) && m.i + |AmountText(c.width)| < |format|
    requires var d := format[m.i + |AmountText(c.width)|]; !Lexer.IsDigit(d) && d != '*'
    ensures var (width, k) := Amounts(c.width, 0, args, m.arg);
            var next := m.(i := m.i + |AmountText(c.width)|, min := width, arg := m.arg + k, state := InDot);
            Render(format, m, args, fp) == Render(format, next, args, fp)
  {
    hide Render, Holds, DigitsOf, ValueOf;
    match c.width
    case Absent =>
      OneRound(format, m, args, fp);
      Silent(Render(format, m.(state := InDot), args, fp));
    case Given(n) =>
      NumberText(n);
      WidthRead(format, m, DigitsOf(n, 10, false), args, fp);
    case Star =>
      HoldsAt(format, m.i, "*", 0);
      OneRound(format, m, args, fp);
      Silent(Render(format, m.(i := m.i + 1, min := args(m.arg).word, arg := m.arg + 1, state := InDot), args, fp));
  }

  lemma PrecisionPart(format: CString, m: Machine, c: Conversion, args: VaList, fp: FloatPrinter)
    requires IsConversion(c) && m.state == InDot && m.max == -1
    requires Holds(format, m.i, PrecisionText(c)) && m.i + |PrecisionText(c)| < |format|
    requires Plain(format[m.i + |PrecisionText(c)|])
    ensures var (precision, k) := Amounts(c.precision, -1, args, m.arg);
            var next := m.(i := m.i + |PrecisionText(c)|, max := precision, arg := m.arg + k, state := InMod);
            Render(format, m, args, fp) == Render(format, next, args, fp)
  {
    hide Render, Holds, DigitsOf, ValueOf;
    OneRound(format, m, args, fp);
    if c.precision.Absent? {
      Silent(Render(format, m.(state := InMod), args, fp));
    } else {
      HoldsSplit(format, m.i, PrecisionText(c), ".", AmountText(c.precision));
      HoldsAt(format, m.i, ".", 0);
      var next := m.(i := m.i + 1, state := InMax);
      Silent(Render(format, next, args, fp));
      if c.precision.Given? {
        NumberText(c.precision.n);
        PrecisionRead(format, next, DigitsOf(c.precision.n, 10, false), args, fp);
      } else {
        HoldsAt(format, next.i, "*", 0);
        OneRound(format, next, args, fp);
        var last := next.(i := next.i + 1, max := args(m.arg).word, arg := m.arg + 1, state := InMod);
        Silent(Render(format, last, args, fp));
      }
    }
  }

  function LengthOf(s: string): Length {
    if s == "h" then Short else if s == "l" then Long else if s == "ll" then LongLong
    else if s == "L" then LongDouble else NoLength
  }

  lemma LengthPart(format: CString, m: Machine, c: Conversion, args: VaList, fp: FloatPrinter)
    requires IsConversion(c) && m.state == InMod && m.length == NoLength && Holds(format, m.i, EndText(c))
    ensures var k := m.i + |c.length|;
            && k < |format| && format[k] == c.letter
            && Render(format, m, args, fp)
               == Render(format, m.(i := k, length := LengthOf(c.length), state := InConv), args, fp)
  {
    hide Render, Holds;
    var t := EndText(c);
    HoldsAt(format, m.i, t, |c.length|);
    HoldsAt(format, m.i, t, 0);
    if c.length != "" {
      HoldsAt(format, m.i, t, 1);
    }
    HeldBound(format, m.i, t);
    EndStarts(c);
    OneRound(format, m, args, fp);
    Silent(Render(format, m.(i := m.i + |c.length|, length := LengthOf(c.length), state := InConv), args, fp));
  }

  /** From the percent sign to the width. */
  lemma FlagPart(format: CString, i: nat, arg: nat, f: FlagSet, args: VaList, fp: FloatPrinter)
    requires Holds(format, i, "%" + FlagText(f)) && i + 1 + |FlagText(f)| < |format|
    requires !IsFlag(format[i + 1 + |FlagText(f)|])
    ensures var m := START.(i := i + 1 + |FlagText(f)|, arg := arg, flags := FlagsOf(f, false, false), state := InMin);
            Render(format, START.(i := i, arg := arg), args, fp) == Render(format, m, args, fp)
  {
    hide Render, Holds, FlagText, AddFlags;
    HoldsSplit(format, i, "%" + FlagText(f), "%", FlagText(f));
    HoldsAt(format, i, "%", 0);
    var m0 := START.(i := i, arg := arg);
    var m1 := m0.(i := i + 1, state := InFlags);
    OneRound(format, m0, args, fp);
    Silent(Render(format, m1, args, fp));
    FlagsAre(f);
    FlagsRead(format, m1, FlagText(f), args, fp);
  }

  lemma ConvertedIs(c: Conversion, m: Machine, args: VaList, fp: FloatPrinter)
    requires IsConversion(c) && m.flags == FlagsOf(c.flags, false, false)
    ensures Converted(m, c.letter, args, fp)
         == (Meaning(c, m.min, m.max, args(m.arg)), if c.letter == '%' then 0 else 1)
  {
    hide FmtInt, FmtStr;
  }

  lemma ConversionParts(format: CString, i: nat, c: Conversion)
    requires IsConversion(c) && Holds(format, i, ConversionText(c))
    ensures var j := i + 1 + |FlagText(c.flags)|;
            var t := j + |AmountText(c.width)|;
            var u := t + |PrecisionText(c)|;
            && Holds(format, i, "%" + FlagText(c.flags)) && Holds(format, j, AmountText(c.width))
            && Holds(format, t, PrecisionText(c)) && Holds(format, u, EndText(c))
            && i + |ConversionText(c)| == u + |c.length| + 1 <= |format|
            && !IsFlag(format[j]) && !Lexer.IsDigit(format[t]) && format[t] != '*' && Plain(format[u])
  {
    hide Holds, FlagText, AmountText, PrecisionText;
    var end := PrecisionText(c) + EndText(c);
    var tail := AmountText(c.width) + end;
    assert ConversionText(c) == ("%" + FlagText(c.flags)) + tail;
    HoldsSplit(format, i, ConversionText(c), "%" + FlagText(c.flags), tail);
    var j := i + 1 + |FlagText(c.flags)|;
    HoldsSplit(format, j, tail, AmountText(c.width), end);
    var t := j + |AmountText(c.width)|;
    HoldsSplit(format, t, end, PrecisionText(c), EndText(c));
    TailStarts(c);
    EndStarts(c);
    HoldsAt(format, j, tail, 0);
    HoldsAt(format, t, end, 0);
    HoldsAt(format, t + |PrecisionText(c)|, EndText(c), 0);
  }

  /** A conversion prints what it means and takes its arguments, wherever it stands. */
  lemma {:induction false} ConversionRead(format: CString, i: nat, arg: nat, c: Conversion, args: VaList,
      fp: FloatPrinter)
    requires IsConversion(c) && Holds(format, i, ConversionText(c))
    ensures var (text, taken) := Prints(c, args, arg);
            Render(format, START.(i := i, arg := arg), args, fp)
            == text + Render(format, START.(i := i + |ConversionText(c)|, arg := arg + taken), args, fp)
  {
    hide Render, Holds, ConversionText, Meaning, Converted, FlagText, AmountText, PrecisionText, EndText, Amounts,
         IsConversion;
    ConversionParts(format, i, c);
    EndStarts(c);
    FlagPart(format, i, arg, c.flags, args, fp);
    var j := i + 1 + |FlagText(c.flags)|;
    var m := START.(i := j, arg := arg, flags := FlagsOf(c.flags, false, false), state := InMin);
    WidthPart(format, m, c, args, fp);
    var (width, k) := Amounts(c.width, 0, args, arg);
    var t := j + |AmountText(c.width)|;
    m := m.(i := t, min := width, arg := arg + k, state := InDot);
    PrecisionPart(format, m, c, args, fp);
    var (precision, l) := Amounts(c.precision, -1, args, arg + k);
    m := m.(i := t + |PrecisionText(c)|, max := precision, arg := arg + k + l, state := InMod);
    LengthPart(format, m, c, args, fp);
    m := m.(i := m.i + |c.length|, length := LengthOf(c.length), state := InConv);
    OneRound(format, m, args, fp);
    ConvertedIs(c, m, args, fp);
  }

  // ---------- a format ----------

  predicate ArePieces(pieces: seq<Piece>) {
    forall i :: 0 <= i < |pieces| ==> IsPiece(pieces[i])
  }

  function PieceText(p: Piece): string {
    match p
    case Literal(text) => text
    case Converts(c) => ConversionText(c)
  }

  function FormatText(pieces: seq<Piece>): string {
    if pieces == [] then "" else PieceText(pieces[0]) + FormatText(pieces[1..])
  }

  /** What a format prints, its conversions taking the arguments from the one numbered arg on. */
  function FormatMeaning(pieces: seq<Piece>, args: VaList, arg: nat): string
    decreases |pieces|
  {
    if pieces == [] then ""
    else
      match pieces[0]
      case Literal(text) => text + FormatMeaning(pieces[1..], args, arg)
      case Converts(c) =>
        var (text, taken) := Prints(c, args, arg);
        text + FormatMeaning(pieces[1..], args, arg + taken)
  }

  lemma {:induction false} LiteralRead(format: CString, i: nat, arg: nat, text: string, args: VaList, fp: FloatPrinter)
    requires '%' !in text && Holds(format, i, text)
    ensures Render(format, START.(i := i, arg := arg), args, fp)
         == text + Render(format, START.(i := i + |text|, arg := arg), args, fp)
    decreases |text|
  {
    hide Render, Holds;
    if text == "" {
      Silent(Render(format, START.(i := i, arg := arg), args, fp));
    } else {
      HoldsAt(format, i, text, 0);
      HoldsTail(format, i, text, 1);
      HeldBound(format, i, text);
      assert text[0] in text;
      OneRound(format, START.(i := i, arg := arg), args, fp);
      LiteralRead(format, i + 1, arg, text[1..], args, fp);
      assert START.(i := i, arg := arg).(i := i + 1) == START.(i := i + 1, arg := arg);
      assert text == [text[0]] + text[1..];
    }
  }

  lemma HeldBound(w: string, p: nat, s: string)
    requires Holds(w, p, s)
    ensures p + |s| <= |w|
  {
  }

  lemma {:induction false} PiecesRead(format: CString, i: nat, arg: nat, pieces: seq<Piece>, args: VaList,
      fp: FloatPrinter)
    requires ArePieces(pieces) && Holds(format, i, FormatText(pieces)) && i + |FormatText(pieces)| == |format|
    ensures Render(format, START.(i := i, arg := arg), args, fp) == FormatMeaning(pieces, args, arg)
    decreases |pieces|
  {
    hide Holds, ConversionText, Prints, IsConversion, Round, Render, FormatMeaning, FormatText;
    if pieces == [] {
      NothingPrinted(format, i, arg, args, fp);
    } else {
      FormatParts(pieces, args, arg);
      HoldsSplit(format, i, FormatText(pieces), PieceText(pieces[0]), FormatText(pieces[1..]));
      match pieces[0] {
        case Literal(text) =>
          LiteralRead(format, i, arg, text, args, fp);
          PiecesRead(format, i + |text|, arg, pieces[1..], args, fp);
        case Converts(c) =>
          ConversionRead(format, i, arg, c, args, fp);
          PiecesRead(format, i + |ConversionText(c)|, arg + Prints(c, args, arg).1, pieces[1..], args, fp);
      }
    }
  }

  lemma NothingPrinted(format: CString, i: nat, arg: nat, args: VaList, fp: FloatPrinter)
    requires i + |FormatText([])| == |format|
    ensures Render(format, START.(i := i, arg := arg), args, fp) == "" == FormatMeaning([], args, arg)
  {
  }

  lemma FormatParts(pieces: seq<Piece>, args: VaList, arg: nat)
    requires pieces != []
    ensures FormatText(pieces) == PieceText(pieces[0]) + FormatText(pieces[1..])
    ensures pieces[0].Literal? ==>
              FormatMeaning(pieces, args, arg) == pieces[0].text + FormatMeaning(pieces[1..], args, arg)
    ensures pieces[0].Converts? ==>
              var (text, taken) := Prints(pieces[0].conversion, args, arg);
              FormatMeaning(pieces, args, arg) == text + FormatMeaning(pieces[1..], args, arg + taken)
  {
    hide PieceText, Prints;
  }

  /** A format string prints its literal text, and for each conversion what it means for the next
      argument. */
  lemma {:induction false} FormatRoundTrip(pieces: seq<Piece>, args: VaList, fp: FloatPrinter)
    requires ArePieces(pieces) && '\0' !in FormatText(pieces)
    ensures Render(FormatText(pieces), START, args, fp) == FormatMeaning(pieces, args, 0)
  {
    hide Render, FormatText, FormatMeaning;
    var format := FormatText(pieces);
    assert format[0..0 + |format|] == format;
    PiecesRead(format, 0, 0, pieces, args, fp);
    assert START.(i := 0, arg := 0) == START;
  }

  // ---------- the layout of a conversion ----------

  /** Where the spaces and zeros of a number go: spaces in front unless '-' or '0' is given, behind
      with '-', zeros for the precision or for '0', and the sign that value and flags call for. */
  lemma IntLayout(value: Int32, base: nat, min: int, max: int, flags: Flags)
    returns (front: nat, zeros: nat, back: nat, sign: string)
    requires IsFormatBase(base)
    ensures var digits := DigitsOf(if flags.unsigned then value % WORD else Magnitude(value), base, flags.up);
            && FmtInt(value, base, min, max, flags)
               == Repeat(' ', front) + sign + Repeat('0', zeros) + digits + Repeat(' ', back)
            && zeros >= max - |digits|
            && (zeros > Max(0, max - |digits|) ==> flags.zero)
    ensures front > 0 ==> !flags.minus && !flags.zero
    ensures back > 0 ==> flags.minus && !flags.zero
    ensures sign == if flags.unsigned then "" else if value < 0 then "-"
                    else if flags.plus then "+" else if flags.space then " " else ""
  {
    hide DigitsOf, Repeat;
    ValueIsPrinted(value, flags);
    var u := SignAndValue(value, flags).1;
    sign := SignAndValue(value, flags).0;
    var p := PaddingOf(|DigitsOf(u, base, flags.up)|, |sign|, min, max, flags);
    front, zeros, back := p.front, p.zeros, p.back;
  }

  /** A string stands in its field, on the left with '-' and on the right without, cut to the
      precision, or to the field if that is wider. */
  lemma StringLayout(c: Conversion, width: nat, precision: nat, s: CString, a: Arg)
    requires c.letter == 's' && a.text.Some? && a.text.value == s
    ensures var shown := s[..Min(|s|, Max(width, precision))];
            var blanks := Repeat(' ', Max(width - |s|, 0));
            Meaning(c, width, precision, a) == if c.flags.minus then shown + blanks else blanks + shown
    ensures var blanks := Repeat(' ', Max(width - |s|, 0));
            Meaning(c, width, -1, a) == if c.flags.minus then s + blanks else blanks + s
  {
    hide Repeat;
    NoSpaces(s);
    NoSpaces(s[..Min(|s|, Max(width, precision))]);
    assert s[..|s|] == s;
  }

  lemma NoSpaces(s: string)
    ensures Repeat(' ', 0) + s == s == s + Repeat(' ', 0)
  {
  }

  /** So a precision cuts the string to its length if and only if the field is not wider, or the
      string is short enough anyway. */
  lemma StringPrecision(width: nat, precision: nat, s: string)
    ensures Min(|s|, Max(width, precision)) == Min(|s|, precision) <==> !(precision < width && precision < |s|)
  {
  }

  /** With %5.2s the text abcdef is shown as abcde, where C shows ab behind three spaces. */
  lemma {:induction false} PrecisionIgnored(a: Arg)
    requires a.text.Some? && a.text.value == "abcdef"
    ensures var c := Conversion(FlagSet(false, false, false, false, false), Given(5), Given(2), "", 's');
            ConversionText(c) == "%5.2s" && Meaning(c, 5, 2, a) == "abcde"
  {
    var c := Conversion(FlagSet(false, false, false, false, false), Given(5), Given(2), "", 's');
    assert AmountText(c.width) == "5" && AmountText(c.precision) == "2";
    assert PrecisionText(c) == ".2" && EndText(c) == "s" && FlagText(c.flags) == "";
    assert "5" + (".2" + "s") == "5.2s" && "" + "5.2s" == "5.2s" && "%" + "5.2s" == "%5.2s";
    hide Meaning;
    StringLayout(c, 5, 2, "abcdef", a);
    NoSpaces("abcde");
    assert "abcdef"[..5] == "abcde";
  }
}
