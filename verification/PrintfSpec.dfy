/** The formatter of Utilities/Scpi/Src/snprintf.c without a buffer: what dopr, fmtint and
    fmtstr print if nothing limits them. int, long and pointers are 32 bits wide. */
module PrintfSpec {
  import Lexer
  import opened Basics
  import opened Numerals

  type CString = s: string | '\0' !in s
    witness ""

  /** What va_arg can make of one argument: a word, a string if it is a valid pointer, a number. */
  datatype Arg = Arg(word: Int32, text: Option<CString>, number: real)

  /** The arguments of one call, by position. */
  type VaList = nat -> Arg

  datatype Flags = Flags(minus: bool, plus: bool, space: bool, num: bool, zero: bool, up: bool, unsigned: bool)

  const NO_FLAGS := Flags(false, false, false, false, false, false, false)

  function Repeat(c: char, n: int): (s: string)
    ensures |s| == Max(n, 0)
    ensures forall i :: 0 <= i < |s| ==> s[i] == c
    decreases n
  {
    if n <= 0 then "" else [c] + Repeat(c, n - 1)
  }

  // ---------- fmtint ----------

  /** The bases that conversions use. */
  predicate IsFormatBase(base: nat) {
    base == 8 || base == 10 || base == 16
  }

  /** The sign character, if any, and the unsigned value printed for a word. */
  function SignAndValue(value: Int32, flags: Flags): (r: (string, nat))
    ensures |r.0| <= 1
  {
    if flags.unsigned then ("", value % WORD)
    else if value < 0 then ("-", (0 - value as int) % WORD)
    else (if flags.plus then "+" else if flags.space then " " else "", value % WORD)
  }

  /** Padding of a number: spaces in front, zeros, spaces behind. */
  datatype Padding = Padding(front: int, zeros: int, back: int)

  function PaddingOf(place: nat, signed: nat, min: int, max: int, flags: Flags): Padding {
    var precision := Max(max, 0);
    var zpad := Max(precision - place, 0);
    var spad := Max(min - Max(precision, place) - signed, 0);
    if flags.zero then Padding(0, Max(zpad, spad), 0)
    else if flags.minus then Padding(0, zpad, spad)
    else Padding(spad, zpad, 0)
  }

  function FmtInt(value: Int32, base: nat, min: int, max: int, flags: Flags): string
    requires IsFormatBase(base)
  {
    var (sign, u) := SignAndValue(value, flags);
    var digits := DigitsOf(u, base, flags.up);
    var p := PaddingOf(|digits|, |sign|, min, max, flags);
    Repeat(' ', p.front) + sign + Repeat('0', p.zeros) + digits + Repeat(' ', p.back)
  }

  // ---------- fmtstr ----------

  function Clamp(n: int, limit: int): int {
    if n < limit then Max(n, 0) else Max(limit, 0)
  }

  function FmtStr(value: CString, flags: Flags, min: int, max: int): string {
    var pad := Max(min - |value|, 0);
    var front := if flags.minus then 0 else Clamp(pad, max);
    var body := Clamp(|value|, max - front);
    var back := if flags.minus then Clamp(pad, max - body) else 0;
    Repeat(' ', front) + value[..body] + Repeat(' ', back)
  }

  // ---------- dopr ----------

  datatype State = Default | InFlags | InMin | InDot | InMax | InMod | InConv

  datatype Length = NoLength | Short | Long | LongDouble | LongLong

  /** The machine between two rounds of the loop: the index of the current character, the
      state, the conversion read so far and the next argument. */
  datatype Machine = Machine(i: nat, state: State, flags: Flags, length: Length, min: int, max: int, arg: nat)

  const START := Machine(0, Default, NO_FLAGS, NoLength, 0, -1, 0)

  function At(format: CString, i: nat): char {
    if i < |format| then format[i] else '\0'
  }

  predicate IsFlag(c: char) {
    c == '-' || c == '+' || c == ' ' || c == '#' || c == '0'
  }

  function AddFlag(f: Flags, c: char): Flags {
    if c == '-' then f.(minus := true)
    else if c == '+' then f.(plus := true)
    else if c == ' ' then f.(space := true)
    else if c == '#' then f.(num := true)
    else f.(zero := true)
  }

  predicate IsFloat(c: char) {
    c == 'f' || c == 'e' || c == 'E' || c == 'g' || c == 'G'
  }

  function NullText(t: Option<CString>): CString {
    match t
    case None => "(NULL)"
    case Some(s) => s
  }

  function CharOf(word: int): char {
    (word % 256) as char
  }

  predicate TakesWord(c: char) {
    c == 'd' || c == 'i' || c == 'o' || c == 'u' || c == 'x' || c == 'X' || c == 'p'
  }

  function BaseOf(c: char): (b: nat)
    ensures IsFormatBase(b)
  {
    if c == 'o' then 8 else if c == 'x' || c == 'X' || c == 'p' then 16 else 10
  }

  function ConvFlags(c: char, f: Flags): Flags {
    if c == 'X' then f.(up := true, unsigned := true)
    else if c == 'o' || c == 'u' || c == 'x' then f.(unsigned := true)
    else f
  }

  /** What fmtfp prints; this model does not look inside. */
  type FloatPrinter = (char, real, int, int, Flags) -> string

  /** The text of one conversion, and how many arguments it takes. */
  function Converted(m: Machine, c: char, args: VaList, fp: FloatPrinter): (string, nat) {
    var a := args(m.arg);
    if TakesWord(c) then (FmtInt(a.word, BaseOf(c), m.min, m.max, ConvFlags(c, m.flags)), 1)
    else if IsFloat(c) then (fp(c, a.number, m.min, m.max, m.flags), 1)
    else if c == 'c' then ([CharOf(a.word)], 1)
    else if c == 's' then
      var s := NullText(a.text);
      var max := if m.max == -1 then |s| else m.max;
      (FmtStr(s, m.flags, m.min, if m.min > 0 && max >= 0 && m.min > max then m.min else max), 1)
    else if c == 'n' then ("", 1)
    else if c == '%' then ("%", 0)
    else ("", 0)
  }

  /** One round of the loop on a character that is not the terminator: text and next machine. */
  function Round(format: CString, m: Machine, args: VaList, fp: FloatPrinter): (string, Machine) {
    var c := At(format, m.i);
    match m.state
    case Default =>
      if c == '%' then ("", m.(i := m.i + 1, state := InFlags)) else ([c], m.(i := m.i + 1))
    case InFlags =>
      if IsFlag(c) then ("", m.(i := m.i + 1, flags := AddFlag(m.flags, c))) else ("", m.(state := InMin))
    case InMin =>
      if Lexer.IsDigit(c) then ("", m.(i := m.i + 1, min := 10 * m.min + Lexer.DigitValue(c)))
      else if c == '*' then ("", m.(i := m.i + 1, min := args(m.arg).word, arg := m.arg + 1, state := InDot))
      else ("", m.(state := InDot))
    case InDot =>
      if c == '.' then ("", m.(i := m.i + 1, state := InMax)) else ("", m.(state := InMod))
    case InMax =>
      if Lexer.IsDigit(c) then ("", m.(i := m.i + 1, max := 10 * Max(m.max, 0) + Lexer.DigitValue(c)))
      else if c == '*' then ("", m.(i := m.i + 1, max := args(m.arg).word, arg := m.arg + 1, state := InMod))
      else ("", m.(state := InMod))
    case InMod =>
      if c == 'h' then ("", m.(i := m.i + 1, length := Short, state := InConv))
      else if c == 'l' then
        if At(format, m.i + 1) == 'l' then ("", m.(i := m.i + 2, length := LongLong, state := InConv))
        else ("", m.(i := m.i + 1, length := Long, state := InConv))
      else if c == 'L' then ("", m.(i := m.i + 1, length := LongDouble, state := InConv))
      else ("", m.(state := InConv))
    case InConv =>
      var (text, taken) := Converted(m, c, args, fp);
      (text, START.(i := m.i + (if c == 'w' then 2 else 1), arg := m.arg + taken))
  }

  function Rank(s: State): nat {
    match s
    case Default => 6
    case InFlags => 5
    case InMin => 4
    case InDot => 3
    case InMax => 2
    case InMod => 1
    case InConv => 0
  }

  /** Everything printed from a machine on. */
  function Render(format: CString, m: Machine, args: VaList, fp: FloatPrinter): string
    decreases |format| - m.i, Rank(m.state)
  {
    if At(format, m.i) == '\0' then ""
    else
      var (text, next) := Round(format, m, args, fp);
      text + Render(format, next, args, fp)
  }

  // ---------- properties of the printed number ----------

  lemma {:induction false} ZerosInFront(n: int, s: string, base: nat)
    ensures ValueOf(Repeat('0', n) + s, base) == ValueOf(s, base)
    decreases |s|, n
  {
    var z := Repeat('0', n);
    if s == "" {
      assert z + "" == z;
      if n > 0 {
        ZerosInFront(n - 1, "", base);
        assert Repeat('0', n - 1) + "" == Repeat('0', n - 1);
        assert z[..n - 1] == Repeat('0', n - 1);
      }
    } else {
      ZerosInFront(n, s[..|s| - 1], base);
      assert (z + s)[..|z + s| - 1] == z + s[..|s| - 1];
    }
  }

  /** The absolute value that a number is printed for. */
  function PrintedValue(value: Int32, flags: Flags): nat {
    if flags.unsigned then value % WORD else Magnitude(value)
  }

  lemma ValueIsPrinted(value: Int32, flags: Flags)
    ensures SignAndValue(value, flags).1 == PrintedValue(value, flags)
    ensures SignAndValue(value, flags).0 == "-" <==> !flags.unsigned && value < 0
  {
  }

  /** What fmtint emits for a 32-bit word: spaces, a sign that is right, and digits that read
      back as the absolute value (the word itself for an unsigned conversion). */
  lemma NumberReadsBack(value: Int32, base: nat, min: int, max: int, flags: Flags)
    requires IsFormatBase(base)
    ensures var (sign, u) := SignAndValue(value, flags);
            var p := PaddingOf(|DigitsOf(u, base, flags.up)|, |sign|, min, max, flags);
            var digits := Repeat('0', p.zeros) + DigitsOf(u, base, flags.up);
            && FmtInt(value, base, min, max, flags) == Repeat(' ', p.front) + (sign + digits) + Repeat(' ', p.back)
            && ValueOf(digits, base) == PrintedValue(value, flags)
            && (sign == "-" <==> !flags.unsigned && value < 0)
  {
    hide DigitsOf, PaddingOf, Repeat, ValueOf, SignAndValue, PrintedValue;
    var (sign, u) := SignAndValue(value, flags);
    var s := DigitsOf(u, base, flags.up);
    var p := PaddingOf(|s|, |sign|, min, max, flags);
    var zeros := Repeat('0', p.zeros);
    ValueIsPrinted(value, flags);
    DigitsReadBack(u, base, flags.up);
    ZerosInFront(p.zeros, s, base);
    assert Repeat(' ', p.front) + sign + zeros + s == Repeat(' ', p.front) + (sign + (zeros + s));
  }

  /** Without width and precision: sign and digits, and nothing else. */
  lemma BareInteger(v: Int32, base: nat, flags: Flags)
    requires IsFormatBase(base) && !flags.zero && !flags.minus
    ensures var (sign, u) := SignAndValue(v, flags);
            FmtInt(v, base, 0, -1, flags) == sign + DigitsOf(u, base, flags.up)
  {
    hide DigitsOf, SignAndValue;
    var (sign, u) := SignAndValue(v, flags);
    var digits := DigitsOf(u, base, flags.up);
    assert PaddingOf(|digits|, |sign|, 0, -1, flags) == Padding(0, 0, 0);
    assert "" + sign + "" + digits + "" == sign + digits;
  }

  /** The conversion %d without anything else prints the signed number. */
  lemma PlainInteger(v: Int32)
    ensures FmtInt(v, 10, 0, -1, NO_FLAGS) == SignedText(v)
  {
    hide DigitsOf, FmtInt, SignAndValue;
    BareInteger(v, 10, NO_FLAGS);
    SignedParts(v);
  }

  lemma SignedParts(v: Int32)
    ensures SignAndValue(v, NO_FLAGS) == (if v < 0 then "-" else "", Magnitude(v))
  {
  }

  /** The width C asks for: at least min, at least sign and precision. */
  function WidthOf(value: Int32, base: nat, min: int, max: int, flags: Flags): int
    requires IsFormatBase(base)
  {
    var (sign, u) := SignAndValue(value, flags);
    Max(min, |sign| + Max(max, |DigitsOf(u, base, flags.up)|))
  }

  /** fmtint emits exactly that many characters, unless the '0' flag meets a precision that
      already asks for zeros and a wider field: then the two paddings are not added up. */
  lemma WidthExact(value: Int32, base: nat, min: int, max: int, flags: Flags)
    requires IsFormatBase(base)
    ensures var (sign, u) := SignAndValue(value, flags);
            |FmtInt(value, base, min, max, flags)| == WidthOf(value, base, min, max, flags)
            <==> !(flags.zero && max > |DigitsOf(u, base, flags.up)| && min > |sign| + max)
  {
    hide DigitsOf, Repeat, SignAndValue;
  }

  /** A format without conversions prints itself. */
  lemma {:induction false} LiteralText(format: CString, i: nat, args: VaList, fp: FloatPrinter)
    requires i <= |format| && '%' !in format
    ensures Render(format, START.(i := i), args, fp) == format[i..]
    decreases |format| - i
  {
    if i < |format| {
      assert format[i] in format;
      LiteralText(format, i + 1, args, fp);
      assert START.(i := i).(i := i + 1) == START.(i := i + 1);
    }
  }
}
