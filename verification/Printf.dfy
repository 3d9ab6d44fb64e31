/** The bounded formatter of Utilities/Scpi/Src/snprintf.c, proved against the unbounded one of
    PrintfSpec. */
module Printf {
  import opened PrintfSpec
  import Lexer
  import opened Basics
  import opened Numerals

  function Reversed(s: string): (r: string)
    ensures |r| == |s|
  {
    if s == "" then "" else [s[|s| - 1]] + Reversed(s[..|s| - 1])
  }

  lemma QuotientShrinks(u: nat, base: nat, n: nat)
    requires base >= 8 && n > 0 && u < Pow(8, n)
    ensures u / base < Pow(8, n - 1)
  {
    assert u == u / base * base + u % base;
    assert u / base * 8 <= u / base * base;
  }

  lemma {:induction false} MoreText(a: string, b: string, c: string)
    ensures (a + b) + c == a + (b + c)
  {
  }

  /** The destination of a call: dopr's buffer, maxlen and currlen. */
  class Out {
    const buffer: array<char>
    const maxlen: nat
    var currlen: nat
    ghost const before: string
    ghost var text: string

    /** currlen counts the whole text; the buffer holds the part of it that fits. */
    ghost predicate Valid()
      reads this, buffer
    {
      && maxlen <= buffer.Length == |before|
      && currlen == |text|
      && var k := Min(currlen, maxlen);
         buffer[..] == text[..k] + before[k..]
    }

    constructor (buffer: array<char>, maxlen: nat)
      requires maxlen <= buffer.Length
      ensures Valid() && text == "" && this.buffer == buffer && this.maxlen == maxlen
      ensures before == buffer[..]
    {
      this.buffer, this.maxlen, currlen := buffer, maxlen, 0;
      before, text := buffer[..], "";
    }

    // dopr_outch
    method Outch(c: char)
      requires Valid()
      modifies this, buffer
      ensures Valid() && text == old(text) + [c]
    {
      if currlen < maxlen {
        buffer[currlen] := c;
      }
      currlen := currlen + 1;
      text := text + [c];
    }

    method Pad(c: char, n: int)
      requires Valid()
      modifies this, buffer
      ensures Valid() && text == old(text) + Repeat(c, n)
    {
      hide Valid;
      var left := n;
      while left > 0
        invariant Valid() && text + Repeat(c, left) == old(text) + Repeat(c, n)
      {
        ghost var t := text;
        Outch(c);
        MoreText(t, [c], Repeat(c, left - 1));
        left := left - 1;
      }
    }

    method Emit(s: string)
      requires Valid()
      modifies this, buffer
      ensures Valid() && text == old(text) + s
    {
      hide Valid;
      for i := 0 to |s|
        invariant Valid() && text == old(text) + s[..i]
      {
        Outch(s[i]);
      }
    }

    method EmitDown(convert: array<char>, place: nat)
      requires Valid() && place <= convert.Length && convert != buffer
      modifies this, buffer
      ensures Valid() && text == old(text) + Reversed(convert[..place])
    {
      hide Valid;
      var p: nat := place;
      assert text + Reversed(convert[..place]) == old(text) + Reversed(convert[..place]);
      while p > 0
        invariant Valid() && p <= place && convert[..] == old(convert[..])
        invariant text + Reversed(convert[..p]) == old(text) + Reversed(old(convert[..place]))
      {
        ghost var t := text;
        p := p - 1;
        assert convert[..p + 1][..p] == convert[..p];
        Outch(convert[p]);
        MoreText(t, [convert[p]], Reversed(convert[..p]));
      }
      assert convert[..0] == "";
    }

    // The end of dopr.
    method Terminate()
      requires Valid()
      modifies buffer
      ensures maxlen == 0 ==> buffer[..] == before
      ensures maxlen > 0 ==>
                var k := Min(currlen, maxlen - 1);
                buffer[..k + 1] == text[..k] + ['\0'] && buffer[k + 1..] == before[k + 1..]
    {
      if maxlen != 0 {
        if currlen < maxlen - 1 {
          buffer[currlen] := '\0';
        } else if maxlen > 0 {
          buffer[maxlen - 1] := '\0';
        }
      }
    }

    // fmtint
    method FmtIntTo(value: Int32, base: nat, min: int, max: int, flags: Flags)
      requires Valid() && IsFormatBase(base)
      modifies this, buffer
      ensures Valid() && text == old(text) + FmtInt(value, base, min, max, flags)
    {
      hide Valid, Repeat, DigitsOf, PaddingOf, SignAndValue, Reversed;
      var sign, uvalue := Sign(value, flags);
      var convert := new char[20];
      var place := StoreDigits(convert, uvalue, base, flags.up);
      var zpadlen, spadlen := Pads(place, |sign|, min, max, flags);
      ghost var p := PaddingOf(place, |sign|, min, max, flags);
      ghost var digits := DigitsOf(uvalue, base, flags.up);
      Pad(' ', spadlen);
      Emit(sign);
      Pad('0', zpadlen);
      EmitDown(convert, place);
      Pad(' ', -spadlen);
      Joined(old(text), Repeat(' ', p.front), sign, Repeat('0', p.zeros), digits, Repeat(' ', p.back));
    }

    // fmtstr
    method FmtStrTo(value: CString, flags: Flags, min: int, max: int)
      requires Valid()
      modifies this, buffer
      ensures Valid() && text == old(text) + FmtStr(value, flags, min, max)
    {
      hide Valid, Repeat, FmtStr, Clamp;
      ghost var pad := Max(min - |value|, 0);
      var padlen := min - |value|;
      if padlen < 0 {
        padlen := 0;
      }
      if flags.minus {
        padlen := -padlen;
      }
      ghost var front := if flags.minus then 0 else Clamp(pad, max);
      ghost var body := Clamp(|value|, max - front);
      if flags.minus {
        NothingLeft(padlen, max);
      } else {
        NothingLeft(-padlen, max - front - body);
      }
      var cnt := PadUpTo(padlen, 0, max);
      StrParts(old(text), value, flags, min, max);
      ghost var t := text;
      var v := 0;
      assert text == t + value[..0];
      while v < |value| && cnt < max
        invariant Valid() && 0 <= v <= |value| && cnt == front + v && (v > 0 ==> cnt <= max)
        invariant text == t + value[..v]
      {
        assert value[..v + 1] == value[..v] + [value[v]];
        MoreText(t, value[..v], [value[v]]);
        Outch(value[v]);
        v := v + 1;
        cnt := cnt + 1;
      }
      ClampAt(v, |value|, max - front);
      var _ := PadUpTo(-padlen, cnt, max);
    }

    // The first and the last loop of fmtstr.
    method PadUpTo(padlen: int, from: nat, max: int) returns (cnt: nat)
      requires Valid()
      modifies this, buffer
      ensures Valid() && text == old(text) + Repeat(' ', Clamp(padlen, max - from))
      ensures cnt == from + Clamp(padlen, max - from)
    {
      hide Valid, Repeat;
      NothingRepeated();
      assert text == text + "";
      var left := padlen;
      cnt := from;
      while left > 0 && cnt < max
        invariant Valid() && from <= cnt <= from + Clamp(padlen, max - from)
        invariant left == padlen - (cnt - from)
        invariant text == old(text) + Repeat(' ', cnt - from)
      {
        ghost var n := cnt - from;
        OneMore(' ', n);
        MoreText(old(text), Repeat(' ', n), " ");
        Outch(' ');
        left := left - 1;
        cnt := cnt + 1;
      }
    }

    // The cases of state DP_S_CONV.
    method Convert(c: char, m: Machine, args: VaList, fp: FloatPrinter) returns (taken: nat)
      requires Valid()
      modifies this, buffer
      ensures Valid() && text == old(text) + Converted(m, c, args, fp).0
      ensures taken == Converted(m, c, args, fp).1
    {
      hide Valid, FmtInt, FmtStr, NullText, CharOf;
      var a := args(m.arg);
      taken := 1;
      if TakesWord(c) {
        FmtIntTo(a.word, BaseOf(c), m.min, m.max, ConvFlags(c, m.flags));
      } else if IsFloat(c) {
        Emit(fp(c, a.number, m.min, m.max, m.flags));
      } else if c == 'c' {
        Outch(CharOf(a.word));
      } else if c == 's' {
        var s := NullText(a.text);
        var max := m.max;
        if max == -1 {
          max := |s|;
        }
        if m.min > 0 && max >= 0 && m.min > max {
          max := m.min;
        }
        FmtStrTo(s, m.flags, m.min, max);
      } else if c == 'n' {
      } else if c == '%' {
        Outch('%');
        taken := 0;
      } else {
        taken := 0;
      }
    }
  }

  lemma OneMore(c: char, n: nat)
    ensures Repeat(c, n + 1) == Repeat(c, n) + [c]
  {
  }

  /** The sign and the magnitude that fmtint starts from. */
  method Sign(value: Int32, flags: Flags) returns (sign: string, uvalue: nat)
    ensures (sign, uvalue) == SignAndValue(value, flags) && uvalue < WORD
  {
    sign, uvalue := "", value % WORD;
    if !flags.unsigned {
      if value < 0 {
        sign, uvalue := "-", (0 - value as int) % WORD;
      } else if flags.plus {
        sign := "+";
      } else if flags.space {
        sign := " ";
      }
    }
  }

  /** The pad counts of fmtint; a negative spadlen means spaces behind. */
  method Pads(place: nat, signed: nat, min: int, max: int, flags: Flags) returns (zpadlen: int, spadlen: int)
    ensures var p := PaddingOf(place, signed, min, max, flags);
            && zpadlen == p.zeros
            && Repeat(' ', spadlen) == Repeat(' ', p.front)
            && Repeat(' ', -spadlen) == Repeat(' ', p.back)
  {
    var precision := if max < 0 then 0 else max;
    zpadlen := precision - place;
    spadlen := min - Max(precision, place) - signed;
    if zpadlen < 0 {
      zpadlen := 0;
    }
    if spadlen < 0 {
      spadlen := 0;
    }
    if flags.zero {
      zpadlen := Max(zpadlen, spadlen);
      spadlen := 0;
    }
    if flags.minus {
      spadlen := -spadlen;
    }
  }

  lemma NothingRepeated()
    ensures Repeat(' ', 0) == ""
  {
  }

  lemma ClampAt(v: nat, n: nat, limit: int)
    requires v <= n && (v > 0 ==> v <= limit) && (v == n || v >= limit)
    ensures v == Clamp(n, limit)
  {
  }

  lemma NothingLeft(n: int, max: int)
    requires n <= 0
    ensures Clamp(n, max) == 0
  {
  }

  lemma StrParts(t: string, value: CString, flags: Flags, min: int, max: int)
    ensures var pad := Max(min - |value|, 0);
            var front := if flags.minus then 0 else Clamp(pad, max);
            var body := Clamp(|value|, max - front);
            var back := if flags.minus then Clamp(pad, max - front - body) else 0;
            && body <= |value|
            && t + Repeat(' ', front) + value[..body] + Repeat(' ', back) == t + FmtStr(value, flags, min, max)
  {
    hide Repeat;
  }

  lemma Joined(t: string, a: string, b: string, c: string, d: string, e: string)
    ensures t + a + b + c + d + e == t + (a + b + c + d + e)
  {
  }

  /** One round of the digit loop: the digit it stores and the value it leaves. */
  predicate IsStep(u: nat, base: nat, caps: bool, c: char, rest: nat)
    requires IsFormatBase(base)
  {
    c == DigitChar(u % base, caps) && rest == u / base
  }

  lemma DigitStep(u: nat, base: nat, caps: bool, done: string, c: char, rest: nat, n: nat)
    requires IsFormatBase(base) && IsStep(u, base, caps, c, rest)
    requires n > 0 && u < Pow(8, n)
    ensures DigitsOf(u, base, caps) + Reversed(done)
            == Left(rest, base, caps) + Reversed(done + [c])
    ensures rest < Pow(8, n - 1) && (rest == 0 || rest < u)
  {
    hide Pow;
    QuotientShrinks(u, base, n);
    assert (done + [c])[..|done|] == done;
    assert Reversed(done + [c]) == [c] + Reversed(done);
    if u < base {
      assert u / base == 0 && u % base == u;
    } else {
      assert u / base > 0;
      MoreText(DigitsOf(u / base, base, caps), [c], Reversed(done));
    }
  }

  method Step(convert: array<char>, place: nat, u: nat, base: nat, caps: bool, ghost n: nat) returns (rest: nat)
    requires IsFormatBase(base) && place < convert.Length
    requires n > 0 && u < Pow(8, n)
    modifies convert
    ensures rest < Pow(8, n - 1) && (rest == 0 || rest < u)
    ensures Left(rest, base, caps) + Reversed(convert[..place + 1])
            == DigitsOf(u, base, caps) + old(Reversed(convert[..place]))
  {
    hide DigitsOf, Reversed, Pow;
    ghost var done := convert[..place];
    convert[place] := DigitChar(u % base, caps);
    rest := u / base;
    assert convert[..place + 1] == done + [convert[place]];
    DigitStep(u, base, caps, done, convert[place], rest, n);
  }

  /** The digits still to be stored when a round has left u. */
  function Left(u: nat, base: nat, caps: bool): string
    requires IsFormatBase(base)
  {
    if u == 0 then "" else DigitsOf(u, base, caps)
  }

  lemma NothingReversed(a: string)
    ensures "" + a == a + Reversed("") == a
  {
  }

  /** The do-while loop of fmtint: the digits, least significant first. The bound of 20 cells
      is never met. */
  method StoreDigits(convert: array<char>, value: nat, base: nat, caps: bool) returns (place: nat)
    requires convert.Length == 20 && value < WORD && IsFormatBase(base)
    modifies convert
    ensures place <= 11 && Reversed(convert[..place]) == DigitsOf(value, base, caps)
    ensures place == |DigitsOf(value, base, caps)|
  {
    PowersOfEight();
    assert IsRadix(base);
    hide DigitsOf, Pow, Reversed, IsFormatBase, IsRadix;
    ghost var digits := DigitsOf(value, base, caps);
    NothingReversed(digits);
    ghost var n: nat := 10;
    assert convert[..0] == "";
    var u: nat := Step(convert, 0, value, base, caps, 11);
    place := 1;
    while u != 0 && place < 20
      invariant 0 <= place + n == 11 && u < Pow(8, n)
      invariant Left(u, base, caps) + Reversed(convert[..place]) == digits
      decreases u
    {
      u := Step(convert, place, u, base, caps, n);
      place := place + 1;
      n := n - 1;
    }
    NothingReversed(Reversed(convert[..place]));
  }

  lemma RenderStep(format: CString, m: Machine, args: VaList, fp: FloatPrinter)
    ensures Render(format, m, args, fp)
            == (if At(format, m.i) == '\0' then ""
                else Round(format, m, args, fp).0 + Render(format, Round(format, m, args, fp).1, args, fp))
  {
  }

  lemma RoundAdvances(format: CString, m: Machine, args: VaList, fp: FloatPrinter)
    requires At(format, m.i) != '\0'
    ensures var next := Round(format, m, args, fp).1;
            |format| - next.i < |format| - m.i || (next.i == m.i && Rank(next.state) < Rank(m.state))
    ensures m.i < |format|
  {
    hide Converted;
  }

  /** dopr: the return value counts the unlimited text; the buffer keeps the part of it that
      fits, ended by a terminator, and nothing behind the terminator is written. */
  method Dopr(buffer: array<char>, maxlen: nat, format: CString, args: VaList, fp: FloatPrinter) returns (n: nat)
    requires maxlen <= buffer.Length
    modifies buffer
    ensures var text := Render(format, START, args, fp);
            && n == |text|
            && (maxlen == 0 ==> buffer[..] == old(buffer[..]))
            && (maxlen > 0 ==>
                  var k := Min(n, maxlen - 1);
                  && buffer[..k + 1] == text[..k] + ['\0']
                  && buffer[k + 1..] == old(buffer[k + 1..]))
  {
    var out := new Out(buffer, maxlen);
    Scan(out, format, args, fp);
    n := out.currlen;
    out.Terminate();
  }

  /** The loop of dopr, one round at a time. */
  method Scan(out: Out, format: CString, args: VaList, fp: FloatPrinter)
    requires out.Valid() && out.text == ""
    modifies out, out.buffer
    ensures out.Valid() && out.text == Render(format, START, args, fp)
  {
    hide Render, Out.Valid, Converted, At, IsFlag, AddFlag, Lexer.DigitValue;
    var state, flags, length, min, max := Default, NO_FLAGS, NoLength, 0, -1;
    var i: nat, arg: nat := 0, 0;
    var ch := At(format, 0);
    assert "" + Render(format, START, args, fp) == Render(format, START, args, fp);
    while true
      invariant out.Valid() && ch == At(format, i)
      invariant out.text + Render(format, Machine(i, state, flags, length, min, max, arg), args, fp)
                == Render(format, START, args, fp)
      decreases |format| - i, Rank(state)
    {
      ghost var m := Machine(i, state, flags, length, min, max, arg);
      RenderStep(format, m, args, fp);
      if ch == '\0' {
        break;
      }
      RoundAdvances(format, m, args, fp);
      ghost var (text, next) := Round(format, m, args, fp);
      MoreText(out.text, text, Render(format, next, args, fp));
      match state {
      case Default =>
        if ch == '%' {
          state := InFlags;
        } else {
          out.Outch(ch);
        }
        i := i + 1;
      case InFlags =>
        if IsFlag(ch) {
          flags := AddFlag(flags, ch);
          i := i + 1;
        } else {
          state := InMin;
        }
      case InMin =>
        if Lexer.IsDigit(ch) {
          min := 10 * min + Lexer.DigitValue(ch);
          i := i + 1;
        } else if ch == '*' {
          min := args(arg).word;
          arg := arg + 1;
          i := i + 1;
          state := InDot;
        } else {
          state := InDot;
        }
      case InDot =>
        if ch == '.' {
          state := InMax;
          i := i + 1;
        } else {
          state := InMod;
        }
      case InMax =>
        if Lexer.IsDigit(ch) {
          if max < 0 {
            max := 0;
          }
          max := 10 * max + Lexer.DigitValue(ch);
          i := i + 1;
        } else if ch == '*' {
          max := args(arg).word;
          arg := arg + 1;
          i := i + 1;
          state := InMod;
        } else {
          state := InMod;
        }
      case InMod =>
        if ch == 'h' {
          length := Short;
          i := i + 1;
        } else if ch == 'l' {
          length := Long;
          i := i + 1;
          if At(format, i) == 'l' {
            length := LongLong;
            i := i + 1;
          }
        } else if ch == 'L' {
          length := LongDouble;
          i := i + 1;
        }
        state := InConv;
      case InConv =>
        var taken := out.Convert(ch, Machine(i, state, flags, length, min, max, arg), args, fp);
        arg := arg + taken;
        if ch == 'w' {
          i := i + 1;
        }
        i := i + 1;
        state, flags, length, min, max := Default, NO_FLAGS, NoLength, 0, -1;
      }
      ch := At(format, i);
    }
  }
}
