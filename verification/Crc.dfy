/** Table-driven CRC-CCITT (Src/Src/crc.c), generator polynomial x^16 + x^12 + x^5 + 1
    of ITU-T V.41 section 2. The reference is the serial shift register that takes one
    message bit at a time; the byte-wise update with its 256-entry table refines it. */
module Crc {

  const P_CCITT: bv16 := 0x1021

  // ---------- the serial register ----------

  predicate Top(x: bv16) {
    x & 0x8000 != 0
  }

  function Xor(x: bv16, y: bv16): bv16 {
    x ^ y
  }

  function Double(x: bv16): bv16 {
    x << 1
  }

  function High(ch: bv8): bv16 {
    (ch as bv16) << 8
  }

  /** One clock of the V.41 register: the feedback is the outgoing bit plus the message bit. */
  function Clock(crc: bv16, bit: bool): bv16 {
    if Top(crc) != bit then Xor(Double(crc), P_CCITT) else Double(crc)
  }

  /** Clocks in the n leading bits of ch, most significant bit first. */
  function Feed(crc: bv16, ch: bv16, n: nat): bv16
    decreases n
  {
    if n == 0 then crc else Feed(Clock(crc, Top(ch)), Double(ch), n - 1)
  }

  /** The serial register after all eight bits of one byte. */
  function SerialByte(crc: bv16, ch: bv8): bv16 {
    Feed(crc, High(ch), 8)
  }

  function SerialMessage(crc: bv16, msg: seq<bv8>): bv16
    decreases |msg|
  {
    if msg == [] then crc else SerialMessage(SerialByte(crc, msg[0]), msg[1..])
  }

  // ---------- laws of single word operations ----------

  lemma XorAssoc(x: bv16, y: bv16, z: bv16)
    ensures Xor(Xor(x, y), z) == Xor(x, Xor(y, z))
  {
  }

  lemma XorComm(x: bv16, y: bv16)
    ensures Xor(x, y) == Xor(y, x)
  {
  }

  lemma XorZero(x: bv16)
    ensures Xor(x, 0) == x
  {
  }

  lemma XorSwap(a: bv16, b: bv16, c: bv16, d: bv16)
    ensures Xor(Xor(a, b), Xor(c, d)) == Xor(Xor(a, c), Xor(b, d))
  {
    hide Xor;
    XorAssoc(a, b, Xor(c, d));
    XorAssoc(b, c, d);
    XorComm(b, c);
    XorAssoc(c, b, d);
    XorAssoc(a, c, Xor(b, d));
  }

  lemma XorCancel(x: bv16, y: bv16, z: bv16)
    requires Xor(x, z) == Xor(y, z)
    ensures x == y
  {
  }

  lemma DoubleXor(x: bv16, y: bv16)
    ensures Double(Xor(x, y)) == Xor(Double(x), Double(y))
  {
  }

  lemma TopXor(x: bv16, y: bv16)
    ensures Top(Xor(x, y)) == (Top(x) != Top(y))
  {
    assert (x ^ y) & 0x8000 == (x & 0x8000) ^ (y & 0x8000);
    assert x & 0x8000 == 0 || x & 0x8000 == 0x8000;
    assert y & 0x8000 == 0 || y & 0x8000 == 0x8000;
  }

  lemma LowBits(x: bv16, y: bv16)
    ensures Xor(Double(x), P_CCITT) != Double(y)
  {
    assert (x << 1) & 1 == 0;
    assert (y << 1) & 1 == 0;
    assert ((x << 1) ^ 0x1021) & 1 == 1;
  }

  lemma HalvesAgree(x: bv16, y: bv16)
    requires Double(x) == Double(y)
    requires Top(x) == Top(y)
    ensures x == y
  {
    assert x & 0x8000 == 0 || x & 0x8000 == 0x8000;
    assert y & 0x8000 == 0 || y & 0x8000 == 0x8000;
  }

  // ---------- the zero-input shift is linear and loses nothing ----------

  /** The register clocked with a zero message bit. */
  function Shift(x: bv16): bv16 {
    Xor(Double(x), Mask(x))
  }

  function Mask(x: bv16): bv16 {
    if Top(x) then P_CCITT else 0
  }

  function ShiftN(x: bv16, n: nat): bv16
    decreases n
  {
    if n == 0 then x else ShiftN(Shift(x), n - 1)
  }

  lemma MaskXor(x: bv16, y: bv16)
    ensures Mask(Xor(x, y)) == Xor(Mask(x), Mask(y))
  {
    hide Xor, Top;
    TopXor(x, y);
    assert Xor(P_CCITT, P_CCITT) == 0 && Xor(P_CCITT, 0) == P_CCITT && Xor(0, P_CCITT) == P_CCITT && Xor(0, 0) == 0 by {
      MaskCases();
    }
  }

  lemma MaskCases()
    ensures Xor(P_CCITT, P_CCITT) == 0 && Xor(P_CCITT, 0) == P_CCITT && Xor(0, P_CCITT) == P_CCITT && Xor(0, 0) == 0
  {
  }

  lemma ShiftLinear(x: bv16, y: bv16)
    ensures Shift(Xor(x, y)) == Xor(Shift(x), Shift(y))
  {
    hide Xor, Double, Mask, Top;
    DoubleXor(x, y);
    MaskXor(x, y);
    XorSwap(Double(x), Double(y), Mask(x), Mask(y));
  }

  lemma {:induction false} ShiftNLinear(x: bv16, y: bv16, n: nat)
    ensures ShiftN(Xor(x, y), n) == Xor(ShiftN(x, n), ShiftN(y, n))
    decreases n
  {
    hide Xor, Shift;
    if n > 0 {
      ShiftLinear(x, y);
      ShiftNLinear(Shift(x), Shift(y), n - 1);
    }
  }

  /** The generator has its lowest bit set, so no clock loses information. */
  lemma ShiftInjective(x: bv16, y: bv16)
    requires Shift(x) == Shift(y)
    ensures x == y
  {
    hide Xor, Double, Top;
    LowBits(x, y);
    LowBits(y, x);
    XorZero(Double(x));
    XorZero(Double(y));
    assert Top(x) == Top(y);
    XorCancel(Double(x), Double(y), Mask(x));
    HalvesAgree(x, y);
  }

  lemma {:induction false} ShiftNInjective(x: bv16, y: bv16, n: nat)
    requires ShiftN(x, n) == ShiftN(y, n)
    ensures x == y
    decreases n
  {
    hide Shift;
    if n > 0 {
      ShiftNInjective(Shift(x), Shift(y), n - 1);
      ShiftInjective(x, y);
    }
  }

  // ---------- eight clocks at a time ----------

  function Left(x: bv16, n: nat): bv16
    decreases n
  {
    if n == 0 then x else Left(Double(x), n - 1)
  }

  lemma ShiftOfSmall(x: bv16)
    requires x < 0x8000
    ensures Shift(x) == Double(x)
  {
    assert x & 0x8000 == 0;
  }

  lemma SmallDoubles(x: bv16, k: bv16)
    requires 0 < k <= 0x4000
    requires x < k
    ensures Double(x) < 2 * k
  {
  }

  function Room(n: nat): bv16
    requires 1 <= n <= 8
  {
    match n
    case 1 => 0x8000
    case 2 => 0x4000
    case 3 => 0x2000
    case 4 => 0x1000
    case 5 => 0x800
    case 6 => 0x400
    case 7 => 0x200
    case 8 => 0x100
  }

  /** A word that leaves room for n doublings meets no feedback in n clocks. */
  lemma {:induction false} ShiftOfRoomy(x: bv16, n: nat)
    requires 1 <= n <= 8 && x < Room(n)
    ensures ShiftN(x, n) == Left(x, n)
    decreases n
  {
    hide Shift, Double;
    assert x < 0x8000;
    ShiftOfSmall(x);
    if n > 1 {
      SmallDoubles(x, Room(n));
      ShiftOfRoomy(Double(x), n - 1);
    }
  }

  lemma LeftEight(x: bv16)
    ensures Left(x, 8) == x << 8
  {
    var d := x << 4;
    assert Left(x, 8) == Left(d, 4) by { LeftFour(x, 4); }
    assert Left(d, 4) == Left(d << 4, 0) by { LeftFour(d, 0); }
  }

  lemma LeftFour(x: bv16, n: nat)
    ensures Left(x, n + 4) == Left(x << 4, n)
  {
    var a := Double(x);
    var b := Double(a);
    var c := Double(b);
    assert Left(x, n + 4) == Left(a, n + 3);
    assert Left(a, n + 3) == Left(b, n + 2);
    assert Left(b, n + 2) == Left(c, n + 1);
    assert Left(c, n + 1) == Left(Double(c), n);
    assert Double(c) == x << 4;
  }

  lemma ClockIsShift(crc: bv16, ch: bv16)
    ensures Xor(Clock(crc, Top(ch)), Double(ch)) == Shift(Xor(crc, ch))
  {
    hide Xor, Double, Top;
    TopXor(crc, ch);
    DoubleXor(crc, ch);
    XorZero(Xor(Double(crc), Double(ch)));
    XorAssoc(Double(crc), P_CCITT, Double(ch));
    XorComm(P_CCITT, Double(ch));
    XorAssoc(Double(crc), Double(ch), P_CCITT);
  }

  /** Feeding data bits is the zero-input shift of the register with the data folded in. */
  lemma {:induction false} FeedIsShift(crc: bv16, ch: bv16, n: nat)
    ensures Xor(Feed(crc, ch, n), Left(ch, n)) == ShiftN(Xor(crc, ch), n)
    decreases n
  {
    hide Xor, Double, Top, Shift, Clock;
    if n > 0 {
      ClockIsShift(crc, ch);
      FeedIsShift(Clock(crc, Top(ch)), Double(ch), n - 1);
    }
  }

  lemma HighShiftsOut(x: bv16)
    ensures (x << 8) << 8 == 0
  {
  }

  lemma FeedHigh(crc: bv16, b: bv16)
    ensures Feed(crc, b << 8, 8) == ShiftN(Xor(crc, b << 8), 8)
  {
    var d := b << 8;
    FeedIsShift(crc, d, 8);
    LeftEight(d);
    HighShiftsOut(b);
    hide Xor, Feed, ShiftN, Left;
    XorZero(Feed(crc, d, 8));
  }

  lemma SerialByteIsShift(crc: bv16, ch: bv8)
    ensures SerialByte(crc, ch) == ShiftN(Xor(crc, High(ch)), 8)
  {
    FeedHigh(crc, ch as bv16);
  }

  // ---------- the table ----------

  /** What init_crcccitt_tab must leave in cell t: a zero register clocked with t. */
  function TableEntry(t: bv16): bv16 {
    Feed(0, t << 8, 8)
  }

  function Low(ch: bv8): bv16 {
    0x00ff & (ch as bv16)
  }

  function ByteUp(x: bv16): bv16 {
    x << 8
  }

  function ByteDown(x: bv16): bv16 {
    x >> 8
  }

  function Index(crc: bv16, ch: bv8): bv16 {
    Xor(ByteDown(crc), Low(ch))
  }

  lemma TableEntryIsShift(t: bv16)
    ensures TableEntry(t) == ShiftN(t << 8, 8)
  {
    FeedHigh(0, t);
    XorComm(0, t << 8);
    XorZero(t << 8);
  }

  lemma TableIndex(t: bv16)
    requires t < 256
    ensures (t as nat) < 256 && (t as nat) as bv16 == t
  {
  }

  lemma IndexInRange(crc: bv16, ch: bv8)
    ensures Index(crc, ch) < 256
  {
  }

  ghost predicate IsTable(tab: seq<bv16>) {
    && |tab| == 256
    && forall t: bv16 :: t < 256 ==> (t as nat) < 256 && tab[t as nat] == TableEntry(t)
  }

  lemma HighLow(crc: bv16)
    ensures crc == Xor((crc >> 8) << 8, crc & 0xff)
    ensures crc & 0xff < 0x100
    ensures (crc & 0xff) << 8 == crc << 8
  {
  }

  lemma IndexHigh(crc: bv16, ch: bv8)
    ensures Index(crc, ch) << 8 == Xor((crc >> 8) << 8, High(ch))
  {
  }

  lemma SplitWord(crc: bv16, ch: bv8)
    ensures Xor(crc, High(ch)) == Xor(Index(crc, ch) << 8, crc & 0xff)
  {
    hide Xor, High, Index;
    var h, low := (crc >> 8) << 8, crc & 0xff;
    HighLow(crc);
    IndexHigh(crc, ch);
    XorAssoc(h, low, High(ch));
    XorComm(low, High(ch));
    XorAssoc(h, High(ch), low);
  }

  /** The one table look-up of update_crc_ccitt does the work of eight serial clocks. */
  lemma {:induction false} LookupIsSerialByte(crc: bv16, ch: bv8)
    ensures Xor(ByteUp(crc), TableEntry(Index(crc, ch))) == SerialByte(crc, ch)
  {
    hide Xor, TableEntry, SerialByte, ShiftN, High, Index;
    HighLow(crc);
    SplitWord(crc, ch);
    var t := Index(crc, ch);
    var low := crc & 0xff;
    SerialByteIsShift(crc, ch);
    ShiftNLinear(t << 8, low, 8);
    ShiftOfRoomy(low, 8);
    LeftEight(low);
    TableEntryIsShift(t);
    XorComm(TableEntry(t), ByteUp(crc));
  }

  // ---------- the code ----------

  class CrcCcitt {
    const tab: array<bv16>

    constructor ()
      ensures fresh(tab) && tab.Length == 256
    {
      tab := new bv16[256];
    }

    /** init_crcccitt_tab */
    method InitTable()
      requires tab.Length == 256
      modifies tab
      ensures IsTable(tab[..])
    {
      var i: bv16 := 0;
      while i < 256
        invariant i <= 256
        invariant forall t: bv16 :: t < i ==> (t as nat) < 256 && tab[t as nat] == TableEntry(t)
        decreases 256 - i
      {
        var crc := TableCell(i);
        StoreCell(i, crc);
        i := i + 1;
      }
    }

    /** The inner loop of init_crcccitt_tab. */
    method TableCell(i: bv16) returns (crc: bv16)
      ensures crc == TableEntry(i)
    {
      hide Xor, Double, Top;
      crc := 0;
      var ch := i << 8;
      var j := 0;
      while j < 8
        invariant 0 <= j <= 8
        invariant Feed(crc, ch, 8 - j) == TableEntry(i)
      {
        TopXor(crc, ch);
        if Top(Xor(crc, ch)) {
          crc := Xor(Double(crc), P_CCITT);
        } else {
          crc := Double(crc);
        }
        ch := Double(ch);
        j := j + 1;
      }
    }

    /** crc_tabccitt[i] = crc */
    method StoreCell(i: bv16, crc: bv16)
      requires tab.Length == 256 && i < 256
      requires forall t: bv16 :: t < i ==> (t as nat) < 256 && tab[t as nat] == TableEntry(t)
      requires crc == TableEntry(i)
      modifies tab
      ensures forall t: bv16 :: t < i + 1 ==> (t as nat) < 256 && tab[t as nat] == TableEntry(t)
    {
      hide TableEntry;
      TableIndex(i);
      tab[i as nat] := crc;
      forall t: bv16 | t < i + 1 ensures (t as nat) < 256 && tab[t as nat] == TableEntry(t) {
        Below(t, i);
        TableIndex(t);
      }
    }

    /** crc_tabccitt[t] */
    method Cell(t: bv16) returns (entry: bv16)
      requires t < 256 && IsTable(tab[..])
      ensures entry == TableEntry(t)
    {
      hide TableEntry;
      assert tab[..][t as nat] == TableEntry(t);
      entry := tab[t as nat];
    }

    /** update_crc_ccitt */
    method Update(crc: bv16, ch: bv8) returns (r: bv16)
      requires IsTable(tab[..])
      ensures r == SerialByte(crc, ch)
    {
      hide TableEntry, SerialByte, Low, Xor, ByteUp, ByteDown, IsTable;
      var shortC := Low(ch);
      var tmp := Xor(ByteDown(crc), shortC);
      IndexInRange(crc, ch);
      var entry := Cell(tmp);
      LookupIsSerialByte(crc, ch);
      r := Xor(ByteUp(crc), entry);
    }

    /** A caller folding update_crc_ccitt over a message. */
    method Message(crc0: bv16, msg: seq<bv8>) returns (crc: bv16)
      requires IsTable(tab[..])
      ensures crc == SerialMessage(crc0, msg)
    {
      hide SerialByte, IsTable;
      crc := crc0;
      var i := 0;
      while i < |msg|
        invariant 0 <= i <= |msg|
        invariant SerialMessage(crc, msg[i..]) == SerialMessage(crc0, msg)
      {
        assert msg[i..][1..] == msg[i + 1..];
        crc := Update(crc, msg[i]);
        i := i + 1;
      }
    }
  }

  lemma Below(t: bv16, i: bv16)
    requires i < 256
    requires t < i + 1
    ensures t < i || t == i
  {
  }

  // ---------- error detection ----------

  lemma {:induction false} SerialConcat(crc: bv16, a: seq<bv8>, b: seq<bv8>)
    ensures SerialMessage(crc, a + b) == SerialMessage(SerialMessage(crc, a), b)
    decreases |a|
  {
    hide SerialByte;
    if a == [] {
      assert a + b == b;
    } else {
      assert (a + b)[1..] == a[1..] + b;
      SerialConcat(SerialByte(crc, a[0]), a[1..], b);
    }
  }

  lemma SerialByteInjective(x: bv16, y: bv16, ch: bv8)
    requires SerialByte(x, ch) == SerialByte(y, ch)
    ensures x == y
  {
    hide SerialByte, ShiftN, Xor, High;
    SerialByteIsShift(x, ch);
    SerialByteIsShift(y, ch);
    ShiftNInjective(Xor(x, High(ch)), Xor(y, High(ch)), 8);
    XorCancel(x, y, High(ch));
  }

  /** Equal bytes keep two different registers different. */
  lemma {:induction false} DifferencePersists(x: bv16, y: bv16, msg: seq<bv8>)
    requires SerialMessage(x, msg) == SerialMessage(y, msg)
    ensures x == y
    decreases |msg|
  {
    hide SerialByte;
    if msg != [] {
      DifferencePersists(SerialByte(x, msg[0]), SerialByte(y, msg[0]), msg[1..]);
      SerialByteInjective(x, y, msg[0]);
    }
  }

  lemma ByteIsSmall(ch: bv8)
    ensures (ch as bv16) < 0x100
    ensures Left(ch as bv16, 8) == High(ch)
  {
    LeftEight(ch as bv16);
  }

  /** Two bytes fed one after the other are one 16-bit word folded into the register. */
  lemma TwoBytes(crc: bv16, a: bv8, b: bv8)
    ensures SerialByte(SerialByte(crc, a), b)
         == ShiftN(ShiftN(Xor(crc, Xor(High(a), b as bv16)), 8), 8)
  {
    hide SerialByte, ShiftN, Xor, High, Left;
    var lb := b as bv16;
    SerialByteIsShift(crc, a);
    SerialByteIsShift(SerialByte(crc, a), b);
    ByteIsSmall(b);
    ShiftOfRoomy(lb, 8);
    ShiftNLinear(Xor(crc, High(a)), lb, 8);
    XorAssoc(crc, High(a), lb);
  }

  lemma WordDeterminesBytes(a: bv8, b: bv8, c: bv8, d: bv8)
    requires Xor(High(a), b as bv16) == Xor(High(c), d as bv16)
    ensures a == c && b == d
  {
  }

  lemma TwoBytesInjective(crc: bv16, a: bv8, b: bv8, c: bv8, d: bv8)
    requires SerialByte(SerialByte(crc, a), b) == SerialByte(SerialByte(crc, c), d)
    ensures a == c && b == d
  {
    hide SerialByte, ShiftN, Xor, High;
    TwoBytes(crc, a, b);
    TwoBytes(crc, c, d);
    var u := Xor(High(a), b as bv16);
    var v := Xor(High(c), d as bv16);
    ShiftNInjective(ShiftN(Xor(crc, u), 8), ShiftN(Xor(crc, v), 8), 8);
    ShiftNInjective(Xor(crc, u), Xor(crc, v), 8);
    XorComm(crc, u);
    XorComm(crc, v);
    XorCancel(u, v, crc);
    WordDeterminesBytes(a, b, c, d);
  }

  lemma PairMessage(crc: bv16, pair: seq<bv8>)
    requires |pair| == 2
    ensures SerialMessage(crc, pair) == SerialByte(SerialByte(crc, pair[0]), pair[1])
  {
    hide SerialByte;
    var one := SerialByte(crc, pair[0]);
    assert SerialMessage(crc, pair) == SerialMessage(one, pair[1..]);
    assert SerialMessage(one, pair[1..]) == SerialMessage(SerialByte(one, pair[1]), pair[1..][1..]);
  }

  lemma BurstInside(crc: bv16, m: seq<bv8>, n: seq<bv8>, i: nat)
    requires |m| == |n| && i + 2 <= |m|
    requires m[..i] == n[..i] && m[i + 2..] == n[i + 2..]
    requires m != n
    ensures SerialMessage(crc, m) != SerialMessage(crc, n)
  {
    hide SerialByte, SerialMessage;
    var pm, pn := m[i..i + 2], n[i..i + 2];
    assert m == m[..i] + (pm + m[i + 2..]);
    assert n == n[..i] + (pn + n[i + 2..]);
    var c := SerialMessage(crc, m[..i]);
    SerialConcat(crc, m[..i], pm + m[i + 2..]);
    SerialConcat(crc, n[..i], pn + n[i + 2..]);
    SerialConcat(c, pm, m[i + 2..]);
    SerialConcat(c, pn, n[i + 2..]);
    assert pm != pn;
    if SerialMessage(c, pm) == SerialMessage(c, pn) {
      PairMessage(c, pm);
      PairMessage(c, pn);
      TwoBytesInjective(c, pm[0], pm[1], pn[0], pn[1]);
      assert false;
    }
    if SerialMessage(crc, m) == SerialMessage(crc, n) {
      DifferencePersists(SerialMessage(c, pm), SerialMessage(c, pn), m[i + 2..]);
      assert false;
    }
  }

  lemma OneByteDetected(crc: bv16, m: seq<bv8>, n: seq<bv8>)
    requires |m| == |n| == 1 && m != n
    ensures SerialMessage(crc, m) != SerialMessage(crc, n)
  {
    hide SerialByte;
    if SerialByte(crc, m[0]) == SerialByte(crc, n[0]) {
      TwoBytesInjective(crc, m[0], 0, n[0], 0);
      assert false;
    }
    assert m[1..] == [] && n[1..] == [];
  }

  /** Every corruption confined to two adjacent bytes changes the check word. */
  lemma BurstDetected(crc: bv16, m: seq<bv8>, n: seq<bv8>, i: nat)
    requires |m| == |n| && m != n
    requires forall k :: 0 <= k < |m| && k != i && k != i + 1 ==> m[k] == n[k]
    ensures SerialMessage(crc, m) != SerialMessage(crc, n)
  {
    hide SerialMessage;
    if i + 2 <= |m| {
      BurstInside(crc, m, n, i);
    } else if |m| >= 2 {
      BurstInside(crc, m, n, |m| - 2);
    } else {
      OneByteDetected(crc, m, n);
    }
  }

  // ---------- known check words ----------

  /** The registers in between, given by what one byte makes of each, end in the check word. */
  lemma {:induction false} StepByStep(m: seq<bv8>, registers: seq<bv16>)
    requires |registers| == |m| + 1
    requires forall i :: 0 <= i < |m| ==> SerialByte(registers[i], m[i]) == registers[i + 1]
    ensures SerialMessage(registers[0], m) == registers[|m|]
    decreases |m|
  {
    hide SerialByte;
    if m != [] {
      assert SerialByte(registers[0], m[0]) == registers[1];
      forall i | 0 <= i < |m[1..]| ensures SerialByte(registers[1..][i], m[1..][i]) == registers[1..][i + 1] {
        assert SerialByte(registers[i + 1], m[i + 1]) == registers[i + 2];
      }
      StepByStep(m[1..], registers[1..]);
    }
  }

  const DIGITS: seq<bv8> := [0x31, 0x32, 0x33, 0x34, 0x35, 0x36, 0x37, 0x38, 0x39]

  const FROM_ZERO: seq<bv16> :=
    [0x0000, 0x2672, 0x20B5, 0x9752, 0xD789, 0x546C, 0x20E4, 0x86D6, 0x9015, 0x31C3]

  const FROM_ONES: seq<bv16> :=
    [0xFFFF, 0xC782, 0x3DBA, 0x5BCE, 0x5349, 0x4560, 0x2EF4, 0x7718, 0xA12B, 0x29B1]

  lemma FromZero(i: nat)
    requires i < |DIGITS|
    ensures SerialByte(FROM_ZERO[i], DIGITS[i]) == FROM_ZERO[i + 1]
  {
  }

  lemma FromOnes(i: nat)
    requires i < |DIGITS|
    ensures SerialByte(FROM_ONES[i], DIGITS[i]) == FROM_ONES[i + 1]
  {
  }

  /** The check word of the digits 1 to 9 that is published for this generator: 31C3 from a zero
      register, 29B1 from a register of ones. */
  lemma {:induction false} KnownCheckWord()
    ensures SerialMessage(0, DIGITS) == 0x31C3 && SerialMessage(0xFFFF, DIGITS) == 0x29B1
  {
    hide SerialMessage, SerialByte;
    forall i | 0 <= i < |DIGITS| ensures SerialByte(FROM_ZERO[i], DIGITS[i]) == FROM_ZERO[i + 1] {
      FromZero(i);
    }
    forall i | 0 <= i < |DIGITS| ensures SerialByte(FROM_ONES[i], DIGITS[i]) == FROM_ONES[i + 1] {
      FromOnes(i);
    }
    StepByStep(DIGITS, FROM_ZERO);
    StepByStep(DIGITS, FROM_ONES);
  }
}
