/** The code of channelSpec, channelRange and SCPI_ExprChannelListEntry (expression.c), which
    finds entry k by reading the list from its start. */
module ChannelCode {
  import opened Lexer
  import opened LexerCode
  import opened ChannelList
  import LexerLaws
  import opened Numerals
  import opened Basics

  const DATA_TYPE_ERROR := -104
  const EXPRESSION_PARSING_ERROR := -170
  const SYSTEM_ERROR := -310

  /** The places a caller passes for the results; given is false for NULL arrays. */
  class EntrySlot {
    var isRange: bool
    var dimensions: nat
    const given: bool
    const valuesFrom: array<Int32>
    const valuesTo: array<Int32>

    constructor (size: nat)
      ensures fresh(valuesFrom) && fresh(valuesTo) && valuesFrom != valuesTo && given
      ensures valuesFrom.Length == valuesTo.Length == size
    {
      isRange, dimensions, given := false, 0, true;
      valuesFrom := new Int32[size];
      valuesTo := new Int32[size];
    }

    ghost function Footprint(): set<object> {
      {this, valuesFrom, valuesTo}
    }

    /** The slot holds the entry; a single channel leaves valuesTo as it was. */
    ghost predicate Holds(entry: Entry, length: nat, from: seq<Int32>, to: seq<Int32>)
      reads this, valuesFrom, valuesTo
    {
      && isRange == entry.Range?
      && dimensions == Dimensions(entry)
      && valuesFrom[..] == Stored(from, entry.first, length)
      && valuesTo[..] == (if entry.Range? then Stored(to, entry.last, length) else to)
    }
  }

  /** An array after values have been stored into its first length cells, as far as it has them. */
  function Stored(cells: seq<Int32>, values: seq<Int32>, length: nat): seq<Int32> {
    var k := Min(Min(|values|, length), |cells|);
    values[..k] + cells[k..]
  }

  /** Some of the values stored do not fit into the array. */
  predicate Beyond(values: seq<Int32>, length: nat, size: nat) {
    Min(|values|, length) > size
  }

  lemma StoredNothing(cells: seq<Int32>, values: seq<Int32>)
    ensures Stored(cells, values, 0) == cells
  {
  }

  lemma StoredNone(cells: seq<Int32>, length: nat)
    ensures Stored(cells, [], length) == cells
  {
  }

  lemma StoredOne(cells: seq<Int32>, values: seq<Int32>, v: Int32, length: nat)
    ensures var before := Stored(cells, values, length);
            |before| == |cells| &&
            Stored(cells, values + [v], length)
            == if |values| < length && |values| < |cells| then before[|values| := v] else before
  {
  }

  /** channelSpec: outside says whether it stored anything behind the end of the array. */
  method ChannelSpec(lex: LexState, values: array<Int32>, length: nat)
    returns (res: Status, dimensions: nat, outside: bool)
    requires lex.Valid()
    modifies lex`pos, values
    ensures lex.Valid()
    ensures var r := ReadSpec(lex.text, old(lex.pos), lex.eos, []);
            && res == r.res && lex.pos == r.pos
            && values[..] == Stored(old(values[..]), r.values, length)
            && outside == Beyond(r.values, length, values.Length)
            && (res == ExprOk ==> dimensions == |r.values|)
  {
    hide DecimalEnd, ReadInt, Stored;
    dimensions, outside := 0, false;
    var i := 0;
    ghost var r := ReadSpec(lex.text, lex.pos, lex.eos, []);
    ghost var got: seq<Int32> := [];
    StoredNone(values[..], length);
    var token := lex.DecimalNumericProgramData();
    assert token.ptr == old(lex.pos) && (token.len > 0 <==> lex.pos > token.ptr);
    while token.len > 0
      invariant lex.Valid() && |got| == i && token.ptr <= lex.pos
      invariant token.len > 0 <==> lex.pos > token.ptr
      invariant lex.pos == DecimalEnd(lex.text, token.ptr, lex.eos)
      invariant ReadSpec(lex.text, token.ptr, lex.eos, got) == r
      invariant values[..] == Stored(old(values[..]), got, length) && outside == Beyond(got, length, values.Length)
      decreases lex.eos - token.ptr
    {
      var v := ReadInt(lex.text, token.ptr);
      StoredOne(old(values[..]), got, v, length);
      if i < length {
        if i < values.Length {
          values[i] := v;
        } else {
          outside := true;
        }
      }
      got := got + [v];
      var bang := lex.SpecificChar('!', SpecificCharacter);
      if bang.len > 0 {
        i := i + 1;
      } else {
        dimensions := i + 1;
        return ExprOk, dimensions, outside;
      }
      token := lex.DecimalNumericProgramData();
    }
    res := if i == 0 then NoMore else ExprError;
  }

  /** Some of what one channelRange stores does not fit into the slot. */
  predicate RangeBeyond(r: RangeRead, length: nat, sizeFrom: nat, sizeTo: nat) {
    Beyond(r.first, length, sizeFrom) || Beyond(r.last, length, sizeTo)
  }

  /** channelRange */
  method ChannelRange(lex: LexState, slot: EntrySlot, length: nat) returns (res: Status, outside: bool)
    requires lex.Valid() && slot.valuesFrom != slot.valuesTo
    modifies lex`pos, slot, slot.valuesFrom, slot.valuesTo
    ensures lex.Valid()
    ensures var r := ReadRange(lex.text, old(lex.pos), lex.eos);
            && res == r.res && lex.pos == r.pos
            && slot.valuesFrom[..] == Stored(old(slot.valuesFrom[..]), r.first, length)
            && slot.valuesTo[..] == Stored(old(slot.valuesTo[..]), r.last, length)
            && outside == RangeBeyond(r, length, slot.valuesFrom.Length, slot.valuesTo.Length)
            && (res == ExprOk ==> slot.isRange == r.colon && slot.dimensions == |r.first|)
  {
    hide ReadSpec, Stored;
    StoredNone(slot.valuesTo[..], length);
    var fromDimensions;
    res, fromDimensions, outside := ChannelSpec(lex, slot.valuesFrom, length);
    if res == ExprOk {
      var colon := lex.SpecificChar(':', ColonTok);
      if colon.len > 0 {
        slot.isRange := true;
        var toDimensions, toOutside;
        res, toDimensions, toOutside := ChannelSpec(lex, slot.valuesTo, length);
        outside := outside || toOutside;
        if res != ExprOk {
          return ExprError, outside;
        }
        if fromDimensions != toDimensions {
          return ExprError, outside;
        }
        slot.dimensions := fromDimensions;
      } else {
        slot.isRange := false;
        slot.dimensions := fromDimensions;
      }
    }
  }

  /** A parameter lies in memory; an expression has its parentheses. */
  ghost predicate InMemory(w: string, param: Token) {
    param.kind == ExpressionData ==> param.len >= 2 && param.ptr + param.len <= |w|
  }

  /** The text between the parentheses starts with '@'. */
  predicate IsChannelList(w: string, param: Token)
    requires InMemory(w, param) && param.kind == ExpressionData
  {
    param.len > 2 && w[param.ptr + 1] == '@'
  }

  /** The entries of a channel list behind its '@'. */
  function Listed(w: string, param: Token): Parsed
    requires InMemory(w, param) && param.kind == ExpressionData && IsChannelList(w, param)
  {
    WholeParse(w, param.ptr + 2, param.ptr + param.len - 1)
  }

  function ReadAt(w: string, param: Token, k: nat): Reading
    requires InMemory(w, param) && param.kind == ExpressionData && IsChannelList(w, param)
  {
    RangeAt(w, param.ptr + 2, param.ptr + param.len - 1, k)
  }

  function LookUpResult(w: string, param: Token, index: int): Status
    requires InMemory(w, param) && param.kind == ExpressionData && IsChannelList(w, param)
  {
    if index < |Listed(w, param).entries| then ExprOk
    else Finish(Listed(w, param), param.ptr + param.len - 1)
  }

  /** here is what is left of all behind its first i entries. */
  ghost predicate Ahead(all: Parsed, here: Parsed, i: nat) {
    && i <= |all.entries| && here.entries == all.entries[i..]
    && here.stop == all.stop && here.pos == all.pos
  }

  /** What one channelRange and the comma behind it say about the whole list. */
  lemma OneEntry(w: string, p: nat, e: nat, all: Parsed, i: nat)
    requires p <= e <= |w| && Ahead(all, WholeParse(w, p, e), i)
    ensures var r := ReadRange(w, p, e);
            if r.res != ExprOk then
              i == |all.entries| && all.stop == r.res && all.pos == r.pos
            else
              && i < |all.entries| && all.entries[i] == EntryOf(r)
              && (if r.pos < e && w[r.pos] == ',' then Ahead(all, WholeParse(w, r.pos + 1, e), i + 1)
                  else |all.entries| == i + 1 && all.pos == r.pos &&
                       all.stop == if r.pos == e then NoMore else ExprError)
  {
    hide ReadRange, EntryOf;
    var r := ReadRange(w, p, e);
    var here := WholeParse(w, p, e);
    assert here.entries == all.entries[i..];
    if r.res == ExprOk {
      assert all.entries[i] == here.entries[0];
      if r.pos < e && w[r.pos] == ',' {
        assert here.entries[1..] == WholeParse(w, r.pos + 1, e).entries;
      }
    }
  }

  lemma SlotHolds(slot: EntrySlot, r: RangeRead, length: nat, from: seq<Int32>, to: seq<Int32>)
    requires slot.isRange == r.colon && slot.dimensions == |r.first| && (!r.colon ==> r.last == [])
    requires slot.valuesFrom[..] == Stored(from, r.first, length)
    requires slot.valuesTo[..] == Stored(to, r.last, length)
    ensures slot.Holds(EntryOf(r), length, from, to)
  {
    StoredNone(to, length);
    hide Stored;
  }

  /** Reading index k from p is reading index k - i from behind the first i entries. */
  lemma RangeAtStep(w: string, p: nat, e: nat, k: nat)
    requires p <= e <= |w|
    ensures var r := ReadRange(w, p, e);
            RangeAt(w, p, e, k)
            == if k == 0 then Reached(r)
               else if r.res == ExprOk && r.pos < e && w[r.pos] == ',' then RangeAt(w, r.pos + 1, e, k - 1)
               else NotReached
  {
    hide ReadRange;
  }

  /** What a look-up stores beyond the slot. */
  predicate ReadingBeyond(reading: Reading, length: nat, sizeFrom: nat, sizeTo: nat) {
    reading.Reached? && RangeBeyond(reading.range, length, sizeFrom, sizeTo)
  }

  lemma NothingBeyond(r: RangeRead, sizeFrom: nat, sizeTo: nat)
    ensures !RangeBeyond(r, 0, sizeFrom, sizeTo)
  {
  }

  /** The loop of SCPI_ExprChannelListEntry: reads entries until it reaches the index. */
  method Locate(lex: LexState, index: int, slot: EntrySlot, length: nat) returns (res: Status, outside: bool)
    requires lex.Valid() && slot.valuesFrom != slot.valuesTo
    modifies lex`pos, slot, slot.valuesFrom, slot.valuesTo
    ensures lex.Valid()
    ensures index < 0 ==> res == ExprOk && !outside && unchanged(slot, slot.valuesFrom, slot.valuesTo)
    ensures index >= 0 ==>
              var all := WholeParse(lex.text, old(lex.pos), lex.eos);
              && outside == ReadingBeyond(RangeAt(lex.text, old(lex.pos), lex.eos, index), length,
                                           slot.valuesFrom.Length, slot.valuesTo.Length)
              && (if index < |all.entries| then
                    && res == ExprOk
                    && slot.Holds(all.entries[index], length, old(slot.valuesFrom[..]), old(slot.valuesTo[..]))
                  else res == all.stop && lex.pos == all.pos)
  {
    hide ReadRange, RangeAt, RangeBeyond, WholeParse, Ahead, Stored, EntrySlot.Holds, EntryOf;
    ghost var all := WholeParse(lex.text, lex.pos, lex.eos);
    ghost var reading := if index >= 0 then RangeAt(lex.text, lex.pos, lex.eos, index) else NotReached;
    ghost var from, to := slot.valuesFrom[..], slot.valuesTo[..];
    AheadStart(all);
    res, outside := ExprOk, false;
    var i: nat := 0;
    while i <= index
      invariant lex.Valid() && (index >= 0 ==> i <= index + 1) && (index < 0 ==> i == 0) && res == ExprOk
      invariant i == 0 ==> unchanged(slot, slot.valuesFrom, slot.valuesTo)
      invariant i <= index || index < 0 ==> !outside
      invariant i <= index ==> slot.valuesFrom[..] == from && slot.valuesTo[..] == to
      invariant i <= index ==> Ahead(all, WholeParse(lex.text, lex.pos, lex.eos), i)
      invariant i <= index ==> RangeAt(lex.text, lex.pos, lex.eos, index - i) == reading
      invariant 0 <= index && i == index + 1 ==>
                  && outside == ReadingBeyond(reading, length, slot.valuesFrom.Length, slot.valuesTo.Length)
                  && index < |all.entries| && slot.Holds(all.entries[index], length, from, to)
      decreases index - i
    {
      ghost var r := ReadRange(lex.text, lex.pos, lex.eos);
      OneEntry(lex.text, lex.pos, lex.eos, all, i);
      RangeAtStep(lex.text, lex.pos, lex.eos, index - i);
      NothingBeyond(r, slot.valuesFrom.Length, slot.valuesTo.Length);
      res, outside := ChannelRange(lex, slot, if i == index then length else 0);
      if res != ExprOk {
        break;
      }
      if i != index {
        StoredNothing(from, r.first);
        StoredNothing(to, r.last);
        var comma := lex.SpecificChar(',', CommaTok);
        if comma.len == 0 {
          res := if lex.IsEos() then NoMore else ExprError;
          break;
        }
      } else {
        SlotHolds(slot, r, length, from, to);
      }
      i := i + 1;
    }
  }

  lemma AheadStart(all: Parsed)
    ensures Ahead(all, all, 0)
  {
  }

  /** SCPI_ExprChannelListEntry behind its checks: for every text, the k-th look-up is the k-th
      entry of one pass over the whole list; behind the last entry it reports how that pass
      ended. */
  method FindEntry(w: string, param: Token, index: int, slot: EntrySlot, length: nat)
    returns (res: Status, pushed: seq<int>, outside: bool)
    requires InMemory(w, param) && slot.valuesFrom != slot.valuesTo
    modifies slot, slot.valuesFrom, slot.valuesTo
    ensures param.kind != ExpressionData ==> res == ExprError && pushed == [-104] && !outside
    ensures param.kind == ExpressionData && !IsChannelList(w, param) ==>
              res == ExprError && pushed == [-170] && !outside
    ensures param.kind == ExpressionData && IsChannelList(w, param) ==>
              && res == LookUpResult(w, param, index)
              && pushed == (if res == ExprError then [-170] else [])
              && outside == (index >= 0 && ReadingBeyond(ReadAt(w, param, index), length, slot.valuesFrom.Length,
                   slot.valuesTo.Length))
              && (0 <= index < |Listed(w, param).entries| ==>
                    slot.Holds(Listed(w, param).entries[index], length, old(slot.valuesFrom[..]),
                        old(slot.valuesTo[..])))
              && (index < 0 ==> unchanged(slot, slot.valuesFrom, slot.valuesTo))
  {
    hide WholeParse, RangeAt, ReadingBeyond, EntrySlot.Holds;
    outside := false;
    if param.kind != ExpressionData {
      return ExprError, [DATA_TYPE_ERROR], false;
    }
    var lex := new LexState(w, param.ptr + 1, param.ptr + param.len - 1);
    var at := lex.SpecificChar('@', SpecificCharacter);
    if at.len == 0 {
      return ExprError, [EXPRESSION_PARSING_ERROR], false;
    }
    pushed := [];
    res, outside := Locate(lex, index, slot, length);
    if res == ExprError {
      pushed := pushed + [EXPRESSION_PARSING_ERROR];
    }
    if res == NoMore {
      if !lex.IsEos() {
        res := ExprError;
        pushed := pushed + [EXPRESSION_PARSING_ERROR];
      }
    }
  }

  /** SCPI_ExprChannelListEntry with its checks: no slot stands for a NULL isRange or dimensions. */
  method ChannelListEntry(w: string, param: Option<Token>, index: int, slot: EntrySlot?, length: nat)
    returns (res: Status, pushed: seq<int>, outside: bool)
    requires param.Some? ==> InMemory(w, param.value)
    requires slot != null ==> slot.valuesFrom != slot.valuesTo
    modifies if slot == null then {} else slot.Footprint()
    ensures slot == null || param.None? || (length > 0 && !slot.given) ==>
              res == ExprError && pushed == [-310] && !outside
    ensures slot != null && param.Some? && (length == 0 || slot.given) ==>
              var p := param.value;
              if p.kind != ExpressionData then res == ExprError && pushed == [-104] && !outside
              else if p.len == 2 || w[p.ptr + 1] != '@' then res == ExprError && pushed == [-170] && !outside
              else
                && res == LookUpResult(w, p, index)
                && pushed == (if res == ExprError then [-170] else [])
                && outside == (index >= 0 && ReadingBeyond(ReadAt(w, p, index), length, slot.valuesFrom.Length,
                     slot.valuesTo.Length))
                && (0 <= index < |Listed(w, p).entries| ==>
                      slot.Holds(Listed(w, p).entries[index], length, old(slot.valuesFrom[..]), old(slot.valuesTo[..])))
                && (index < 0 ==> unchanged(slot, slot.valuesFrom, slot.valuesTo))
  {
    hide WholeParse, RangeAt, ReadingBeyond, EntrySlot.Holds;
    if slot == null || param.None? || (length > 0 && !slot.given) {
      return ExprError, [SYSTEM_ERROR], false;
    }
    res, pushed, outside := FindEntry(w, param.value, index, slot, length);
  }

  /** On the printed form of any list, an index loop meets every entry once, in order, and then
      the end. */
  lemma {:induction false} PrintedListIndexed(w: string, param: Token, entries: seq<Entry>, k: nat)
    requires AllWellFormed(entries) && param.kind == ExpressionData
    requires param.len == |ExpressionText(entries)| && LexerLaws.Holds(w, param.ptr, ExpressionText(entries))
    ensures InMemory(w, param) && IsChannelList(w, param)
    ensures Listed(w, param).entries == entries
    ensures LookUpResult(w, param, k) == if k < |entries| then ExprOk else NoMore
  {
    hide WholeParse, ListText, AllWellFormed, LexerLaws.Holds;
    HoldsBound(w, param.ptr, ExpressionText(entries));
    ChannelListRoundTrip(w, param.ptr, |w|, entries);
  }

  lemma HoldsBound(w: string, p: nat, s: string)
    requires LexerLaws.Holds(w, p, s)
    ensures p + |s| <= |w|
  {
  }
}
