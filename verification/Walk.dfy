/** TEST_Chanlst (Src/Src/scpi-def.c): a channel list is expanded, entry by entry, into the
    cells it names. size_t is 32 bits wide. */
module Walk {
  import opened Lexer
  import opened ChannelList
  import opened ChannelCode
  import opened Basics
  import opened Numerals

  /** scpi_channel_value_t */
  datatype Cell = Cell(row: Int32, col: Int32)

  // ---------- the order of a walk ----------

  /** The numbers from a to b, up or down. */
  function Line(a: Int32, b: Int32): (s: seq<Int32>)
    ensures |s| == Distance(a, b) + 1
    ensures forall i :: 0 <= i < |s| ==> s[i] as int == a + i * Direction(a, b)
    decreases Distance(a, b)
  {
    if a == b then [a] else [a] + Line(a + Direction(a, b), b)
  }

  function Distance(a: Int32, b: Int32): nat {
    if a > b then a as int - b else b as int - a
  }

  function Direction(a: Int32, b: Int32): (d: int)
    ensures d == 1 || d == -1
  {
    if a > b then -1 else 1
  }

  function RowCells(row: Int32, cols: seq<Int32>): (s: seq<Cell>)
    ensures |s| == |cols|
  {
    if cols == [] then [] else [Cell(row, cols[0])] + RowCells(row, cols[1..])
  }

  function BoxCells(rows: seq<Int32>, cols: seq<Int32>): (s: seq<Cell>)
    ensures |s| == |rows| * |cols|
  {
    if rows == [] then [] else RowCells(rows[0], cols) + BoxCells(rows[1..], cols)
  }

  /** The cells of one entry. A range in more than two dimensions names none. */
  function CellsOf(entry: Entry): seq<Cell>
    requires WellFormed(entry)
  {
    match entry
    case Single(at) =>
      if |at| == 1 then [Cell(at[0], 0)] else if |at| == 2 then [Cell(at[0], at[1])] else []
    case Range(first, last) =>
      var rows := Line(first[0], last[0]);
      if |first| == 1 then BoxCells(rows, [0])
      else if |first| == 2 then BoxCells(rows, Line(first[1], last[1]))
      else []
  }

  /** A single channel in more than two dimensions is refused. */
  predicate Refused(entry: Entry) {
    entry.Single? && |entry.first| > 2
  }

  function CellsOfAll(entries: seq<Entry>): seq<Cell>
    requires AllWellFormed(entries)
  {
    if entries == [] then [] else CellsOf(entries[0]) + CellsOfAll(entries[1..])
  }

  // ---------- what a walk visits ----------

  predicate Between(a: Int32, x: Int32, b: Int32) {
    a <= x <= b || b <= x <= a
  }

  lemma {:induction false} LineOnce(a: Int32, b: Int32, x: Int32)
    ensures multiset(Line(a, b))[x] == if Between(a, x, b) then 1 else 0
    decreases Distance(a, b)
  {
    if a != b {
      LineOnce(a + Direction(a, b), b, x);
    }
  }

  lemma {:induction false} RowOnce(row: Int32, cols: seq<Int32>, c: Cell)
    ensures multiset(RowCells(row, cols))[c] == if c.row == row then multiset(cols)[c.col] else 0
    decreases |cols|
  {
    if cols != [] {
      RowOnce(row, cols[1..], c);
      assert cols == [cols[0]] + cols[1..];
    }
  }

  lemma HeadCount(x: Int32, rest: seq<Int32>, y: Int32)
    ensures multiset([x] + rest)[y] == (if x == y then 1 else 0) + multiset(rest)[y]
  {
  }

  lemma Distribute(b: bool, m: nat, n: nat)
    ensures ((if b then 1 else 0) + m) * n == (if b then n else 0) + m * n
  {
  }

  lemma {:induction false} BoxOnce(rows: seq<Int32>, cols: seq<Int32>, c: Cell)
    ensures multiset(BoxCells(rows, cols))[c] == multiset(rows)[c.row] * multiset(cols)[c.col]
    decreases |rows|
  {
    hide RowCells;
    if rows != [] {
      BoxOnce(rows[1..], cols, c);
      RowOnce(rows[0], cols, c);
      HeadCount(rows[0], rows[1..], c.row);
      assert rows == [rows[0]] + rows[1..];
      Distribute(rows[0] == c.row, multiset(rows[1..])[c.row], multiset(cols)[c.col]);
    }
  }

  lemma RowOffset(i: nat, n: nat, j: nat, rows: nat)
    requires i < rows && j < n
    ensures i * n + j < rows * n
    ensures i > 0 ==> i * n + j == n + ((i - 1) * n + j)
  {
    assert (rows - 1) * n >= i * n;
  }

  /** Row by row: cell j of row i stands at place i * |cols| + j. */
  lemma {:induction false} RowMajor(rows: seq<Int32>, cols: seq<Int32>, i: nat, j: nat)
    requires i < |rows| && j < |cols|
    ensures i * |cols| + j < |rows| * |cols|
    ensures BoxCells(rows, cols)[i * |cols| + j] == Cell(rows[i], cols[j])
    decreases |rows|
  {
    hide RowCells;
    var n := |cols|;
    RowOffset(i, n, j, |rows|);
    var head := RowCells(rows[0], cols);
    var tail := BoxCells(rows[1..], cols);
    if i == 0 {
      RowAt(rows[0], cols, j);
    } else {
      var k := (i - 1) * n + j;
      RowMajor(rows[1..], cols, i - 1, j);
      assert (head + tail)[n + k] == tail[k];
    }
  }

  lemma {:induction false} RowAt(row: Int32, cols: seq<Int32>, j: nat)
    requires j < |cols|
    ensures RowCells(row, cols)[j] == Cell(row, cols[j])
    decreases |cols|
  {
    if j > 0 {
      RowAt(row, cols[1..], j - 1);
    }
  }

  predicate InBox(entry: Entry, c: Cell)
    requires WellFormed(entry) && entry.Range? && |entry.first| <= 2
  {
    && Between(entry.first[0], c.row, entry.last[0])
    && (if |entry.first| == 1 then c.col == 0 else Between(entry.first[1], c.col, entry.last[1]))
  }

  /** A range records every cell between its corners once and no other cell: one for each pair
      of distances, in row-major order from the first corner to the last. */
  lemma {:induction false} RangeIsBox(entry: Entry, c: Cell)
    requires WellFormed(entry) && entry.Range? && |entry.first| <= 2
    ensures multiset(CellsOf(entry))[c] == if InBox(entry, c) then 1 else 0
    ensures |CellsOf(entry)| == (Distance(entry.first[0], entry.last[0]) + 1)
                                * (if |entry.first| == 1 then 1 else Distance(entry.first[1], entry.last[1]) + 1)
  {
    hide Line, BoxCells;
    var rows := Line(entry.first[0], entry.last[0]);
    LineOnce(entry.first[0], entry.last[0], c.row);
    if |entry.first| == 1 {
      BoxOnce(rows, [0], c);
      assert multiset([0])[c.col] == if c.col == 0 then 1 else 0;
    } else {
      BoxOnce(rows, Line(entry.first[1], entry.last[1]), c);
      LineOnce(entry.first[1], entry.last[1], c.col);
    }
  }

  /** The walk leaves from the first corner, ends at the last and never leaves the grid order. */
  lemma RangeOrder(entry: Entry, i: nat, j: nat)
    requires WellFormed(entry) && entry.Range? && |entry.first| == 2
    requires i <= Distance(entry.first[0], entry.last[0]) && j <= Distance(entry.first[1], entry.last[1])
    ensures var k := i * (Distance(entry.first[1], entry.last[1]) + 1) + j;
            && k < |CellsOf(entry)|
            && CellsOf(entry)[k].row as int == entry.first[0] + i * Direction(entry.first[0], entry.last[0])
            && CellsOf(entry)[k].col as int == entry.first[1] + j * Direction(entry.first[1], entry.last[1])
  {
    hide Distance, Direction, BoxCells;
    var rows := Line(entry.first[0], entry.last[0]);
    var cols := Line(entry.first[1], entry.last[1]);
    RowMajor(rows, cols, i, j);
  }

  /** A single channel names the one cell of its box, row before column; a range in more than two
      dimensions names none. */
  lemma SingleIsBox(at: seq<Int32>)
    requires |at| > 0
    ensures |at| <= 2 ==> CellsOf(Single(at)) == CellsOf(Range(at, at))
    ensures |at| > 2 ==> forall last: seq<Int32> | |last| == |at| :: CellsOf(Range(at, last)) == []
  {
    hide BoxCells;
    if |at| == 1 {
      OneCell(at[0], 0);
    } else if |at| == 2 {
      OneCell(at[0], at[1]);
    }
  }

  lemma OneCell(row: Int32, col: Int32)
    ensures Line(row, row) == [row] && BoxCells([row], [col]) == [Cell(row, col)]
  {
    assert [row][1..] == [] && [col][1..] == [];
    assert RowCells(row, [col]) == [Cell(row, col)];
  }

  // ---------- counters ----------

  function AsWord(x: Int32): nat {
    x % WORD
  }

  function AsInt(n: nat): Int32
    requires n < WORD
  {
    if n < 0x8000_0000 then n else n - WORD
  }

  /** size_t addition */
  function Plus(n: nat, d: int): nat {
    (n + d) % WORD
  }

  lemma WordIs(x: Int32, y: Int32)
    ensures AsWord(x) < WORD && AsInt(AsWord(x)) == x
    ensures AsWord(x) == AsWord(y) <==> x == y
  {
  }

  lemma WordSteps(x: Int32, y: Int32, d: int)
    requires y as int == x + d && -1 <= d <= 1
    ensures Plus(AsWord(x), d) == AsWord(y)
  {
  }

  lemma LineStep(c: Int32, last: Int32)
    ensures c == last ==> Line(c, last) == [c]
    ensures c != last ==> -0x8000_0000 <= c + Direction(c, last) < 0x8000_0000
    ensures c != last ==> Line(c, last) == [c] + Line(c + Direction(c, last), last)
    ensures c != last ==> Distance(c + Direction(c, last), last) < Distance(c, last)
    ensures c != last ==>
              var next := c + Direction(c, last);
              next == last || Direction(next, last) == Direction(c, last)
  {
  }

  lemma RowStep(row: Int32, c: Int32, last: Int32)
    ensures RowCells(row, [c]) == [Cell(row, c)]
    ensures c != last ==> -0x8000_0000 <= c + Direction(c, last) < 0x8000_0000
    ensures c != last ==>
              RowCells(row, Line(c, last)) == [Cell(row, c)] + RowCells(row, Line(c + Direction(c, last), last))
  {
    LineStep(c, last);
    hide Line, Direction;
    assert RowCells(row, []) == [];
    if c != last {
      var rest := Line(c + Direction(c, last), last);
      assert ([c] + rest)[1..] == rest;
    }
  }

  lemma BoxStep(r: Int32, last: Int32, cols: seq<Int32>)
    ensures BoxCells([r], cols) == RowCells(r, cols)
    ensures r != last ==> -0x8000_0000 <= r + Direction(r, last) < 0x8000_0000
    ensures r != last ==>
              BoxCells(Line(r, last), cols) == RowCells(r, cols) + BoxCells(Line(r + Direction(r, last), last), cols)
  {
    LineStep(r, last);
    hide Line, Direction, RowCells;
    assert BoxCells([], cols) == [];
    assert [r][1..] == [];
    if r != last {
      var rest := Line(r + Direction(r, last), last);
      assert ([r] + rest)[1..] == rest;
    }
  }

  // ---------- the code ----------

  const MAXDIM := 2
  const ANNOUNCED := 4

  /** The cells from the start of an array on, as far as it has room, and its old contents
      behind them. */
  ghost predicate Filled(now: seq<Cell>, all: seq<Cell>, before: seq<Cell>) {
    var k := Min(|all|, |before|);
    now == all[..k] + before[k..]
  }

  /** The array, how many cells have been recorded, and whether one of them lay outside. */
  class Recording {
    const cells: array<Cell>
    var idx: nat
    var outside: bool
    ghost const before: seq<Cell>
    ghost var all: seq<Cell>

    ghost predicate Valid()
      reads this, cells
    {
      && idx == |all| && cells.Length == |before|
      && outside == (idx > cells.Length)
      && Filled(cells[..], all, before)
    }

    constructor (cells: array<Cell>)
      ensures Valid() && this.cells == cells && all == [] && before == cells[..]
    {
      this.cells, idx, outside := cells, 0, false;
      before, all := cells[..], [];
    }

    /** array[arr_idx] = ...; arr_idx++ */
    method Record(row: Int32, col: Int32)
      requires Valid()
      modifies this, cells
      ensures Valid() && all == old(all) + [Cell(row, col)]
    {
      if idx < cells.Length {
        cells[idx] := Cell(row, col);
      } else {
        outside := true;
      }
      idx := idx + 1;
      all := all + [Cell(row, col)];
    }

    /** The loop over the columns of one row. */
    method Columns(n: nat, from: Int32, to: Int32, dirCol: int)
      requires Valid() && n < WORD
      requires from != to ==> dirCol == Direction(from, to)
      modifies this, cells
      ensures Valid() && all == old(all) + RowCells(AsInt(n), Line(from, to))
    {
      hide Valid, Distance, Direction, Line, RowCells, AsWord, AsInt, Plus;
      ghost var target := all + RowCells(AsInt(n), Line(from, to));
      ghost var c: Int32 := from;
      var m := AsWord(from);
      var stop := false;
      while !stop
        invariant Valid()
        invariant !stop ==> m == AsWord(c) && (c != to ==> dirCol == Direction(c, to))
        invariant !stop ==> all + RowCells(AsInt(n), Line(c, to)) == target
        invariant stop ==> all == target
        decreases !stop, Distance(c, to)
      {
        WordIs(c, to);
        LineStep(c, to);
        RowStep(AsInt(n), c, to);
        ghost var sofar := all;
        Record(AsInt(n), AsInt(m));
        if m == AsWord(to) {
          stop := true;
        } else {
          WordSteps(c, c + Direction(c, to), dirCol);
          c := c + Direction(c, to);
          Grouped(sofar, [Cell(AsInt(n), AsInt(m))], RowCells(AsInt(n), Line(c, to)));
        }
        m := Plus(m, dirCol);
      }
    }

    /** The body of the loop over rows. A range in more than two dimensions fills nothing. */
    method OneRow(n: nat, first: seq<Int32>, last: seq<Int32>, dimensions: nat, dirCol0: int) returns (dirCol: int)
      requires Valid() && n < WORD && HasCorners(first, last, dimensions) && (dirCol0 == 1 || dirCol0 == -1)
      modifies this, cells
      ensures dirCol == 1 || dirCol == -1
      ensures Valid() && all == old(all) + RowCells(AsInt(n), Columned(first, last, dimensions))
    {
      hide Valid, RowCells, Direction, Line, AsInt;
      dirCol := dirCol0;
      if dimensions == 2 {
        if first[1] > last[1] {
          dirCol := -1;
        } else if first[1] < last[1] {
          dirCol := 1;
        }
        Turned(first[1], last[1], dirCol);
        Columns(n, first[1], last[1], dirCol);
      } else if dimensions == 1 {
        ZeroRow(AsInt(n));
        Record(AsInt(n), 0);
      } else {
        EmptyRow(AsInt(n));
        assert all == all + [];
      }
    }

    /** The loop over the rows of a range. */
    method Rows(first: seq<Int32>, last: seq<Int32>, dimensions: nat, dirRow: int, dirCol0: int) returns (dirCol: int)
      requires Valid() && HasCorners(first, last, dimensions)
      requires dirRow == Direction(first[0], last[0]) && (dirCol0 == 1 || dirCol0 == -1)
      modifies this, cells
      ensures dirCol == 1 || dirCol == -1
      ensures Valid() && all == old(all) + BoxCells(Line(first[0], last[0]), Columned(first, last, dimensions))
    {
      hide Valid, BoxCells, RowCells, Direction, Distance, Line, AsWord, AsInt, Plus, Columned;
      ghost var cols := Columned(first, last, dimensions);
      ghost var target := all + BoxCells(Line(first[0], last[0]), cols);
      ghost var r: Int32 := first[0];
      var end := last[0];
      dirCol := dirCol0;
      var n := AsWord(first[0]);
      var stop := false;
      while !stop
        invariant Valid() && (dirCol == 1 || dirCol == -1)
        invariant !stop ==> n == AsWord(r) && (r != end ==> dirRow == Direction(r, end))
        invariant !stop ==> all + BoxCells(Line(r, end), cols) == target
        invariant stop ==> all == target
        decreases !stop, Distance(r, end)
      {
        WordIs(r, end);
        LineStep(r, end);
        BoxStep(r, end, cols);
        ghost var sofar := all;
        dirCol := OneRow(n, first, last, dimensions, dirCol);
        if n == AsWord(end) {
          stop := true;
        } else {
          WordSteps(r, r + Direction(r, end), dirRow);
          Grouped(sofar, RowCells(r, cols), BoxCells(Line(r + Direction(r, end), end), cols));
          r := r + Direction(r, end);
        }
        n := Plus(n, dirRow);
      }
    }

    /** The zero cell behind the last one. */
    method Terminate()
      requires Valid()
      modifies cells, this`outside
      ensures outside == (|all| >= cells.Length)
      ensures Filled(cells[..], all + [Cell(0, 0)], before)
    {
      if idx < cells.Length {
        cells[idx] := Cell(0, 0);
      } else {
        outside := true;
      }
    }
  }

  /** The values the walk of a range looks at. */
  ghost predicate HasCorners(first: seq<Int32>, last: seq<Int32>, dimensions: nat) {
    && dimensions >= 1 && |first| >= 1 && |last| >= 1
    && (dimensions == 2 ==> |first| >= 2 && |last| >= 2)
  }

  /** The columns of each row of a range. */
  function Columned(first: seq<Int32>, last: seq<Int32>, dimensions: nat): (s: seq<Int32>)
    requires HasCorners(first, last, dimensions)
  {
    if dimensions == 1 then [0] else if dimensions == 2 then Line(first[1], last[1]) else []
  }

  lemma Turned(from: Int32, to: Int32, dirCol: int)
    requires (from > to ==> dirCol == -1) && (from < to ==> dirCol == 1)
    ensures from != to ==> dirCol == Direction(from, to)
  {
  }

  /** The cells of a range depend on at most two coordinates of its corners. */
  lemma RangeCells(entry: Entry, first: seq<Int32>, last: seq<Int32>)
    requires WellFormed(entry) && entry.Range? && HasCorners(first, last, |entry.first|)
    requires first[0] == entry.first[0] && last[0] == entry.last[0]
    requires |entry.first| == 2 ==> first[1] == entry.first[1] && last[1] == entry.last[1]
    ensures CellsOf(entry) == BoxCells(Line(first[0], last[0]), Columned(first, last, |entry.first|))
  {
    hide Line;
    if |entry.first| > 2 {
      EmptyBox(Line(first[0], last[0]));
    }
  }

  lemma EmptyBox(rows: seq<Int32>)
    ensures BoxCells(rows, []) == []
  {
  }

  lemma EmptyRow(row: Int32)
    ensures RowCells(row, []) == []
  {
  }

  lemma ZeroRow(row: Int32)
    ensures RowCells(row, [0]) == [Cell(row, 0)]
  {
    RowStep(row, 0, 0);
  }

  /** The cells of the first k entries. */
  function CellsBefore(entries: seq<Entry>, k: nat): seq<Cell>
    requires AllWellFormed(entries) && k <= |entries|
  {
    CellsOfAll(entries[..k])
  }

  lemma {:induction false} OneMoreEntry(entries: seq<Entry>, k: nat)
    requires AllWellFormed(entries) && k < |entries|
    ensures WellFormed(entries[k])
    ensures CellsBefore(entries, k + 1) == CellsBefore(entries, k) + CellsOf(entries[k])
    ensures |CellsBefore(entries, k + 1)| <= |CellsOfAll(entries)|
    decreases k
  {
    hide CellsOf;
    var tail := entries[1..];
    if k == 0 {
      assert entries[..1][1..] == [];
    } else {
      assert forall j :: 0 <= j < |tail| ==> tail[j] == entries[j + 1];
      OneMoreEntry(tail, k - 1);
      assert entries[..k + 1][1..] == tail[..k] && entries[..k][1..] == tail[..k - 1];
    }
  }

  lemma CellsBeforeEnds(entries: seq<Entry>)
    requires AllWellFormed(entries)
    ensures CellsBefore(entries, 0) == [] && CellsBefore(entries, |entries|) == CellsOfAll(entries)
  {
    assert entries[..|entries|] == entries;
  }

  /** channelRange only yields well-formed entries. */
  lemma {:induction false} ReadWellFormed(w: string, p: nat, e: nat)
    requires p <= e <= |w|
    ensures AllWellFormed(WholeParse(w, p, e).entries)
    decreases e - p
  {
    hide ReadRange;
    var r := ReadRange(w, p, e);
    if r.res == ExprOk && r.pos < e && w[r.pos] == ',' {
      ReadWellFormed(w, r.pos + 1, e);
    }
  }

  lemma {:induction false} ListedWellFormed(w: string, param: Token)
    requires InMemory(w, param) && param.kind == ExpressionData && IsChannelList(w, param)
    ensures AllWellFormed(Listed(w, param).entries)
  {
    hide WholeParse, AllWellFormed;
    ReadWellFormed(w, param.ptr + 2, param.ptr + param.len - 1);
  }

  /** What is in a slot of two values each after an entry has been looked up with room announced
      for four. */
  lemma SlotShows(slot: EntrySlot, entry: Entry, from: seq<Int32>, to: seq<Int32>)
    requires WellFormed(entry) && |from| == |to| == MAXDIM
    requires slot.Holds(entry, ANNOUNCED, from, to)
    ensures slot.isRange == entry.Range? && slot.dimensions == |entry.first|
    ensures slot.valuesFrom.Length == slot.valuesTo.Length == MAXDIM
    ensures slot.valuesFrom[0] == entry.first[0] && (entry.Range? ==> slot.valuesTo[0] == entry.last[0])
    ensures |entry.first| >= 2 ==>
              slot.valuesFrom[1] == entry.first[1] && (entry.Range? ==> slot.valuesTo[1] == entry.last[1])
  {
    assert |slot.valuesFrom[..]| == MAXDIM && |slot.valuesTo[..]| == MAXDIM;
    assert slot.valuesFrom[..][0] == slot.valuesFrom[0] && slot.valuesTo[..][0] == slot.valuesTo[0];
    assert slot.valuesFrom[..][1] == slot.valuesFrom[1] && slot.valuesTo[..][1] == slot.valuesTo[1];
  }

  /** The branches of TEST_Chanlst on one entry; false means SCPI_RES_ERR. */
  method RecordEntry(rec: Recording, slot: EntrySlot, ghost entry: Entry, dirCol0: int) returns (ok: bool, dirCol: int)
    requires rec.Valid() && WellFormed(entry) && (dirCol0 == 1 || dirCol0 == -1)
    requires slot.valuesFrom.Length == slot.valuesTo.Length == MAXDIM
    requires rec.cells as object != slot.valuesFrom && rec.cells as object != slot.valuesTo
    requires exists from, to :: |from| == |to| == MAXDIM && slot.Holds(entry, ANNOUNCED, from, to)
    modifies rec, rec.cells
    ensures rec.Valid() && ok == !Refused(entry) && (dirCol == 1 || dirCol == -1)
    ensures rec.all == old(rec.all) + CellsOf(entry)
  {
    hide Recording.Valid, Line, BoxCells;
    ghost var from, to :| |from| == |to| == MAXDIM && slot.Holds(entry, ANNOUNCED, from, to);
    SlotShows(slot, entry, from, to);
    hide EntrySlot.Holds;
    ok, dirCol := true, dirCol0;
    if !slot.isRange {
      if slot.dimensions == 1 {
        rec.Record(slot.valuesFrom[0], 0);
      } else if slot.dimensions == 2 {
        rec.Record(slot.valuesFrom[0], slot.valuesFrom[1]);
      } else {
        ok := false;
        assert rec.all == rec.all + [];
      }
    } else {
      var first, last := slot.valuesFrom[..], slot.valuesTo[..];
      RangeCells(entry, first, last);
      hide CellsOf, Columned;
      var dirRow := if first[0] > last[0] then -1 else 1;
      dirCol := rec.Rows(first, last, slot.dimensions, dirRow, dirCol);
    }
  }

  /** The entries a parameter names, none if it is not a channel list. */
  function Entries(w: string, param: Token): (s: seq<Entry>)
    requires InMemory(w, param)
    ensures AllWellFormed(s)
  {
    if param.kind == ExpressionData && IsChannelList(w, param) then
      ListedWellFormed(w, param);
      Listed(w, param).entries
    else []
  }

  /** What looking behind the last entry pushes. */
  function Complaint(w: string, param: Token): seq<int>
    requires InMemory(w, param)
  {
    if param.kind != ExpressionData then [DATA_TYPE_ERROR]
    else if !IsChannelList(w, param) then [EXPRESSION_PARSING_ERROR]
    else if Finish(Listed(w, param), param.ptr + param.len - 1) == ExprError then [EXPRESSION_PARSING_ERROR]
    else []
  }

  /** The look-up of index k with room announced for four values stores more than two. */
  predicate TooWide(w: string, param: Token, k: nat)
    requires InMemory(w, param)
  {
    param.kind == ExpressionData && IsChannelList(w, param)
    && ReadingBeyond(ReadAt(w, param, k), ANNOUNCED, MAXDIM, MAXDIM)
  }

  /** An entry with more than two dimensions is too wide. */
  lemma {:induction false} WideEntry(w: string, p: nat, e: nat, k: nat)
    requires p <= e <= |w| && k < |WholeParse(w, p, e).entries|
    ensures |WholeParse(w, p, e).entries[k].first| > MAXDIM
            ==> ReadingBeyond(RangeAt(w, p, e, k), ANNOUNCED, MAXDIM, MAXDIM)
    decreases k
  {
    hide ReadRange;
    var r := ReadRange(w, p, e);
    if k > 0 {
      WideEntry(w, r.pos + 1, e, k - 1);
    }
  }

  lemma RefusedIsWide(w: string, param: Token, k: nat)
    requires InMemory(w, param) && k < |Entries(w, param)| && Refused(Entries(w, param)[k])
    ensures TooWide(w, param, k)
  {
    hide WholeParse, RangeAt, ReadingBeyond;
    WideEntry(w, param.ptr + 2, param.ptr + param.len - 1, k);
  }

  /** One look-up, in terms of the entries. */
  method LookUp(w: string, param: Token, index: nat, slot: EntrySlot, length: nat)
    returns (res: Status, pushed: seq<int>, outside: bool)
    requires InMemory(w, param) && slot.valuesFrom != slot.valuesTo && slot.given
    requires slot.valuesFrom.Length == slot.valuesTo.Length == MAXDIM && (length == 0 || length == ANNOUNCED)
    modifies slot, slot.valuesFrom, slot.valuesTo
    ensures res == ExprOk <==> index < |Entries(w, param)|
    ensures pushed == if res == ExprOk then [] else Complaint(w, param)
    ensures outside == (length == ANNOUNCED && TooWide(w, param, index))
    ensures res == ExprOk ==> slot.Holds(Entries(w, param)[index], length, old(slot.valuesFrom[..]),
              old(slot.valuesTo[..]))
  {
    hide EntrySlot.Holds, WholeParse, RangeAt;
    res, pushed, outside := ChannelListEntry(w, Some(param), index, slot, length);
  }

  /** Every look-up with announced room that TEST_Chanlst makes stays inside the value arrays. */
  ghost predicate Narrow(w: string, param: Token)
    requires InMemory(w, param)
  {
    Entries(w, param) != [] ==> forall k :: 0 <= k <= |Entries(w, param)| ==> !TooWide(w, param, k)
  }

  /** TEST_Chanlst on a parameter. Unless an entry is refused, all cells of all entries are
      recorded in order with a zero cell behind them, as far as the array has room; the only
      complaint is about how the text behind the last entry fails to end the list. Everything
      is stored in bounds if and only if the array has more cells than the list names and no
      channel that is looked up has more than two dimensions. */
  method TestChanlst(w: string, param: Token, cells: array<Cell>)
    returns (ok: bool, n: nat, pushed: seq<int>, inBounds: bool)
    requires InMemory(w, param)
    modifies cells
    ensures var entries := Entries(w, param);
            if ok then
              && (forall k :: 0 <= k < |entries| ==> !Refused(entries[k]))
              && n == |CellsOfAll(entries)| && pushed == Complaint(w, param)
              && Filled(cells[..], CellsOfAll(entries) + [Cell(0, 0)], old(cells[..]))
            else
              exists k :: 0 <= k < |entries| && Refused(entries[k]) && pushed == []
                && n == |CellsBefore(entries, k + 1)|
                          && Filled(cells[..], CellsBefore(entries, k + 1), old(cells[..]))
    ensures inBounds <==> |CellsOfAll(Entries(w, param))| < cells.Length && Narrow(w, param)
  {
    hide CellsOfAll, Entries, Complaint, CellsOf, Refused, TooWide, EntrySlot.Holds, AllWellFormed, CellsBefore, Filled;
    var rec := new Recording(cells);
    var slot := new EntrySlot(MAXDIM);
    var res, outside;
    ok := true;
    CellsBeforeEnds(Entries(w, param));
    res, pushed, outside := LookUp(w, param, 0, slot, 0);
    if res == ExprOk {
      ok, pushed, outside := RecordAll(w, param, rec, slot);
      if !ok {
        return false, rec.idx, pushed, false;
      }
    }
    rec.Terminate();
    return true, rec.idx, pushed, !outside && !rec.outside;
  }

  /** The do-while loop of TEST_Chanlst. */
  method RecordAll(w: string, param: Token, rec: Recording, slot: EntrySlot)
    returns (ok: bool, pushed: seq<int>, outside: bool)
    requires InMemory(w, param) && |Entries(w, param)| > 0
    requires rec.Valid() && rec.all == []
    requires slot.valuesFrom != slot.valuesTo && slot.given && slot.valuesFrom.Length == slot.valuesTo.Length == MAXDIM
    requires rec.cells as object != slot.valuesFrom && rec.cells as object != slot.valuesTo
    modifies rec, rec.cells, slot, slot.valuesFrom, slot.valuesTo
    ensures rec.Valid() && outside == !Narrow(w, param)
    ensures var entries := Entries(w, param);
            if ok then
              && (forall k :: 0 <= k < |entries| ==> !Refused(entries[k]))
              && rec.all == CellsOfAll(entries) && pushed == Complaint(w, param)
            else
              exists k :: 0 <= k < |entries| && Refused(entries[k]) && pushed == []
                          && rec.all == CellsBefore(entries, k + 1) && outside
  {
    hide CellsOfAll, Entries, Complaint, CellsOf, Refused, TooWide, Recording.Valid, EntrySlot.Holds, AllWellFormed,
         WellFormed, CellsBefore;
    ghost var entries := Entries(w, param);
    CellsBeforeEnds(entries);
    var res;
    var idx := 0;
    var dirCol := 1;
    var more := true;
    pushed, outside := [], false;
    while more
      invariant rec.Valid() && (dirCol == 1 || dirCol == -1)
      invariant idx <= |entries| && (more <==> idx < |entries|)
      invariant pushed == if more then [] else Complaint(w, param)
      invariant forall k :: 0 <= k < idx ==> !Refused(entries[k])
      invariant outside <==> exists k :: 0 <= k <= idx && (k < idx || idx > 0) && TooWide(w, param, k)
      invariant rec.all == CellsBefore(entries, idx)
      decreases |entries| - idx, more
    {
      OneMoreEntry(entries, idx);
      ghost var from, to := slot.valuesFrom[..], slot.valuesTo[..];
      var beyond;
      res, pushed, beyond := LookUp(w, param, idx, slot, ANNOUNCED);
      outside := outside || beyond;
      assert slot.Holds(entries[idx], ANNOUNCED, from, to);
      ok, dirCol := RecordEntry(rec, slot, entries[idx], dirCol);
      if !ok {
        RefusedIsWide(w, param, idx);
        return;
      }
      idx := idx + 1;
      res, pushed, beyond := LookUp(w, param, idx, slot, ANNOUNCED);
      outside := outside || beyond;
      more := res == ExprOk;
    }
    ok := true;
  }

  // ---------- the arrays of the source ----------

  /** A printed list as the whole parameter. */
  lemma {:induction false} PrintedEntries(entries: seq<Entry>)
    requires AllWellFormed(entries)
    ensures var w := ExpressionText(entries);
            var param := Token(ExpressionData, 0, |w|);
            InMemory(w, param) && IsChannelList(w, param) && Entries(w, param) == entries
  {
    hide ExpressionText, WholeParse, AllWellFormed;
    var w := ExpressionText(entries);
    assert w[0..0 + |w|] == w;
    PrintedListIndexed(w, Token(ExpressionData, 0, |w|), entries, 0);
  }

  /** The twelve cells of the array of TEST_Chanlst have room for every cell of (@1!1:2!6), and
      not for the zero cell behind them. */
  lemma TwelveCells()
    ensures var entries := [Range([1, 1], [2, 6])];
            var w := ExpressionText(entries);
            var param := Token(ExpressionData, 0, |w|);
            && w == "(@1!1:2!6)"
            && InMemory(w, param) && Entries(w, param) == entries
            && |CellsOfAll(entries)| == 12
  {
    hide CellsOfAll, Entries, ExpressionText;
    PrintedEntries([Range([1, 1], [2, 6])]);
    TwelveText();
    CountTwelve();
  }

  lemma TwelveText()
    ensures ExpressionText([Range([1, 1], [2, 6])]) == "(@1!1:2!6)"
  {
    hide IntText;
    SmallText(1, "1");
    SmallText(2, "2");
    SmallText(6, "6");
    assert [1 as Int32, 1][1..] == [1] && [2 as Int32, 6][1..] == [6];
    assert SpecText([1, 1]) == "1!1" && SpecText([2, 6]) == "2!6";
  }

  lemma SmallText(v: Int32, s: string)
    requires 0 <= v < 10 && s == [('0' as int + v as int) as char]
    ensures IntText(v) == s
  {
    assert Numerals.DigitsOf(v, 10, false) == s;
  }

  lemma CountTwelve()
    ensures |CellsOfAll([Range([1, 1], [2, 6])])| == 12
  {
    hide CellsOf;
    var entry := Range([1, 1], [2, 6]);
    RangeIsBox(entry, Cell(0, 0));
    assert [entry][1..] == [];
  }

  /** The cells of a list are those of its entries, in their order. */
  lemma {:induction false} CellsJoin(a: seq<Entry>, b: seq<Entry>)
    requires AllWellFormed(a) && AllWellFormed(b)
    ensures AllWellFormed(a + b) && CellsOfAll(a + b) == CellsOfAll(a) + CellsOfAll(b)
    ensures |a| == 1 ==> CellsOfAll(a) == CellsOf(a[0])
    decreases |a|
  {
    hide CellsOf;
    if a == [] {
      assert a + b == b;
    } else {
      assert (a + b)[1..] == a[1..] + b;
      CellsJoin(a[1..], b);
      Grouped(CellsOf(a[0]), CellsOfAll(a[1..]), CellsOfAll(b));
    }
  }

  /** The channel of (@1!2) is the cell in row 1 and column 2. */
  lemma SingleChannel()
    ensures var entries := [Single([1, 2])];
            var w := ExpressionText(entries);
            var param := Token(ExpressionData, 0, |w|);
            && w == "(@1!2)"
            && InMemory(w, param) && Entries(w, param) == entries
            && CellsOfAll(entries) == [Cell(1, 2)]
  {
    hide Entries, ExpressionText;
    PrintedEntries([Single([1, 2])]);
    SingleText();
    assert [Single([1, 2])][1..] == [];
  }

  lemma SingleText()
    ensures ExpressionText([Single([1, 2])]) == "(@1!2)"
  {
    hide IntText;
    SmallText(1, "1");
    SmallText(2, "2");
    var v: seq<Int32> := [1, 2];
    assert v[1..] == [2] && SpecText([2]) == "2" && SpecText(v) == "1!2";
  }

  /** Its two-cell value arrays, announced as four cells, do not hold the channel of (@1!2!3). */
  lemma ThreeDimensions()
    ensures var entries := [Single([1, 2, 3])];
            var w := ExpressionText(entries);
            var param := Token(ExpressionData, 0, |w|);
            && w == "(@1!2!3)"
            && InMemory(w, param) && Entries(w, param) == entries
            && TooWide(w, param, 0)
  {
    var entries := [Single([1, 2, 3])];
    ThreeText();
    PrintedEntries(entries);
    hide ExpressionText, WholeParse;
    RefusedIsWide(ExpressionText(entries), Token(ExpressionData, 0, |ExpressionText(entries)|), 0);
  }

  lemma ThreeText()
    ensures ExpressionText([Single([1, 2, 3])]) == "(@1!2!3)"
  {
    hide IntText;
    SmallText(1, "1");
    SmallText(2, "2");
    SmallText(3, "3");
    var v: seq<Int32> := [1, 2, 3];
    assert v[1..] == [2, 3] && v[1..][1..] == [3];
    assert SpecText([3]) == "3" && SpecText([2, 3]) == "2!3";
    assert SpecText(v) == "1!2!3";
  }
}
