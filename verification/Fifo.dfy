/** The error queue's ring buffer (Utilities/Scpi/Src/fifo.c), refining a bounded queue that
    drops its oldest element when a value arrives and it is full. */
module Fifo {
  import opened Basics

  const FIFO_SIZE := 16

  // ---------- the bounded queue ----------

  function Push(q: seq<int>, v: int, capacity: nat): (r: seq<int>)
    requires |q| <= capacity
    ensures |r| <= capacity
  {
    var grown := q + [v];
    if |grown| > capacity then grown[1..] else grown
  }

  datatype Op = Add(v: int) | Remove | Clear

  /** A run of the queue: what is left, and everything that left it, in the order it left. */
  datatype Trace = Trace(queue: seq<int>, departed: seq<int>)

  function Step(t: Trace, op: Op, capacity: nat): (r: Trace)
    requires |t.queue| <= capacity
    ensures |r.queue| <= capacity
  {
    match op
    case Add(v) =>
      Trace(Push(t.queue, v, capacity), t.departed + (t.queue + [v])[..|t.queue| + 1 - |Push(t.queue, v, capacity)|])
    case Remove =>
      if t.queue == [] then t else Trace(t.queue[1..], t.departed + t.queue[..1])
    case Clear =>
      Trace([], t.departed + t.queue)
  }

  function Run(t: Trace, ops: seq<Op>, capacity: nat): (r: Trace)
    requires |t.queue| <= capacity
    ensures |r.queue| <= capacity
    decreases |ops|
  {
    if ops == [] then t else Run(Step(t, ops[0], capacity), ops[1..], capacity)
  }

  function Added(ops: seq<Op>): seq<int>
    decreases |ops|
  {
    if ops == [] then []
    else (if ops[0].Add? then [ops[0].v] else []) + Added(ops[1..])
  }

  /** First in, first out: whatever the operations, the values that left followed by the
      values still queued are the values that entered, in the order they entered. */
  lemma {:induction false} RunKeepsOrder(t: Trace, ops: seq<Op>, capacity: nat)
    requires |t.queue| <= capacity
    ensures var r := Run(t, ops, capacity);
            r.departed + r.queue == t.departed + t.queue + Added(ops)
    decreases |ops|
  {
    if ops == [] {
    } else {
      var s := Step(t, ops[0], capacity);
      RunKeepsOrder(s, ops[1..], capacity);
      var entered := if ops[0].Add? then [ops[0].v] else [];
      assert s.departed + s.queue == t.departed + t.queue + entered by {
        StepKeepsOrder(t, ops[0], capacity);
      }
      assert t.departed + t.queue + (entered + Added(ops[1..])) == (t.departed + t.queue + entered) + Added(ops[1..]);
    }
  }

  /** A step moves values from the front of what it has to what has left. */
  lemma Moved(departed: seq<int>, all: seq<int>, k: nat)
    requires k <= |all|
    ensures departed + all[..k] + all[k..] == departed + all
  {
    assert all == all[..k] + all[k..];
  }

  lemma Entered(departed: seq<int>, queue: seq<int>, v: int)
    ensures departed + (queue + [v]) == departed + queue + [v]
  {
  }

  lemma StepKeepsOrder(t: Trace, op: Op, capacity: nat)
    requires |t.queue| <= capacity
    ensures var s := Step(t, op, capacity);
            s.departed + s.queue == t.departed + t.queue + (if op.Add? then [op.v] else [])
  {
    match op
    case Add(v) =>
      var grown := t.queue + [v];
      var k := |grown| - |Push(t.queue, v, capacity)|;
      PushIsSuffix(t.queue, v, capacity);
      hide Push;
      Moved(t.departed, grown, k);
      Entered(t.departed, t.queue, v);
    case Remove =>
      if t.queue != [] {
        Moved(t.departed, t.queue, 1);
      }
    case Clear =>
  }

  lemma PushIsSuffix(q: seq<int>, v: int, capacity: nat)
    requires |q| <= capacity
    ensures var r := Push(q, v, capacity);
            |r| <= |q| + 1 && r == (q + [v])[|q| + 1 - |r|..]
  {
  }

  // ---------- the ring ----------

  /** The next index of a ring with size + 1 cells. */
  function Succ(i: nat, size: nat): (r: nat)
    requires i <= size
  {
    (i + 1) % (size + 1)
  }

  lemma SuccIs(i: nat, size: nat)
    requires i <= size
    ensures Succ(i, size) == if i == size then 0 else i + 1
  {
    if i == size {
      assert (size + 1) % (size + 1) == 0;
    }
  }

  lemma FullAt(rd: nat, size: nat)
    requires rd <= size
    ensures (rd + size) % (size + 1) == if rd == 0 then size else rd - 1
  {
    if rd > 0 {
      ModOnce(rd - 1, size + 1);
      assert rd + size == (rd - 1) + (size + 1);
    }
  }

  lemma ModOnce(x: nat, m: nat)
    requires x < m
    ensures (x + m) % m == x
  {
  }

  /** The indices run over 0..size, so the cells are one more than the source declares; outside
      notes whether anything has been stored in the last one. */
  class Ring {
    const size: nat
    const data: array<int>
    var wr: nat
    var rd: nat
    var outside: bool

    ghost predicate Valid()
      reads this
    {
      data.Length == size + 1 && wr <= size && rd <= size
    }

    /** The queued values, oldest first. */
    ghost function Contents(): (q: seq<int>)
      requires Valid()
      reads this, data
      ensures |q| <= size
    {
      if rd <= wr then data[rd..wr] else data[rd..] + data[..wr]
    }

    /** fifo_init */
    constructor (size: nat)
      ensures Valid() && fresh(data) && this.size == size && Contents() == [] && wr == 0 && !outside
    {
      this.size := size;
      data := new int[size + 1];
      wr, rd, outside := 0, 0, false;
    }

    /** fifo_clear */
    method Clear()
      requires Valid()
      modifies this`wr, this`rd
      ensures Valid() && Contents() == [] && wr == 0
    {
      wr, rd := 0, 0;
    }

    /** fifo_remove */
    method Remove() returns (ok: bool, value: int)
      requires Valid()
      modifies this`rd
      ensures Valid()
      ensures ok == (old(Contents()) != [])
      ensures ok ==> value == old(Contents())[0] && Contents() == old(Contents())[1..]
      ensures !ok ==> value == 0 && Contents() == []
    {
      value := 0;
      if wr == rd {
        return false, 0;
      }
      value := data[rd];
      SuccIs(rd, size);
      hide Succ;
      rd := Succ(rd, size);
      ok := true;
    }

    /** fifo_add */
    method Add(value: int)
      requires Valid()
      modifies this, data
      ensures Valid()
      ensures Contents() == Push(old(Contents()), value, size)
      ensures outside == (old(outside) || old(wr) == size) && wr == if old(wr) == size then 0 else old(wr) + 1
    {
      ghost var before := Contents();
      if wr == (rd + size) % (size + 1) {
        FullAt(rd, size);
        assert |Contents()| == size;
        var _, _ := Remove();
      } else {
        FullAt(rd, size);
        assert |Contents()| < size;
      }
      ghost var kept := Contents();
      outside := outside || wr == size;
      Store(value);
      if |before| == size > 0 {
        assert (before + [value])[1..] == kept + [value];
      }
    }

    /** The tail of fifo_add, once there is room. */
    method Store(value: int)
      requires Valid() && (size == 0 || |Contents()| < size)
      modifies this`wr, data
      ensures Valid() && wr == if old(wr) == size then 0 else old(wr) + 1
      ensures Contents() == if size == 0 then [] else old(Contents()) + [value]
    {
      SuccIs(wr, size);
      hide Succ;
      data[wr] := value;
      wr := Succ(wr, size);
    }

    /** fifo_count: a negative difference of the indices has wrapped once. */
    method Count() returns (value: int)
      requires Valid()
      ensures value == |Contents()|
    {
      value := wr - rd;
      if value < 0 {
        value := value + (size + 1);
      }
    }
  }

  // ---------- where the stores go ----------

  /** A run stores something behind the declared cells, the next store going to cell wr. */
  predicate StoresOutside(wr: nat, ops: seq<Op>, size: nat)
    requires wr <= size
    decreases |ops|
  {
    ops != [] &&
    match ops[0]
    case Add(_) => wr == size || StoresOutside(wr + 1, ops[1..], size)
    case Remove => StoresOutside(wr, ops[1..], size)
    case Clear => StoresOutside(0, ops[1..], size)
  }

  /** The most additions without a clear between them, n having come before. */
  function Stretch(n: nat, ops: seq<Op>): (r: nat)
    ensures r >= n
    decreases |ops|
  {
    if ops == [] then n
    else
      match ops[0]
      case Add(_) => Stretch(n + 1, ops[1..])
      case Remove => Stretch(n, ops[1..])
      case Clear => Max(n, Stretch(0, ops[1..]))
  }

  /** Every store stays inside the declared array if and only if no more values than it has cells
      are added without a clear between them, however many are removed. */
  lemma {:induction false} OutsideExactly(n: nat, ops: seq<Op>, size: nat)
    requires n <= size
    ensures StoresOutside(n, ops, size) <==> Stretch(n, ops) > size
    decreases |ops|
  {
    if ops != [] {
      match ops[0]
      case Add(_) =>
        if n < size {
          OutsideExactly(n + 1, ops[1..], size);
        }
      case Remove => OutsideExactly(n, ops[1..], size);
      case Clear => OutsideExactly(0, ops[1..], size);
    }
  }

  /** A value added and removed again, n times. */
  function Passing(n: nat): seq<Op> {
    if n == 0 then [] else [Add(0), Remove] + Passing(n - 1)
  }

  lemma {:induction false} PassingStretch(k: nat, n: nat)
    ensures Stretch(k, Passing(n)) == k + n
    decreases n
  {
    if n > 0 {
      var rest := Passing(n - 1);
      assert Passing(n)[1..] == [Remove] + rest && ([Remove] + rest)[1..] == rest;
      PassingStretch(k + 1, n - 1);
    }
  }

  /** The seventeenth value since the start goes behind the sixteen cells declared, even if the
      queue never held more than one. */
  lemma {:induction false} SeventeenthOutside()
    ensures !StoresOutside(0, Passing(FIFO_SIZE), FIFO_SIZE)
    ensures StoresOutside(0, Passing(FIFO_SIZE + 1), FIFO_SIZE)
  {
    hide StoresOutside, Stretch, Passing;
    PassingStretch(0, FIFO_SIZE);
    PassingStretch(0, FIFO_SIZE + 1);
    OutsideExactly(0, Passing(FIFO_SIZE), FIFO_SIZE);
    OutsideExactly(0, Passing(FIFO_SIZE + 1), FIFO_SIZE);
  }

  /** A caller driving one ring with any operations sees exactly the bounded queue. */
  method Drive(ring: Ring, ops: seq<Op>) returns (popped: seq<int>)
    requires ring.Valid()
    modifies ring, ring.data
    ensures ring.Valid()
    ensures ring.Contents() == Run(Trace(old(ring.Contents()), []), ops, ring.size).queue
    ensures popped == Popped(old(ring.Contents()), ops, ring.size)
    ensures ring.wr <= ring.size && old(ring.wr) <= ring.size
    ensures ring.outside == (old(ring.outside) || StoresOutside(old(ring.wr), ops, ring.size))
  {
    hide Ring.Contents;
    popped := [];
    var i := 0;
    ghost var t := Trace(ring.Contents(), []);
    ghost var start := ring.Contents();
    while i < |ops|
      invariant 0 <= i <= |ops|
      invariant ring.Valid() && ring.Contents() == t.queue
      invariant (ring.outside || StoresOutside(ring.wr, ops[i..], ring.size))
             == (old(ring.outside) || StoresOutside(old(ring.wr), ops, ring.size))
      invariant Run(t, ops[i..], ring.size) == Run(Trace(start, []), ops, ring.size)
      invariant popped + Popped(t.queue, ops[i..], ring.size) == Popped(start, ops, ring.size)
      decreases |ops| - i
    {
      assert ops[i..][1..] == ops[i + 1..];
      ghost var rest := ops[i + 1..];
      t := Step(t, ops[i], ring.size);
      match ops[i] {
        case Add(v) => ring.Add(v);
        case Remove =>
          ghost var before := popped;
          var ok, value := ring.Remove();
          if ok {
            popped := popped + [value];
            assert before + ([value] + Popped(t.queue, rest, ring.size)) == popped + Popped(t.queue, rest, ring.size);
          }
        case Clear => ring.Clear();
      }
      i := i + 1;
    }
  }

  /** The values handed to the caller by a run of the bounded queue. */
  function Popped(q: seq<int>, ops: seq<Op>, capacity: nat): seq<int>
    requires |q| <= capacity
    decreases |ops|
  {
    if ops == [] then []
    else
      var rest := Popped(Step(Trace(q, []), ops[0], capacity).queue, ops[1..], capacity);
      if ops[0].Remove? && q != [] then [q[0]] + rest else rest
  }
}
