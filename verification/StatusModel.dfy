/** The IEEE 488.2 section 11 status model as functions: the register cascade of SCPI_RegSet
    (Utilities/Scpi/Src/ieee488.c) and the error queue operations of error.c, with the
    invariant every run keeps and the exact condition for a service request. */
module StatusModel {
  import Fifo

  // ---------- register names and bits ----------

  const STB := 0
  const SRE := 1
  const ESR := 2
  const ESE := 3
  const OPER := 4
  const OPERE := 5
  const QUES := 6
  const QUESE := 7
  const REG_COUNT := 8

  const STB_QMA: bv16 := 0x04
  const STB_QES: bv16 := 0x08
  const STB_ESR: bv16 := 0x20
  const STB_SRQ: bv16 := 0x40
  const STB_OPS: bv16 := 0x80

  const ESR_OPC: bv16 := 0x01
  const ESR_REQ: bv16 := 0x02
  const ESR_QER: bv16 := 0x04
  const ESR_DER: bv16 := 0x08
  const ESR_EER: bv16 := 0x10
  const ESR_CER: bv16 := 0x20
  const ESR_URQ: bv16 := 0x40
  const ESR_PON: bv16 := 0x80

  predicate Any(x: bv16, mask: bv16) {
    x & mask != 0
  }

  function With(x: bv16, bits: bv16): bv16 {
    x | bits
  }

  function Without(x: bv16, bits: bv16): bv16 {
    x & !bits
  }

  function Put(x: bv16, bits: bv16, on: bool): bv16 {
    if on then With(x, bits) else Without(x, bits)
  }

  // ---------- state ----------

  /** What leaves the device: a service request with the status byte, or an error notice. */
  datatype Signal = Srq(stb: bv16) | ErrorNotice(err: int)

  /** history holds the status byte after each time SCPI_RegSet evaluated it. */
  datatype Raw = Raw(regs: seq<bv16>, queue: seq<int>, signals: seq<Signal>, history: seq<bv16>, cmdError: bool)

  type Status = s: Raw | |s.regs| == REG_COUNT && |s.queue| <= Fifo.FIFO_SIZE
    witness Raw([0, 0, 0, 0, 0, 0, 0, 0], [], [], [], false)

  const POWER_ON: Status := Raw([0, 0, 0, 0, 0, 0, 0, 0], [], [], [], false)

  // ---------- SCPI_RegSet ----------

  /** The rank by which the recursion descends: enable, event or mask, status byte. */
  function Rank(name: nat): nat {
    if name == STB then 0
    else if name == ESE || name == OPERE || name == QUESE then 2
    else 1
  }

  function Summoned(stb: bv16, sre: bv16): bool {
    Any(stb, Without(sre, STB_SRQ))
  }

  function SetStb(s: Status, val: bv16): Status {
    var on := Summoned(val, s.regs[SRE]);
    var v := Put(val, STB_SRQ, on);
    s.(regs := s.regs[STB := v],
       history := s.history + [v],
       signals := if on && s.regs[STB] != v then s.signals + [Srq(v)] else s.signals)
  }

  function SetRegister(s: Status, name: nat, val: bv16): Status
    decreases Rank(name), 1
  {
    if name >= REG_COUNT then s
    else if name == STB then SetStb(s, val)
    else
      var r := Cascade(s.(regs := s.regs[name := val]), name, val);
      r.(regs := r.regs[name := val])
  }

  /** The switch of SCPI_RegSet for every register but the status byte itself. */
  function Cascade(w: Status, name: nat, val: bv16): Status
    requires 0 < name < REG_COUNT
    decreases Rank(name), 0
  {
    if name == SRE then SetRegister(w, STB, w.regs[STB])
    else if name == ESR then Summarize(w, val, ESE, STB_ESR)
    else if name == ESE then SetRegister(w, ESR, w.regs[ESR])
    else if name == QUES then Summarize(w, val, QUESE, STB_QES)
    else if name == QUESE then SetRegister(w, QUES, w.regs[QUES])
    else if name == OPER then Summarize(w, val, OPERE, STB_OPS)
    else SetRegister(w, OPER, w.regs[OPER])
  }

  /** regUpdateSTB */
  function Summarize(s: Status, val: bv16, mask: nat, bits: bv16): Status
    requires mask < REG_COUNT
  {
    SetStb(s, Put(s.regs[STB], bits, Any(val, s.regs[mask])))
  }

  // ---------- the cascade without recursion ----------

  /** The status byte a write starts from: the one summary bit fed by the written register
      is recomputed from the event register and its enable register. */
  function Refed(regs: seq<bv16>, name: nat): bv16
    requires |regs| == REG_COUNT
  {
    if name == ESR || name == ESE then Put(regs[STB], STB_ESR, Any(regs[ESR], regs[ESE]))
    else if name == QUES || name == QUESE then Put(regs[STB], STB_QES, Any(regs[QUES], regs[QUESE]))
    else if name == OPER || name == OPERE then Put(regs[STB], STB_OPS, Any(regs[OPER], regs[OPERE]))
    else regs[STB]
  }

  function OneWrite(s: Status, name: nat, val: bv16): Status
    requires name < REG_COUNT
  {
    if name == STB then SetStb(s, val)
    else
      var w := s.regs[name := val];
      SetStb(s.(regs := w), Refed(w, name))
  }

  /** The cascade stores the written value, evaluates the status byte exactly once, and
      touches nothing else. */
  lemma {:induction false} CascadeIsOneWrite(s: Status, name: nat, val: bv16)
    requires name < REG_COUNT
    ensures SetRegister(s, name, val) == OneWrite(s, name, val)
    decreases Rank(name)
  {
    hide Any, Put, Summoned;
    var w: Status := s.(regs := s.regs[name := val]);
    if name == STB {
    } else if name == ESE || name == QUESE || name == OPERE {
      var mid := name - 1;
      assert w.regs[mid := w.regs[mid]] == w.regs;
      assert w.(regs := w.regs[mid := w.regs[mid]]) == w;
      var r := SetRegister(w, mid, w.regs[mid]);
      CascadeIsOneWrite(w, mid, w.regs[mid]);
      assert r.regs[name := val] == r.regs;
    } else {
      var r := SetRegister(s, name, val);
      assert r.regs == OneWrite(s, name, val).regs;
    }
  }

  /** One evaluation of the status byte, and a request exactly when the new status byte has
      bit 6 and differs from the old one. */
  lemma {:induction false} RequestExact(s: Status, name: nat, val: bv16)
    requires name < REG_COUNT
    ensures var r := SetRegister(s, name, val);
            var stb := r.regs[STB];
            && r.history == s.history + [stb]
            && r.signals == s.signals + (if Any(stb, STB_SRQ) && stb != s.regs[STB] then [Srq(stb)] else [])
            && (name != STB ==> r.regs[name] == val)
            && r.queue == s.queue && r.cmdError == s.cmdError
            && forall i :: 0 < i < REG_COUNT && i != name ==> r.regs[i] == s.regs[i]
  {
    CascadeIsOneWrite(s, name, val);
    hide Any, Put, Summoned, SetRegister;
    var w := s.regs[name := val];
    PutGet(if name == STB then val else Refed(w, name), STB_SRQ,
           Summoned(if name == STB then val else Refed(w, name), w[SRE]));
  }

  // ---------- bits ----------

  lemma PutGet(x: bv16, bits: bv16, on: bool)
    requires bits in {STB_SRQ, STB_ESR, STB_QES, STB_OPS, STB_QMA}
    ensures Any(Put(x, bits, on), bits) == on
  {
  }

  lemma SameUnderMask(x: bv16, y: bv16, mask: bv16)
    requires x & mask == y & mask
    ensures Any(x, mask) == Any(y, mask)
  {
  }

  lemma WithUnderMask(x: bv16, bits: bv16, other: bv16)
    requires bits & other == 0
    ensures With(x, bits) & other == x & other
  {
    assert (x | bits) & other == (x & other) | (bits & other);
    assert (x & other) | 0 == x & other;
  }

  lemma WithOther(x: bv16, bits: bv16, other: bv16)
    requires bits & other == 0
    ensures Any(With(x, bits), other) == Any(x, other)
  {
    hide With, Any;
    WithUnderMask(x, bits, other);
    SameUnderMask(With(x, bits), x, other);
  }

  lemma WithoutUnderMask(x: bv16, bits: bv16, other: bv16)
    requires bits & other == 0
    ensures Without(x, bits) & other == x & other
  {
    assert !bits & other == other;
    assert (x & !bits) & other == x & (!bits & other);
  }

  lemma WithoutOther(x: bv16, bits: bv16, other: bv16)
    requires bits & other == 0
    ensures Any(Without(x, bits), other) == Any(x, other)
  {
    hide Without, Any;
    WithoutUnderMask(x, bits, other);
    SameUnderMask(Without(x, bits), x, other);
  }

  lemma PutOther(x: bv16, bits: bv16, other: bv16, on: bool)
    requires bits & other == 0
    ensures Any(Put(x, bits, on), other) == Any(x, other)
  {
    hide Any, With, Without;
    if on {
      WithOther(x, bits, other);
    } else {
      WithoutOther(x, bits, other);
    }
  }

  /** The request bit does not count as a reason for a request. */
  lemma SummonedIgnoresRequest(x: bv16, sre: bv16, on: bool)
    ensures Summoned(Put(x, STB_SRQ, on), sre) == Summoned(x, sre)
  {
    assert STB_SRQ & (sre & !STB_SRQ) == 0;
    PutOther(x, STB_SRQ, Without(sre, STB_SRQ), on);
  }

  // ---------- error numbers and the event status register ----------

  datatype ErrorClass = ErrorClass(from: int, to: int, bit: bv16)

  /** The table errs. */
  const ERROR_CLASSES: seq<ErrorClass> :=
    [ErrorClass(-100, -199, ESR_CER),
     ErrorClass(-200, -299, ESR_EER),
     ErrorClass(-300, -399, ESR_DER),
     ErrorClass(1, 32767, ESR_DER),
     ErrorClass(-400, -499, ESR_QER),
     ErrorClass(-500, -599, ESR_PON),
     ErrorClass(-600, -699, ESR_URQ),
     ErrorClass(-700, -799, ESR_REQ),
     ErrorClass(-800, -899, ESR_OPC)]

  predicate InClass(err: int, c: ErrorClass) {
    err <= c.from && err >= c.to
  }

  function SetBits(s: Status, name: nat, bits: bv16): Status
    requires name < REG_COUNT
  {
    SetRegister(s, name, With(s.regs[name], bits))
  }

  function ClearBits(s: Status, name: nat, bits: bv16): Status
    requires name < REG_COUNT
  {
    SetRegister(s, name, Without(s.regs[name], bits))
  }

  /** The loop of SCPI_ErrorPush over the table, from row i on. */
  function MarkClasses(s: Status, err: int, i: nat): Status
    requires i <= |ERROR_CLASSES|
    decreases |ERROR_CLASSES| - i
  {
    if i == |ERROR_CLASSES| then s
    else
      MarkClasses(if InClass(err, ERROR_CLASSES[i]) then SetBits(s, ESR, ERROR_CLASSES[i].bit) else s, err, i + 1)
  }

  // ---------- operations ----------

  function Emit(s: Status, err: int): Status {
    var r := SetBits(s, STB, STB_QMA);
    r.(signals := r.signals + [ErrorNotice(err)])
  }

  function EmitEmpty(s: Status): Status {
    if s.queue == [] && Any(s.regs[STB], STB_QMA) then
      var r := ClearBits(s, STB, STB_QMA);
      r.(signals := r.signals + [ErrorNotice(0)])
    else s
  }

  function PushError(s: Status, err: int): Status {
    var queued: Status := s.(queue := Fifo.Push(s.queue, err, Fifo.FIFO_SIZE));
    Emit(MarkClasses(queued, err, 0), err).(cmdError := true)
  }

  function PopError(s: Status): Status {
    EmitEmpty(s.(queue := if s.queue == [] then [] else s.queue[1..]))
  }

  function ClearErrors(s: Status): Status {
    EmitEmpty(s.(queue := []))
  }

  function Cls(s: Status): Status {
    SetRegister(SetRegister(ClearErrors(SetRegister(s, ESR, 0)), OPER, 0), QUES, 0)
  }

  datatype Op =
    | Write(name: nat, val: bv16)
    | ErrorPushOp(err: int)
    | ErrorPopOp
    | ErrorClearOp
    | ClsOp
    | OpcOp
    | EsrQOp

  function Apply(s: Status, op: Op): Status {
    match op
    case Write(name, val) => SetRegister(s, name, val)
    case ErrorPushOp(err) => PushError(s, err)
    case ErrorPopOp => PopError(s)
    case ErrorClearOp => ClearErrors(s)
    case ClsOp => Cls(s)
    case OpcOp => SetBits(s, ESR, ESR_OPC)
    case EsrQOp => SetRegister(s, ESR, 0)
  }

  function Run(s: Status, ops: seq<Op>): Status
    decreases |ops|
  {
    if ops == [] then s else Run(Apply(s, ops[0]), ops[1..])
  }

  /** The device's own code never writes the status byte directly, nor may a caller. */
  predicate Allowed(op: Op) {
    op.Write? ==> op.name != STB
  }

  // ---------- the invariant ----------

  /** Every summary bit of a status byte says what it summarizes, and unused bits are 0. */
  ghost predicate Summarizes(stb: bv16, regs: seq<bv16>, queue: seq<int>)
    requires |regs| == REG_COUNT
  {
    && Any(stb, STB_ESR) == Any(regs[ESR], regs[ESE])
    && Any(stb, STB_QES) == Any(regs[QUES], regs[QUESE])
    && Any(stb, STB_OPS) == Any(regs[OPER], regs[OPERE])
    && Any(stb, STB_QMA) == (queue != [])
    && !Any(stb, 0xff13)
  }

  /** One request per evaluation that left bit 6 set and changed the status byte. */
  function Requests(stb: bv16, history: seq<bv16>): seq<Signal>
    decreases |history|
  {
    if history == [] then []
    else
      var last := history[|history| - 1];
      var before := if |history| == 1 then stb else history[|history| - 2];
      Requests(stb, history[..|history| - 1]) + (if Any(last, STB_SRQ) && last != before then [Srq(last)] else [])
  }

  function Srqs(signals: seq<Signal>): seq<Signal>
    decreases |signals|
  {
    if signals == [] then []
    else
      var last := signals[|signals| - 1];
      Srqs(signals[..|signals| - 1]) + (if last.Srq? then [last] else [])
  }

  /** The history accounts for the status byte and for every request sent. */
  ghost predicate Accounted(s: Status) {
    && s.regs[STB] == (if s.history == [] then 0 else s.history[|s.history| - 1])
    && Srqs(s.signals) == Requests(0, s.history)
  }

  ghost predicate Inv(s: Status) {
    && Summarizes(s.regs[STB], s.regs, s.queue)
    && Any(s.regs[STB], STB_SRQ) == Any(s.regs[STB], Without(s.regs[SRE], STB_SRQ))
    && Accounted(s)
  }

  lemma SrqsAppend(signals: seq<Signal>, x: Signal)
    ensures Srqs(signals + [x]) == Srqs(signals) + (if x.Srq? then [x] else [])
  {
    assert (signals + [x])[..|signals|] == signals;
  }

  lemma RequestsAppend(stb: bv16, history: seq<bv16>, v: bv16)
    ensures Requests(stb, history + [v])
         == Requests(stb, history)
            + (if Any(v, STB_SRQ) && v != (if history == [] then stb else history[|history| - 1]) then [Srq(v)] else [])
  {
    assert (history + [v])[..|history|] == history;
    if history != [] {
      assert (history + [v])[|history| - 1] == history[|history| - 1];
    }
  }

  lemma SetStbAccounted(s: Status, val: bv16)
    requires Accounted(s)
    ensures Accounted(SetStb(s, val))
  {
    hide Any, Put, Summoned, Srqs, Requests;
    var on := Summoned(val, s.regs[SRE]);
    var v := Put(val, STB_SRQ, on);
    PutGet(val, STB_SRQ, on);
    RequestsAppend(0, s.history, v);
    SrqsAppend(s.signals, Srq(v));
  }

  lemma SummarizesPutRequest(val: bv16, regs: seq<bv16>, queue: seq<int>, on: bool)
    requires |regs| == REG_COUNT && Summarizes(val, regs, queue)
    ensures Summarizes(Put(val, STB_SRQ, on), regs, queue)
  {
    PutOther(val, STB_SRQ, STB_ESR, on);
    PutOther(val, STB_SRQ, STB_QES, on);
    PutOther(val, STB_SRQ, STB_OPS, on);
    PutOther(val, STB_SRQ, STB_QMA, on);
    PutOther(val, STB_SRQ, 0xff13, on);
    hide Any, Put;
  }

  lemma SummarizesElsewhere(stb: bv16, regs: seq<bv16>, queue: seq<int>, v: bv16)
    requires |regs| == REG_COUNT && Summarizes(stb, regs, queue)
    ensures Summarizes(stb, regs[STB := v], queue)
  {
    hide Any;
  }

  /** Evaluating the status byte restores the whole invariant from correct summary bits. */
  lemma SetStbInv(s: Status, val: bv16)
    requires Accounted(s) && Summarizes(val, s.regs, s.queue)
    ensures Inv(SetStb(s, val))
  {
    hide Any, Put, Srqs, Requests, Without, Summarizes, Accounted;
    var on := Summoned(val, s.regs[SRE]);
    var v := Put(val, STB_SRQ, on);
    SetStbAccounted(s, val);
    PutGet(val, STB_SRQ, on);
    SummonedIgnoresRequest(val, s.regs[SRE], on);
    SummarizesPutRequest(val, s.regs, s.queue, on);
    SummarizesElsewhere(v, s.regs, s.queue, v);
  }

  lemma RefedSummarizes(regs: seq<bv16>, name: nat, val: bv16, queue: seq<int>)
    requires |regs| == REG_COUNT && 0 < name < REG_COUNT
    requires Summarizes(regs[STB], regs, queue)
    ensures Summarizes(Refed(regs[name := val], name), regs[name := val], queue)
  {
    hide Any, Put;
    var w := regs[name := val];
    var stb := regs[STB];
    if name == ESR || name == ESE {
      PutBitKeeps(stb, STB_ESR, Any(w[ESR], w[ESE]));
    } else if name == QUES || name == QUESE {
      PutBitKeeps(stb, STB_QES, Any(w[QUES], w[QUESE]));
    } else if name == OPER || name == OPERE {
      PutBitKeeps(stb, STB_OPS, Any(w[OPER], w[OPERE]));
    }
  }

  /** Setting one summary bit leaves the other summary bits and the unused bits alone. */
  lemma PutBitKeeps(x: bv16, bits: bv16, on: bool)
    requires bits in {STB_ESR, STB_QES, STB_OPS, STB_QMA}
    ensures Any(Put(x, bits, on), bits) == on
    ensures forall other | other in {STB_ESR, STB_QES, STB_OPS, STB_QMA, 0xff13} - {bits} ::
              Any(Put(x, bits, on), other) == Any(x, other)
  {
    PutGet(x, bits, on);
    forall other | other in {STB_ESR, STB_QES, STB_OPS, STB_QMA, 0xff13} - {bits}
      ensures Any(Put(x, bits, on), other) == Any(x, other)
    {
      assert bits & other == 0;
      hide Any, Put;
      PutOther(x, bits, other, on);
    }
  }

  lemma {:induction false} WriteInv(s: Status, name: nat, val: bv16)
    requires Inv(s) && name != STB
    ensures Inv(SetRegister(s, name, val))
  {
    if name < REG_COUNT {
      CascadeIsOneWrite(s, name, val);
      RefedSummarizes(s.regs, name, val, s.queue);
      hide Any, Put, Srqs, Requests, Without, Summarizes, Refed, SetStb, SetRegister;
      var w: Status := s.(regs := s.regs[name := val]);
      assert Accounted(w);
      SetStbInv(w, Refed(w.regs, name));
    }
  }

  // ---------- every operation keeps the invariant ----------

  lemma QueueBitInv(s: Status, on: bool)
    requires Accounted(s)
    requires Summarizes(s.regs[STB], s.regs, s.queue) || Summarizes(s.regs[STB], s.regs, if on then [] else [0])
    requires on == (s.queue != [])
    ensures Inv(SetStb(s, Put(s.regs[STB], STB_QMA, on)))
  {
    PutBitKeeps(s.regs[STB], STB_QMA, on);
    var v := Put(s.regs[STB], STB_QMA, on);
    assert Summarizes(v, s.regs, s.queue) by { hide Any, Put; }
    hide Any, Put, Summarizes, Accounted;
    SetStbInv(s, v);
  }

  lemma NoticeInv(s: Status, err: int)
    requires Inv(s)
    ensures Inv(s.(signals := s.signals + [ErrorNotice(err)]))
  {
    hide Any, Put, Summarizes, Requests, Srqs;
    SrqsAppend(s.signals, ErrorNotice(err));
  }

  /** Like the invariant, except that the queue has just gained or lost elements. */
  ghost predicate AllButQueueBit(s: Status) {
    && Accounted(s)
    && (Summarizes(s.regs[STB], s.regs, []) || Summarizes(s.regs[STB], s.regs, [0]))
    && Any(s.regs[STB], STB_SRQ) == Any(s.regs[STB], Without(s.regs[SRE], STB_SRQ))
  }

  lemma EmitInv(s: Status, err: int)
    requires AllButQueueBit(s) && s.queue != []
    ensures Inv(Emit(s, err))
  {
    hide Any, With, Without, Srqs, Requests;
    QueueBitInv(s, true);
    NoticeInv(SetBits(s, STB, STB_QMA), err);
  }

  lemma EmitEmptyInv(s: Status)
    requires AllButQueueBit(s)
    requires s.queue != [] ==> Inv(s)
    ensures Inv(EmitEmpty(s))
  {
    hide Any, With, Without, Srqs, Requests;
    if s.queue == [] && Any(s.regs[STB], STB_QMA) {
      QueueBitInv(s, false);
      NoticeInv(ClearBits(s, STB, STB_QMA), 0);
    }
  }

  lemma RequeueWrite(s: Status, q: seq<int>, name: nat, val: bv16)
    requires |q| <= Fifo.FIFO_SIZE && name < REG_COUNT
    ensures SetRegister(s.(queue := q), name, val) == SetRegister(s, name, val).(queue := q)
  {
    CascadeIsOneWrite(s, name, val);
    CascadeIsOneWrite(s.(queue := q), name, val);
    hide Any, Put, SetRegister, Summoned;
  }

  lemma {:induction false} RequeueMark(s: Status, q: seq<int>, err: int, i: nat)
    requires |q| <= Fifo.FIFO_SIZE && i <= |ERROR_CLASSES|
    ensures MarkClasses(s.(queue := q), err, i) == MarkClasses(s, err, i).(queue := q)
    decreases |ERROR_CLASSES| - i
  {
    hide With, SetRegister;
    if i < |ERROR_CLASSES| {
      var c := ERROR_CLASSES[i];
      hide InClass;
      if InClass(err, c) {
        RequeueWrite(s, q, ESR, With(s.regs[ESR], c.bit));
        RequeueMark(SetBits(s, ESR, c.bit), q, err, i + 1);
      } else {
        RequeueMark(s, q, err, i + 1);
      }
    }
  }

  lemma {:induction false} MarkInv(s: Status, err: int, i: nat)
    requires Inv(s) && i <= |ERROR_CLASSES|
    ensures Inv(MarkClasses(s, err, i))
    ensures MarkClasses(s, err, i).queue == s.queue
    decreases |ERROR_CLASSES| - i
  {
    hide Inv, With, SetRegister, InClass;
    if i < |ERROR_CLASSES| {
      var c := ERROR_CLASSES[i];
      if InClass(err, c) {
        WriteInv(s, ESR, With(s.regs[ESR], c.bit));
        RequestExact(s, ESR, With(s.regs[ESR], c.bit));
        MarkInv(SetBits(s, ESR, c.bit), err, i + 1);
      } else {
        MarkInv(s, err, i + 1);
      }
    }
  }

  lemma QueueChanged(s: Status, q: seq<int>)
    requires Inv(s) && |q| <= Fifo.FIFO_SIZE
    ensures AllButQueueBit(s.(queue := q))
    ensures (q == []) == (s.queue == []) ==> Inv(s.(queue := q))
  {
    hide Any, Srqs, Requests;
  }

  lemma {:induction false} PushInv(s: Status, err: int)
    requires Inv(s)
    ensures Inv(PushError(s, err))
  {
    var q := Fifo.Push(s.queue, err, Fifo.FIFO_SIZE);
    assert q != [];
    RequeueMark(s, q, err, 0);
    MarkInv(s, err, 0);
    hide Inv, AllButQueueBit, MarkClasses, Fifo.Push, Emit;
    var m := MarkClasses(s, err, 0);
    QueueChanged(m, q);
    EmitInv(m.(queue := q), err);
    FlagInv(Emit(m.(queue := q), err));
  }

  lemma FlagInv(s: Status)
    requires Inv(s)
    ensures Inv(s.(cmdError := true))
  {
  }

  lemma {:induction false} PopInv(s: Status)
    requires Inv(s)
    ensures Inv(PopError(s)) && Inv(ClearErrors(s))
  {
    hide Inv, AllButQueueBit, EmitEmpty;
    var q := if s.queue == [] then [] else s.queue[1..];
    QueueChanged(s, q);
    EmitEmptyInv(s.(queue := q));
    QueueChanged(s, []);
    EmitEmptyInv(s.(queue := []));
  }

  lemma ClsInv(s: Status)
    requires Inv(s)
    ensures Inv(Cls(s))
  {
    hide Inv, SetRegister, ClearErrors;
    var a := SetRegister(s, ESR, 0);
    WriteInv(s, ESR, 0);
    PopInv(a);
    var b := ClearErrors(a);
    WriteInv(b, OPER, 0);
    WriteInv(SetRegister(b, OPER, 0), QUES, 0);
  }

  // ---------- what the common commands do ----------

  /** A write to an event register changes that register and the status byte, and nothing else. */
  lemma EventWrite(s: Status, name: nat, val: bv16)
    requires Inv(s) && name in {ESR, OPER, QUES}
    ensures var r := SetRegister(s, name, val);
            && Inv(r) && r.regs[name] == val && r.queue == s.queue
            && (forall k :: 0 < k < REG_COUNT && k != name ==> r.regs[k] == s.regs[k])
  {
    WriteInv(s, name, val);
    CascadeIsOneWrite(s, name, val);
    hide Inv, SetRegister, Any, Put, Summoned, Refed;
  }

  lemma ClearedQueue(s: Status)
    requires Inv(s)
    ensures var r := ClearErrors(s);
            && Inv(r) && r.queue == [] && forall k :: 0 < k < REG_COUNT ==> r.regs[k] == s.regs[k]
  {
    PopInv(s);
    hide Inv, Any, Put, Summoned;
  }

  /** *CLS clears the three event registers and the error queue, leaves the enable registers alone,
      and so leaves a status byte of 0. */
  lemma {:induction false} ClsClears(s: Status)
    requires Inv(s)
    ensures var r := Cls(s);
            && r.regs[ESR] == 0 && r.regs[OPER] == 0 && r.regs[QUES] == 0 && r.queue == [] && r.regs[STB] == 0
            && r.regs[SRE] == s.regs[SRE] && r.regs[ESE] == s.regs[ESE]
            && r.regs[OPERE] == s.regs[OPERE] && r.regs[QUESE] == s.regs[QUESE]
  {
    hide Inv, SetRegister, ClearErrors;
    var a := SetRegister(s, ESR, 0);
    EventWrite(s, ESR, 0);
    ClearedQueue(a);
    var b := ClearErrors(a);
    EventWrite(b, OPER, 0);
    EventWrite(SetRegister(b, OPER, 0), QUES, 0);
    NothingToSay(Cls(s));
  }

  /** A status byte with nothing to summarize is 0. */
  lemma NothingToSay(s: Status)
    requires Inv(s) && s.queue == [] && s.regs[ESR] == 0 && s.regs[OPER] == 0 && s.regs[QUES] == 0
    ensures s.regs[STB] == 0
  {
    hide Requests, Srqs, Accounted;
    NoneInZero(s.regs[ESE]);
    NoneInZero(s.regs[OPERE]);
    NoneInZero(s.regs[QUESE]);
    ByteOfBits(s.regs[STB], s.regs[SRE]);
  }

  lemma NoneInZero(mask: bv16)
    ensures !Any(0, mask)
  {
    assert 0 & mask == 0;
  }

  lemma ByteOfBits(stb: bv16, sre: bv16)
    requires !Any(stb, STB_ESR) && !Any(stb, STB_QES) && !Any(stb, STB_OPS) && !Any(stb, STB_QMA)
    requires !Any(stb, 0xff13) && Any(stb, STB_SRQ) == Any(stb, Without(sre, STB_SRQ))
    ensures stb == 0
  {
    OnlyRequest(stb);
    assert 0x40 & (sre & !0x40) == 0;
  }

  lemma OnlyRequest(stb: bv16)
    requires stb & 0x20 == 0 && stb & 0x08 == 0 && stb & 0x80 == 0 && stb & 0x04 == 0 && stb & 0xff13 == 0
    ensures stb == 0 || stb == 0x40
  {
  }

  /** *ESR? leaves its register at 0 and *OPC sets bit 0 of it; both leave all other registers but
      the status byte, and the queue, alone. */
  lemma EventCommands(s: Status)
    requires Inv(s)
    ensures var r := Apply(s, EsrQOp);
            && r.regs[ESR] == 0 && r.queue == s.queue
            && forall k :: 0 < k < REG_COUNT && k != ESR ==> r.regs[k] == s.regs[k]
    ensures var r := Apply(s, OpcOp);
            && r.regs[ESR] == s.regs[ESR] | 0x01 && r.queue == s.queue
            && forall k :: 0 < k < REG_COUNT && k != ESR ==> r.regs[k] == s.regs[k]
  {
    hide Inv, SetRegister;
    EventWrite(s, ESR, 0);
    EventWrite(s, ESR, With(s.regs[ESR], ESR_OPC));
  }

  /** The error pushed is the last of the queue, the oldest making room for it; popping removes the
      oldest, clearing all. */
  lemma {:induction false} QueueOperations(s: Status, err: int)
    requires Inv(s)
    ensures PushError(s, err).queue == if |s.queue| < 16 then s.queue + [err] else s.queue[1..] + [err]
    ensures PopError(s).queue == (if s.queue == [] then [] else s.queue[1..]) && ClearErrors(s).queue == []
    ensures var r := PushError(s, err);
            r.cmdError && r.signals != [] && r.signals[|r.signals| - 1] == ErrorNotice(err)
  {
    var q := Fifo.Push(s.queue, err, Fifo.FIFO_SIZE);
    assert q == if |s.queue| < 16 then s.queue + [err] else s.queue[1..] + [err];
    RequeueMark(s, q, err, 0);
    hide Inv, MarkClasses, Fifo.Push, Any, Put, Summoned;
    EmitQueue(MarkClasses(s.(queue := q), err, 0), err);
    EmitEmptyQueue(s.(queue := if s.queue == [] then [] else s.queue[1..]));
    EmitEmptyQueue(s.(queue := []));
  }

  lemma EmitQueue(s: Status, err: int)
    ensures Emit(s, err).queue == s.queue
  {
    hide Any, Put, Summoned;
  }

  lemma EmitEmptyQueue(s: Status)
    ensures EmitEmpty(s).queue == s.queue
  {
    hide Any, Put, Summoned;
  }

  /** The bits of the status byte by their numbers. */
  lemma StatusBits(s: Status)
    requires Inv(s)
    ensures s.regs[STB] & 0x20 != 0 <==> s.regs[ESR] & s.regs[ESE] != 0
    ensures s.regs[STB] & 0x80 != 0 <==> s.regs[OPER] & s.regs[OPERE] != 0
    ensures s.regs[STB] & 0x08 != 0 <==> s.regs[QUES] & s.regs[QUESE] != 0
    ensures s.regs[STB] & 0x04 != 0 <==> s.queue != []
    ensures s.regs[STB] & 0x40 != 0 <==> s.regs[STB] & (s.regs[SRE] & !0x40) != 0
  {
    hide Requests, Srqs, Accounted;
  }

  lemma ApplyInv(s: Status, op: Op)
    requires Inv(s) && Allowed(op)
    ensures Inv(Apply(s, op))
  {
    hide Inv, SetRegister, PushError, PopError, ClearErrors, Cls, With;
    match op
    case Write(name, val) => WriteInv(s, name, val);
    case ErrorPushOp(err) => PushInv(s, err);
    case ErrorPopOp => PopInv(s);
    case ErrorClearOp => PopInv(s);
    case ClsOp => ClsInv(s);
    case OpcOp => WriteInv(s, ESR, With(s.regs[ESR], ESR_OPC));
    case EsrQOp => WriteInv(s, ESR, 0);
  }

  /** From any state that satisfies it, every run of operations keeps the invariant. */
  lemma {:induction false} RunInv(s: Status, ops: seq<Op>)
    requires Inv(s)
    requires forall i :: 0 <= i < |ops| ==> Allowed(ops[i])
    ensures Inv(Run(s, ops))
    decreases |ops|
  {
    hide Inv, Apply;
    if ops != [] {
      ApplyInv(s, ops[0]);
      RunInv(Apply(s, ops[0]), ops[1..]);
    }
  }

  lemma PowerOnInv()
    ensures Inv(POWER_ON)
  {
    assert forall m: bv16 :: !Any(0, m) by {
      forall m: bv16 ensures !Any(0, m) {
        assert 0 & m == 0;
      }
    }
  }

  /** From power-on, every run of register writes, error pushes, pops and clears, *CLS, *OPC
      and *ESR? leaves a status byte whose bits are true, and has sent one service request
      for each evaluation that left bit 6 set and changed the status byte. */
  lemma {:induction false} StatusByteIsTrue(ops: seq<Op>)
    requires forall i :: 0 <= i < |ops| ==> Allowed(ops[i])
    ensures var s := Run(POWER_ON, ops);
            var stb := s.regs[STB];
            && (Any(stb, STB_SRQ) <==> Any(stb, Without(s.regs[SRE], STB_SRQ)))
            && (Any(stb, STB_ESR) <==> Any(s.regs[ESR], s.regs[ESE]))
            && (Any(stb, STB_QES) <==> Any(s.regs[QUES], s.regs[QUESE]))
            && (Any(stb, STB_OPS) <==> Any(s.regs[OPER], s.regs[OPERE]))
            && (Any(stb, STB_QMA) <==> s.queue != [])
            && !Any(stb, 0xff13)
            && Srqs(s.signals) == Requests(0, s.history)
  {
    PowerOnInv();
    RunInv(POWER_ON, ops);
    hide Any, Run, Srqs, Requests, Without;
  }

  // ---------- notices and error classes ----------

  /** The application is told "no error" exactly when an operation empties a filled queue,
      and a request goes out with it when the status byte still has bit 6. */
  lemma EmptyNoticeExact(s: Status, q: seq<int>)
    requires Inv(s) && |q| <= Fifo.FIFO_SIZE
    requires s.queue == [] ==> q == []
    ensures var r := EmitEmpty(s.(queue := q));
            var stb := r.regs[STB];
            r.signals == if s.queue != [] && q == []
                         then s.signals + (if Any(stb, STB_SRQ) then [Srq(stb)] else []) + [ErrorNotice(0)]
                         else s.signals
  {
    var c: Status := s.(queue := q);
    var stb := Without(s.regs[STB], STB_QMA);
    PutBitKeeps(s.regs[STB], STB_QMA, false);
    RequestExact(c, STB, stb);
    CascadeIsOneWrite(c, STB, stb);
    PutOther(stb, STB_SRQ, STB_QMA, Summoned(stb, s.regs[SRE]));
    hide Srqs, Requests, Without, Put, SetRegister;
    assert Any(s.regs[STB], STB_QMA) == (s.queue != []);
    hide Any, Inv;
  }

  /** The event status bit an error number raises. */
  function EventBit(err: int): bv16 {
    if -199 <= err <= -100 then ESR_CER
    else if -299 <= err <= -200 then ESR_EER
    else if -399 <= err <= -300 then ESR_DER
    else if -499 <= err <= -400 then ESR_QER
    else if -599 <= err <= -500 then ESR_PON
    else if -699 <= err <= -600 then ESR_URQ
    else if -799 <= err <= -700 then ESR_REQ
    else if -899 <= err <= -800 then ESR_OPC
    else 0
  }

  lemma {:induction false} NoClassFrom(s: Status, err: int, i: nat)
    requires i <= |ERROR_CLASSES|
    requires forall j :: i <= j < |ERROR_CLASSES| ==> !InClass(err, ERROR_CLASSES[j])
    ensures MarkClasses(s, err, i) == s
    decreases |ERROR_CLASSES| - i
  {
    hide SetRegister;
    if i < |ERROR_CLASSES| {
      NoClassFrom(s, err, i + 1);
    }
  }

  lemma {:induction false} OneClass(s: Status, err: int, i: nat, k: nat)
    requires i <= k < |ERROR_CLASSES| && InClass(err, ERROR_CLASSES[k])
    requires forall j :: 0 <= j < |ERROR_CLASSES| && j != k ==> !InClass(err, ERROR_CLASSES[j])
    ensures MarkClasses(s, err, i) == SetBits(s, ESR, ERROR_CLASSES[k].bit)
    decreases |ERROR_CLASSES| - i
  {
    hide SetRegister, With;
    if i == k {
      NoClassFrom(SetBits(s, ESR, ERROR_CLASSES[k].bit), err, i + 1);
    } else {
      OneClass(s, err, i + 1, k);
    }
  }

  function ClassRow(err: int): nat
    requires -899 <= err <= -100
  {
    if err >= -199 then 0 else if err >= -299 then 1 else if err >= -399 then 2
    else if err >= -499 then 4 else if err >= -599 then 5 else if err >= -699 then 6
    else if err >= -799 then 7 else 8
  }

  /** The scan of the table raises one bit for -899..-100 and none for any other number. */
  lemma ClassesExact(s: Status, err: int)
    ensures MarkClasses(s, err, 0) == if -899 <= err <= -100 then SetBits(s, ESR, EventBit(err)) else s
  {
    hide SetRegister, With, MarkClasses;
    if -899 <= err <= -100 {
      OneClass(s, err, 0, ClassRow(err));
    } else {
      NoClassFrom(s, err, 0);
    }
  }

  /** The bit the table's own comments and SCPI-99 volume 2 chapter 21.8 give an error. */
  function DocumentedBit(err: int): bv16 {
    if 1 <= err <= 32767 then ESR_DER else EventBit(err)
  }

  lemma EventOfPush(s: Status, err: int)
    ensures PushError(s, err).regs[ESR] == With(s.regs[ESR], EventBit(err))
  {
    var queued: Status := s.(queue := Fifo.Push(s.queue, err, Fifo.FIFO_SIZE));
    ClassesExact(queued, err);
    var m := MarkClasses(queued, err, 0);
    RequestExact(queued, ESR, With(s.regs[ESR], EventBit(err)));
    RequestExact(m, STB, With(m.regs[STB], STB_QMA));
    assert With(s.regs[ESR], 0) == s.regs[ESR];
    hide MarkClasses, SetRegister, With, Any;
  }

  /** A pushed error raises its documented event bit in a clear register if and only if it
      is not one of the device's own positive numbers: that table row never matches. */
  lemma DocumentedBitRaised(s: Status, err: int)
    requires -32768 <= err <= 32767 && s.regs[ESR] == 0
    ensures (PushError(s, err).regs[ESR] == DocumentedBit(err)) <==> !(1 <= err <= 32767)
  {
    EventOfPush(s, err);
    assert With(0, EventBit(err)) == EventBit(err);
    hide PushError, With;
  }

  function BitByNumber(err: int): bv16 {
    if -199 <= err <= -100 then 0x20 else if -299 <= err <= -200 then 0x10
    else if -399 <= err <= -300 then 0x08 else if -499 <= err <= -400 then 0x04
    else if -599 <= err <= -500 then 0x80 else if -699 <= err <= -600 then 0x40
    else if -799 <= err <= -700 then 0x02 else if -899 <= err <= -800 then 0x01 else 0
  }

  /** The bit of the event status register that an error sets, by its number: a command error bit 5,
      an execution error bit 4, a device error bit 3, a query error bit 2, and so on. */
  lemma ErrorBits(s: Status, err: int)
    ensures PushError(s, err).regs[ESR] == s.regs[ESR] | BitByNumber(err)
  {
    hide PushError;
    EventOfPush(s, err);
  }

  /** The concrete failing input: device error 1 raises no event bit at all. */
  lemma DeviceErrorUnmarked()
    ensures PushError(POWER_ON, 1).regs[ESR] == 0 != DocumentedBit(1)
  {
    var queued: Status := POWER_ON.(queue := Fifo.Push(POWER_ON.queue, 1, Fifo.FIFO_SIZE));
    ClassesExact(queued, 1);
    RequestExact(queued, STB, With(queued.regs[STB], STB_QMA));
    hide MarkClasses, SetRegister, With;
  }
}
