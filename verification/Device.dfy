/** The code of ieee488.c and error.c over the register array and the error ring, each method
    proved against its function in StatusModel. */
module Device {
  import opened StatusModel
  import Fifo

  class Device {
    const registers: array<bv16>
    const errorQueue: Fifo.Ring
    var cmdError: bool
    var signals: seq<Signal>
    ghost var history: seq<bv16>
    /** Every error pushed so far: what a caller of SCPI_Parse can compare. */
    ghost var pushed: seq<int>

    ghost function Footprint(): set<object> {
      {this, registers, errorQueue, errorQueue.data}
    }

    ghost predicate Valid()
      reads Footprint()
    {
      && registers.Length == REG_COUNT
      && errorQueue.Valid() && errorQueue.size == Fifo.FIFO_SIZE
    }

    ghost function View(): Status
      requires Valid()
      reads Footprint()
    {
      Raw(registers[..], errorQueue.Contents(), signals, history, cmdError)
    }

    /** The status byte says what it summarizes, and the log accounts for every request. */
    ghost predicate Sound()
      reads Footprint()
      ensures Sound() ==> Valid()
    {
      Valid() && Inv(View())
    }

    constructor ()
      ensures Valid() && fresh(Footprint()) && View() == POWER_ON && pushed == []
    {
      registers := new bv16[REG_COUNT](_ => 0);
      errorQueue := new Fifo.Ring(Fifo.FIFO_SIZE);
      cmdError := false;
      signals, history, pushed := [], [], [];
      new;
      assert registers[..] == POWER_ON.regs;
    }

    /** SCPI_RegGet */
    method RegGet(name: nat) returns (val: bv16)
      requires Valid()
      ensures val == if name < REG_COUNT then registers[name] else 0
    {
      if name < REG_COUNT {
        val := registers[name];
      } else {
        val := 0;
      }
    }

    /** The write of one register cell. */
    method Store(name: nat, val: bv16)
      requires Valid() && name < REG_COUNT
      modifies registers
      ensures Valid() && View() == old(View()).(regs := old(View()).regs[name := val])
    {
      registers[name] := val;
    }

    /** SCPI_RegSet: the recursion descends from an enable register over its event register
        to the status byte. */
    method RegSet(name: nat, val: bv16)
      requires Valid()
      modifies this`signals, this`history, registers
      ensures Valid() && View() == SetRegister(old(View()), name, val)
      decreases Rank(name), 2
    {
      hide Cascade, SetStb;
      if name >= REG_COUNT {
        return;
      }
      if name == STB {
        RegSetStb(val);
      } else {
        Store(name, val);
        RegCascade(name, val);
        Store(name, val);
      }
    }

    /** SCPI_RegSet, case SCPI_REG_STB */
    method RegSetStb(value: bv16)
      requires Valid()
      modifies this`signals, this`history, registers
      ensures Valid() && View() == SetStb(old(View()), value)
      decreases 0, 0
    {
      hide Any, With, Without;
      var val := value;
      var srq := false;
      var oldVal := registers[STB];
      var mask := RegGet(SRE);
      mask := Without(mask, STB_SRQ);
      if Any(val, mask) {
        val := With(val, STB_SRQ);
        if oldVal != val {
          srq := true;
        }
      } else {
        val := Without(val, STB_SRQ);
      }
      Store(STB, val);
      history := history + [val];
      if srq {
        signals := signals + [Srq(val)];
      }
    }

    /** SCPI_RegSet, the cases that reach the status byte through other registers. */
    method RegCascade(name: nat, val: bv16)
      requires Valid() && 0 < name < REG_COUNT
      modifies this`signals, this`history, registers
      ensures Valid() && View() == Cascade(old(View()), name, val)
      decreases Rank(name), 1
    {
      hide SetStb, Summarize, SetRegister;
      if name == SRE {
        RegUpdate(STB);
      } else if name == ESR {
        RegUpdateSTB(val, ESE, STB_ESR);
      } else if name == ESE {
        RegUpdate(ESR);
      } else if name == QUES {
        RegUpdateSTB(val, QUESE, STB_QES);
      } else if name == QUESE {
        RegUpdate(QUES);
      } else if name == OPER {
        RegUpdateSTB(val, OPERE, STB_OPS);
      } else {
        RegUpdate(OPER);
      }
    }

    /** regUpdate */
    method RegUpdate(name: nat)
      requires Valid() && name < REG_COUNT
      modifies this`signals, this`history, registers
      ensures Valid() && View() == SetRegister(old(View()), name, old(View()).regs[name])
      decreases Rank(name), 3
    {
      var val := RegGet(name);
      RegSet(name, val);
    }

    /** regUpdateSTB */
    method RegUpdateSTB(val: bv16, mask: nat, stbBits: bv16)
      requires Valid() && mask < REG_COUNT
      modifies this`signals, this`history, registers
      ensures Valid() && View() == Summarize(old(View()), val, mask, stbBits)
      decreases 0, 4
    {
      hide Any, With, Without;
      var enabled := RegGet(mask);
      if Any(val, enabled) {
        RegSetBits(STB, stbBits);
      } else {
        RegClearBits(STB, stbBits);
      }
    }

    /** SCPI_RegSetBits */
    method RegSetBits(name: nat, bits: bv16)
      requires Valid() && name < REG_COUNT
      modifies this`signals, this`history, registers
      ensures Valid() && View() == SetBits(old(View()), name, bits)
      decreases Rank(name), 3
    {
      hide With;
      var val := RegGet(name);
      RegSet(name, With(val, bits));
    }

    /** SCPI_RegClearBits */
    method RegClearBits(name: nat, bits: bv16)
      requires Valid() && name < REG_COUNT
      modifies this`signals, this`history, registers
      ensures Valid() && View() == ClearBits(old(View()), name, bits)
      decreases Rank(name), 3
    {
      hide Without;
      var val := RegGet(name);
      RegSet(name, Without(val, bits));
    }

    /** SCPI_ErrorCount */
    method ErrorCount() returns (n: int)
      requires Valid()
      ensures n == |View().queue|
    {
      n := errorQueue.Count();
    }

    /** SCPI_ErrorEmitEmpty */
    method ErrorEmitEmpty()
      requires Valid()
      modifies this`signals, this`history, registers
      ensures Valid() && View() == EmitEmpty(old(View()))
    {
      hide Any, Without, SetRegister;
      var n := ErrorCount();
      var stb := RegGet(STB);
      if n == 0 && Any(stb, STB_QMA) {
        RegClearBits(STB, STB_QMA);
        signals := signals + [ErrorNotice(0)];
      }
    }

    /** SCPI_ErrorEmit */
    method ErrorEmit(err: int)
      requires Valid()
      modifies this`signals, this`history, registers
      ensures Valid() && View() == Emit(old(View()), err)
    {
      hide With, SetRegister;
      RegSetBits(STB, STB_QMA);
      signals := signals + [ErrorNotice(err)];
    }

    /** SCPI_ErrorClear */
    method ErrorClear()
      requires Valid()
      modifies this`signals, this`history, registers, errorQueue
      ensures Valid() && View() == ClearErrors(old(View()))
    {
      hide EmitEmpty;
      ghost var s0 := View();
      errorQueue.Clear();
      assert View() == s0.(queue := []);
      ErrorEmitEmpty();
    }

    /** SCPI_ErrorPop: 0 stands for an empty queue. */
    method ErrorPop() returns (err: int)
      requires Valid()
      modifies this`signals, this`history, registers, errorQueue
      ensures Valid() && View() == PopError(old(View()))
      ensures err == if old(View()).queue == [] then 0 else old(View()).queue[0]
    {
      hide EmitEmpty;
      ghost var s0 := View();
      var ok;
      ok, err := errorQueue.Remove();
      assert View() == s0.(queue := if s0.queue == [] then [] else s0.queue[1..]);
      ErrorEmitEmpty();
    }

    /** SCPI_ErrorPush */
    method ErrorPush(err: int)
      requires Valid()
      modifies this, registers, errorQueue, errorQueue.data
      ensures Valid() && View() == PushError(old(View()), err)
      ensures cmdError && pushed == old(pushed) + [err]
    {
      hide Emit, MarkClasses, Fifo.Push;
      errorQueue.Add(err);
      MarkError(err);
      ErrorEmit(err);
      cmdError := true;
      pushed := pushed + [err];
    }

    /** The loop over the class table. */
    method MarkError(err: int)
      requires Valid()
      modifies this`signals, this`history, registers
      ensures Valid() && View() == MarkClasses(old(View()), err, 0)
    {
      hide SetRegister, With, Valid;
      ghost var queued := View();
      var i := 0;
      while i < |ERROR_CLASSES|
        invariant 0 <= i <= |ERROR_CLASSES|
        invariant Valid() && MarkClasses(View(), err, i) == MarkClasses(queued, err, 0)
        decreases |ERROR_CLASSES| - i
      {
        if err <= ERROR_CLASSES[i].from && err >= ERROR_CLASSES[i].to {
          RegSetBits(ESR, ERROR_CLASSES[i].bit);
        }
        i := i + 1;
      }
    }

    /** SCPI_CoreCls */
    method CoreCls()
      requires Valid()
      modifies this`signals, this`history, registers, errorQueue
      ensures Valid() && View() == Cls(old(View()))
    {
      hide SetRegister, EmitEmpty;
      RegSet(ESR, 0);
      ErrorClear();
      RegSet(OPER, 0);
      RegSet(QUES, 0);
    }

    /** SCPI_CoreOpc */
    method CoreOpc()
      requires Valid()
      modifies this`signals, this`history, registers
      ensures Valid() && View() == Apply(old(View()), OpcOp)
    {
      hide SetRegister, With;
      RegSetBits(ESR, ESR_OPC);
    }

    /** SCPI_CoreEsrQ: the value it answers with, and the register it clears. */
    method CoreEsrQ() returns (answer: bv16)
      requires Valid()
      modifies this`signals, this`history, registers
      ensures Valid() && View() == Apply(old(View()), EsrQOp)
      ensures answer == old(View()).regs[ESR]
    {
      hide SetRegister;
      answer := RegGet(ESR);
      RegSet(ESR, 0);
    }

    /** Any operation but a push: none of them touches cmd_error. */
    method Perform(op: Op)
      requires Valid() && !op.ErrorPushOp?
      modifies this`signals, this`history, registers, errorQueue
      ensures Valid() && View() == Apply(old(View()), op)
    {
      hide SetRegister, PopError, ClearErrors, Cls, SetBits;
      match op
      case Write(name, val) => RegSet(name, val);
      case ErrorPopOp => var _ := ErrorPop();
      case ErrorClearOp => ErrorClear();
      case ClsOp => CoreCls();
      case OpcOp => CoreOpc();
      case EsrQOp => var _ := CoreEsrQ();
    }
  }
}
