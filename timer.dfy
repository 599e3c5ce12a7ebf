/** `Timer` (src/emu/io/timer.ts): register bytes addressed from DIV = 0xFF04.
    As written the array holds 3 bytes, so TAC (0xFF07), the fourth timer
    register of the address map, has no byte: a read there is `undefined` and a
    write is dropped. The corrected timer holds all four. */
module TimerRegs {
  import opened Common
  import MemoryMap

  const OFFSET := 0xFF04
  const REGISTER_COUNT_AS_WRITTEN := 3
  const REGISTER_COUNT := 4

  /** `registers[address - OFFSET]`: `None` stands for JavaScript's `undefined`
      at an index outside the array. */
  function TimerRead(regs: seq<Byte>, address: int): (r: Option<Byte>)
    ensures r.Some? <==> 0 <= address - OFFSET < |regs|
  {
    var o := address - OFFSET;
    if 0 <= o < |regs| then Some(regs[o]) else None
  }

  /** `registers[address - OFFSET] = value`: a store outside the array is dropped. */
  function TimerWrite(regs: seq<Byte>, address: int, value: int): (r: seq<Byte>)
    ensures |r| == |regs|
  {
    var o := address - OFFSET;
    if 0 <= o < |regs| then regs[o := ToByte(value)] else regs
  }

  /** A write then a read at the same register returns the value modulo 256, and
      a write leaves every other register as it was. */
  lemma WriteThenRead(regs: seq<Byte>, a: int, b: int, v: int)
    ensures TimerRead(TimerWrite(regs, a, v), b) ==
      if b == a && 0 <= a - OFFSET < |regs| then Some(ToByte(v)) else TimerRead(regs, b)
  {
  }

  /** As written: DIV, TIMA and TMA round-trip ... */
  lemma AsWrittenRoundTrip(regs: seq<Byte>, a: int, v: int)
    requires |regs| == REGISTER_COUNT_AS_WRITTEN && MemoryMap.DIV <= a <= MemoryMap.TMA
    ensures TimerRead(TimerWrite(regs, a, v), a) == Some(ToByte(v))
  {
  }

  /** ... but a write to TAC changes nothing and reading it gives `undefined`. */
  lemma TacWriteIsLost(regs: seq<Byte>, v: int)
    requires |regs| == REGISTER_COUNT_AS_WRITTEN
    ensures TimerWrite(regs, MemoryMap.TAC, v) == regs
    ensures TimerRead(TimerWrite(regs, MemoryMap.TAC, v), MemoryMap.TAC) == None
  {
  }

  /** Corrected: with four bytes every address of TIMER_ADDRESSES round-trips,
      and exactly those addresses have a register. */
  lemma CorrectedRoundTrip(regs: seq<Byte>, a: int, v: int)
    requires |regs| == REGISTER_COUNT
    ensures MemoryMap.IO_TIMER.Contains(a) ==> TimerRead(TimerWrite(regs, a, v), a) == Some(ToByte(v))
    ensures TimerRead(regs, a).Some? <==> MemoryMap.IO_TIMER.Contains(a)
  {
  }

  class Timer {
    const registers: array<Byte>

    ghost predicate Valid()
    {
      registers.Length == REGISTER_COUNT_AS_WRITTEN || registers.Length == REGISTER_COUNT
    }

    /** The timer as written: three zero bytes. */
    constructor ()
      ensures Valid() && fresh(registers)
      ensures registers[..] == [0, 0, 0]
    {
      registers := new Byte[REGISTER_COUNT_AS_WRITTEN](_ => 0);
    }

    /** The corrected timer: four zero bytes, DIV through TAC. */
    constructor Corrected()
      ensures Valid() && fresh(registers)
      ensures registers[..] == [0, 0, 0, 0]
    {
      registers := new Byte[REGISTER_COUNT](_ => 0);
    }

    method ReadRegister(address: int) returns (r: Option<Byte>)
      requires Valid()
      ensures r == TimerRead(registers[..], address)
    {
      var o := address - OFFSET;
      if 0 <= o < registers.Length {
        return Some(registers[o]);
      }
      return None;
    }

    method WriteRegister(address: int, value: int)
      requires Valid()
      modifies registers
      ensures Valid()
      ensures registers[..] == TimerWrite(old(registers[..]), address, value)
    {
      var o := address - OFFSET;
      if 0 <= o < registers.Length {
        registers[o] := value % 0x100;
      }
    }
  }
}
