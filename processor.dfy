/** `CPU` (src/emu/cpu.ts) together with the processor interface the load
    handlers of src/emu/instructions.ts call: the bus (`mmu`), register access
    by 3-bit code, `getHL`, `incrementPC` and `incrementCycles`. That interface
    is not declared in the shown `cpu.ts`; it is modelled on the register file
    `cpu.ts` does declare, with the MMU as the CPU's memory. */
module Processor {
  import opened Common
  import opened AddressDecoder
  import MmuBus
  import Video

  /** `CPUStatusEnum`. */
  datatype Status = Running | Paused | Stopped

  const PC_START := 0x100

  /** Register codes of the opcode fields. Code 6 names the byte at (HL); its
      slot in the register array holds F, which no handler touches. */
  const B := 0
  const C := 1
  const D := 2
  const E := 3
  const H := 4
  const L := 5
  const HL_INDIRECT := 6
  const A := 7

  class CPU {
    const registers: array<Byte>
    var PC: int
    var status: Status
    var cycles: int
    const mmu: MmuBus.MMU
    const display: Video.PPU

    /** Eight register bytes, a valid bus and display, and no sharing among them. */
    ghost predicate Valid()
    {
      && registers.Length == 8 && mmu.Valid() && display.Valid()
      && registers !in mmu.Repr && registers !in display.Repr && mmu.Repr !! display.Repr
    }

    /** The bus arrays a bus write may change (besides the IE byte of `mmu`). */
    ghost function RamFrame(): set<object>
    {
      {mmu.VRAM, mmu.EXTERNAL_RAM, mmu.WRAM, mmu.OAM, mmu.IO, mmu.HRAM}
    }

    /** `getHL`: `(H << 8) | L`. */
    ghost function HL(): int
      requires Valid()
      reads registers
    {
      (registers[H] as int) * 0x100 + (registers[L] as int)
    }

    /** The value of register code `code`: the byte at (HL) for code 6. */
    ghost function Reg(code: int): Byte
      requires Valid() && 0 <= code < 8
      reads registers, mmu.Repr
    {
      if code == HL_INDIRECT then mmu.Read(HL()) else registers[code]
    }

    /** PC = 0x100, all registers 0, RUNNING. */
    constructor (memory: MmuBus.MMU, display: Video.PPU)
      requires memory.Valid() && display.Valid() && memory.Repr !! display.Repr
      ensures Valid() && fresh(registers) && mmu == memory && this.display == display
      ensures PC == PC_START && status == Running && cycles == 0
      ensures forall i :: 0 <= i < 8 ==> registers[i] == 0
    {
      registers := new Byte[8](_ => 0);
      PC := PC_START;
      status := Running;
      cycles := 0;
      mmu := memory;
      this.display := display;
    }

    method Start()
      modifies this`status
      ensures status == Running
    {
      status := Running;
    }

    method Pause()
      modifies this`status
      ensures status == Paused
    {
      status := Paused;
    }

    /** `stop`: PC back to 0x100, registers zeroed, the bus reset (RAM and IE
        zero, ROM kept, IO holding the audio masks), the display cleared, STOPPED. */
    method Stop()
      requires Valid()
      modifies this`PC, this`status, registers, mmu`interruptEnable, RamFrame(), display.display, display.imageData
      ensures Valid()
      ensures PC == PC_START && status == Stopped && cycles == old(cycles)
      ensures forall i :: 0 <= i < 8 ==> registers[i] == 0
      ensures mmu.State() == ResetState(old(mmu.State()), MmuBus.MaskedIo(mmu.apuMask))
      ensures forall i :: 0 <= i < display.display.Length ==> display.display[i] == 0
      ensures display.Rendered()
    {
      PC := PC_START;
      Fill(registers, 0);
      mmu.Reset();
      display.Clear();
      status := Stopped;
    }

    /** `restart`: `stop` then `start`. */
    method Restart()
      requires Valid()
      modifies this`PC, this`status, registers, mmu`interruptEnable, RamFrame(), display.display, display.imageData
      ensures Valid()
      ensures PC == PC_START && status == Running && cycles == old(cycles)
      ensures forall i :: 0 <= i < 8 ==> registers[i] == 0
      ensures mmu.State() == ResetState(old(mmu.State()), MmuBus.MaskedIo(mmu.apuMask))
      ensures forall i :: 0 <= i < display.display.Length ==> display.display[i] == 0
      ensures display.Rendered()
    {
      Stop();
      Start();
    }

    /** `step`: reports the status and changes nothing. */
    method Step() returns (s: Status)
      ensures s == status
    {
      return status;
    }

    // ---- The interface used by the instruction handlers ----

    method GetHL() returns (hl: int)
      requires Valid()
      ensures hl == HL() && 0 <= hl < 0x10000
    {
      hl := Word(registers[L], registers[H]);
    }

    method GetRegister(code: int) returns (r: Byte)
      requires Valid() && 0 <= code < 8
      ensures r == Reg(code)
    {
      if code == HL_INDIRECT {
        var hl := GetHL();
        r := mmu.ReadByte(hl);
      } else {
        r := registers[code];
      }
    }

    /** Code 6 writes the bus at (HL); any other code stores `value` modulo 256
        in its register and leaves the bus alone. */
    method SetRegister(code: int, value: int)
      requires Valid() && 0 <= code < 8
      modifies registers, if code == HL_INDIRECT then {mmu} + RamFrame() else {}
      ensures Valid()
      ensures code == HL_INDIRECT ==> registers[..] == old(registers[..]) && mmu.State() == Store(old(mmu.State()), old(HL()), value)
      ensures code == HL_INDIRECT ==> mmu.ioHandlers == old(mmu.ioHandlers) && mmu.interruptFlags == old(mmu.interruptFlags)
      ensures code != HL_INDIRECT ==> registers[..] == old(registers[..])[code := ToByte(value)]
    {
      if code == HL_INDIRECT {
        var hl := GetHL();
        mmu.WriteByte(hl, value);
      } else {
        registers[code] := value % 0x100;
      }
    }

    /** PC + 1, without wrap-around: every bus access masks the address. */
    method IncrementPC()
      modifies this`PC
      ensures PC == old(PC) + 1
    {
      PC := PC + 1;
    }

    method IncrementCycles(n: int)
      modifies this`cycles
      ensures cycles == old(cycles) + n
    {
      cycles := cycles + n;
    }
  }
}
