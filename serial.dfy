/** `Serial` (src/emu/io/serial.ts): the SB and SC bytes, addressed from
    `IO_MAP.SERIAL.START`. */
module SerialRegs {
  import opened Common
  import MemoryMap

  /** The register index of an address, relative to 0xFF01. */
  function SerialOffset(address: int): int
  {
    address - MemoryMap.IO_SERIAL.start
  }

  /** The addresses with a register are exactly 0xFF01..0xFF02. */
  lemma SerialAddresses(address: int)
    ensures 0 <= SerialOffset(address) < 2 <==> MemoryMap.IO_SERIAL.Contains(address)
  {
  }

  class Serial {
    const registers: array<Byte>

    ghost predicate Valid()
    {
      registers.Length == 2
    }

    constructor ()
      ensures Valid() && fresh(registers)
      ensures registers[..] == [0, 0]
    {
      registers := new Byte[2](_ => 0);
    }

    method ReadRegister(address: int) returns (r: Byte)
      requires Valid() && MemoryMap.IO_SERIAL.Contains(address)
      ensures r == registers[SerialOffset(address)]
    {
      return registers[address - MemoryMap.IO_SERIAL.start];
    }

    /** An address of the serial window stores `value` modulo 256 in its
        register and keeps the other; any other address indexes past the
        `Uint8Array`, so the write is dropped. */
    method WriteRegister(address: int, value: int)
      requires Valid()
      modifies registers
      ensures Valid()
      ensures MemoryMap.IO_SERIAL.Contains(address) ==>
        registers[SerialOffset(address)] == ToByte(value)
        && registers[1 - SerialOffset(address)] == old(registers[1 - SerialOffset(address)])
      ensures !MemoryMap.IO_SERIAL.Contains(address) ==> registers[..] == old(registers[..])
    {
      SerialAddresses(address);
      var offset := address - MemoryMap.IO_SERIAL.start;
      if 0 <= offset < registers.Length {
        registers[offset] := value % 0x100;
      }
    }
  }
}
