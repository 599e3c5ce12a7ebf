/** `APU` (src/emu/io/apu.ts): the 23 sound registers at 0xFF10..0xFF26, each
    stored through its `APU_MASK` byte, the unused window 0xFF27..0xFF2F and the
    16-byte wave RAM at 0xFF30..0xFF3F. The mask table is a parameter. */
module Audio {
  import opened Common
  import Bits
  import MemoryMap

  const REGISTER_COUNT := 0x17
  const WAVE_RAM_SIZE := 0x10

  /** `APU_MASK[offset]` as a JavaScript `&` uses it: a missing entry is
      `undefined`, which converts to 0. */
  function MaskAt(mask: seq<Byte>, offset: int): Byte
  {
    if 0 <= offset < |mask| then mask[offset] else 0
  }

  /** `v` has no bit set outside `m`. */
  predicate WithinMask(v: Byte, m: Byte)
  {
    And8(v, m) == v
  }

  /** A masked store keeps every register inside its mask. */
  lemma MaskedStoreWithinMask(v: Byte, m: Byte)
    ensures WithinMask(And8(v, m), m)
  {
    Bits.AndAbsorbs(v, m);
  }

  /** A mask is within itself; under a zero mask only 0 is. */
  lemma MaskFacts(v: Byte, m: Byte)
    ensures WithinMask(m, m)
    ensures WithinMask(v, 0) <==> v == 0
  {
    Bits.AndSelf(m);
  }

  class APU {
    const mask: seq<Byte>
    const registers: array<Byte>  // 0xFF10-0xFF26
    const waveRAM: array<Byte>    // 0xFF30-0xFF3F

    /** The arrays have their sizes, and no register has a bit outside its mask. */
    ghost predicate Valid()
      reads registers
    {
      && registers.Length == REGISTER_COUNT && waveRAM.Length == WAVE_RAM_SIZE && registers != waveRAM
      && forall i :: 0 <= i < REGISTER_COUNT ==> WithinMask(registers[i], MaskAt(mask, i))
    }

    /** Construction loads the mask: register i holds APU_MASK[i] (0 where the
        table is shorter), wave RAM is zero. */
    constructor (mask: seq<Byte>)
      ensures Valid() && fresh(registers) && fresh(waveRAM) && this.mask == mask
      ensures forall i :: 0 <= i < REGISTER_COUNT ==> registers[i] == MaskAt(mask, i)
      ensures forall i :: 0 <= i < WAVE_RAM_SIZE ==> waveRAM[i] == 0
    {
      this.mask := mask;
      registers := new Byte[REGISTER_COUNT](_ => 0);
      waveRAM := new Byte[WAVE_RAM_SIZE](_ => 0);
      new;
      LoadAPUMask();
      forall i | 0 <= i < REGISTER_COUNT ensures WithinMask(registers[i], MaskAt(mask, i)) {
        MaskFacts(registers[i], MaskAt(mask, i));
      }
    }

    /** `readRegister`: the stored byte inside 0xFF10..0xFF26, 0xFF anywhere else. */
    method ReadRegister(address: int) returns (r: Byte)
      requires Valid()
      ensures r == if MemoryMap.APU_REGISTER.Contains(address) then registers[address - 0xFF10] else 0xFF
      ensures MemoryMap.APU_REGISTER.Contains(address) ==> WithinMask(r, MaskAt(mask, address - 0xFF10))
    {
      if address >= MemoryMap.APU_REGISTER.start && address <= MemoryMap.APU_REGISTER.end {
        return registers[address - MemoryMap.APU_REGISTER.start];
      }
      if address >= MemoryMap.APU_UNUSED.start && address <= MemoryMap.APU_UNUSED.end {
        return 0xFF;
      }
      return 0xFF;
    }

    /** `readWaveRAM`: the wave byte inside 0xFF30..0xFF3F, 0xFF anywhere else. */
    method ReadWaveRAM(address: int) returns (r: Byte)
      requires Valid()
      ensures r == if MemoryMap.APU_WAVE_RAM.Contains(address) then waveRAM[address - 0xFF30] else 0xFF
    {
      if address >= MemoryMap.APU_WAVE_RAM.start && address <= MemoryMap.APU_WAVE_RAM.end {
        return waveRAM[address - MemoryMap.APU_WAVE_RAM.start];
      }
      return 0xFF;
    }

    /** `writeRegister`: a register address stores `value & APU_MASK[offset]`, a
        wave RAM address stores `value & 0xFF`; the unused window and every
        other address change nothing. The mask invariant is kept. */
    method WriteRegister(address: int, value: int)
      requires Valid()
      modifies registers, waveRAM
      ensures Valid()
      ensures registers[..] ==
        if MemoryMap.APU_REGISTER.Contains(address)
        then old(registers[..])[address - 0xFF10 := And8(ToByte(value), MaskAt(mask, address - 0xFF10))]
        else old(registers[..])
      ensures waveRAM[..] ==
        if MemoryMap.APU_WAVE_RAM.Contains(address)
        then old(waveRAM[..])[address - 0xFF30 := ToByte(value)]
        else old(waveRAM[..])
    {
      if address >= MemoryMap.APU_REGISTER.start && address <= MemoryMap.APU_REGISTER.end {
        var offset := address - MemoryMap.APU_REGISTER.start;
        MaskedStoreWithinMask(ToByte(value), MaskAt(mask, offset));
        registers[offset] := And8(value % 0x100, MaskAt(mask, offset));
        return;
      }
      if address >= MemoryMap.APU_UNUSED.start && address <= MemoryMap.APU_UNUSED.end {
        return;
      }
      if address >= MemoryMap.APU_WAVE_RAM.start && address <= MemoryMap.APU_WAVE_RAM.end {
        waveRAM[address - MemoryMap.APU_WAVE_RAM.start] := value % 0x100;
        return;
      }
    }

    /** `loadAPUMask`: `registers.set(APU_MASK.slice(0, 23))`, so a shorter table
        leaves the registers past its end as they were. */
    method LoadAPUMask()
      requires registers.Length == REGISTER_COUNT
      modifies registers
      ensures forall i :: 0 <= i < REGISTER_COUNT ==>
        registers[i] == if i < |mask| then mask[i] else old(registers[i])
    {
      SliceElements(mask, 0, REGISTER_COUNT);
      SetPrefix(registers, Slice(mask, 0, REGISTER_COUNT));
    }

    /** `reset`: registers hold the mask again, wave RAM is zero. Registers past
        the end of a short table are 0 by the mask invariant. */
    method Reset()
      requires Valid()
      modifies registers, waveRAM
      ensures Valid()
      ensures forall i :: 0 <= i < REGISTER_COUNT ==> registers[i] == MaskAt(mask, i)
      ensures forall i :: 0 <= i < WAVE_RAM_SIZE ==> waveRAM[i] == 0
    {
      ghost var before := registers[..];
      assert forall i :: 0 <= i < REGISTER_COUNT ==> WithinMask(before[i], MaskAt(mask, i));
      LoadAPUMask();
      Fill(waveRAM, 0);
      forall i | 0 <= i < REGISTER_COUNT
        ensures registers[i] == MaskAt(mask, i) && WithinMask(registers[i], MaskAt(mask, i))
      {
        MaskFacts(before[i], MaskAt(mask, i));
        MaskFacts(registers[i], MaskAt(mask, i));
      }
    }
  }
}
