/** `RAM` (src/emu/ram.ts): work RAM with its echo window and high RAM, on
    unmasked addresses. Every other address reads 0xFF and drops writes. */
module WorkRam {
  import opened Common
  import opened AddressDecoder
  import MemoryMap

  /** The cell that `getByte`/`setByte` reach: the bus cell of the address when
      that is a work RAM or high RAM cell, and none otherwise. The address is
      not masked, so nothing outside 0x0000..0xFFFF is reached. */
  ghost function RamCellOf(addr: int): (c: Cell)
    ensures Fits(c)
    ensures c.WramCell? || c.HramCell? || c == Unmapped
  {
    if 0 <= addr <= 0xFFFF && (CellOf(addr).WramCell? || CellOf(addr).HramCell?) then CellOf(addr) else Unmapped
  }

  /** The routing in the terms of `getByte`'s three range tests. */
  lemma RamRoutes(addr: int)
    ensures RamCellOf(addr) ==
      if MemoryMap.WRAM.Contains(addr) then WramCell(addr - 0xC000)
      else if MemoryMap.ECHO_RAM.Contains(addr) then WramCell(addr - 0xE000)
      else if MemoryMap.HRAM.Contains(addr) then HramCell(addr - 0xFF80)
      else Unmapped
  {
    DecodeByThresholds(addr);
  }

  /** 0xE000..0xFDFF aliases work RAM offsets 0..0x1DFF. */
  lemma RamEchoAliasesWram(i: int)
    requires 0 <= i < 0x1E00
    ensures RamCellOf(0xE000 + i) == RamCellOf(0xC000 + i) == WramCell(i)
  {
    RamRoutes(0xE000 + i);
    RamRoutes(0xC000 + i);
  }

  /** Work RAM bytes at 0xDE00..0xDFFF have no alias. */
  lemma RamWramTailHasNoAlias(a: int, b: int)
    requires 0xDE00 <= a <= 0xDFFF && b != a
    ensures RamCellOf(b) != RamCellOf(a)
  {
    RamRoutes(a);
    RamRoutes(b);
  }

  /** Work RAM (and its echo) and high RAM never share a cell. */
  lemma WramHramDisjoint(a: int, b: int)
    requires MemoryMap.WRAM.Contains(a) || MemoryMap.ECHO_RAM.Contains(a)
    requires MemoryMap.HRAM.Contains(b)
    ensures RamCellOf(a) != RamCellOf(b) && RamCellOf(a).WramCell? && RamCellOf(b).HramCell?
  {
    RamRoutes(a);
    RamRoutes(b);
  }

  class RAM {
    const WRAM: array<Byte>  // 8 KiB
    const HRAM: array<Byte>  // 127 bytes

    ghost predicate Valid()
    {
      WRAM.Length == 0x2000 && HRAM.Length == 0x7F && WRAM != HRAM
    }

    ghost function Contents(c: Cell): Byte
      requires Valid() && Fits(c)
      reads WRAM, HRAM
    {
      match c
      case WramCell(o) => WRAM[o]
      case HramCell(o) => HRAM[o]
      case _ => 0xFF
    }

    /** What `getByte(addr)` returns. */
    ghost function Get(addr: int): Byte
      requires Valid()
      reads WRAM, HRAM
    {
      Contents(RamCellOf(addr))
    }

    constructor ()
      ensures Valid() && fresh(WRAM) && fresh(HRAM)
      ensures forall a :: Get(a) == if RamCellOf(a) == Unmapped then 0xFF else 0
    {
      WRAM := new Byte[0x2000](_ => 0);
      HRAM := new Byte[0x7F](_ => 0);
    }

    method GetByte(addr: int) returns (r: Byte)
      requires Valid()
      ensures r == Get(addr)
    {
      RamRoutes(addr);
      if addr >= MemoryMap.WRAM.start && addr <= MemoryMap.WRAM.end {
        return WRAM[addr - MemoryMap.WRAM.start];
      }
      if addr >= MemoryMap.ECHO_RAM.start && addr <= MemoryMap.ECHO_RAM.end {
        return WRAM[addr - MemoryMap.ECHO_RAM.start];
      }
      if addr >= MemoryMap.HRAM.start && addr <= MemoryMap.HRAM.end {
        return HRAM[addr - MemoryMap.HRAM.start];
      }
      return 0xFF;
    }

    /** `setByte`: the reached cell stores `value` modulo 256, so every address
        reaching that cell (the address and its echo partner) reads it back;
        every other address reads as before, and an address outside the three
        ranges changes nothing. */
    method SetByte(addr: int, value: int)
      requires Valid()
      modifies WRAM, HRAM
      ensures Valid()
      ensures forall b ::
        Get(b) == if RamCellOf(addr) != Unmapped && RamCellOf(b) == RamCellOf(addr) then ToByte(value) else old(Get(b))
    {
      RamRoutes(addr);
      if addr >= MemoryMap.WRAM.start && addr <= MemoryMap.WRAM.end {
        WRAM[addr - MemoryMap.WRAM.start] := value % 0x100;
        return;
      }
      if addr >= MemoryMap.ECHO_RAM.start && addr <= MemoryMap.ECHO_RAM.end {
        WRAM[addr - MemoryMap.ECHO_RAM.start] := value % 0x100;
        return;
      }
      if addr >= MemoryMap.HRAM.start && addr <= MemoryMap.HRAM.end {
        HRAM[addr - MemoryMap.HRAM.start] := value % 0x100;
        return;
      }
    }
  }
}
