/** The bus decode shared by `Memory` (src/emu/memory.ts) and `MMU`
    (src/emu/mmu.ts): which storage cell a CPU address reaches. It is derived
    from the MEMORY_MAP table, not from the bus's own if-chain, so that the two
    bus classes can be proved to route exactly as the table says. */
module AddressDecoder {
  import opened Common
  import opened MemoryMap

  /** A storage cell of the bus: a region array and an offset into it, the IE
      byte, or no cell at all (the 0xFEA0..0xFEFF gap). Echo RAM has no cells of
      its own: it reaches work RAM cells. */
  datatype Cell =
    | Rom0Cell(off: int)
    | RomNCell(off: int)
    | VramCell(off: int)
    | ExtRamCell(off: int)
    | WramCell(off: int)
    | OamCell(off: int)
    | IoCell(off: int)
    | HramCell(off: int)
    | IeCell
    | Unmapped

  /** The offset is inside the backing array of size given by the region table. */
  predicate Fits(c: Cell)
  {
    match c
    case Rom0Cell(o) => 0 <= o < ROM_0.Size()
    case RomNCell(o) => 0 <= o < ROM_N.Size()
    case VramCell(o) => 0 <= o < VRAM.Size()
    case ExtRamCell(o) => 0 <= o < EXTERNAL_RAM.Size()
    case WramCell(o) => 0 <= o < WRAM.Size()
    case OamCell(o) => 0 <= o < OAM.Size()
    case IoCell(o) => 0 <= o < IO.Size()
    case HramCell(o) => 0 <= o < HRAM.Size()
    case IeCell => true
    case Unmapped => true
  }

  /** A write to this cell is stored (ROM and the gap drop writes). */
  predicate Writable(c: Cell)
  {
    !(c.Rom0Cell? || c.RomNCell? || c.Unmapped?)
  }

  /** `addr & 0xFFFF` for an integer address: the bus sees only the low 16 bits. */
  function Mask16(addr: int): int
  {
    addr % 0x10000
  }

  /** The cell that address `addr` reaches: its low 16 bits select a MEMORY_MAP
      region, and the offset from that region's START selects the cell. */
  ghost function CellOf(addr: int): (c: Cell)
    ensures Fits(c)
  {
    var a := Mask16(addr);
    var r := RegionOf(a);
    var off := a - RangeOf(r).start;
    match r
    case Rom0 => Rom0Cell(off)
    case RomN => RomNCell(off)
    case Vram => VramCell(off)
    case ExternalRam => ExtRamCell(off)
    case Wram => WramCell(off)
    case EchoRam => WramCell(off)
    case Oam => OamCell(off)
    case NotUsable => Unmapped
    case Io => IoCell(off)
    case Hram => HramCell(off)
    case Ie => IeCell
  }

  /** The decode in the bus's own terms: the thresholds the if-chains of
      `readByte`/`writeByte` test, in the same order. */
  lemma DecodeByThresholds(addr: int)
    ensures var a := Mask16(addr);
      CellOf(addr) ==
        if a < 0x4000 then Rom0Cell(a)
        else if a < 0x8000 then RomNCell(a - 0x4000)
        else if a < 0xA000 then VramCell(a - 0x8000)
        else if a < 0xC000 then ExtRamCell(a - 0xA000)
        else if a < 0xE000 then WramCell(a - 0xC000)
        else if a < 0xFE00 then WramCell(a - 0xE000)
        else if a < 0xFEA0 then OamCell(a - 0xFE00)
        else if a < 0xFF00 then Unmapped
        else if a < 0xFF80 then IoCell(a - 0xFF00)
        else if a < 0xFFFF then HramCell(a - 0xFF80)
        else IeCell
  {
    var a := Mask16(addr);
    var r := RegionOf(a);
    if a < 0x4000 { assert RangeOf(Rom0).Contains(a); }
    else if a < 0x8000 { assert RangeOf(RomN).Contains(a); }
    else if a < 0xA000 { assert RangeOf(Vram).Contains(a); }
    else if a < 0xC000 { assert RangeOf(ExternalRam).Contains(a); }
    else if a < 0xE000 { assert RangeOf(Wram).Contains(a); }
    else if a < 0xFE00 { assert RangeOf(EchoRam).Contains(a); }
    else if a < 0xFEA0 { assert RangeOf(Oam).Contains(a); }
    else if a < 0xFF00 { assert RangeOf(NotUsable).Contains(a); }
    else if a < 0xFF80 { assert RangeOf(Io).Contains(a); }
    else if a < 0xFFFF { assert RangeOf(Hram).Contains(a); }
    else { assert RangeOf(Ie).Contains(a); }
  }

  /** Only the low 16 bits of an address matter: `a` and `a + 0x10000` reach the
      same cell. */
  lemma DecodeIgnoresHighBits(a: int, k: int)
    ensures CellOf(a + k * 0x10000) == CellOf(a)
  {
    assert Mask16(a + k * 0x10000) == Mask16(a);
  }

  /** Echo RAM aliases work RAM: 0xE000 + i and 0xC000 + i reach the same cell
      for every i below 0x1E00 ... */
  lemma EchoAliasesWram(i: int)
    requires 0 <= i < 0x1E00
    ensures CellOf(0xE000 + i) == CellOf(0xC000 + i) == WramCell(i)
  {
    DecodeByThresholds(0xE000 + i);
    DecodeByThresholds(0xC000 + i);
  }

  /** ... and those are the only two addresses that share a cell. */
  lemma SharedCellsAreEchoPairs(a: int, b: int)
    requires 0 <= a <= 0xFFFF && 0 <= b <= 0xFFFF && a < b
    requires CellOf(a) == CellOf(b) && CellOf(a) != Unmapped
    ensures 0xC000 <= a < 0xDE00 && b == a + 0x2000
  {
    DecodeByThresholds(a);
    DecodeByThresholds(b);
  }

  /** The top 0x200 bytes of work RAM, 0xDE00..0xDFFF, have no echo alias. */
  lemma WramTailHasNoAlias(a: int, b: int)
    requires 0xDE00 <= a <= 0xDFFF && 0 <= b <= 0xFFFF && b != a
    ensures CellOf(b) != CellOf(a)
  {
    DecodeByThresholds(a);
    DecodeByThresholds(b);
  }

  /** Exactly the ROM banks and the 0xFEA0..0xFEFF gap drop writes. */
  lemma WritableRegions(addr: int)
    ensures Writable(CellOf(addr)) <==> (Mask16(addr) >= 0x8000 && !NOT_USABLE.Contains(Mask16(addr)))
  {
    DecodeByThresholds(addr);
  }

  /** The gap 0xFEA0..0xFEFF reaches no cell. */
  lemma GapIsUnmapped(addr: int)
    ensures CellOf(addr) == Unmapped <==> NOT_USABLE.Contains(Mask16(addr))
  {
    DecodeByThresholds(addr);
  }

  /** 0xFFFF and 0x0000 are neighbours on the bus: the address after 0xFFFF
      reaches ROM bank 0 offset 0. */
  lemma AddressAfterTopWraps()
    ensures CellOf(0xFFFF) == IeCell && CellOf(0xFFFF + 1) == Rom0Cell(0)
  {
    DecodeByThresholds(0xFFFF);
    DecodeByThresholds(0x10000);
  }

  // ---- The bus as a value ----

  /** The contents of every storage region of a bus, and the IE byte. */
  datatype BusState = BusState(
    rom0: seq<Byte>, romN: seq<Byte>, vram: seq<Byte>, extRam: seq<Byte>,
    wram: seq<Byte>, oam: seq<Byte>, io: seq<Byte>, hram: seq<Byte>, ie: Byte)

  /** Each region holds as many bytes as the address map gives it. */
  predicate WellSized(st: BusState)
  {
    && |st.rom0| == ROM_0.Size() && |st.romN| == ROM_N.Size()
    && |st.vram| == VRAM.Size() && |st.extRam| == EXTERNAL_RAM.Size() && |st.wram| == WRAM.Size()
    && |st.oam| == OAM.Size() && |st.io| == IO.Size() && |st.hram| == HRAM.Size()
  }

  /** The byte a storage cell holds; the gap reads as 0xFF. */
  function CellByte(st: BusState, c: Cell): Byte
    requires WellSized(st) && Fits(c)
  {
    match c
    case Rom0Cell(o) => st.rom0[o]
    case RomNCell(o) => st.romN[o]
    case VramCell(o) => st.vram[o]
    case ExtRamCell(o) => st.extRam[o]
    case WramCell(o) => st.wram[o]
    case OamCell(o) => st.oam[o]
    case IoCell(o) => st.io[o]
    case HramCell(o) => st.hram[o]
    case IeCell => st.ie
    case Unmapped => 0xFF
  }

  /** What a bus read of `addr` returns. */
  ghost function ReadAt(st: BusState, addr: int): Byte
    requires WellSized(st)
  {
    CellByte(st, CellOf(addr))
  }

  /** The bus after a write of `value` at `addr`: the addressed cell, when
      writable, holds `value & 0xFF`; ROM and the gap drop the write. */
  ghost function Store(st: BusState, addr: int, value: int): (st': BusState)
    requires WellSized(st)
    ensures WellSized(st')
  {
    var v := ToByte(value);
    match CellOf(addr)
    case VramCell(o) => st.(vram := st.vram[o := v])
    case ExtRamCell(o) => st.(extRam := st.extRam[o := v])
    case WramCell(o) => st.(wram := st.wram[o := v])
    case OamCell(o) => st.(oam := st.oam[o := v])
    case IoCell(o) => st.(io := st.io[o := v])
    case HramCell(o) => st.(hram := st.hram[o := v])
    case IeCell => st.(ie := v)
    case _ => st
  }

  /** A write reaches exactly its own cell, and only when that cell is writable. */
  lemma StoreCell(st: BusState, addr: int, value: int, c: Cell)
    requires WellSized(st) && Fits(c)
    ensures CellByte(Store(st, addr, value), c) ==
      if c == CellOf(addr) && Writable(c) then ToByte(value) else CellByte(st, c)
  {
  }

  /** Read after write: reading `b` after writing `a` returns the written byte
      when both reach the same writable cell, and what `b` held otherwise. */
  lemma StoreThenRead(st: BusState, a: int, value: int, b: int)
    requires WellSized(st)
    ensures ReadAt(Store(st, a, value), b) ==
      if CellOf(b) == CellOf(a) && Writable(CellOf(a)) then ToByte(value) else ReadAt(st, b)
  {
    StoreCell(st, a, value, CellOf(b));
  }

  /** Writing ROM or the gap leaves the bus as it was. */
  lemma StoreToReadOnlyIsDropped(st: BusState, addr: int, value: int)
    requires WellSized(st) && !Writable(CellOf(addr))
    ensures Store(st, addr, value) == st
  {
  }

  /** Writing the same byte twice is writing it once. */
  lemma StoreIdempotent(st: BusState, addr: int, value: int)
    requires WellSized(st)
    ensures Store(Store(st, addr, value), addr, value) == Store(st, addr, value)
  {
  }

  /** A later write to the same address overrides an earlier one. */
  lemma StoreOverrides(st: BusState, addr: int, v: int, w: int)
    requires WellSized(st)
    ensures Store(Store(st, addr, v), addr, w) == Store(st, addr, w)
  {
  }

  /** Writes to different cells commute. */
  lemma StoresCommute(st: BusState, a: int, v: int, b: int, w: int)
    requires WellSized(st) && CellOf(a) != CellOf(b)
    ensures Store(Store(st, a, v), b, w) == Store(Store(st, b, w), a, v)
  {
  }

  /** A write through echo RAM is a write to work RAM. */
  lemma EchoStoreIsWramStore(st: BusState, i: int, value: int)
    requires WellSized(st) && 0 <= i < 0x1E00
    ensures Store(st, 0xE000 + i, value) == Store(st, 0xC000 + i, value)
  {
    EchoAliasesWram(i);
  }

  /** The bus after a reset: ROM is kept, every RAM region and IE become 0,
      and the IO region takes the contents `io`. */
  function ResetState(st: BusState, io: seq<Byte>): (st': BusState)
    requires WellSized(st) && |io| == IO.Size()
    ensures WellSized(st')
  {
    BusState(st.rom0, st.romN, Zeros(0x2000), Zeros(0x2000), Zeros(0x2000), Zeros(0xA0), io, Zeros(0x7F), 0)
  }

  /** Every read after a reset: ROM as before, IO from `io`, the gap 0xFF, and
      every other address 0. */
  lemma ResetReads(st: BusState, io: seq<Byte>, a: int)
    requires WellSized(st) && |io| == IO.Size()
    ensures ReadAt(ResetState(st, io), a) ==
      match CellOf(a)
      case Rom0Cell(_) => ReadAt(st, a)
      case RomNCell(_) => ReadAt(st, a)
      case IoCell(o) => io[o]
      case Unmapped => 0xFF
      case _ => 0
  {
  }

  /** Resetting twice is resetting once. */
  lemma ResetIdempotent(st: BusState, io: seq<Byte>)
    requires WellSized(st) && |io| == IO.Size()
    ensures ResetState(ResetState(st, io), io) == ResetState(st, io)
  {
  }
}
