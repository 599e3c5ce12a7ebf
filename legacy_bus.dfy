/** `Memory` (src/emu/memory.ts): the address-routed store of the console whose
    regions are separate `Uint8Array`s. `readByte`/`writeByte` are if-chains on
    the address; the model proves that they reach exactly the cell the MEMORY_MAP
    table assigns (`AddressDecoder.CellOf`). */
module LegacyBus {
  import opened Common
  import opened AddressDecoder

  class Memory {
    const ROM_BANK_0: array<Byte>    // 0x0000-0x3FFF
    const ROM_BANK_N: array<Byte>    // 0x4000-0x7FFF
    const VRAM: array<Byte>          // 0x8000-0x9FFF
    const EXTERNAL_RAM: array<Byte>  // 0xA000-0xBFFF
    const WRAM: array<Byte>          // 0xC000-0xDFFF, mirrored at 0xE000-0xFDFF
    const OAM: array<Byte>           // 0xFE00-0xFE9F
    const IO: array<Byte>            // 0xFF00-0xFF7F
    const HRAM: array<Byte>          // 0xFF80-0xFFFE
    var interruptEnable: Byte        // 0xFFFF

    ghost const Repr: set<object>

    /** The region arrays have the sizes of the address map and are distinct objects. */
    ghost predicate Valid()
    {
      && ROM_BANK_0.Length == 0x4000 && ROM_BANK_N.Length == 0x4000
      && VRAM.Length == 0x2000 && EXTERNAL_RAM.Length == 0x2000 && WRAM.Length == 0x2000
      && OAM.Length == 0xA0 && IO.Length == 0x80 && HRAM.Length == 0x7F
      && ROM_BANK_0 != ROM_BANK_N && ROM_BANK_0 != VRAM && ROM_BANK_0 != EXTERNAL_RAM && ROM_BANK_0 != WRAM
      && ROM_BANK_0 != OAM && ROM_BANK_0 != IO && ROM_BANK_0 != HRAM
      && ROM_BANK_N != VRAM && ROM_BANK_N != EXTERNAL_RAM && ROM_BANK_N != WRAM && ROM_BANK_N != OAM
      && ROM_BANK_N != IO && ROM_BANK_N != HRAM
      && VRAM != EXTERNAL_RAM && VRAM != WRAM && VRAM != OAM && VRAM != IO && VRAM != HRAM
      && EXTERNAL_RAM != WRAM && EXTERNAL_RAM != OAM && EXTERNAL_RAM != IO && EXTERNAL_RAM != HRAM
      && WRAM != OAM && WRAM != IO && WRAM != HRAM
      && OAM != IO && OAM != HRAM
      && IO != HRAM
      && Repr == {this, ROM_BANK_0, ROM_BANK_N, VRAM, EXTERNAL_RAM, WRAM, OAM, IO, HRAM}
    }

    /** The bus contents as a value. */
    ghost function State(): (st: BusState)
      requires Valid()
      reads Repr
      ensures WellSized(st)
    {
      BusState(ROM_BANK_0[..], ROM_BANK_N[..], VRAM[..], EXTERNAL_RAM[..], WRAM[..], OAM[..], IO[..], HRAM[..],
               interruptEnable)
    }

    /** What the bus returns for address `addr`. */
    ghost function Read(addr: int): Byte
      requires Valid()
      reads Repr
    {
      ReadAt(State(), addr)
    }

    /** Every region zero. */
    constructor ()
      ensures Valid() && fresh(Repr)
      ensures State() == BusState(Zeros(0x4000), Zeros(0x4000), Zeros(0x2000), Zeros(0x2000), Zeros(0x2000),
                                  Zeros(0xA0), Zeros(0x80), Zeros(0x7F), 0)
    {
      ROM_BANK_0 := new Byte[0x4000](_ => 0);
      ROM_BANK_N := new Byte[0x4000](_ => 0);
      VRAM := new Byte[0x2000](_ => 0);
      EXTERNAL_RAM := new Byte[0x2000](_ => 0);
      WRAM := new Byte[0x2000](_ => 0);
      OAM := new Byte[0xA0](_ => 0);
      IO := new Byte[0x80](_ => 0);
      HRAM := new Byte[0x7F](_ => 0);
      interruptEnable := 0;
      Repr := {this, ROM_BANK_0, ROM_BANK_N, VRAM, EXTERNAL_RAM, WRAM, OAM, IO, HRAM};
      new;
      assert ROM_BANK_0[..] == Zeros(0x4000);
      assert ROM_BANK_N[..] == Zeros(0x4000);
      assert VRAM[..] == Zeros(0x2000);
      assert EXTERNAL_RAM[..] == Zeros(0x2000);
      assert WRAM[..] == Zeros(0x2000);
      assert OAM[..] == Zeros(0xA0);
      assert IO[..] == Zeros(0x80);
      assert HRAM[..] == Zeros(0x7F);
    }

    /** `loadRom`: the first 0x4000 bytes of the image go to bank 0, the next
        0x4000 to bank N; a short image overwrites only its own prefix, and bytes
        past 0x8000 are ignored. */
    method LoadRom(romData: seq<Byte>)
      requires Valid()
      modifies ROM_BANK_0, ROM_BANK_N
      ensures Valid()
      ensures forall o :: 0 <= o < 0x4000 ==>
        ROM_BANK_0[o] == (if o < |romData| then romData[o] else old(ROM_BANK_0[o]))
      ensures forall o :: 0 <= o < 0x4000 ==>
        ROM_BANK_N[o] == (if 0x4000 + o < |romData| then romData[0x4000 + o] else old(ROM_BANK_N[o]))
      ensures forall a :: 0 <= a < 0x8000 && a < |romData| ==> Read(a) == romData[a]
      ensures State() == old(State()).(rom0 := ROM_BANK_0[..], romN := ROM_BANK_N[..])
    {
      SliceElements(romData, 0, 0x4000);
      SetPrefix(ROM_BANK_0, Slice(romData, 0, 0x4000));
      SliceElements(romData, 0x4000, 0x8000);
      SetPrefix(ROM_BANK_N, Slice(romData, 0x4000, 0x8000));
      forall a | 0 <= a < 0x8000 && a < |romData| ensures Read(a) == romData[a] {
        DecodeByThresholds(a);
      }
    }

    /** `readByte`: the address is masked to 16 bits and routed by the if-chain. */
    method ReadByte(addr: int) returns (r: Byte)
      requires Valid()
      ensures r == Read(addr)
    {
      DecodeByThresholds(addr);
      var a := addr % 0x10000;
      if a < 0x4000 { return ROM_BANK_0[a]; }
      if a < 0x8000 { return ROM_BANK_N[a - 0x4000]; }
      if a < 0xA000 { return VRAM[a - 0x8000]; }
      if a < 0xC000 { return EXTERNAL_RAM[a - 0xA000]; }
      if a < 0xE000 { return WRAM[a - 0xC000]; }
      if a < 0xFE00 { return WRAM[a - 0xE000]; }  // echo RAM
      if a < 0xFEA0 { return OAM[a - 0xFE00]; }
      if a < 0xFF00 { return 0xFF; }
      if a == 0xFF0F { return IO[0x0F]; }  // IF
      if a < 0xFF80 { return IO[a - 0xFF00]; }
      if a < 0xFFFF { return HRAM[a - 0xFF80]; }
      return interruptEnable;
    }

    /** `writeByte`: address masked to 16 bits, value to 8 bits; ROM and the gap
        drop the write, every other address stores it in its one cell. */
    method WriteByte(addr: int, value: int)
      requires Valid()
      modifies VRAM, EXTERNAL_RAM, WRAM, OAM, IO, HRAM, this`interruptEnable
      ensures Valid() && State() == Store(old(State()), addr, value)
    {
      DecodeByThresholds(addr);
      var a := addr % 0x10000;
      var v := value % 0x100;
      if a < 0x8000 { return; }  // ROM
      if a < 0xA000 { VRAM[a - 0x8000] := v; return; }
      if a < 0xC000 { EXTERNAL_RAM[a - 0xA000] := v; return; }
      if a < 0xE000 { WRAM[a - 0xC000] := v; return; }
      if a < 0xFE00 { WRAM[a - 0xE000] := v; return; }
      if a < 0xFEA0 { OAM[a - 0xFE00] := v; return; }
      if a < 0xFF00 { return; }
      if a == 0xFF0F { IO[0x0F] := v; return; }  // IF
      if a < 0xFF80 { IO[a - 0xFF00] := v; return; }
      if a < 0xFFFF { HRAM[a - 0xFF80] := v; return; }
      interruptEnable := v;
    }

    /** `readInstruction`: the little-endian word at `addr`, `addr + 1`. */
    method ReadInstruction(addr: int) returns (w: int)
      requires Valid()
      ensures w == Read(addr) + 0x100 * Read(addr + 1)
      ensures 0 <= w < 0x10000
    {
      var low := ReadByte(addr);
      var high := ReadByte(addr + 1);
      w := Word(low, high);
    }

    /** `reset`: every RAM region and IE become 0; both ROM banks are kept. */
    method Reset()
      requires Valid()
      modifies VRAM, EXTERNAL_RAM, WRAM, OAM, IO, HRAM, this`interruptEnable
      ensures Valid() && State() == ResetState(old(State()), Zeros(0x80))
    {
      Fill(VRAM, 0);
      Fill(EXTERNAL_RAM, 0);
      Fill(WRAM, 0);
      Fill(OAM, 0);
      Fill(IO, 0);
      Fill(HRAM, 0);
      interruptEnable := 0;
      assert VRAM[..] == Zeros(0x2000);
      assert IO[..] == Zeros(0x80);
    }
  }
}
