/** `MMU` (src/emu/mmu.ts), the newer bus. Its region arrays follow the layout of
    `Memory` (src/emu/memory.ts:3-12), which the MMU's own methods use but do not
    declare. Beyond `Memory` it keeps a table of IO handlers, keyed by IO offset,
    and writes the audio register masks into the IO array on construction and on
    reset. */
module MmuBus {
  import opened Common
  import opened AddressDecoder

  /** An opaque registered IO device: the pair of `read`/`write` callbacks that
      `registerIO` stores. Calling it is foreign code; the model records which
      handler a call reaches. */
  datatype IoHandler = IoHandler(device: nat)

  /** Where `readIO` takes its value from. */
  datatype IoRead =
    | FromHandler(handler: IoHandler)  // `handler.read()`
    | FromArray(value: Byte)           // `IO[off]`
    | Undefined                        // `IO[off]` outside the array

  /** The IO region after `loadAPUMask` on an all-zero IO array: IO[0x10 + i]
      holds APU_MASK[i], every other byte 0; mask bytes past the array are lost. */
  function MaskedIo(mask: seq<Byte>): (io: seq<Byte>)
    ensures |io| == 0x80
    ensures forall o :: 0 <= o < 0x80 ==> io[o] == if 0x10 <= o < 0x10 + |mask| then mask[o - 0x10] else 0
  {
    seq(0x80, o requires 0 <= o < 0x80 => if 0x10 <= o < 0x10 + |mask| then mask[o - 0x10] else 0)
  }

  /** The bus of a new MMU: all zero (the gap reads 0xFF), IO holding the mask. */
  function PowerOnState(mask: seq<Byte>): (st: BusState)
    ensures WellSized(st)
  {
    BusState(Zeros(0x4000), Zeros(0x4000), Zeros(0x2000), Zeros(0x2000), Zeros(0x2000), Zeros(0xA0),
             MaskedIo(mask), Zeros(0x7F), 0)
  }

  /** A new MMU is already in its reset state. */
  lemma PowerOnIsReset(mask: seq<Byte>)
    ensures ResetState(PowerOnState(mask), MaskedIo(mask)) == PowerOnState(mask)
  {
  }

  /** On a new MMU every address reads 0 except the gap (0xFF) and the audio
      registers, which read their mask. */
  lemma PowerOnReads(mask: seq<Byte>, a: int)
    ensures ReadAt(PowerOnState(mask), a) ==
      if CellOf(a) == Unmapped then 0xFF
      else if CellOf(a).IoCell? && 0x10 <= CellOf(a).off < 0x10 + |mask| then mask[CellOf(a).off - 0x10]
      else 0
  {
  }

  class MMU {
    const ROM_BANK_0: array<Byte>    // 0x0000-0x3FFF
    const ROM_BANK_N: array<Byte>    // 0x4000-0x7FFF
    const VRAM: array<Byte>          // 0x8000-0x9FFF
    const EXTERNAL_RAM: array<Byte>  // 0xA000-0xBFFF
    const WRAM: array<Byte>          // 0xC000-0xDFFF, mirrored at 0xE000-0xFDFF
    const OAM: array<Byte>           // 0xFE00-0xFE9F
    const IO: array<Byte>            // 0xFF00-0xFF7F
    const HRAM: array<Byte>          // 0xFF80-0xFFFE
    var interruptEnable: Byte        // 0xFFFF
    var interruptFlags: int          // declared, never read
    var ioHandlers: map<int, IoHandler>
    /** `APU_MASK`, the audio register masks; its contents are a parameter. */
    const apuMask: seq<Byte>

    ghost const Repr: set<object>

    /** The region arrays have the sizes of the address map and are distinct objects. */
    ghost predicate Valid()
    {
      && ROM_BANK_0.Length == 0x4000 && ROM_BANK_N.Length == 0x4000
      && VRAM.Length == 0x2000 && EXTERNAL_RAM.Length == 0x2000 && WRAM.Length == 0x2000
      && OAM.Length == 0xA0 && IO.Length == 0x80 && HRAM.Length == 0x7F
      && ROM_BANK_0 != ROM_BANK_N && ROM_BANK_0 != VRAM && ROM_BANK_0 != EXTERNAL_RAM && ROM_BANK_0 != WRAM
      && ROM_BANK_0 != OAM && ROM_BANK_0 != IO && ROM_BANK_0 != HRAM
      && ROM_BANK_N != VRAM && ROM_BANK_N != EXTERNAL_RAM && ROM_BANK_N != WRAM && ROM_BANK_N != OAM
      && ROM_BANK_N != IO && ROM_BANK_N != HRAM
      && VRAM != EXTERNAL_RAM && VRAM != WRAM && VRAM != OAM && VRAM != IO && VRAM != HRAM
      && EXTERNAL_RAM != WRAM && EXTERNAL_RAM != OAM && EXTERNAL_RAM != IO && EXTERNAL_RAM != HRAM
      && WRAM != OAM && WRAM != IO && WRAM != HRAM
      && OAM != IO && OAM != HRAM
      && IO != HRAM
      && Repr == {this, ROM_BANK_0, ROM_BANK_N, VRAM, EXTERNAL_RAM, WRAM, OAM, IO, HRAM}
    }

    /** The bus contents as a value. */
    ghost function State(): (st: BusState)
      requires Valid()
      reads Repr
      ensures WellSized(st)
    {
      BusState(ROM_BANK_0[..], ROM_BANK_N[..], VRAM[..], EXTERNAL_RAM[..], WRAM[..], OAM[..], IO[..], HRAM[..],
               interruptEnable)
    }

    /** What the bus returns for address `addr`. */
    ghost function Read(addr: int): Byte
      requires Valid()
      reads Repr
    {
      ReadAt(State(), addr)
    }

    constructor (apuMask: seq<Byte>)
      ensures Valid() && fresh(Repr) && this.apuMask == apuMask
      ensures ioHandlers == map[] && interruptFlags == 0
      ensures State() == PowerOnState(apuMask)
    {
      this.apuMask := apuMask;
      ROM_BANK_0 := new Byte[0x4000](_ => 0);
      ROM_BANK_N := new Byte[0x4000](_ => 0);
      VRAM := new Byte[0x2000](_ => 0);
      EXTERNAL_RAM := new Byte[0x2000](_ => 0);
      WRAM := new Byte[0x2000](_ => 0);
      OAM := new Byte[0xA0](_ => 0);
      IO := new Byte[0x80](_ => 0);
      HRAM := new Byte[0x7F](_ => 0);
      interruptEnable := 0;
      interruptFlags := 0;
      ioHandlers := map[];
      Repr := {this, ROM_BANK_0, ROM_BANK_N, VRAM, EXTERNAL_RAM, WRAM, OAM, IO, HRAM};
      new;
      assert ROM_BANK_0[..] == Zeros(0x4000);
      assert ROM_BANK_N[..] == Zeros(0x4000);
      assert VRAM[..] == Zeros(0x2000);
      assert EXTERNAL_RAM[..] == Zeros(0x2000);
      assert WRAM[..] == Zeros(0x2000);
      assert OAM[..] == Zeros(0xA0);
      assert HRAM[..] == Zeros(0x7F);
      LoadAPUMask();
      assert IO[..] == MaskedIo(apuMask);
    }

    /** `registerIO`: the handler is keyed by the low byte of the address. For
        every address of 0xFF00..0xFFFF that key is the offset `readIO` and
        `writeIO` look up. No bus cell changes. */
    method RegisterIO(addr: int, handler: IoHandler)
      requires Valid()
      modifies this`ioHandlers
      ensures Valid()
      ensures ioHandlers == old(ioHandlers)[addr % 0x100 := handler]
      ensures 0xFF00 <= addr <= 0xFFFF ==> HandlerAt(addr) == Some(handler)
      ensures State() == old(State())
    {
      ioHandlers := ioHandlers[addr % 0x100 := handler];
    }

    /** The handler `readIO`/`writeIO` find for `addr`: the one keyed by `addr - 0xFF00`. */
    ghost function HandlerAt(addr: int): Option<IoHandler>
      reads this
    {
      var off := addr - 0xFF00;
      if off in ioHandlers then Some(ioHandlers[off]) else None
    }

    /** `readIO`: the registered handler's `read` if there is one, the IO array otherwise. */
    method ReadIO(addr: int) returns (r: IoRead)
      requires Valid()
      ensures HandlerAt(addr).Some? ==> r == FromHandler(HandlerAt(addr).value)
      ensures HandlerAt(addr).None? && 0 <= addr - 0xFF00 < 0x80 ==>
        r == FromArray(Read(addr)) && CellOf(addr) == IoCell(addr - 0xFF00)
      ensures HandlerAt(addr).None? && !(0 <= addr - 0xFF00 < 0x80) ==> r == Undefined
    {
      var off := addr - 0xFF00;
      if off in ioHandlers {
        return FromHandler(ioHandlers[off]);
      }
      if 0 <= off < IO.Length {
        DecodeByThresholds(addr);
        return FromArray(IO[off]);
      }
      return Undefined;
    }

    /** `writeIO`: the registered handler's `write` if there is one (which handler
        is returned; the MMU's own state is untouched), otherwise the IO array
        stores `value & 0xFF` (a write outside it is dropped). */
    method WriteIO(addr: int, value: int) returns (called: Option<IoHandler>)
      requires Valid()
      modifies IO
      ensures called == HandlerAt(addr)
      ensures called.Some? ==> unchanged(IO)
      ensures called.None? ==> forall o :: 0 <= o < 0x80 ==>
        IO[o] == if o == addr - 0xFF00 then ToByte(value) else old(IO[o])
    {
      var off := addr - 0xFF00;
      if off in ioHandlers {
        return Some(ioHandlers[off]);
      }
      if 0 <= off < IO.Length {
        IO[off] := value % 0x100;
      }
      return None;
    }

    /** `loadRom`: the first 0x4000 bytes of the image go to bank 0, the next
        0x4000 to bank N; a short image overwrites only its own prefix, and bytes
        past 0x8000 are ignored. */
    method LoadRom(romData: seq<Byte>)
      requires Valid()
      modifies ROM_BANK_0, ROM_BANK_N
      ensures Valid()
      ensures forall o :: 0 <= o < 0x4000 ==>
        ROM_BANK_0[o] == (if o < |romData| then romData[o] else old(ROM_BANK_0[o]))
      ensures forall o :: 0 <= o < 0x4000 ==>
        ROM_BANK_N[o] == (if 0x4000 + o < |romData| then romData[0x4000 + o] else old(ROM_BANK_N[o]))
      ensures forall a :: 0 <= a < 0x8000 && a < |romData| ==> Read(a) == romData[a]
      ensures State() == old(State()).(rom0 := ROM_BANK_0[..], romN := ROM_BANK_N[..])
    {
      SliceElements(romData, 0, 0x4000);
      SetPrefix(ROM_BANK_0, Slice(romData, 0, 0x4000));
      SliceElements(romData, 0x4000, 0x8000);
      SetPrefix(ROM_BANK_N, Slice(romData, 0x4000, 0x8000));
      forall a | 0 <= a < 0x8000 && a < |romData| ensures Read(a) == romData[a] {
        DecodeByThresholds(a);
      }
    }

    /** `readByte`: the address is masked to 16 bits and routed by the if-chain. */
    method ReadByte(addr: int) returns (r: Byte)
      requires Valid()
      ensures r == Read(addr)
    {
      DecodeByThresholds(addr);
      var a := addr % 0x10000;
      if a < 0x4000 { return ROM_BANK_0[a]; }
      if a < 0x8000 { return ROM_BANK_N[a - 0x4000]; }
      if a < 0xA000 { return VRAM[a - 0x8000]; }
      if a < 0xC000 { return EXTERNAL_RAM[a - 0xA000]; }
      if a < 0xE000 { return WRAM[a - 0xC000]; }
      if a < 0xFE00 { return WRAM[a - 0xE000]; }  // echo RAM
      if a < 0xFEA0 { return OAM[a - 0xFE00]; }
      if a < 0xFF00 { return 0xFF; }
      if a == 0xFF0F { return IO[0x0F]; }  // IF
      if a < 0xFF80 { return IO[a - 0xFF00]; }
      if a < 0xFFFF { return HRAM[a - 0xFF80]; }
      return interruptEnable;
    }

    /** `writeByte`: address masked to 16 bits, value to 8 bits; ROM and the gap
        drop the write, every other address stores it in its one cell. */
    method WriteByte(addr: int, value: int)
      requires Valid()
      modifies VRAM, EXTERNAL_RAM, WRAM, OAM, IO, HRAM, this`interruptEnable
      ensures Valid() && State() == Store(old(State()), addr, value)
    {
      DecodeByThresholds(addr);
      var a := addr % 0x10000;
      var v := value % 0x100;
      if a < 0x8000 { return; }  // ROM
      if a < 0xA000 { VRAM[a - 0x8000] := v; return; }
      if a < 0xC000 { EXTERNAL_RAM[a - 0xA000] := v; return; }
      if a < 0xE000 { WRAM[a - 0xC000] := v; return; }
      if a < 0xFE00 { WRAM[a - 0xE000] := v; return; }
      if a < 0xFEA0 { OAM[a - 0xFE00] := v; return; }
      if a < 0xFF00 { return; }
      if a == 0xFF0F { IO[0x0F] := v; return; }  // IF
      if a < 0xFF80 { IO[a - 0xFF00] := v; return; }
      if a < 0xFFFF { HRAM[a - 0xFF80] := v; return; }
      interruptEnable := v;
    }

    /** `readInstruction`: the little-endian word at `addr`, `addr + 1`. */
    method ReadInstruction(addr: int) returns (w: int)
      requires Valid()
      ensures w == Read(addr) + 0x100 * Read(addr + 1)
      ensures 0 <= w < 0x10000
    {
      var low := ReadByte(addr);
      var high := ReadByte(addr + 1);
      w := Word(low, high);
    }

    /** `reset`: every RAM region and IE become 0, both ROM banks are kept, and
        then IO[0x10 + i] = APU_MASK[i]. */
    method Reset()
      requires Valid()
      modifies VRAM, EXTERNAL_RAM, WRAM, OAM, IO, HRAM, this`interruptEnable
      ensures Valid() && State() == ResetState(old(State()), MaskedIo(apuMask))
    {
      Fill(VRAM, 0);
      Fill(EXTERNAL_RAM, 0);
      Fill(WRAM, 0);
      Fill(OAM, 0);
      Fill(IO, 0);
      Fill(HRAM, 0);
      interruptEnable := 0;

      Fill(IO, 0);
      LoadAPUMask();
      assert IO[..] == MaskedIo(apuMask);
    }

    /** `loadAPUMask`: for each i, IO[0x10 + i] = APU_MASK[i]; a mask longer than
        the IO array reaches past it, and those writes are dropped. */
    method LoadAPUMask()
      requires Valid()
      modifies IO
      ensures forall o :: 0 <= o < 0x80 ==>
        IO[o] == if 0x10 <= o < 0x10 + |apuMask| then apuMask[o - 0x10] else old(IO[o])
    {
      for i := 0 to |apuMask|
        invariant forall o :: 0 <= o < 0x80 ==>
          IO[o] == if 0x10 <= o < 0x10 + i then apuMask[o - 0x10] else old(IO[o])
      {
        if 0x10 + i < IO.Length {
          IO[0x10 + i] := apuMask[i];
        }
      }
    }
  }
}
