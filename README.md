# A verified model of the gameboy-emu.js core

This project models, in Dafny, the core of an early Game Boy (DMG) emulator
written in TypeScript. At this stage the emulator has storage, address
routing, the first load instructions and a handful of pure helpers. The
model covers:

- **The two memory buses.** `Memory` (`LegacyBus.Memory`) and its successor
  `MMU` (`MmuBus.MMU`) route every 16-bit address to one cell: ROM bank 0,
  ROM bank N, VRAM, external RAM, WRAM, echo RAM, OAM, the unusable gap, IO,
  HRAM or IE.
  - Their `readByte`/`writeByte` if-chains are proved equal to a decoder
    derived from the `MEMORY_MAP` table (`AddressDecoder.CellOf`).
  - A write is proved to be a single-cell store on the bus contents seen as a
    value (`AddressDecoder.Store` on a `BusState`).
  - From that follow the round-trip, echo-aliasing, frame and reset
    properties, proved once for both buses.
- **The split peripherals.** `RAM` covers WRAM, echo RAM and HRAM, and
  `Cartridge` covers the ROM banks.
- **The CPU.** `Processor.CPU` has run states, registers, PC and a cycle
  count, and it accesses memory through the MMU.
  - The twelve load handlers of `instructions.ts` are modelled as written,
    each proved against a statement of its effect on registers, PC, cycles and
    bus contents.
- **The peripheral register files.**
  - The PPU: VRAM and OAM with their address checks, and the wrapped pixel
    display. The integer scale-up loop of `render` is proved to write every
    byte of the RGBA image exactly once, with the colour of the display pixel
    it scales.
  - The APU registers with their write masks.
  - The interrupt registers, the timer, the serial port and the joypad.
  - The boot ROM enable flag.
- **The pure helpers.**
  - The carry, borrow and half-carry predicates.
  - Sign extension, with JavaScript's 32-bit shifts written out.
  - The memory-map constant tables, proved to partition 0x0000-0xFFFF.
  - The interrupt bit masks.
  - The hex-dump formatter, whose loop is proved to build the string defined
    line by line, with the shape of every line proved.

Bytes are the subtype `Common.Byte` (0..255). A store into a `Uint8Array` is
the value modulo 256 (`Common.ToByte`). JavaScript's `&` and `|` on
non-negative integers are defined bit by bit in `Bits` and connected to the
remainders the model computes with. The joypad register, which the source
updates with `|=` and `&= ~` on 32-bit patterns, is modelled as a `bv32`.

The code wins where it disagrees with its own comments or with the address
map. The disagreements are listed under "## Findings".

## Model

| member | source | states |
|---|---|---|
| MemoryMap.MemoryMapIsConsecutive | src/utils/const/memory-map.const.ts:1-46 | the MEMORY_MAP ranges, in declared order, have START <= END, ROM_0 starts at 0, each START is the previous END + 1, and IE ends at 0xFFFF |
| MemoryMap.MemoryMapCovers | src/utils/const/memory-map.const.ts:1-46 | every address 0x0000-0xFFFF lies in some region |
| MemoryMap.MemoryMapDisjoint | src/utils/const/memory-map.const.ts:1-46 | no address lies in two different regions |
| MemoryMap.RegionOf | src/utils/const/memory-map.const.ts:1-46 | each 16-bit address has a region containing it, and it is the only one |
| MemoryMap.ConsecutiveIsAscending | src/utils/const/memory-map.const.ts:1-46 | a well-formed table whose ranges each start right after the previous one is strictly ascending |
| MemoryMap.AscendingIsPairwise | src/utils/const/memory-map.const.ts:1-101 | in an ascending table, every earlier range ends before every later one starts, so the ranges are pairwise disjoint |
| MemoryMap.ConsecutiveCovers | src/utils/const/memory-map.const.ts:1-46 | a consecutive table covers every address from its first START to its last END |
| MemoryMap.Ranges | src/utils/const/memory-map.const.ts:1-46 | the range list of a region list has one entry per region, each that region's range |
| MemoryMap.RegionSizes | src/utils/const/memory-map.const.ts:1-46 | the region sizes are those of the backing arrays at src/emu/memory.ts:3-11, and ECHO (0x1E00) is no larger than WRAM |
| MemoryMap.IoMapWellOrdered | src/utils/const/memory-map.const.ts:48-101 | every IO_MAP range has START <= END, lies inside 0xFF00-0xFF7F, and the ranges are sorted and pairwise disjoint |
| MemoryMap.TimerAddressesFillTimerRange | src/utils/const/memory-map.const.ts:57-108 | DIV, TIMA, TMA and TAC are consecutive and are exactly the addresses of IO_MAP.TIMER |
| MemoryMap.ApuWindowsAgree | src/utils/const/memory-map.const.ts:65-72 | APU_AUDIO and APU_WAVE equal the APU's register and wave-RAM windows, with the unused window between them |
| AddressDecoder.CellOf | src/utils/const/memory-map.const.ts:1-46 | the cell an address reaches, derived from the region table on the address masked to 16 bits; it always fits its region's array |
| AddressDecoder.DecodeByThresholds | src/emu/memory.ts:23-41 | the readByte if-chain of thresholds on `addr & 0xFFFF` selects the same cell as the table-derived decoder |
| AddressDecoder.DecodeIgnoresHighBits | src/emu/memory.ts:24 | `a` and `a + k * 0x10000` reach the same cell |
| AddressDecoder.EchoAliasesWram | src/emu/memory.ts:29-30 | 0xE000 + i and 0xC000 + i reach the same WRAM cell for 0 <= i < 0x1E00 |
| AddressDecoder.SharedCellsAreEchoPairs | src/emu/memory.ts:23-41 | two distinct 16-bit addresses share a cell only when they are a WRAM address below 0xDE00 and its echo 0x2000 above |
| AddressDecoder.WramTailHasNoAlias | src/emu/memory.ts:29-30 | a WRAM address in 0xDE00-0xDFFF shares its cell with no other address |
| AddressDecoder.WritableRegions | src/emu/memory.ts:47-68 | an address is writable exactly when its 16-bit form is at least 0x8000 and outside the gap 0xFEA0-0xFEFF |
| AddressDecoder.GapIsUnmapped | src/emu/memory.ts:32 | exactly the addresses of the gap reach no cell |
| AddressDecoder.AddressAfterTopWraps | src/emu/memory.ts:88-92 | 0xFFFF is IE and 0xFFFF + 1 reaches ROM bank 0 offset 0, the high byte of `readInstruction(0xFFFF)` |
| AddressDecoder.Store | src/emu/memory.ts:43-86 | a store keeps every region at its size |
| AddressDecoder.StoreCell | src/emu/memory.ts:43-86 | a store puts `value` mod 256 in the addressed cell when it is writable, and leaves every other cell unchanged |
| AddressDecoder.StoreThenRead | src/emu/memory.ts:23-86 | after a store, reading any address whose cell matches the target's gives `value` mod 256 if that cell is writable; every other read is unchanged |
| AddressDecoder.StoreToReadOnlyIsDropped | src/emu/memory.ts:47-68 | a store to ROM or to the gap leaves the bus unchanged |
| AddressDecoder.StoreIdempotent | src/emu/memory.ts:43-86 | storing the same value twice is storing it once |
| AddressDecoder.StoreOverrides | src/emu/memory.ts:43-86 | a second store to the same address supersedes the first |
| AddressDecoder.StoresCommute | src/emu/memory.ts:43-86 | stores to addresses in different cells commute |
| AddressDecoder.EchoStoreIsWramStore | src/emu/memory.ts:56-63 | a store at 0xE000 + i is the store at 0xC000 + i |
| AddressDecoder.ResetState | src/emu/memory.ts:94-102 | reset keeps every region at its size |
| AddressDecoder.ResetReads | src/emu/memory.ts:94-102 | after reset, ROM reads are unchanged, the gap reads 0xFF, IO reads the given IO image and every other address reads 0 |
| AddressDecoder.ResetIdempotent | src/emu/memory.ts:94-102 | resetting twice is resetting once |
| LegacyBus.Memory.constructor | src/emu/memory.ts:3-16 | a new bus has every region zero and IE 0 |
| LegacyBus.Memory.LoadRom | src/emu/memory.ts:18-21 | bank 0 receives the first 0x4000 bytes of the image and bank N the next 0x4000; bytes past a short image keep their old value; every address below 0x8000 covered by the image reads back its byte; nothing else changes |
| LegacyBus.Memory.ReadByte | src/emu/memory.ts:23-41 | returns the byte of the cell the table assigns to `addr & 0xFFFF`, 0xFF in the gap |
| LegacyBus.Memory.WriteByte | src/emu/memory.ts:43-86 | the new bus contents are the single-cell `Store` of `value & 0xFF` at `addr & 0xFFFF` |
| LegacyBus.Memory.ReadInstruction | src/emu/memory.ts:88-92 | the little-endian word of the bytes at `addr` and `addr + 1`, a 16-bit value |
| LegacyBus.Memory.Reset | src/emu/memory.ts:94-102 | VRAM, external RAM, WRAM, OAM, IO, HRAM and IE become 0, and both ROM banks are kept |
| Common.WordIsShiftOr | src/emu/memory.ts:88-92 | `(high << 8) OR low` is `low + 256 * high` |
| Common.ToByte | src/emu/memory.ts:45 | the Uint8Array store of an integer is its residue modulo 256 |
| Common.Slice | src/utils/helpers/dump-memory.helper.ts:10 | `slice(lo, hi)` has min(hi, length) - lo elements, none when the range is empty |
| Common.SliceElements | src/utils/helpers/dump-memory.helper.ts:10 | element k of `slice(lo, hi)` is element lo + k of the input |
| Common.Fill | src/emu/cpu.ts:36 | `fill(v)` leaves every element of the array equal to v |
| Common.SetPrefix | src/emu/memory.ts:19-20 | `set(src)` overwrites the first `src.length` elements with src and keeps the rest |
| MmuBus.MaskedIo | src/emu/mmu.ts:143-149 | after loading the mask into a zero IO array, IO[0x10 + i] holds APU_MASK[i] and every other byte is 0 |
| MmuBus.PowerOnIsReset | src/emu/mmu.ts:130-141 | a new MMU is already in the state `reset` produces |
| MmuBus.PowerOnReads | src/emu/mmu.ts:15-26 | a new MMU reads 0 everywhere except the gap (0xFF) and the audio registers, which read their mask |
| MmuBus.MMU.constructor | src/emu/mmu.ts:12-26 | a new MMU has no IO handlers, zero regions and IE, and the audio masks loaded into IO |
| MmuBus.MMU.RegisterIO | src/emu/mmu.ts:28-30 | the handler is stored under `addr & 0xFF`, so for every addr in 0xFF00-0xFFFF the `readIO` lookup finds it; the bus contents are unchanged |
| MmuBus.MMU.ReadIO | src/emu/mmu.ts:32-37 | reads from the handler registered at `addr - 0xFF00` if there is one, otherwise from the IO array, and is `undefined` past the array |
| MmuBus.MMU.WriteIO | src/emu/mmu.ts:39-47 | calls the registered handler and leaves IO unchanged, or without a handler stores `value` mod 256 at that IO offset and leaves the other offsets unchanged |
| MmuBus.MMU.LoadRom | src/emu/mmu.ts:49-52 | bank 0 receives the first 0x4000 bytes of the image and bank N the next 0x4000; every covered ROM address reads back its byte; nothing else changes |
| MmuBus.MMU.ReadByte | src/emu/mmu.ts:54-73 | returns the byte of the cell the table assigns to `addr & 0xFFFF`; the IO array is read directly and the handlers are not consulted |
| MmuBus.MMU.WriteByte | src/emu/mmu.ts:75-122 | the new bus contents are the single-cell `Store` of `value & 0xFF` at `addr & 0xFFFF`; ROM and gap writes are dropped |
| MmuBus.MMU.ReadInstruction | src/emu/mmu.ts:124-128 | the little-endian word of the bytes at `addr` and `addr + 1` |
| MmuBus.MMU.Reset | src/emu/mmu.ts:130-141 | every RAM region and IE become 0, then IO[0x10 + i] = APU_MASK[i]; the ROM banks are kept |
| MmuBus.MMU.LoadAPUMask | src/emu/mmu.ts:143-149 | IO[0x10 + i] receives APU_MASK[i] for each mask byte that fits, and the other IO bytes are unchanged |
| WorkRam.RamCellOf | src/emu/ram.ts:9-20 | the cell a RAM address reaches is a WRAM cell, an HRAM cell, or none |
| WorkRam.RamRoutes | src/emu/ram.ts:9-37 | WRAM and HRAM addresses reach their own offset, echo addresses reach WRAM offset addr - 0xE000, and everything else reaches no cell |
| WorkRam.RamEchoAliasesWram | src/emu/ram.ts:13-31 | 0xE000 + i and 0xC000 + i reach the same WRAM cell for 0 <= i < 0x1E00 |
| WorkRam.RamWramTailHasNoAlias | src/emu/ram.ts:10-14 | a WRAM byte at 0xDE00-0xDFFF is reached from no other address |
| WorkRam.WramHramDisjoint | src/emu/ram.ts:22-36 | a WRAM or echo address and an HRAM address never share a cell |
| WorkRam.RAM.constructor | src/emu/ram.ts:4-7 | a new RAM reads 0 at every mapped address and 0xFF elsewhere |
| WorkRam.RAM.GetByte | src/emu/ram.ts:9-20 | returns the byte of the addressed WRAM or HRAM cell, or 0xFF outside the three ranges |
| WorkRam.RAM.SetByte | src/emu/ram.ts:22-37 | every address sharing the target's cell then reads `value` mod 256, every other address reads as before, and a write outside the ranges changes nothing |
| Cart.Overlay | src/emu/cartridge.ts:8-11 | the ROM image after `loadRom` is 0x8000 bytes |
| Cart.FullImageReplacesRom | src/emu/cartridge.ts:8-11 | an image of at least 0x8000 bytes replaces the whole ROM with its first 0x8000 bytes |
| Cart.ShortImageKeepsTail | src/emu/cartridge.ts:9-10 | a shorter image overwrites only its own prefix, and the bytes beyond it keep their value |
| Cart.TailIgnored | src/emu/cartridge.ts:10 | bytes of the image at index 0x8000 or more are ignored |
| Cart.LoadIdempotent | src/emu/cartridge.ts:8-11 | loading the same image twice is loading it once |
| Cart.Cartridge.Image | src/emu/cartridge.ts:2-3 | the two banks seen together are a 0x8000-byte image |
| Cart.Cartridge.constructor | src/emu/cartridge.ts:2-6 | the ROM image starts all zero |
| Cart.Cartridge.LoadRom | src/emu/cartridge.ts:8-11 | the new image is the old one overlaid with the loaded bytes, and EXTERNAL_RAM is untouched |
| Cart.Cartridge.GetByte | src/emu/cartridge.ts:13-17 | returns image byte `address` below 0x8000 and 0xFF from 0x8000 up |
| Processor.CPU.constructor | src/emu/cpu.ts:5-18 | PC = 0x100, all 8 registers 0, status RUNNING, no cycles counted |
| Processor.CPU.Start | src/emu/cpu.ts:20-22 | status becomes RUNNING and nothing else changes |
| Processor.CPU.Pause | src/emu/cpu.ts:30-32 | status becomes PAUSED and nothing else changes |
| Processor.CPU.Stop | src/emu/cpu.ts:34-41 | PC = 0x100, every register 0, the bus reset, the display cleared and re-rendered, status STOPPED |
| Processor.CPU.Restart | src/emu/cpu.ts:24-28 | ends RUNNING with PC = 0x100, zeroed registers, the bus reset, the display cleared and re-rendered, and the cycle count kept |
| Processor.CPU.Step | src/emu/cpu.ts:43-45 | returns the current status and changes nothing |
| Processor.CPU.GetHL | src/emu/instructions.ts:17 | returns `(H << 8) OR L`, a 16-bit address |
| Processor.CPU.GetRegister | src/emu/instructions.ts:28 | code 6 reads the byte at (HL) through the bus; every other code reads its register |
| Processor.CPU.SetRegister | src/emu/instructions.ts:42 | code 6 stores at (HL) through the bus and keeps the registers; every other code sets that register to the value mod 256 |
| Processor.CPU.IncrementPC | src/emu/instructions.ts:6 | PC grows by one, with no wrap rule assumed |
| Processor.CPU.IncrementCycles | src/emu/instructions.ts:8 | the cycle count grows by `n` |
| Instructions.Bits3To5 | src/emu/instructions.ts:4 | `(opcode >> 3) & 7` is a register code 0..7 |
| Instructions.Bits0To2 | src/emu/instructions.ts:25 | `opcode & 7` is a register code 0..7 |
| Instructions.OpcodeFields | src/emu/instructions.ts:25-26 | an opcode is its top two bits, the field at bits 3-5 and the field at bits 0-2 |
| Instructions.HighPage | src/emu/instructions.ts:125-158 | `0xFF00 + n` always lies in 0xFF00-0xFFFF, at offset n |
| Instructions.Address16 | src/emu/instructions.ts:94-122 | the little-endian address of two bytes is lsb + 256 * msb |
| Instructions.BitwiseForms | src/emu/instructions.ts:24-26 | the arithmetic field extractions and addresses equal the source's `>>`, `&`, `OR` and `<<` forms |
| Instructions.Address16Bijective | src/emu/instructions.ts:94-122 | byte pairs and 16-bit addresses correspond one to one |
| Instructions.WitnessOpcodes | src/emu/instructions.ts:3-55 | 0x06 (LD B, n) has register field B, and 0x78 (LD A, B) has A at bits 3-5 and B at bits 0-2 |
| Instructions.LDrn | src/emu/instructions.ts:3-11 | as written: one incrementPC, 2 cycles, and no register or memory cell changes |
| Instructions.LDrnCorrected | src/emu/instructions.ts:3-11 | as intended: the register of bits 3-5 receives the immediate byte (code 6 stores it at (HL)), with one incrementPC and 2 cycles |
| Instructions.LDHLn | src/emu/instructions.ts:13-22 | the immediate byte is stored at (HL), with one incrementPC, 3 cycles, and registers unchanged |
| Instructions.LDrr | src/emu/instructions.ts:24-55 | as written: the register at bits 0-2 receives `getRegister` of bits 3-5; with bits 0-2 = 6 that value goes to (HL) instead and the registers are kept; 2 cycles when either field is 6, else 1; PC unchanged |
| Instructions.LDrrCorrected | src/emu/instructions.ts:24-55 | as intended: the destination at bits 3-5 receives the source at bits 0-2, with the same cycle counts |
| Instructions.LDABC | src/emu/instructions.ts:57-64 | A = mem[(B << 8) OR C], 2 cycles, PC unchanged, other registers kept |
| Instructions.LDADE | src/emu/instructions.ts:66-73 | A = mem[(D << 8) OR E], 2 cycles, PC unchanged, other registers kept |
| Instructions.LDBCA | src/emu/instructions.ts:75-82 | A is stored at BC, 2 cycles, and no register changes |
| Instructions.LDDEA | src/emu/instructions.ts:84-91 | A is stored at DE, 2 cycles, and no register changes |
| Instructions.LDAnn | src/emu/instructions.ts:94-106 | A = mem[nn], where nn is little-endian from the two bytes at PC; two incrementPCs and 4 cycles |
| Instructions.LDnnA | src/emu/instructions.ts:109-122 | A is stored at the little-endian nn read at PC, with two incrementPCs, 4 cycles, and registers unchanged |
| Instructions.LDHAC | src/emu/instructions.ts:125-133 | A = mem[0xFF00 + C], 2 cycles, PC unchanged |
| Instructions.LDHAn | src/emu/instructions.ts:135-145 | A = mem[0xFF00 + n] for the byte n at PC, one incrementPC and 3 cycles |
| Instructions.LDHnA | src/emu/instructions.ts:147-158 | A is stored at 0xFF00 + n for the byte n at PC, with one incrementPC and 3 cycles |
| Video.WindowsMatchAddressMap | src/emu/ppu.ts:4-13 | the video unit's VRAM and OAM windows are the address map's, of 0x2000 and 0xA0 bytes |
| Video.PixelIndex | src/emu/ppu.ts:84-96 | the cell of (x, y) lies on the display; its column is x mod 160 and its row y mod 144 |
| Video.SamePixelIffCongruent | src/emu/ppu.ts:84-96 | two coordinate pairs address the same cell exactly when they are congruent mod 160 and mod 144 |
| Video.EveryCellHasOnePixel | src/emu/ppu.ts:84-96 | every display cell is addressed by its own on-screen coordinates |
| Video.OnScreenPixelIndex | src/emu/ppu.ts:84-96 | on-screen coordinates address y * 160 + x |
| Video.Decode | src/emu/ppu.ts:101-116 | each image byte belongs to one output pixel, which lies in the block of one display pixel |
| Video.Encode | src/emu/ppu.ts:101-116 | each write of the loop lands on the output pixel of its block position |
| Video.WritesAreInsideAndDistinct | src/emu/ppu.ts:101-116 | every index `render` writes lies inside the 160s x 144s x 4 buffer, and distinct loop positions write distinct pixels |
| Video.WritesCoverBuffer | src/emu/ppu.ts:101-116 | every pixel of the buffer is written by some loop position |
| Video.RenderedByte | src/emu/ppu.ts:103-116 | the reference image that `render` is proved to produce: every fourth byte (alpha) is 0xFF, and the colour bytes of output pixel (X, Y) copy display pixel (X div scale, Y div scale) |
| Video.RenderedPixelAt | src/emu/ppu.ts:103-116 | output pixel (X, Y) has R = G = B = display[(Y div s) * 160 + X div s] and A = 0xFF |
| Video.RenderedBlockByte | src/emu/ppu.ts:103-116 | byte k of the pixel written at block position (y, x, dy, dx) is the display pixel (x, y), or 0xFF for A |
| Video.ClearedImage | src/emu/ppu.ts:35-38 | the rendering of an all-zero display is opaque black |
| Video.RenderStep | src/emu/ppu.ts:110-115 | one inner step writes the four bytes of its pixel and keeps the loop invariant |
| Video.RenderDone | src/emu/ppu.ts:101-119 | when the loops end, every byte of the image is the rendering of the display |
| Video.PPU.constructor | src/emu/ppu.ts:15-33 | VRAM, OAM, the display and the image start zeroed, with the given scale |
| Video.PPU.Clear | src/emu/ppu.ts:35-38 | every display pixel becomes 0 and the image becomes opaque black, the rendering of the display |
| Video.PPU.GetVRAMByte | src/emu/ppu.ts:40-58 | fails exactly outside 0x8000-0x9FFF, and otherwise returns the byte |
| Video.PPU.SetVRAMByte | src/emu/ppu.ts:40-66 | fails exactly outside 0x8000-0x9FFF; otherwise a following `getVRAMByte(address)` returns `value` mod 256, and every other address reads as before |
| Video.PPU.GetOAMByte | src/emu/ppu.ts:46-74 | fails exactly outside 0xFE00-0xFE9F, and otherwise returns the byte |
| Video.PPU.SetOAMByte | src/emu/ppu.ts:46-82 | fails exactly outside 0xFE00-0xFE9F; otherwise the same round trip and frame as VRAM |
| Video.PPU.GetPixel | src/emu/ppu.ts:84-89 | returns the display cell of (x mod 160, y mod 144) |
| Video.PPU.SetPixel | src/emu/ppu.ts:91-96 | every congruent coordinate pair then reads the colour mod 256, and every other cell is unchanged |
| Video.PPU.Render | src/emu/ppu.ts:98-119 | the image buffer becomes the scaled RGBA rendering of the display |
| Audio.MaskedStoreWithinMask | src/emu/io/apu.ts:61 | a value masked on store has no bit outside its mask |
| Audio.MaskFacts | src/emu/io/apu.ts:61 | a mask lies within itself, and only 0 lies within a zero mask |
| Audio.APU.constructor | src/emu/io/apu.ts:4-24 | registers[i] = APU_MASK[i] for the 23 registers, and wave RAM is zero |
| Audio.APU.ReadRegister | src/emu/io/apu.ts:26-42 | returns the stored register in 0xFF10-0xFF26, which lies within its mask, and 0xFF for every other address, the unused window and wave RAM included |
| Audio.APU.ReadWaveRAM | src/emu/io/apu.ts:44-53 | returns the wave byte in 0xFF30-0xFF3F and 0xFF elsewhere |
| Audio.APU.WriteRegister | src/emu/io/apu.ts:55-79 | in 0xFF10-0xFF26 stores `value & APU_MASK[offset]`, in wave RAM stores `value & 0xFF`, and changes nothing for any other address |
| Audio.APU.LoadAPUMask | src/emu/io/apu.ts:81-83 | the registers receive the mask's first 23 bytes, and registers past a short mask keep their value |
| Audio.APU.Reset | src/emu/io/apu.ts:85-88 | registers[i] = APU_MASK[i] again, and wave RAM is zeroed |
| InterruptRegs.Interrupts.constructor | src/emu/io/interrupts.ts:6-10 | IE = 0, IF = 0xE1, IME = false |
| InterruptRegs.Interrupts.SetIME | src/emu/io/interrupts.ts:12-14 | IME takes the value, and IE and IF are unchanged |
| InterruptRegs.Interrupts.GetIME | src/emu/io/interrupts.ts:16-18 | returns IME |
| InterruptRegs.Interrupts.GetInterruptFlags | src/emu/io/interrupts.ts:20-22 | returns IF |
| InterruptRegs.Interrupts.SetInterruptFlags | src/emu/io/interrupts.ts:24-26 | IF takes the value unmasked, and IE and IME are unchanged |
| InterruptRegs.Interrupts.GetInterruptEnable | src/emu/io/interrupts.ts:28-30 | returns IE |
| InterruptRegs.Interrupts.SetInterruptEnable | src/emu/io/interrupts.ts:32-34 | IE takes the value unmasked, and IF and IME are unchanged |
| TimerRegs.TimerRead | src/emu/io/timer.ts:5-7 | a register exists exactly for offsets inside the array; elsewhere the read is `undefined` |
| TimerRegs.TimerWrite | src/emu/io/timer.ts:9-11 | a write keeps the register count |
| TimerRegs.WriteThenRead | src/emu/io/timer.ts:5-11 | a read after a write at the same register gives `value` mod 256, and the other registers are unchanged |
| TimerRegs.AsWrittenRoundTrip | src/emu/io/timer.ts:3-11 | with the 3-byte array, DIV, TIMA and TMA round-trip |
| TimerRegs.TacWriteIsLost | src/emu/io/timer.ts:3-11 | with the 3-byte array, a write to TAC (0xFF07) changes nothing and a read of TAC is `undefined` |
| TimerRegs.CorrectedRoundTrip | src/utils/const/memory-map.const.ts:57-108 | with four bytes, every timer address round-trips, and exactly the addresses of IO_MAP.TIMER have a register |
| TimerRegs.Timer.constructor | src/emu/io/timer.ts:3 | as written: three registers, all 0 |
| TimerRegs.Timer.Corrected | src/emu/io/timer.ts:3 | corrected: four registers DIV..TAC, all 0 |
| TimerRegs.Timer.ReadRegister | src/emu/io/timer.ts:5-7 | returns `registers[address - 0xFF04]`, or `undefined` outside the array |
| TimerRegs.Timer.WriteRegister | src/emu/io/timer.ts:9-11 | stores `value` mod 256 at `address - 0xFF04`, and a write outside the array is dropped |
| SerialRegs.SerialAddresses | src/emu/io/serial.ts:4-11 | offsets taken relative to 0xFF01 select a register exactly for the addresses 0xFF01-0xFF02 |
| SerialRegs.Serial.constructor | src/emu/io/serial.ts:4 | both registers start at 0 |
| SerialRegs.Serial.ReadRegister | src/emu/io/serial.ts:6-8 | returns the register of the address |
| SerialRegs.Serial.WriteRegister | src/emu/io/serial.ts:10-12 | inside 0xFF01-0xFF02 the addressed register receives `value` mod 256 and the other keeps its value; any other address leaves both registers unchanged |
| JoypadRegs.Press | src/emu/io/joypad.ts:21-23 | `joypad OR button` has every bit of the button set and every other bit of `joypad` kept |
| JoypadRegs.Release | src/emu/io/joypad.ts:25-27 | `joypad & ~button` has every bit of the button clear and every other bit of `joypad` kept |
| JoypadRegs.PressIdempotent | src/emu/io/joypad.ts:21-23 | pressing twice is pressing once |
| JoypadRegs.ReleaseIdempotent | src/emu/io/joypad.ts:25-27 | releasing twice is releasing once |
| JoypadRegs.PressThenRelease | src/emu/io/joypad.ts:21-27 | press then release of b restores every bit outside b and clears b |
| JoypadRegs.Joypad.constructor | src/emu/io/joypad.ts:2-7 | the register starts at 0xCF |
| JoypadRegs.Joypad.Reset | src/emu/io/joypad.ts:9-11 | the register becomes 0xCF |
| JoypadRegs.Joypad.GetByte | src/emu/io/joypad.ts:13-15 | returns the register |
| JoypadRegs.Joypad.SetByte | src/emu/io/joypad.ts:17-19 | the register takes the value, so `getByte` returns it |
| JoypadRegs.Joypad.PressButton | src/emu/io/joypad.ts:21-23 | the register becomes `joypad OR button` |
| JoypadRegs.Joypad.ReleaseButton | src/emu/io/joypad.ts:25-27 | the register becomes `joypad & ~button` |
| BootRom.BootROMControl.constructor | src/emu/io/boot-rom.ts:4-5 | enabled, over an image of 256 zero bytes |
| BootRom.BootROMControl.IsEnabled | src/emu/io/boot-rom.ts:21-23 | returns the enable flag |
| BootRom.BootROMControl.Reset | src/emu/io/boot-rom.ts:25-27 | enables the overlay and keeps the image; doing it twice is doing it once |
| BootRom.BootROMControl.Disable | src/emu/io/boot-rom.ts:29-31 | disables the overlay and keeps the image |
| BootRom.BootROMControl.ReadByte | src/emu/io/boot-rom.ts:33-38 | fails exactly when the overlay is disabled, and otherwise returns `bootRom[addr]` |
| InterruptTypes.Bit | src/utils/enum/interrupt-type.enum.ts:2-8 | each interrupt's bit is its declaration position |
| InterruptTypes.Mask | src/utils/enum/interrupt-type.enum.ts:2-8 | each enum value is non-zero, has a single set bit, and lies below 0x20 |
| InterruptTypes.MaskIsSingleBit | src/utils/enum/interrupt-type.enum.ts:3-7 | each value is the single bit 1 << position, VBLANK at bit 0 through JOYPAD at bit 4 |
| InterruptTypes.MasksDisjoint | src/utils/enum/interrupt-type.enum.ts:3-7 | two values share a bit exactly when they are the same interrupt |
| InterruptTypes.MasksCoverLowFiveBits | src/utils/enum/interrupt-type.enum.ts:3-7 | the OR of all values is 0x1F, and each is below 0x20 |
| InterruptTypes.BitsIncrease | src/utils/enum/interrupt-type.enum.ts:3-7 | bit position strictly increases in declaration order |
| Bits.BitAnd | src/utils/helpers/flags.helper.ts:10 | `a & b` never exceeds either operand |
| Bits.BitOr | src/emu/memory.ts:91 | `a OR b` covers both operands and never exceeds their sum |
| Bits.AndLowBits | src/utils/helpers/flags.helper.ts:10 | masking with 2^k - 1 keeps the residue modulo 2^k |
| Bits.OrDisjoint | src/emu/memory.ts:91 | or-ing a value below 2^k into a multiple of 2^k adds them |
| Bits.AndAbsorbs | src/emu/io/apu.ts:61 | applying a mask twice is applying it once |
| Flags.MasksAreBitwise | src/utils/helpers/flags.helper.ts:10-94 | the masks 0xFF, 0x0F, 0xFFFF and 0x0FFF keep the residues modulo 0x100, 0x10, 0x10000 and 0x1000 |
| Flags.Carry | src/utils/helpers/flags.helper.ts:5-11 | with a carry-in of 0 or 1, the masked-sum comparison holds exactly when a carry leaves the low digit of width m |
| Flags.Borrow | src/utils/helpers/flags.helper.ts:17-23 | with a carry-in of 0 or 1, the masked-difference comparison holds exactly when a borrow enters the low digit of width m |
| Flags.CheckCarry8 | src/utils/helpers/flags.helper.ts:5-11 | with a carry-in of 0 or 1, it holds exactly when a carry leaves bit 7 |
| Flags.CheckBorrow8 | src/utils/helpers/flags.helper.ts:17-23 | with a carry-in of 0 or 1, it holds exactly when a borrow enters bit 7 |
| Flags.CheckHalfCarry8 | src/utils/helpers/flags.helper.ts:29-35 | with a carry-in of 0 or 1, it holds exactly when a carry leaves bit 3 |
| Flags.CheckHalfBorrow8 | src/utils/helpers/flags.helper.ts:41-47 | with a carry-in of 0 or 1, it holds exactly when a borrow enters bit 3 |
| Flags.CheckCarry16 | src/utils/helpers/flags.helper.ts:53-59 | with a carry-in of 0 or 1, it holds exactly when a carry leaves bit 15 |
| Flags.CheckBorrow16 | src/utils/helpers/flags.helper.ts:65-71 | with a carry-in of 0 or 1, it holds exactly when a borrow enters bit 15 |
| Flags.CheckHalfCarry16 | src/utils/helpers/flags.helper.ts:77-83 | with a carry-in of 0 or 1, it holds exactly when a carry leaves bit 11 |
| Flags.CheckHalfBorrow16 | src/utils/helpers/flags.helper.ts:89-95 | with a carry-in of 0 or 1, it holds exactly when a borrow enters bit 11 |
| Flags.CarryIsCarryOut | src/utils/helpers/flags.helper.ts:5-11 | with a carry-in of 0 or 1, the masked sum exceeds the digit range exactly when the next digit of the full sum differs from that of the operands |
| Flags.BorrowIsBorrowIn | src/utils/helpers/flags.helper.ts:17-23 | with a carry-in of 0 or 1, the masked difference is negative exactly when the next digit of the full difference differs from that of the operands |
| Flags.ByteWrapArounds | src/utils/helpers/flags.helper.ts:10-22 | for bytes with no carry-in, checkCarry8 holds exactly when the wrapped sum is below a, and checkBorrow8 exactly when the wrapped difference is above a |
| Flags.MaskedOperands | src/utils/helpers/flags.helper.ts:10-94 | every predicate gives the same result on pre-masked operands |
| Flags.Basics | src/utils/helpers/flags.helper.ts:10-46 | the addition flags are symmetric; subtracting a value from itself, or adding or subtracting 0, sets no flag; checkBorrow8(a, b, 0) holds exactly when a & 0xFF < b & 0xFF; checkHalfBorrow8 holds exactly when (a & 0xF) < (b & 0xF) + carry |
| Signed.ToInt32 | src/utils/helpers/signed.helper.ts:5-12 | ECMAScript ToInt32 lands in the int32 range and is congruent to its argument modulo 2^32 |
| Signed.ShiftLeft | src/utils/helpers/signed.helper.ts:5 | `x << k` is an int32 congruent to x * 2^k modulo 2^32 |
| Signed.ShiftCongruence | src/utils/helpers/signed.helper.ts:5 | reducing the operand to an int32 first does not change the product modulo 2^32 |
| Signed.ShiftRight | src/utils/helpers/signed.helper.ts:5 | `x >> k` is the int32 of x divided by 2^k, rounded down |
| Signed.ToSigned8 | src/utils/helpers/signed.helper.ts:4-6 | `toSigned8(n)` is the low byte of n read as two's complement |
| Signed.ToSigned16 | src/utils/helpers/signed.helper.ts:11-13 | `toSigned16(n)` is the low 16 bits of n read as two's complement |
| Signed.ToSigned8Spec | src/utils/helpers/signed.helper.ts:4-6 | `(n << 24) >> 24` is the low byte of n read as two's complement: n mod 256 when below 128, otherwise that minus 256 |
| Signed.ToSigned16Spec | src/utils/helpers/signed.helper.ts:11-13 | `(n << 16) >> 16` is the low 16 bits of n read as two's complement |
| Signed.Ranges | src/utils/helpers/signed.helper.ts:4-13 | the results lie in -128..127 and -32768..32767, keep the low 8 (16) bits, and are the only such values |
| Signed.LowBitsDecide | src/utils/helpers/signed.helper.ts:5-12 | only the low 8 (16) bits of the argument matter |
| Signed.RoundTrip8 | src/utils/helpers/signed.helper.ts:5 | for a byte n, `toSigned8(n) & 0xFF == n`, and every value in -128..127 comes back from its low byte |
| Signed.RoundTrip16 | src/utils/helpers/signed.helper.ts:12 | the same for 16 bits |
| Signed.Injective | src/utils/helpers/signed.helper.ts:5-12 | both functions are injective on their unsigned domains |
| DumpMemory.Hex | src/utils/helpers/dump-memory.helper.ts:11-14 | `toString(16)` produces at least one digit |
| DumpMemory.HexDigits | src/utils/helpers/dump-memory.helper.ts:11-14 | it writes only lowercase hex digits |
| DumpMemory.HexRoundTrip | src/utils/helpers/dump-memory.helper.ts:11-14 | reading the digits back gives n, and only zero starts with '0' |
| DumpMemory.PadStart | src/utils/helpers/dump-memory.helper.ts:11-14 | `padStart(width)` yields max(width, length) characters |
| DumpMemory.PadStartShape | src/utils/helpers/dump-memory.helper.ts:11-14 | the padded string is the original behind fill characters |
| DumpMemory.LeadingZeros | src/utils/helpers/dump-memory.helper.ts:11 | leading '0's do not change the value a hex string denotes |
| DumpMemory.AddressColumn | src/utils/helpers/dump-memory.helper.ts:11 | the address column has at least 4 characters, exactly 4 below 0x10000, and denotes the address |
| DumpMemory.HexLength | src/utils/helpers/dump-memory.helper.ts:11 | a number below 16^k has at most k hex digits |
| DumpMemory.HexByteDigits | src/utils/helpers/dump-memory.helper.ts:14 | a byte is exactly two lowercase hex digits, high nibble first |
| DumpMemory.HexByte | src/utils/helpers/dump-memory.helper.ts:14 | a byte as `toString(16).padStart(2, "0")`; DumpMemory.HexByteDigits proves it is the two nibble digits |
| DumpMemory.Join | src/utils/helpers/dump-memory.helper.ts:15 | `join(sep)`: the parts with sep between neighbours, and none at either end |
| DumpMemory.HexValues | src/utils/helpers/dump-memory.helper.ts:13-15 | the byte column; DumpMemory.ByteColumn proves its character layout |
| DumpMemory.Line | src/utils/helpers/dump-memory.helper.ts:10-17 | one row: address column, ": ", byte column, newline; DumpMemory.LineShape proves its shape |
| DumpMemory.Dump | src/utils/helpers/dump-memory.helper.ts:9-18 | the concatenated rows from start to end; DumpMemory.LineOfRow, DumpStep and NewlineCount prove its layout |
| DumpMemory.ByteColumn | src/utils/helpers/dump-memory.helper.ts:13-15 | the byte column has 3n - 1 characters for n bytes: character 3i + j is digit j of byte i, and a single space separates the bytes |
| DumpMemory.RowStartsLayout | src/utils/helpers/dump-memory.helper.ts:9 | there are ceil((end - start) / bytesPerRow) rows, at start, start + bytesPerRow, ..., all below end |
| DumpMemory.LineOfRow | src/utils/helpers/dump-memory.helper.ts:9-17 | the output is empty when start >= end; there is one line per row, and line i is the line of row address start + i * bytesPerRow |
| DumpMemory.DumpStep | src/utils/helpers/dump-memory.helper.ts:9-17 | the dump from addr is the line of addr followed by the dump from addr + bytesPerRow |
| DumpMemory.LineShape | src/utils/helpers/dump-memory.helper.ts:17 | each line ends in its only newline |
| DumpMemory.AddressColumnHasNoNewline | src/utils/helpers/dump-memory.helper.ts:11 | the address column holds no newline |
| DumpMemory.ByteColumnHasNoNewline | src/utils/helpers/dump-memory.helper.ts:13-15 | the byte column holds no newline |
| DumpMemory.ConcatCount | src/utils/helpers/dump-memory.helper.ts:17 | concatenating one-newline lines gives as many newlines as lines |
| DumpMemory.NewlineCount | src/utils/helpers/dump-memory.helper.ts:9-17 | the output holds one newline per row, ceil((end - start) / bytesPerRow) in all |
| DumpMemory.DumpToString | src/utils/helpers/dump-memory.helper.ts:1-19 | the loop's accumulated output is the line-by-line dump of the memory from start to end |

## Left out

- Console output: `console.log`, `console.debug` and `console.warn`, including the final print in `dumpMemory`. `DumpToString` returns the string that would be printed.
- `loadBootRom` (src/emu/io/boot-rom.ts:11-19) is a network fetch with an asynchronous buffer swap. The boot image is the `bootRom` field, initially 256 zero bytes.
- The canvas, `ImageData` and `putImageData` (src/emu/ppu.ts:22-33, 121) are browser APIs. The image is the `imageData` byte array. `ImageData` rejects a zero size, so `Video.PPU.constructor` requires a scale of at least 1.
- `APU_MASK` (src/utils/const/apu.const) is not part of this model. Its contents are a constructor parameter of `MmuBus.MMU` and `Audio.APU`.
- `CPUStatusEnum` is not part of this model. It is the datatype `Processor.Status`.
- The CPU interface that `instructions.ts` calls is written into `Processor.CPU`, because src/emu/cpu.ts does not declare it. That interface is `mmu`, `getRegister`, `setRegister`, `getHL`, `incrementPC` and `incrementCycles`.
  - Register codes follow the handlers' own usage: 0 B, 1 C, 2 D, 3 E, 4 H, 5 L, 6 (HL) through the bus, 7 A.
  - `getRegisterName` is used only in debug output and is left out.
- Processor.CPU.IncrementPC: the wrap rule is not part of the source, so PC is an unbounded counter. Every bus access masks the address to 16 bits, so the loads read the same under any modulo-65536 rule.
- Processor.CPU.Restart: `restart` is `async`, and the model runs its two steps in sequence.
- `MMU`'s region arrays, `ioHandlers` and `interruptFlags` are read by mmu.ts but never declared there. The regions use the layout of `Memory`.
  - `ioHandlers` is a map from IO offset to an opaque handler.
  - Calling a handler's `read`/`write` is foreign code. `ReadIO` and `WriteIO` report which handler is reached instead of calling it.
  - The constructor also takes the cartridge, PPU, APU, timer, serial port and joypad, which no MMU method uses, so they are left out.
- Default arguments are explicit parameters: the PPU's `scale = 4` (src/emu/ppu.ts:22), `dumpMemory`'s `start = 0`, `end = memory.length` and `bytesPerRow = 16` (src/utils/helpers/dump-memory.helper.ts:3-5), and the flag helpers' `carry = 0`. A caller supplies every value.
- Some unguarded typed-array accesses out of range are excluded by a precondition. JavaScript turns such a read into `undefined` and drops such a write. SerialRegs.Serial.WriteRegister and the timer model the dropped write.
  - SerialRegs.Serial.ReadRegister: addresses outside 0xFF01-0xFF02 are excluded. The timer reports them as `None` instead, because TAC lies outside its array.
  - BootRom.BootROMControl.ReadByte: reads past the end of the image are excluded.
  - Cart.Cartridge.GetByte: negative addresses are excluded.
  - Video.PPU.GetPixel and Video.PPU.SetPixel: negative coordinates are excluded.
- DumpMemory.DumpToString: `start` is a natural number and `bytesPerRow` must be positive. With `bytesPerRow <= 0` the source loop never terminates. Non-integer and negative JavaScript numbers are not modelled.
- Signed.ToInt32 is ECMAScript ToInt32 on integers only. NaN, infinities and fractions are not modelled.
- JoypadRegs.Joypad.SetByte: the register is a 32-bit pattern. JavaScript numbers outside the int32 range, which `setByte` could store before any `|=`, are not modelled.
- InterruptRegs.Interrupts stores IE and IF as unbounded integers, as the source does with numbers. The source does no masking.
- WorkRam.RAM.constructor: `RAM` accepts caller-supplied WRAM and HRAM arrays. Only the default fresh arrays of 0x2000 and 0x7F bytes are modelled.
- The unused local `apuMask` table of src/emu/memory.ts:105-154 is not modelled.
- Processor.CPU.Stop: `display.clear` is `Video.PPU.Clear`, and the canvas upload it ends with is left out.

## Findings

| source | as written | input that shows it | evidently intended | confidence | as-written member | corrected member |
|---|---|---|---|---|---|---|
| src/emu/io/timer.ts:3 | a 3-byte register array indexed from 0xFF04 | `writeRegister(0xFF07, v)` then `readRegister(0xFF07)`: the write is dropped and the read is `undefined` | four registers, DIV through TAC (0xFF04-0xFF07), as the comment and TIMER_ADDRESSES (src/utils/const/memory-map.const.ts:103-108) say | not executed | TimerRegs.TacWriteIsLost | TimerRegs.CorrectedRoundTrip |
| src/emu/instructions.ts:3-11 | `LDrn` reads the immediate byte n and discards it | opcode 0x06 (LD B, n): B is unchanged | the register at bits 3-5 receives n | not executed | Instructions.LDrn | Instructions.LDrnCorrected |
| src/emu/instructions.ts:24-55 | `LDrr` copies the register at bits 3-5 into the register at bits 0-2 | opcode 0x78 (LD A, B): B receives A, and A is unchanged | the register at bits 3-5 (destination) receives the register at bits 0-2 (source) | not executed | Instructions.LDrr | Instructions.LDrrCorrected |
