/** The console's address map as constant tables (`MEMORY_MAP`, `IO_MAP`,
    `TIMER_ADDRESSES`), and the facts that make the bus decode total: the
    `MEMORY_MAP` ranges, in declared order, tile 0x0000..0xFFFF without gaps or
    overlaps, and every 16-bit address lies in exactly one of them. */
module MemoryMap {

  /** An inclusive address range `START..END`. */
  datatype Range = Range(start: int, end: int) {
    predicate Contains(a: int) { start <= a <= end }
    function Size(): int { end - start + 1 }
  }

  // ---- MEMORY_MAP ----
  const ROM_0        := Range(0x0000, 0x3FFF)
  const ROM_N        := Range(0x4000, 0x7FFF)
  const VRAM         := Range(0x8000, 0x9FFF)
  const EXTERNAL_RAM := Range(0xA000, 0xBFFF)
  const WRAM         := Range(0xC000, 0xDFFF)
  const ECHO_RAM     := Range(0xE000, 0xFDFF)
  const OAM          := Range(0xFE00, 0xFE9F)
  const NOT_USABLE   := Range(0xFEA0, 0xFEFF)
  const IO           := Range(0xFF00, 0xFF7F)
  const HRAM         := Range(0xFF80, 0xFFFE)
  const IE           := Range(0xFFFF, 0xFFFF)

  /** The regions of `MEMORY_MAP`, one per key. */
  datatype Region = Rom0 | RomN | Vram | ExternalRam | Wram | EchoRam | Oam | NotUsable | Io | Hram | Ie

  function RangeOf(r: Region): Range
  {
    match r
    case Rom0 => ROM_0
    case RomN => ROM_N
    case Vram => VRAM
    case ExternalRam => EXTERNAL_RAM
    case Wram => WRAM
    case EchoRam => ECHO_RAM
    case Oam => OAM
    case NotUsable => NOT_USABLE
    case Io => IO
    case Hram => HRAM
    case Ie => IE
  }

  /** `MEMORY_MAP`'s keys in declared order. */
  const MEMORY_MAP: seq<Region> := [Rom0, RomN, Vram, ExternalRam, Wram, EchoRam, Oam, NotUsable, Io, Hram, Ie]

  /** The START..END ranges of a list of regions. */
  function Ranges(rs: seq<Region>): (r: seq<Range>)
    ensures |r| == |rs| && forall i :: 0 <= i < |rs| ==> r[i] == RangeOf(rs[i])
  {
    seq(|rs|, i requires 0 <= i < |rs| => RangeOf(rs[i]))
  }

  // ---- IO_MAP ----
  const IO_JOYPAD           := Range(0xFF00, 0xFF00)
  const IO_SERIAL           := Range(0xFF01, 0xFF02)
  const IO_TIMER            := Range(0xFF04, 0xFF07)
  const IO_IF               := Range(0xFF0F, 0xFF0F)
  const IO_APU_AUDIO        := Range(0xFF10, 0xFF26)
  const IO_APU_WAVE         := Range(0xFF30, 0xFF3F)
  const IO_PPU              := Range(0xFF40, 0xFF4B)
  const IO_VRAM_BANK_SELECT := Range(0xFF4F, 0xFF4F)  // CGB only
  const IO_BOOT_ROM         := Range(0xFF50, 0xFF50)
  const IO_VRAM_DMA         := Range(0xFF51, 0xFF55)  // CGB only
  const IO_BG_OBJ_PALETTES  := Range(0xFF68, 0xFF6B)  // CGB only
  const IO_WRAM_BANK_SELECT := Range(0xFF70, 0xFF7F)  // CGB only

  /** `IO_MAP`'s entries in declared order. */
  const IO_MAP: seq<Range> := [IO_JOYPAD, IO_SERIAL, IO_TIMER, IO_IF, IO_APU_AUDIO, IO_APU_WAVE, IO_PPU,
                               IO_VRAM_BANK_SELECT, IO_BOOT_ROM, IO_VRAM_DMA, IO_BG_OBJ_PALETTES, IO_WRAM_BANK_SELECT]

  // ---- TIMER_ADDRESSES ----
  const DIV  := 0xFF04
  const TIMA := 0xFF05
  const TMA  := 0xFF06
  const TAC  := 0xFF07

  /** The register windows of the audio unit (src/emu/io/apu.ts). */
  const APU_REGISTER := Range(0xFF10, 0xFF26)
  const APU_UNUSED   := Range(0xFF27, 0xFF2F)
  const APU_WAVE_RAM := Range(0xFF30, 0xFF3F)

  // ---- Properties of a table of ranges ----

  predicate WellFormed(rs: seq<Range>)
  {
    forall i :: 0 <= i < |rs| ==> rs[i].start <= rs[i].end
  }

  /** Each range starts right after the previous one ends. */
  predicate Consecutive(rs: seq<Range>)
  {
    forall i :: 0 <= i < |rs| - 1 ==> rs[i + 1].start == rs[i].end + 1
  }

  /** Each range ends before the next one starts (gaps allowed). */
  predicate Ascending(rs: seq<Range>)
  {
    forall i :: 0 <= i < |rs| - 1 ==> rs[i].end < rs[i + 1].start
  }

  /** The ranges are pairwise disjoint and sorted by start. */
  predicate PairwiseOrdered(rs: seq<Range>)
  {
    forall i, j :: 0 <= i < j < |rs| ==> rs[i].end < rs[j].start
  }

  /** Consecutive well-formed ranges are in particular ascending. */
  lemma ConsecutiveIsAscending(rs: seq<Range>)
    requires WellFormed(rs) && Consecutive(rs)
    ensures Ascending(rs)
  {
  }

  /** Neighbour-wise order of well-formed ranges extends to every pair. */
  lemma {:induction false} AscendingIsPairwise(rs: seq<Range>)
    requires WellFormed(rs) && Ascending(rs)
    ensures PairwiseOrdered(rs)
  {
    if |rs| > 1 {
      AscendingIsPairwise(rs[1..]);
      forall j | 1 <= j < |rs| ensures rs[0].end < rs[j].start {
        if j > 1 {
          assert rs[1..][0].end < rs[1..][j - 1].start;
        }
      }
    }
  }

  /** Consecutive well-formed ranges cover every address from the first start to
      the last end. */
  lemma {:induction false} ConsecutiveCovers(rs: seq<Range>, a: int)
    requires |rs| > 0 && WellFormed(rs) && Consecutive(rs)
    requires rs[0].start <= a <= rs[|rs| - 1].end
    ensures exists i :: 0 <= i < |rs| && rs[i].Contains(a)
  {
    if !rs[0].Contains(a) {
      assert rs[1..][0] == rs[1];
      ConsecutiveCovers(rs[1..], a);
      var i :| 0 <= i < |rs| - 1 && rs[1..][i].Contains(a);
      assert rs[i + 1].Contains(a);
    }
  }

  /** The MEMORY_MAP tiles 0x0000..0xFFFF: ROM_0 starts at 0, each START is the
      previous END + 1, and IE ends at 0xFFFF. */
  lemma MemoryMapIsConsecutive()
    ensures var rs := Ranges(MEMORY_MAP);
      && WellFormed(rs) && Consecutive(rs)
      && rs[0].start == 0x0000 && rs[|rs| - 1].end == 0xFFFF
  {
    var rs := Ranges(MEMORY_MAP);
    assert rs[0] == ROM_0 && rs[1] == ROM_N && rs[2] == VRAM && rs[3] == EXTERNAL_RAM;
    assert rs[4] == WRAM && rs[5] == ECHO_RAM && rs[6] == OAM && rs[7] == NOT_USABLE;
    assert rs[8] == IO && rs[9] == HRAM && rs[10] == IE;
  }

  /** Every 16-bit address lies in some region of MEMORY_MAP ... */
  lemma MemoryMapCovers(a: int)
    requires 0 <= a <= 0xFFFF
    ensures exists r :: RangeOf(r).Contains(a)
  {
    MemoryMapIsConsecutive();
    var rs := Ranges(MEMORY_MAP);
    ConsecutiveCovers(rs, a);
    var i :| 0 <= i < |rs| && rs[i].Contains(a);
    assert RangeOf(MEMORY_MAP[i]).Contains(a);
  }

  /** ... and in only one. */
  lemma MemoryMapDisjoint(r1: Region, r2: Region, a: int)
    requires RangeOf(r1).Contains(a) && RangeOf(r2).Contains(a)
    ensures r1 == r2
  {
  }

  /** The region whose MEMORY_MAP range holds the 16-bit address `a`. */
  ghost function RegionOf(a: int): (r: Region)
    requires 0 <= a <= 0xFFFF
    ensures RangeOf(r).Contains(a)
    ensures forall r' :: RangeOf(r').Contains(a) ==> r' == r
  {
    MemoryMapCovers(a);
    var r :| RangeOf(r).Contains(a);
    r
  }

  /** The region sizes match the component arrays of the bus (src/emu/memory.ts:3-11);
      the echo window is smaller than the work RAM it mirrors. */
  lemma RegionSizes()
    ensures ROM_0.Size() == 0x4000 && ROM_N.Size() == 0x4000
    ensures VRAM.Size() == 0x2000 && EXTERNAL_RAM.Size() == 0x2000 && WRAM.Size() == 0x2000
    ensures OAM.Size() == 0xA0 && IO.Size() == 0x80 && HRAM.Size() == 0x7F && IE.Size() == 1
    ensures ECHO_RAM.Size() == 0x1E00 <= WRAM.Size()
  {
  }

  /** Every IO_MAP entry is well formed, lies in the IO window 0xFF00..0xFF7F, and
      the entries are sorted by START and pairwise disjoint. */
  lemma IoMapWellOrdered()
    ensures WellFormed(IO_MAP)
    ensures forall i :: 0 <= i < |IO_MAP| ==> IO.start <= IO_MAP[i].start && IO_MAP[i].end <= IO.end
    ensures PairwiseOrdered(IO_MAP)
  {
    assert IO_MAP[0].end < IO_MAP[1].start && IO_MAP[1].end < IO_MAP[2].start;
    assert IO_MAP[2].end < IO_MAP[3].start && IO_MAP[3].end < IO_MAP[4].start;
    assert IO_MAP[4].end < IO_MAP[5].start && IO_MAP[5].end < IO_MAP[6].start;
    assert IO_MAP[6].end < IO_MAP[7].start && IO_MAP[7].end < IO_MAP[8].start;
    assert IO_MAP[8].end < IO_MAP[9].start && IO_MAP[9].end < IO_MAP[10].start;
    assert IO_MAP[10].end < IO_MAP[11].start;
    AscendingIsPairwise(IO_MAP);
  }

  /** TIMER_ADDRESSES are DIV, TIMA, TMA, TAC at consecutive addresses, and they
      are exactly IO_MAP.TIMER. */
  lemma TimerAddressesFillTimerRange()
    ensures TIMA == DIV + 1 && TMA == TIMA + 1 && TAC == TMA + 1
    ensures forall a :: IO_TIMER.Contains(a) <==> a in {DIV, TIMA, TMA, TAC}
  {
  }

  /** IO_MAP's audio entries are the audio unit's register and wave windows. */
  lemma ApuWindowsAgree()
    ensures IO_APU_AUDIO == APU_REGISTER && IO_APU_WAVE == APU_WAVE_RAM
    ensures APU_REGISTER.end + 1 == APU_UNUSED.start && APU_UNUSED.end + 1 == APU_WAVE_RAM.start
  {
  }
}
