/** `Cartridge` (src/emu/cartridge.ts): two 16 KiB ROM banks that `loadRom`
    overwrites from a ROM image, read through `getByte`. */
module Cart {
  import opened Common

  const ROM_SIZE := 0x8000

  /** The 32 KiB ROM after `loadRom(d)` on ROM contents `image`: each byte the
      image provides replaces the old one, the rest keep their value. */
  function Overlay(image: seq<Byte>, d: seq<Byte>): (r: seq<Byte>)
    requires |image| == ROM_SIZE
    ensures |r| == ROM_SIZE
  {
    seq(ROM_SIZE, a requires 0 <= a < ROM_SIZE => if a < |d| then d[a] else image[a])
  }

  /** An image of at least 32 KiB replaces the whole ROM. */
  lemma FullImageReplacesRom(image: seq<Byte>, d: seq<Byte>)
    requires |image| == ROM_SIZE && |d| >= ROM_SIZE
    ensures Overlay(image, d) == d[..ROM_SIZE]
  {
  }

  /** A shorter image overwrites only its own prefix. */
  lemma ShortImageKeepsTail(image: seq<Byte>, d: seq<Byte>)
    requires |image| == ROM_SIZE && |d| < ROM_SIZE
    ensures Overlay(image, d)[..|d|] == d && Overlay(image, d)[|d|..] == image[|d|..]
  {
  }

  /** Bytes of the image past 0x8000 are ignored. */
  lemma TailIgnored(image: seq<Byte>, d: seq<Byte>)
    requires |image| == ROM_SIZE && |d| > ROM_SIZE
    ensures Overlay(image, d) == Overlay(image, d[..ROM_SIZE])
  {
  }

  /** Loading the same image twice is loading it once. */
  lemma LoadIdempotent(image: seq<Byte>, d: seq<Byte>)
    requires |image| == ROM_SIZE
    ensures Overlay(Overlay(image, d), d) == Overlay(image, d)
  {
  }

  class Cartridge {
    const ROM_0: array<Byte>         // 0x0000-0x3FFF
    const ROM_N: array<Byte>         // 0x4000-0x7FFF
    const EXTERNAL_RAM: array<Byte>  // 0xA000-0xBFFF, never read or written

    ghost predicate Valid()
    {
      ROM_0.Length == 0x4000 && ROM_N.Length == 0x4000 && EXTERNAL_RAM.Length == 0x2000
      && ROM_0 != ROM_N && ROM_0 != EXTERNAL_RAM && ROM_N != EXTERNAL_RAM
    }

    /** The two banks as one 32 KiB ROM. */
    ghost function Image(): (r: seq<Byte>)
      requires Valid()
      reads ROM_0, ROM_N
      ensures |r| == ROM_SIZE
    {
      ROM_0[..] + ROM_N[..]
    }

    constructor ()
      ensures Valid() && fresh(ROM_0) && fresh(ROM_N) && fresh(EXTERNAL_RAM)
      ensures forall a :: 0 <= a < ROM_SIZE ==> Image()[a] == 0
    {
      ROM_0 := new Byte[0x4000](_ => 0);
      ROM_N := new Byte[0x4000](_ => 0);
      EXTERNAL_RAM := new Byte[0x2000](_ => 0);
    }

    method LoadRom(romData: seq<Byte>)
      requires Valid()
      modifies ROM_0, ROM_N
      ensures Valid()
      ensures Image() == Overlay(old(Image()), romData)
      ensures unchanged(EXTERNAL_RAM)
    {
      ghost var before := Image();
      SliceElements(romData, 0, 0x4000);
      SetPrefix(ROM_0, Slice(romData, 0, 0x4000));
      SliceElements(romData, 0x4000, 0x8000);
      SetPrefix(ROM_N, Slice(romData, 0x4000, 0x8000));
      assert forall a :: 0 <= a < ROM_SIZE ==> Image()[a] == Overlay(before, romData)[a];
    }

    /** `getByte` for a non-negative address: the ROM byte below 0x8000, 0xFF above. */
    method GetByte(address: nat) returns (r: Byte)
      requires Valid()
      ensures r == if address < ROM_SIZE then Image()[address] else 0xFF
    {
      if address < 0x4000 { return ROM_0[address]; }
      if address < 0x8000 { return ROM_N[address - 0x4000]; }
      return 0xFF;
    }
  }
}
