/** `PPU` (src/emu/ppu.ts): bounds-checked VRAM and OAM, a 160 x 144 display of
    one byte per pixel addressed with wrap-around, and `render`, which scales
    every display pixel up to a `scale` x `scale` block of RGBA bytes. */
module Video {
  import opened Common
  import opened Arithmetic
  import MemoryMap

  const WIDTH := 160
  const HEIGHT := 144

  /** `ADDRESSES` of the video unit. */
  const VRAM_WINDOW := MemoryMap.Range(0x8000, 0x9FFF)
  const OAM_WINDOW := MemoryMap.Range(0xFE00, 0xFE9F)

  /** The exception a bad address raises. */
  datatype PpuError = InvalidVramAddress(address: int) | InvalidOamAddress(address: int)

  /** The video unit's windows are the VRAM and OAM regions of the address map. */
  lemma WindowsMatchAddressMap()
    ensures VRAM_WINDOW == MemoryMap.VRAM && OAM_WINDOW == MemoryMap.OAM
    ensures VRAM_WINDOW.Size() == 0x2000 && OAM_WINDOW.Size() == 0xA0
  {
  }

  // ---- Display addressing ----

  /** The display cell of (x, y): both coordinates wrap around the screen. */
  function PixelIndex(x: nat, y: nat): (i: nat)
    ensures i < WIDTH * HEIGHT
    ensures i % WIDTH == x % WIDTH && i / WIDTH == y % HEIGHT
  {
    RowMajorBound(y % HEIGHT, x % WIDTH, HEIGHT, WIDTH);
    DivMod(y % HEIGHT, WIDTH, x % WIDTH);
    (y % HEIGHT) * WIDTH + x % WIDTH
  }

  /** Two coordinate pairs reach the same display cell exactly when they agree
      modulo the screen size. */
  lemma SamePixelIffCongruent(x: nat, y: nat, x': nat, y': nat)
    ensures PixelIndex(x, y) == PixelIndex(x', y') <==> (x % WIDTH == x' % WIDTH && y % HEIGHT == y' % HEIGHT)
  {
  }

  /** Every display cell is reached, by coordinates on the screen. */
  lemma EveryCellHasOnePixel(i: nat)
    requires i < WIDTH * HEIGHT
    ensures PixelIndex(i % WIDTH, i / WIDTH) == i
  {
    DivBelow(i, WIDTH, HEIGHT);
  }

  /** On the screen the index is the plain row-major position. */
  lemma OnScreenPixelIndex(x: nat, y: nat)
    requires x < WIDTH && y < HEIGHT
    ensures PixelIndex(x, y) == y * WIDTH + x
  {
    assert x % WIDTH == x && y % HEIGHT == y;
  }

  // ---- The scaled RGBA image ----

  /** Bytes of `imageData.data`: (160 * scale) x (144 * scale) pixels of 4 bytes. */
  function BufferSize(s: nat): nat
  {
    (WIDTH * s) * (HEIGHT * s) * 4
  }

  /** Output row and column of byte `i` of the image. */
  ghost function Row(i: int, s: int): int
    requires s >= 1 && i >= 0
  {
    (i / 4) / (WIDTH * s)
  }

  ghost function Col(i: int, s: int): int
    requires s >= 1 && i >= 0
  {
    (i / 4) % (WIDTH * s)
  }

  /** First byte of the output pixel that display pixel (x, y), sub-row `dy` and
      sub-column `dx` of its block, is written to (`px * 4` in `render`). */
  function WriteIndex(s: int, y: int, x: int, dy: int, dx: int): int
  {
    ((y * s + dy) * (WIDTH * s) + (x * s + dx)) * 4
  }

  predicate InBlockRange(s: int, y: int, x: int, dy: int, dx: int)
  {
    0 <= y < HEIGHT && 0 <= x < WIDTH && 0 <= dy < s && 0 <= dx < s
  }

  /** Byte `i` of the image splits into a display pixel and an offset in its block. */
  lemma Decode(i: int, s: int)
    requires s >= 1 && 0 <= i < BufferSize(s)
    ensures 0 <= Row(i, s) < HEIGHT * s && 0 <= Col(i, s) < WIDTH * s
    ensures 0 <= Row(i, s) / s < HEIGHT && 0 <= Col(i, s) / s < WIDTH
    ensures 0 <= Row(i, s) % s < s && 0 <= Col(i, s) % s < s
    ensures i / 4 == Row(i, s) * (WIDTH * s) + Col(i, s)
    ensures Row(i, s) == (Row(i, s) / s) * s + Row(i, s) % s
    ensures Col(i, s) == (Col(i, s) / s) * s + Col(i, s) % s
  {
    var p := i / 4;
    assert p < (WIDTH * s) * (HEIGHT * s);
    DivBelow(p, WIDTH * s, HEIGHT * s);
    DivBelow(Row(i, s), s, HEIGHT);
    assert Col(i, s) < s * WIDTH;
    DivBelow(Col(i, s), s, WIDTH);
  }

  /** The bytes `render` writes for one block position decode back to it. */
  lemma Encode(y: int, x: int, dy: int, dx: int, s: int, k: int)
    requires s >= 1 && InBlockRange(s, y, x, dy, dx) && 0 <= k < 4
    ensures var i := WriteIndex(s, y, x, dy, dx) + k;
      && 0 <= i < BufferSize(s) && i % 4 == k
      && Row(i, s) / s == y && Row(i, s) % s == dy && Col(i, s) / s == x && Col(i, s) % s == dx
  {
    var Y := y * s + dy;
    var X := x * s + dx;
    RowMajorBound(y, dy, HEIGHT, s);
    RowMajorBound(x, dx, WIDTH, s);
    var p := Y * (WIDTH * s) + X;
    RowMajorBound(Y, X, HEIGHT * s, WIDTH * s);
    DivMod(p, 4, k);
    DivMod(Y, WIDTH * s, X);
    DivMod(y, s, dy);
    DivMod(x, s, dx);
  }

  /** Every index `render` writes lies inside the buffer, and distinct block
      positions write distinct output pixels: each pixel is written once. */
  lemma WritesAreInsideAndDistinct(s: int, y: int, x: int, dy: int, dx: int, y': int, x': int, dy': int, dx': int)
    requires s >= 1 && InBlockRange(s, y, x, dy, dx) && InBlockRange(s, y', x', dy', dx')
    ensures 0 <= WriteIndex(s, y, x, dy, dx) && WriteIndex(s, y, x, dy, dx) + 3 < BufferSize(s)
    ensures WriteIndex(s, y, x, dy, dx) == WriteIndex(s, y', x', dy', dx') <==> (y, x, dy, dx) == (y', x', dy', dx')
  {
    Encode(y, x, dy, dx, s, 0);
    Encode(y, x, dy, dx, s, 3);
    Encode(y', x', dy', dx', s, 0);
  }

  /** ... and every output pixel is written by some block position. */
  lemma WritesCoverBuffer(s: int, i: int)
    requires s >= 1 && 0 <= i < BufferSize(s)
    ensures exists y, x, dy, dx :: InBlockRange(s, y, x, dy, dx) && WriteIndex(s, y, x, dy, dx) == i - i % 4
  {
    Decode(i, s);
    var y, x, dy, dx := Row(i, s) / s, Col(i, s) / s, Row(i, s) % s, Col(i, s) % s;
    assert InBlockRange(s, y, x, dy, dx) && WriteIndex(s, y, x, dy, dx) == i - i % 4;
  }

  /** What `render` leaves in byte `i` of the image: the R, G and B bytes of an
      output pixel copy the display pixel its block scales, A is opaque. */
  ghost function RenderedByte(display: seq<Byte>, s: int, i: int): Byte
    requires s >= 1 && |display| == WIDTH * HEIGHT && 0 <= i < BufferSize(s)
  {
    Decode(i, s);
    RowMajorBound(Row(i, s) / s, Col(i, s) / s, HEIGHT, WIDTH);
    if i % 4 == 3 then 0xFF else display[(Row(i, s) / s) * WIDTH + Col(i, s) / s]
  }

  /** The rendered image in output coordinates: pixel (X, Y) has
      R = G = B = display[(Y div scale) * 160 + X div scale] and A = 0xFF. */
  lemma RenderedPixelAt(display: seq<Byte>, s: int, X: int, Y: int, k: int)
    requires s >= 1 && |display| == WIDTH * HEIGHT
    requires 0 <= X < WIDTH * s && 0 <= Y < HEIGHT * s && 0 <= k < 4
    ensures var i := (Y * (WIDTH * s) + X) * 4 + k;
      && 0 <= i < BufferSize(s)
      && 0 <= Y / s && 0 <= X / s && (Y / s) * WIDTH + X / s < WIDTH * HEIGHT
      && RenderedByte(display, s, i) == if k == 3 then 0xFF else display[(Y / s) * WIDTH + X / s]
  {
    DivBelow(Y, s, HEIGHT);
    DivBelow(X, s, WIDTH);
    var y, x, dy, dx := Y / s, X / s, Y % s, X % s;
    Split(Y, s);
    Split(X, s);
    assert Y == y * s + dy && X == x * s + dx;
    assert (Y * (WIDTH * s) + X) * 4 + k == WriteIndex(s, y, x, dy, dx) + k;
    RenderedBlockByte(display, s, y, x, dy, dx, k);
  }

  /** The same in block coordinates. */
  lemma RenderedBlockByte(display: seq<Byte>, s: int, y: int, x: int, dy: int, dx: int, k: int)
    requires s >= 1 && |display| == WIDTH * HEIGHT && InBlockRange(s, y, x, dy, dx) && 0 <= k < 4
    ensures var i := WriteIndex(s, y, x, dy, dx) + k;
      && 0 <= i < BufferSize(s)
      && y * WIDTH + x < WIDTH * HEIGHT
      && RenderedByte(display, s, i) == if k == 3 then 0xFF else display[y * WIDTH + x]
  {
    Encode(y, x, dy, dx, s, k);
    RowMajorBound(y, x, HEIGHT, WIDTH);
  }

  lemma Split(n: int, d: int)
    requires d > 0
    ensures n == (n / d) * d + n % d && 0 <= n % d < d
  {
  }

  /** The image of a cleared display is opaque black. */
  lemma ClearedImage(display: seq<Byte>, s: int, i: int)
    requires s >= 1 && |display| == WIDTH * HEIGHT && 0 <= i < BufferSize(s)
    requires forall j :: 0 <= j < |display| ==> display[j] == 0
    ensures RenderedByte(display, s, i) == if i % 4 == 3 then 0xFF else 0
  {
    Decode(i, s);
    var j := (Row(i, s) / s) * WIDTH + Col(i, s) / s;
    RowMajorBound(Row(i, s) / s, Col(i, s) / s, HEIGHT, WIDTH);
    assert display[j] == 0;
  }

  // ---- Proof of `render`'s loop nest ----

  /** Byte `i` belongs to a block position visited before (y, x, dy, dx), in the
      order of the four nested loops. */
  ghost predicate Before(i: int, s: int, y: int, x: int, dy: int, dx: int)
    requires s >= 1 && i >= 0
  {
    var py, sy, px, sx := Row(i, s) / s, Row(i, s) % s, Col(i, s) / s, Col(i, s) % s;
    py < y || (py == y && (px < x || (px == x && (sy < dy || (sy == dy && sx < dx)))))
  }

  /** Every byte of a block position visited so far holds its rendered value. */
  ghost predicate RenderedUpTo(data: seq<Byte>, d: seq<Byte>, s: int, y: int, x: int, dy: int, dx: int)
    requires s >= 1 && |d| == WIDTH * HEIGHT && |data| == BufferSize(s)
  {
    forall i :: 0 <= i < |data| && Before(i, s, y, x, dy, dx) ==> data[i] == RenderedByte(d, s, i)
  }

  lemma RenderStart(data: seq<Byte>, d: seq<Byte>, s: int)
    requires s >= 1 && |d| == WIDTH * HEIGHT && |data| == BufferSize(s)
    ensures RenderedUpTo(data, d, s, 0, 0, 0, 0)
  {
    forall i | 0 <= i < |data| ensures !Before(i, s, 0, 0, 0, 0) {
      Decode(i, s);
    }
  }

  /** The four writes of one block position extend the rendered part by it. */
  lemma RenderStep(data: seq<Byte>, d: seq<Byte>, s: int, y: int, x: int, dy: int, dx: int, pixel: Byte)
    requires s >= 1 && |d| == WIDTH * HEIGHT && |data| == BufferSize(s)
    requires InBlockRange(s, y, x, dy, dx)
    requires pixel == d[y * WIDTH + x]
    requires RenderedUpTo(data, d, s, y, x, dy, dx)
    ensures var p := WriteIndex(s, y, x, dy, dx);
      && 0 <= p && p + 3 < |data|
      && RenderedUpTo(data[p := pixel][p + 1 := pixel][p + 2 := pixel][p + 3 := 0xFF as Byte], d, s, y, x, dy, dx + 1)
  {
    var p := WriteIndex(s, y, x, dy, dx);
    Encode(y, x, dy, dx, s, 0);
    Encode(y, x, dy, dx, s, 1);
    Encode(y, x, dy, dx, s, 2);
    Encode(y, x, dy, dx, s, 3);
    var data' := data[p := pixel][p + 1 := pixel][p + 2 := pixel][p + 3 := 0xFF as Byte];
    forall i | 0 <= i < |data'| && Before(i, s, y, x, dy, dx + 1)
      ensures data'[i] == RenderedByte(d, s, i)
    {
      Decode(i, s);
      if !Before(i, s, y, x, dy, dx) {
        assert i / 4 == p / 4;
      }
    }
  }

  lemma NextSubRow(data: seq<Byte>, d: seq<Byte>, s: int, y: int, x: int, dy: int)
    requires s >= 1 && |d| == WIDTH * HEIGHT && |data| == BufferSize(s)
    requires RenderedUpTo(data, d, s, y, x, dy, s)
    ensures RenderedUpTo(data, d, s, y, x, dy + 1, 0)
  {
    forall i | 0 <= i < |data| ensures Before(i, s, y, x, dy + 1, 0) ==> Before(i, s, y, x, dy, s) {
      Decode(i, s);
    }
  }

  lemma NextColumn(data: seq<Byte>, d: seq<Byte>, s: int, y: int, x: int)
    requires s >= 1 && |d| == WIDTH * HEIGHT && |data| == BufferSize(s)
    requires RenderedUpTo(data, d, s, y, x, s, 0)
    ensures RenderedUpTo(data, d, s, y, x + 1, 0, 0)
  {
    forall i | 0 <= i < |data| ensures Before(i, s, y, x + 1, 0, 0) ==> Before(i, s, y, x, s, 0) {
      Decode(i, s);
    }
  }

  lemma NextLine(data: seq<Byte>, d: seq<Byte>, s: int, y: int)
    requires s >= 1 && |d| == WIDTH * HEIGHT && |data| == BufferSize(s)
    requires RenderedUpTo(data, d, s, y, WIDTH, 0, 0)
    ensures RenderedUpTo(data, d, s, y + 1, 0, 0, 0)
  {
    forall i | 0 <= i < |data| ensures Before(i, s, y + 1, 0, 0, 0) ==> Before(i, s, y, WIDTH, 0, 0) {
      Decode(i, s);
    }
  }

  lemma RenderDone(data: seq<Byte>, d: seq<Byte>, s: int)
    requires s >= 1 && |d| == WIDTH * HEIGHT && |data| == BufferSize(s)
    requires RenderedUpTo(data, d, s, HEIGHT, 0, 0, 0)
    ensures forall i :: 0 <= i < |data| ==> data[i] == RenderedByte(d, s, i)
  {
    forall i | 0 <= i < |data| ensures Before(i, s, HEIGHT, 0, 0, 0) {
      Decode(i, s);
    }
  }

  class PPU {
    const scale: nat
    const VRAM: array<Byte>       // 0x8000-0x9FFF
    const OAM: array<Byte>        // 0xFE00-0xFE9F
    const display: array<Byte>    // 160 x 144, one byte per pixel
    const imageData: array<Byte>  // the RGBA bytes of the scaled image

    ghost const Repr: set<object>

    ghost predicate Valid()
    {
      && scale >= 1
      && VRAM.Length == 0x2000 && OAM.Length == 0xA0
      && display.Length == WIDTH * HEIGHT && imageData.Length == BufferSize(scale)
      && VRAM != OAM && VRAM != display && VRAM != imageData
      && OAM != display && OAM != imageData && display != imageData
      && Repr == {this, VRAM, OAM, display, imageData}
    }

    /** `getVRAMByte`: the byte at `address`, or the error for an address outside
        0x8000..0x9FFF. */
    ghost function VramByte(address: int): Result<Byte, PpuError>
      requires Valid()
      reads VRAM
    {
      if VRAM_WINDOW.Contains(address) then Ok(VRAM[address - VRAM_WINDOW.start])
      else Err(InvalidVramAddress(address))
    }

    /** `getOAMByte`: the byte at `address`, or the error for an address outside
        0xFE00..0xFE9F. */
    ghost function OamByte(address: int): Result<Byte, PpuError>
      requires Valid()
      reads OAM
    {
      if OAM_WINDOW.Contains(address) then Ok(OAM[address - OAM_WINDOW.start])
      else Err(InvalidOamAddress(address))
    }

    /** The image buffer holds the rendering of the display. */
    ghost predicate Rendered()
      requires Valid()
      reads display, imageData
    {
      forall i :: 0 <= i < imageData.Length ==> imageData[i] == RenderedByte(display[..], scale, i)
    }

    /** The canvas is not modelled: every array starts zeroed. `ImageData`
        rejects an empty image, so the scale is at least 1. */
    constructor (scale: nat)
      requires scale >= 1
      ensures Valid() && fresh(Repr) && this.scale == scale
      ensures forall o :: 0 <= o < VRAM.Length ==> VRAM[o] == 0
      ensures forall o :: 0 <= o < OAM.Length ==> OAM[o] == 0
      ensures forall i :: 0 <= i < display.Length ==> display[i] == 0
      ensures forall i :: 0 <= i < imageData.Length ==> imageData[i] == 0
    {
      this.scale := scale;
      VRAM := new Byte[0x2000](_ => 0);
      OAM := new Byte[0xA0](_ => 0);
      display := new Byte[WIDTH * HEIGHT](_ => 0);
      imageData := new Byte[BufferSize(scale)](_ => 0);
      Repr := {this, VRAM, OAM, display, imageData};
    }

    /** `clear`: blank the display, then render it. */
    method Clear()
      requires Valid()
      modifies display, imageData
      ensures Valid() && Rendered()
      ensures forall i :: 0 <= i < display.Length ==> display[i] == 0
      ensures forall i :: 0 <= i < imageData.Length ==> imageData[i] == if i % 4 == 3 then 0xFF else 0
    {
      Fill(display, 0);
      Render();
      forall i | 0 <= i < imageData.Length ensures imageData[i] == if i % 4 == 3 then 0xFF else 0 {
        ClearedImage(display[..], scale, i);
      }
    }

    method GetVRAMByte(address: int) returns (r: Result<Byte, PpuError>)
      requires Valid()
      ensures r == VramByte(address)
      ensures r.Err? <==> !(0x8000 <= address <= 0x9FFF)
    {
      if !(VRAM_WINDOW.start <= address <= VRAM_WINDOW.end) {
        return Err(InvalidVramAddress(address));
      }
      return Ok(VRAM[address - VRAM_WINDOW.start]);
    }

    /** `setVRAMByte`: a valid address stores `value` modulo 256 and a later
        `getVRAMByte` there returns it; every other address reads as before. */
    method SetVRAMByte(address: int, value: int) returns (r: Result<(), PpuError>)
      requires Valid()
      modifies VRAM
      ensures Valid()
      ensures r.Err? <==> !(0x8000 <= address <= 0x9FFF)
      ensures r.Err? ==> r.error == InvalidVramAddress(address)
      ensures forall a :: VramByte(a) == if a == address && r.Ok? then Ok(ToByte(value)) else old(VramByte(a))
    {
      if !(VRAM_WINDOW.start <= address <= VRAM_WINDOW.end) {
        return Err(InvalidVramAddress(address));
      }
      VRAM[address - VRAM_WINDOW.start] := value % 0x100;
      return Ok(());
    }

    method GetOAMByte(address: int) returns (r: Result<Byte, PpuError>)
      requires Valid()
      ensures r == OamByte(address)
      ensures r.Err? <==> !(0xFE00 <= address <= 0xFE9F)
    {
      if !(OAM_WINDOW.start <= address <= OAM_WINDOW.end) {
        return Err(InvalidOamAddress(address));
      }
      return Ok(OAM[address - OAM_WINDOW.start]);
    }

    /** `setOAMByte`: the same contract over 0xFE00..0xFE9F. */
    method SetOAMByte(address: int, value: int) returns (r: Result<(), PpuError>)
      requires Valid()
      modifies OAM
      ensures Valid()
      ensures r.Err? <==> !(0xFE00 <= address <= 0xFE9F)
      ensures r.Err? ==> r.error == InvalidOamAddress(address)
      ensures forall a :: OamByte(a) == if a == address && r.Ok? then Ok(ToByte(value)) else old(OamByte(a))
    {
      if !(OAM_WINDOW.start <= address <= OAM_WINDOW.end) {
        return Err(InvalidOamAddress(address));
      }
      OAM[address - OAM_WINDOW.start] := value % 0x100;
      return Ok(());
    }

    /** `getPixel` for non-negative coordinates. */
    method GetPixel(x: nat, y: nat) returns (color: Byte)
      requires Valid()
      ensures color == display[PixelIndex(x, y)]
    {
      var x' := x % WIDTH;
      var y' := y % HEIGHT;
      var index := y' * WIDTH + x';
      return display[index];
    }

    /** `setPixel` for non-negative coordinates: the cell of (x, y) receives the
        colour modulo 256, so `getPixel` at any congruent coordinates returns it;
        every other cell is unchanged. */
    method SetPixel(x: nat, y: nat, color: int)
      requires Valid()
      modifies display
      ensures Valid()
      ensures forall x': nat, y': nat ::
        display[PixelIndex(x', y')] ==
          if x' % WIDTH == x % WIDTH && y' % HEIGHT == y % HEIGHT then ToByte(color)
          else old(display[PixelIndex(x', y')])
      ensures forall i :: 0 <= i < display.Length && i != PixelIndex(x, y) ==> display[i] == old(display[i])
    {
      var x' := x % WIDTH;
      var y' := y % HEIGHT;
      var index := y' * WIDTH + x';
      display[index] := color % 0x100;
    }

    /** `render` without the canvas upload: fills the image from the display. */
    method Render()
      requires Valid()
      modifies imageData
      ensures Valid() && Rendered()
    {
      var data := imageData;
      var s := scale;
      ghost var d := display[..];
      RenderStart(data[..], d, s);
      for y := 0 to HEIGHT
        invariant RenderedUpTo(data[..], d, s, y, 0, 0, 0)
      {
        for x := 0 to WIDTH
          invariant RenderedUpTo(data[..], d, s, y, x, 0, 0)
        {
          var pixel := GetPixel(x, y);
          OnScreenPixelIndex(x, y);
          for dy := 0 to s
            invariant RenderedUpTo(data[..], d, s, y, x, dy, 0)
          {
            for dx := 0 to s
              invariant RenderedUpTo(data[..], d, s, y, x, dy, dx)
            {
              var idx := WriteIndex(s, y, x, dy, dx);
              RenderStep(data[..], d, s, y, x, dy, dx, pixel);
              ghost var before: seq<Byte> := data[..];
              data[idx] := pixel;
              data[idx + 1] := pixel;
              data[idx + 2] := pixel;
              data[idx + 3] := 0xFF;
              assert data[..] == before[idx := pixel][idx + 1 := pixel][idx + 2 := pixel][idx + 3 := 0xFF as Byte];
            }
            NextSubRow(data[..], d, s, y, x, dy);
          }
          NextColumn(data[..], d, s, y, x);
        }
        NextLine(data[..], d, s, y);
      }
      RenderDone(data[..], d, s);
    }
  }
}
