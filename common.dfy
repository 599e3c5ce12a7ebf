/** Shared vocabulary of the model: bytes, optional and fallible results, and the
    typed-array primitives (`fill`, `set`) the emulator's components are built from. */
module Common {
  import opened Bits

  /** A value stored in a `Uint8Array` cell. */
  type Byte = x: int | 0 <= x < 0x100

  /** What a `Uint8Array` keeps of an integer written into it: the value modulo 256. */
  function ToByte(v: int): (b: Byte)
    ensures (b - v) % 0x100 == 0
  {
    v % 0x100
  }

  /** `a & b` on two bytes. */
  function And8(a: Byte, b: Byte): (r: Byte)
    ensures r <= a && r <= b
  {
    BitAnd(a, b)
  }

  /** The little-endian 16-bit word of two bytes, `(high << 8) | low`; the
      lemma WordIsShiftOr ties this arithmetic form to the bitwise one. */
  function Word(low: Byte, high: Byte): (w: int)
    ensures 0 <= w < 0x10000
  {
    low + 0x100 * high
  }

  /** `(high << 8) | low` is the arithmetic Word: the high byte fills bits 8-15
      and the low byte bits 0-7, without overlap. The shift cannot leave 32 bits. */
  lemma WordIsShiftOr(low: Byte, high: Byte)
    ensures BitOr(high * Pow2(8), low) == Word(low, high)
  {
    assert Pow2(8) == 0x100;
    OrDisjoint(high, low, 8);
  }

  datatype Option<T> = None | Some(value: T)

  datatype Result<T, E> = Ok(value: T) | Err(error: E)

  /** `array.fill(v)`: every cell receives `v`. */
  method Fill(a: array<Byte>, v: Byte)
    modifies a
    ensures forall i :: 0 <= i < a.Length ==> a[i] == v
  {
    forall i | 0 <= i < a.Length {
      a[i] := v;
    }
  }

  /** `array.set(src)` for a source no longer than the array: the prefix of length
      `|src|` is overwritten and the rest is left alone. */
  method SetPrefix(a: array<Byte>, src: seq<Byte>)
    requires |src| <= a.Length
    modifies a
    ensures forall i :: 0 <= i < |src| ==> a[i] == src[i]
    ensures forall i :: |src| <= i < a.Length ==> a[i] == old(a[i])
  {
    forall i | 0 <= i < |src| {
      a[i] := src[i];
    }
  }

  /** `data.slice(lo, hi)` of a JavaScript typed array, for non-negative bounds:
      both ends are clipped to the length. */
  function Slice<T>(data: seq<T>, lo: nat, hi: nat): (r: seq<T>)
    ensures |r| == if lo < hi && lo < |data| then Min(hi, |data|) - lo else 0
  {
    var e := Min(hi, |data|);
    if lo < e then data[lo..e] else []
  }

  /** Element k of the slice is element lo + k of the data. */
  lemma SliceElements<T>(data: seq<T>, lo: nat, hi: nat)
    ensures forall k :: 0 <= k < |Slice(data, lo, hi)| ==> Slice(data, lo, hi)[k] == data[lo + k]
  {
  }

  /** A freshly allocated (or filled) typed array of `n` zero bytes. */
  function Zeros(n: nat): (z: seq<Byte>)
    ensures |z| == n && forall i :: 0 <= i < n ==> z[i] == 0
  {
    seq(n, _ => 0)
  }

  function Min(a: int, b: int): int
  {
    if a <= b then a else b
  }
}
