/** The sign-extension helpers of src/utils/helpers/signed.helper.ts:
    `toSigned8(n) = (n << 24) >> 24` and `toSigned16(n) = (n << 16) >> 16`,
    with JavaScript's 32-bit shift semantics written out. */
module Signed {
  import opened Arithmetic
  import Bits

  const TWO32 := 0x1_0000_0000
  const TWO31 := 0x8000_0000

  /** ECMAScript ToInt32 on an integer: the value modulo 2^32 read as a
      two's-complement 32-bit number. */
  function ToInt32(x: int): (r: int)
    ensures -TWO31 <= r < TWO31 && (r - x) % TWO32 == 0
  {
    var u := x % TWO32;
    if u < TWO31 then u else u - TWO32
  }

  /** `x << k` for 0 <= k < 32: both the operand and the result pass through
      ToInt32, so the result is the int32 congruent to `x * 2^k` modulo 2^32. */
  function ShiftLeft(x: int, k: nat): (r: int)
    requires k < 32
    ensures -TWO31 <= r < TWO31 && (r - x * Bits.Pow2(k)) % TWO32 == 0
  {
    ShiftCongruence(x, Bits.Pow2(k));
    ToInt32(ToInt32(x) * Bits.Pow2(k))
  }

  /** Multiplying congruent values by `p` keeps them congruent modulo 2^32, so
      reducing the operand first does not change the residue of the product. */
  lemma ShiftCongruence(x: int, p: int)
    ensures (ToInt32(ToInt32(x) * p) - x * p) % TWO32 == 0
  {
    var y := ToInt32(x);
    var t := (y - x) / TWO32;
    var u := (ToInt32(y * p) - y * p) / TWO32;
    assert y - x == t * TWO32;
    assert ToInt32(y * p) - y * p == u * TWO32;
    assert ToInt32(y * p) - x * p == (u + t * p) * TWO32 by {
      assert y * p - x * p == (y - x) * p == (t * p) * TWO32;
    }
    DivMod(u + t * p, TWO32, 0);
  }

  /** `x >> k` for 0 <= k < 32: the sign-propagating shift, a division of the
      int32 operand by 2^k rounding down (Euclidean division by a positive
      divisor rounds down). */
  function ShiftRight(x: int, k: nat): (r: int)
    requires k < 32
    ensures r * Bits.Pow2(k) <= ToInt32(x) < (r + 1) * Bits.Pow2(k)
  {
    ToInt32(x) / Bits.Pow2(k)
  }

  /** `toSigned8(n)`: the low byte of `n` read as two's complement. */
  function ToSigned8(n: int): (r: int)
    ensures r == TwosComplement(n % 0x100, 0x100)
  {
    ToSigned8Spec(n);
    ShiftRight(ShiftLeft(n, 24), 24)
  }

  /** `toSigned16(n)`: the low 16 bits of `n` read as two's complement. */
  function ToSigned16(n: int): (r: int)
    ensures r == TwosComplement(n % 0x10000, 0x10000)
  {
    ToSigned16Spec(n);
    ShiftRight(ShiftLeft(n, 16), 16)
  }

  /** The digit `u` in 0..w-1 read as a two's-complement number of the
      width of `w`: values from w/2 up stand for `u - w`. */
  function TwosComplement(u: int, w: nat): int
    requires w >= 2
  {
    if u < w / 2 then u else u - w
  }

  /** Shifting `n` up by `p` (with `p * w == 2^32`) keeps only its low base-`w`
      digit, now at the top of the word, where the int32 reading makes it
      signed. */
  lemma ShiftLeftValue(n: int, p: nat, w: nat)
    requires p >= 1 && w >= 2 && w % 2 == 0 && p * w == TWO32
    ensures ToInt32(ToInt32(n) * p) == TwosComplement(n % w, w) * p
  {
    var x := ToInt32(n);
    var u := n % w;
    SameLowDigit(x, n, p, w);
    ShiftedLowDigit(x, p, w, u);
    var half := w / 2;
    assert half * p == TWO31;
    if u < half {
      MulLe(u, half - 1, p);
      assert ToInt32(x * p) == u * p;
    } else {
      MulLe(half, u, p);
      assert ToInt32(x * p) == (u - w) * p;
    }
  }

  /** ToInt32 leaves a 32-bit value alone. */
  lemma Int32Fixed(r: int)
    requires -TWO31 <= r < TWO31
    ensures ToInt32(r) == r
  {
    if r < 0 {
      DivMod(-1, TWO32, r + TWO32);
    } else {
      DivMod(0, TWO32, r);
    }
  }

  /** Values congruent modulo 2^32 are congruent modulo any divisor `w` of 2^32. */
  lemma SameLowDigit(x: int, n: int, p: nat, w: nat)
    requires p >= 1 && w >= 1 && p * w == TWO32 && (x - n) % TWO32 == 0
    ensures x % w == n % w
  {
    var t := (x - n) / TWO32;
    assert x - n == t * TWO32;
    assert t * TWO32 == (t * p) * w;
    var q, r := n / w, n % w;
    assert n == q * w + r;
    assert x == (q + t * p) * w + r;
    DivMod(q + t * p, w, r);
  }

  /** Multiplying by `p` moves the low base-`w` digit `u` of `x` to the top of a
      32-bit word and pushes the rest out: `(x * p) mod 2^32 == u * p`. */
  lemma ShiftedLowDigit(x: int, p: nat, w: nat, u: int)
    requires p >= 1 && w >= 1 && p * w == TWO32 && u == x % w
    ensures 0 <= u * p < TWO32 && (x * p) % TWO32 == u * p
  {
    var q := x / w;
    assert x == q * w + u;
    assert x * p == q * TWO32 + u * p by {
      assert x * p == (q * w + u) * p == q * (w * p) + u * p;
    }
    MulLe(u, w - 1, p);
    assert (w - 1) * p == TWO32 - p;
    DivMod(q, TWO32, u * p);
  }

  /** The arithmetic shift back down divides the int32 exactly. */
  lemma ShiftRightExact(t: int, p: nat)
    requires p >= 1 && -TWO31 <= t * p < TWO31
    ensures ToInt32(t * p) / p == t
  {
    Int32Fixed(t * p);
    DivMod(t, p, 0);
  }

  /** `(n << 24) >> 24` is the low byte of `n` read as two's complement. */
  lemma ToSigned8Spec(n: int)
    ensures ShiftRight(ShiftLeft(n, 24), 24) == TwosComplement(n % 0x100, 0x100)
  {
    Bits.Pow2Values();
    ShiftLeftValue(n, 0x100_0000, 0x100);
    ShiftRightExact(TwosComplement(n % 0x100, 0x100), 0x100_0000);
  }

  /** `(n << 16) >> 16` is the low 16 bits of `n` read as two's complement. */
  lemma ToSigned16Spec(n: int)
    ensures ShiftRight(ShiftLeft(n, 16), 16) == TwosComplement(n % 0x10000, 0x10000)
  {
    Bits.Pow2Values();
    ShiftLeftValue(n, 0x10000, 0x10000);
    ShiftRightExact(TwosComplement(n % 0x10000, 0x10000), 0x10000);
  }

  /** The two's-complement reading of the low digit of `n` is the unique value
      in -w/2..w/2-1 with the same low digit as `n`. */
  lemma TwosComplementOfLowDigit(n: int, w: nat, r: int)
    requires w >= 2 && w % 2 == 0 && r == TwosComplement(n % w, w)
    ensures -(w / 2) <= r < w / 2 && r % w == n % w
    ensures forall s :: -(w / 2) <= s < w / 2 && s % w == n % w ==> s == r
  {
    var u := n % w;
    if u < w / 2 {
      DivMod(0, w, u);
    } else {
      DivMod(-1, w, u);
    }
    forall s | -(w / 2) <= s < w / 2 && s % w == n % w ensures s == r {
      if s < 0 {
        DivMod(-1, w, s + w);
      } else {
        DivMod(0, w, s);
      }
    }
  }

  /** `toSigned8` and `toSigned16` land in -128..127 and -32768..32767 and keep
      the low 8 (16) bits of their argument; they are the only such values. */
  lemma Ranges(n: int)
    ensures -0x80 <= ToSigned8(n) < 0x80 && ToSigned8(n) % 0x100 == n % 0x100
    ensures -0x8000 <= ToSigned16(n) < 0x8000 && ToSigned16(n) % 0x10000 == n % 0x10000
    ensures forall s :: -0x80 <= s < 0x80 && s % 0x100 == n % 0x100 ==> s == ToSigned8(n)
    ensures forall s :: -0x8000 <= s < 0x8000 && s % 0x10000 == n % 0x10000 ==> s == ToSigned16(n)
  {
    TwosComplementOfLowDigit(n, 0x100, ToSigned8(n));
    TwosComplementOfLowDigit(n, 0x10000, ToSigned16(n));
  }

  /** Only the low 8 (16) bits of the argument matter. */
  lemma LowBitsDecide(n: int)
    ensures ToSigned8(n) == ToSigned8(n % 0x100)
    ensures ToSigned16(n) == ToSigned16(n % 0x10000)
  {
    var b, h := n % 0x100, n % 0x10000;
    DivMod(0, 0x100, b);
    DivMod(0, 0x10000, h);
  }

  /** On unsigned inputs the functions are bijections onto the signed ranges:
      the result masked back (`& 0xFF`, which on an int32 is the remainder
      modulo 256) is the input, and every signed value is reached from its
      own low bits. */
  lemma RoundTrip8(n: int, s: int)
    ensures 0 <= n < 0x100 ==> ToSigned8(n) % 0x100 == n
    ensures -0x80 <= s < 0x80 ==> ToSigned8(s % 0x100) == s
  {
    if 0 <= n < 0x100 {
      TwosComplementOfLowDigit(n, 0x100, ToSigned8(n));
      DivMod(0, 0x100, n);
    }
    if -0x80 <= s < 0x80 {
      var b := s % 0x100;
      DivMod(0, 0x100, b);
      TwosComplementOfLowDigit(b, 0x100, ToSigned8(b));
    }
  }

  lemma RoundTrip16(n: int, s: int)
    ensures 0 <= n < 0x10000 ==> ToSigned16(n) % 0x10000 == n
    ensures -0x8000 <= s < 0x8000 ==> ToSigned16(s % 0x10000) == s
  {
    if 0 <= n < 0x10000 {
      TwosComplementOfLowDigit(n, 0x10000, ToSigned16(n));
      DivMod(0, 0x10000, n);
    }
    if -0x8000 <= s < 0x8000 {
      var h := s % 0x10000;
      DivMod(0, 0x10000, h);
      TwosComplementOfLowDigit(h, 0x10000, ToSigned16(h));
    }
  }

  /** Distinct unsigned inputs give distinct signed results. */
  lemma Injective(n: int, m: int)
    ensures 0 <= n < 0x100 && 0 <= m < 0x100 && ToSigned8(n) == ToSigned8(m) ==> n == m
    ensures 0 <= n < 0x10000 && 0 <= m < 0x10000 && ToSigned16(n) == ToSigned16(m) ==> n == m
  {
    RoundTrip8(n, 0);
    RoundTrip8(m, 0);
    RoundTrip16(n, 0);
    RoundTrip16(m, 0);
  }
}
