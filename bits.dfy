/** JavaScript's bitwise `&` and `|` on non-negative integers, defined bit by bit
    from the least significant bit, and shifts by a power of two. Keeping these
    arithmetic lets the byte and word models stay on `int`. */
module Bits {
  import opened Arithmetic

  function Pow2(k: nat): (p: nat)
    ensures p >= 1
  {
    if k == 0 then 1 else 2 * Pow2(k - 1)
  }

  /** The powers the emulator's masks and shifts use. */
  lemma Pow2Values()
    ensures Pow2(3) == 8 && Pow2(4) == 0x10 && Pow2(8) == 0x100 && Pow2(12) == 0x1000
    ensures Pow2(16) == 0x10000 && Pow2(24) == 0x100_0000
    ensures Ones(3) == 7 && Ones(4) == 0xF && Ones(8) == 0xFF && Ones(12) == 0xFFF && Ones(16) == 0xFFFF
  {
    assert Pow2(4) == 0x10;
    assert Pow2(8) == 0x100;
    assert Pow2(12) == 0x1000;
    assert Pow2(16) == 0x10000;
    assert Pow2(20) == 0x10_0000;
    assert Pow2(24) == 0x100_0000;
  }

  /** `a & b`: bit 0 is set when it is set in both, the higher bits are the AND
      of the halves. The result never exceeds either operand. */
  function BitAnd(a: nat, b: nat): (r: nat)
    ensures r <= a && r <= b
  {
    if a == 0 || b == 0 then 0
    else 2 * BitAnd(a / 2, b / 2) + (if a % 2 == 1 && b % 2 == 1 then 1 else 0)
  }

  /** `a | b`: bit 0 is set when it is set in either, the higher bits are the OR
      of the halves. The result covers both operands and never exceeds their sum. */
  function BitOr(a: nat, b: nat): (r: nat)
    ensures a <= r && b <= r && r <= a + b
  {
    if a == 0 then b
    else if b == 0 then a
    else 2 * BitOr(a / 2, b / 2) + (if a % 2 == 1 || b % 2 == 1 then 1 else 0)
  }

  /** The low `k` bits of `w`, collected from bit 0 upwards. */
  function LowBits(w: nat, k: nat): (r: nat)
    ensures r < Pow2(k)
  {
    if k == 0 then 0 else 2 * LowBits(w / 2, k - 1) + w % 2
  }

  /** The mask of the low `k` bits, `2^k - 1`. */
  function Ones(k: nat): (m: nat)
    ensures m + 1 == Pow2(k)
  {
    if k == 0 then 0 else 2 * Ones(k - 1) + 1
  }

  /** Masking with `2^k - 1` keeps the low `k` bits: `w & 0xFF == w % 0x100`. */
  lemma AndLowBits(w: nat, k: nat)
    ensures BitAnd(w, Ones(k)) == w % Pow2(k)
  {
    AndIsLowBits(w, k);
    LowBitsIsMod(w, k);
  }

  lemma {:induction false} AndIsLowBits(w: nat, k: nat)
    ensures BitAnd(w, Ones(k)) == LowBits(w, k)
  {
    if k > 0 && w > 0 {
      AndIsLowBits(w / 2, k - 1);
      AndLowStep(w, Ones(k), Ones(k - 1));
    } else if k > 0 {
      AndIsLowBits(0, k - 1);
    }
  }

  lemma {:induction false} LowBitsIsMod(w: nat, k: nat)
    ensures LowBits(w, k) == w % Pow2(k)
  {
    if k > 0 {
      var q := Pow2(k - 1);
      LowBitsIsMod(w / 2, k - 1);
      ModHalves(w, q, Pow2(k), LowBits(w / 2, k - 1));
    }
  }

  /** One step of AndIsLowBits: a mask `2h + 1` has bit 0 set and halves to `h`. */
  lemma AndLowStep(w: nat, m: nat, h: nat)
    requires w > 0 && m == 2 * h + 1
    ensures BitAnd(w, m) == 2 * BitAnd(w / 2, h) + w % 2
  {
    assert m / 2 == h && m % 2 == 1;
  }

  /** The remainder modulo `2q` is twice the half's remainder modulo `q`, plus the
      low bit. */
  lemma ModHalves(w: nat, q: nat, p: nat, lo: nat)
    requires q >= 1 && p == 2 * q && lo == (w / 2) % q
    ensures w % p == 2 * lo + w % 2
  {
    var t, r := (w / 2) / q, (w / 2) % q;
    assert w / 2 == t * q + r;
    assert w == t * (2 * q) + (2 * r + w % 2);
    DivMod(t, 2 * q, 2 * r + w % 2);
  }

  /** A mask applied twice is applied once. */
  lemma {:induction false} AndAbsorbs(a: nat, b: nat)
    ensures BitAnd(BitAnd(a, b), b) == BitAnd(a, b)
  {
    if a > 0 && b > 0 {
      AndAbsorbs(a / 2, b / 2);
    }
  }

  /** Every bit of `a` is in `a`. */
  lemma {:induction false} AndSelf(a: nat)
    ensures BitAnd(a, a) == a
  {
    if a > 0 {
      AndSelf(a / 2);
    }
  }

  /** Or-ing a value below `2^k` into a multiple of `2^k` is addition: the two
      occupy disjoint bits. `(high << 8) | low` is `high * 256 + low`. */
  lemma {:induction false} OrDisjoint(h: nat, l: nat, k: nat)
    requires l < Pow2(k)
    ensures BitOr(h * Pow2(k), l) == h * Pow2(k) + l
  {
    if k > 0 && h > 0 && l > 0 {
      var x := h * Pow2(k - 1);
      assert h * Pow2(k) == 2 * x;
      OrDisjoint(h, l / 2, k - 1);
    }
  }
}
