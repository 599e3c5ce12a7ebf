/** The flag helpers of src/utils/helpers/flags.helper.ts. Each masks both
    operands to a width, adds (or subtracts) them with an incoming carry and
    compares against the width's range. Masking an integer with `2^k - 1` is
    its remainder modulo `2^k` (lemma MasksAreBitwise), so the model works on
    remainders; the generic Carry and Borrow are the two comparisons, and the
    eight exported predicates are their instances at widths 8, 4, 16 and 12. */
module Flags {
  import opened Arithmetic
  import Bits

  /** `(a & (m - 1)) + (b & (m - 1)) + carry > m - 1`: with a carry-in of 0 or
      1, a carry out of the low digit. */
  predicate Carry(a: int, b: int, carry: int, m: nat)
    requires m >= 1
    ensures 0 <= carry <= 1 ==> (Carry(a, b, carry, m) <==> CarriesInto(a, b, carry, m))
  {
    CarryIsCarryOut(a, b, carry, m);
    a % m + b % m + carry > m - 1
  }

  /** `(a & (m - 1)) - (b & (m - 1)) - carry < 0`: with a borrow-in of 0 or 1, a
      borrow into the low digit. */
  predicate Borrow(a: int, b: int, carry: int, m: nat)
    requires m >= 1
    ensures 0 <= carry <= 1 ==> (Borrow(a, b, carry, m) <==> BorrowsFrom(a, b, carry, m))
  {
    BorrowIsBorrowIn(a, b, carry, m);
    a % m - b % m - carry < 0
  }

  const BYTE := 0x100
  const NIBBLE := 0x10
  const WORD := 0x10000
  const LOW12 := 0x1000

  /** `checkCarry8`: a carry out of bit 7. */
  predicate CheckCarry8(a: int, b: int, carry: int)
    ensures 0 <= carry <= 1 ==> (CheckCarry8(a, b, carry) <==> CarriesInto(a, b, carry, BYTE))
  {
    Carry(a, b, carry, BYTE)
  }

  /** `checkBorrow8`: a borrow into bit 7. */
  predicate CheckBorrow8(a: int, b: int, carry: int)
    ensures 0 <= carry <= 1 ==> (CheckBorrow8(a, b, carry) <==> BorrowsFrom(a, b, carry, BYTE))
  {
    Borrow(a, b, carry, BYTE)
  }

  /** `checkHalfCarry8`: a carry out of bit 3. */
  predicate CheckHalfCarry8(a: int, b: int, carry: int)
    ensures 0 <= carry <= 1 ==> (CheckHalfCarry8(a, b, carry) <==> CarriesInto(a, b, carry, NIBBLE))
  {
    Carry(a, b, carry, NIBBLE)
  }

  /** `checkHalfBorrow8`: a borrow into bit 3. */
  predicate CheckHalfBorrow8(a: int, b: int, carry: int)
    ensures 0 <= carry <= 1 ==> (CheckHalfBorrow8(a, b, carry) <==> BorrowsFrom(a, b, carry, NIBBLE))
  {
    Borrow(a, b, carry, NIBBLE)
  }

  /** `checkCarry16`: a carry out of bit 15. */
  predicate CheckCarry16(a: int, b: int, carry: int)
    ensures 0 <= carry <= 1 ==> (CheckCarry16(a, b, carry) <==> CarriesInto(a, b, carry, WORD))
  {
    Carry(a, b, carry, WORD)
  }

  /** `checkBorrow16`: a borrow into bit 15. */
  predicate CheckBorrow16(a: int, b: int, carry: int)
    ensures 0 <= carry <= 1 ==> (CheckBorrow16(a, b, carry) <==> BorrowsFrom(a, b, carry, WORD))
  {
    Borrow(a, b, carry, WORD)
  }

  /** `checkHalfCarry16`: a carry out of bit 11. */
  predicate CheckHalfCarry16(a: int, b: int, carry: int)
    ensures 0 <= carry <= 1 ==> (CheckHalfCarry16(a, b, carry) <==> CarriesInto(a, b, carry, LOW12))
  {
    Carry(a, b, carry, LOW12)
  }

  /** `checkHalfBorrow16`: a borrow into bit 11. */
  predicate CheckHalfBorrow16(a: int, b: int, carry: int)
    ensures 0 <= carry <= 1 ==> (CheckHalfBorrow16(a, b, carry) <==> BorrowsFrom(a, b, carry, LOW12))
  {
    Borrow(a, b, carry, LOW12)
  }

  /** For m = 2^k: bit k of `a + b + carry` differs from bit 0 of the sum of
      the operands' high parts (`a >> k` plus `b >> k`), so a carry came out of
      the low k bits. */
  predicate CarriesInto(a: int, b: int, carry: int, m: nat)
    requires m >= 1
  {
    ((a + b + carry) / m) % 2 != (a / m + b / m) % 2
  }

  /** For m = 2^k: bit k of `a - b - carry` differs from bit 0 of the
      difference of the operands' high parts, so a borrow went into the low k bits. */
  predicate BorrowsFrom(a: int, b: int, carry: int, m: nat)
    requires m >= 1
  {
    ((a - b - carry) / m) % 2 != (a / m - b / m) % 2
  }

  /** The `&` masks of the helpers are remainders: `x & 0xFF == x % 0x100`,
      and likewise for 0x0F, 0xFFFF and 0x0FFF. */
  lemma MasksAreBitwise(x: nat)
    ensures x % BYTE == Bits.BitAnd(x, 0xFF) && x % NIBBLE == Bits.BitAnd(x, 0x0F)
    ensures x % WORD == Bits.BitAnd(x, 0xFFFF) && x % LOW12 == Bits.BitAnd(x, 0x0FFF)
  {
    assert Bits.Ones(8) == 0xFF && Bits.Pow2(8) == BYTE;
    assert Bits.Ones(4) == 0x0F && Bits.Pow2(4) == NIBBLE;
    assert Bits.Ones(16) == 0xFFFF && Bits.Pow2(16) == WORD;
    assert Bits.Ones(12) == 0x0FFF && Bits.Pow2(12) == LOW12;
    Bits.AndLowBits(x, 8);
    Bits.AndLowBits(x, 4);
    Bits.AndLowBits(x, 16);
    Bits.AndLowBits(x, 12);
  }

  /** With a carry bit of 0 or 1, Carry's comparison is exactly a carry out of
      the low digit: the sum's next digit differs from that of the operands. */
  lemma CarryIsCarryOut(a: int, b: int, carry: int, m: nat)
    requires m >= 1
    ensures 0 <= carry <= 1 ==> (a % m + b % m + carry > m - 1 <==> CarriesInto(a, b, carry, m))
  {
    if carry < 0 || carry > 1 { return; }
    var ah, al, bh, bl := a / m, a % m, b / m, b % m;
    var low := al + bl + carry;
    assert a + b + carry == (ah + bh) * m + low;
    if low >= m {
      assert (ah + bh) * m + low == (ah + bh + 1) * m + (low - m);
      DivMod(ah + bh + 1, m, low - m);
      assert (a + b + carry) / m == ah + bh + 1;
    } else {
      DivMod(ah + bh, m, low);
      assert (a + b + carry) / m == ah + bh;
    }
  }

  /** With a borrow bit of 0 or 1, Borrow's comparison is exactly a borrow into
      the low digit. */
  lemma BorrowIsBorrowIn(a: int, b: int, carry: int, m: nat)
    requires m >= 1
    ensures 0 <= carry <= 1 ==> (a % m - b % m - carry < 0 <==> BorrowsFrom(a, b, carry, m))
  {
    if carry < 0 || carry > 1 { return; }
    var ah, al, bh, bl := a / m, a % m, b / m, b % m;
    var low := al - bl - carry;
    assert a - b - carry == (ah - bh) * m + low;
    if low < 0 {
      assert (ah - bh) * m + low == (ah - bh - 1) * m + (low + m);
      DivMod(ah - bh - 1, m, low + m);
      assert (a - b - carry) / m == ah - bh - 1;
    } else {
      DivMod(ah - bh, m, low);
      assert (a - b - carry) / m == ah - bh;
    }
  }

  /** For two bytes and no carry in, the 8-bit carry is the wrapped sum falling
      below `a`, and the 8-bit borrow is the wrapped difference rising above `a`. */
  lemma ByteWrapArounds(a: int, b: int)
    requires 0 <= a < 0x100 && 0 <= b < 0x100
    ensures CheckCarry8(a, b, 0) <==> (a + b) % 0x100 < a
    ensures CheckBorrow8(a, b, 0) <==> (a - b) % 0x100 > a
  {
    if a + b >= 0x100 {
      DivMod(1, 0x100, a + b - 0x100);
    }
    if a < b {
      DivMod(-1, 0x100, a - b + 0x100);
    }
  }

  /** Each helper sees its operands only through the mask: replacing an
      operand by its masked value, or by any value with the same low bits,
      changes nothing. The 8-bit half-carry and half-borrow also ignore an
      8-bit pre-mask. */
  lemma MaskedOperands(a: int, b: int, carry: int, m: nat)
    requires m >= 1
    ensures Carry(a % m, b % m, carry, m) == Carry(a, b, carry, m)
    ensures Borrow(a % m, b % m, carry, m) == Borrow(a, b, carry, m)
    ensures CheckHalfCarry8(a % BYTE, b % BYTE, carry) == CheckHalfCarry8(a, b, carry)
    ensures CheckHalfBorrow8(a % BYTE, b % BYTE, carry) == CheckHalfBorrow8(a, b, carry)
    ensures CheckHalfCarry16(a % WORD, b % WORD, carry) == CheckHalfCarry16(a, b, carry)
    ensures CheckHalfBorrow16(a % WORD, b % WORD, carry) == CheckHalfBorrow16(a, b, carry)
  {
    ModMod(a, m, 1);
    ModMod(b, m, 1);
    ModMod(a, NIBBLE, 0x10);
    ModMod(b, NIBBLE, 0x10);
    ModMod(a, LOW12, 0x10);
    ModMod(b, LOW12, 0x10);
  }

  /** Reducing modulo a multiple `m * j` of `m` keeps the remainder modulo `m`. */
  lemma ModMod(x: int, m: nat, j: nat)
    requires m >= 1 && j >= 1
    ensures (x % (m * j)) % m == x % m
  {
    var q, r := x / (m * j), x % (m * j);
    assert x == (q * j) * m + r by {
      assert x == q * (m * j) + r;
      assert q * (m * j) == (q * j) * m;
    }
    var r1, r2 := r / m, r % m;
    assert r == r1 * m + r2;
    assert x == (q * j + r1) * m + r2;
    DivMod(q * j + r1, m, r2);
  }

  /** The addition flags are symmetric in their operands; subtracting a value
      from itself, or adding or subtracting 0, never sets a flag; and the
      half-borrow compares the low nibble of `a` with that of `b` plus the carry. */
  lemma Basics(a: int, b: int, carry: int, m: nat)
    requires m >= 1
    ensures Carry(a, b, carry, m) == Carry(b, a, carry, m)
    ensures !Borrow(a, a, 0, m) && !Carry(a, 0, 0, m) && !Borrow(a, 0, 0, m)
    ensures Borrow(a, b, 0, m) <==> a % m < b % m
    ensures CheckHalfBorrow8(a, b, carry) <==> a % NIBBLE < b % NIBBLE + carry
  {
  }
}
