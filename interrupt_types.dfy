/** `InterruptTypeEnum` (src/utils/enum/interrupt-type.enum.ts): one bit of the
    IE/IF registers per interrupt source. */
module InterruptTypes {

  datatype InterruptType = VBlank | LcdStat | Timer | Serial | Joypad

  /** The enum's members in declaration order. */
  const ALL: seq<InterruptType> := [VBlank, LcdStat, Timer, Serial, Joypad]

  /** The enum value of each member: a single set bit among the low five. */
  function Mask(t: InterruptType): (m: bv8)
    ensures m != 0 && m & (m - 1) == 0 && m < 0x20
  {
    match t
    case VBlank => 0x01
    case LcdStat => 0x02
    case Timer => 0x04
    case Serial => 0x08
    case Joypad => 0x10
  }

  /** The bit each member occupies: its position in `ALL`. */
  function Bit(t: InterruptType): (b: nat)
    ensures b < |ALL| && ALL[b] == t
  {
    match t
    case VBlank => 0
    case LcdStat => 1
    case Timer => 2
    case Serial => 3
    case Joypad => 4
  }

  /** Each value is the single bit at its declaration position. */
  lemma MaskIsSingleBit(t: InterruptType)
    ensures Mask(t) == 1 << Bit(t)
    ensures Mask(t) != 0 && Mask(t) & (Mask(t) - 1) == 0
  {
  }

  /** Distinct members have disjoint masks. */
  lemma MasksDisjoint(t: InterruptType, u: InterruptType)
    ensures t != u <==> Mask(t) & Mask(u) == 0
  {
  }

  /** Together the masks fill the low five bits, and each is below 0x20. */
  lemma MasksCoverLowFiveBits()
    ensures Mask(VBlank) | Mask(LcdStat) | Mask(Timer) | Mask(Serial) | Mask(Joypad) == 0x1F
    ensures forall t :: Mask(t) < 0x20
  {
  }

  /** Bit position strictly increases in declaration order. */
  lemma BitsIncrease(i: int, j: int)
    requires 0 <= i < j < |ALL|
    ensures Bit(ALL[i]) < Bit(ALL[j])
  {
    assert Bit(ALL[i]) == i && Bit(ALL[j]) == j;
  }
}
