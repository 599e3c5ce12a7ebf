/** `Joypad` (src/emu/io/joypad.ts): the P1 register as a JavaScript number
    updated with `|=` and `&= ~`, i.e. as a 32-bit pattern. */
module JoypadRegs {

  const JOYPAD_INIT: bv32 := 0xCF

  /** `joypad | button`: the button's bits become set, every other bit is kept. */
  function Press(joypad: bv32, button: bv32): (r: bv32)
    ensures r & button == button && r & !button == joypad & !button
  {
    joypad | button
  }

  /** `joypad & ~button`: the button's bits become clear, every other bit is kept. */
  function Release(joypad: bv32, button: bv32): (r: bv32)
    ensures r & button == 0 && r & !button == joypad & !button
  {
    joypad & !button
  }

  lemma PressIdempotent(j: bv32, b: bv32)
    ensures Press(Press(j, b), b) == Press(j, b)
  {
  }

  lemma ReleaseIdempotent(j: bv32, b: bv32)
    ensures Release(Release(j, b), b) == Release(j, b)
  {
  }

  /** Press then release restores every bit outside the button. */
  lemma PressThenRelease(j: bv32, b: bv32)
    ensures Release(Press(j, b), b) == j & !b
    ensures Release(Press(j, b), b) & !b == j & !b
  {
  }

  class Joypad {
    var joypad: bv32

    constructor ()
      ensures joypad == JOYPAD_INIT
    {
      joypad := JOYPAD_INIT;
    }

    method Reset()
      modifies this
      ensures joypad == JOYPAD_INIT
    {
      joypad := JOYPAD_INIT;
    }

    method GetByte() returns (r: bv32)
      ensures r == joypad
    {
      return joypad;
    }

    method SetByte(value: bv32)
      modifies this
      ensures joypad == value
    {
      joypad := value;
    }

    method PressButton(button: bv32)
      modifies this
      ensures joypad == Press(old(joypad), button)
    {
      joypad := joypad | button;
    }

    method ReleaseButton(button: bv32)
      modifies this
      ensures joypad == Release(old(joypad), button)
    {
      joypad := joypad & !button;
    }
  }
}
