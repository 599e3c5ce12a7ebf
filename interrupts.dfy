/** `Interrupts` (src/emu/io/interrupts.ts): the IE and IF registers and the
    IME flag, plain fields with getters and setters. IE and IF are JavaScript
    numbers stored without any masking. */
module InterruptRegs {

  class Interrupts {
    var IE: int    // interrupt enable
    var IF: int    // interrupt flags
    var IME: bool  // interrupt master enable

    constructor ()
      ensures IE == 0 && IF == 0xE1 && !IME
    {
      IE := 0;
      IF := 0xE1;
      IME := false;
    }

    method SetIME(value: bool)
      modifies this
      ensures IME == value && IE == old(IE) && IF == old(IF)
    {
      IME := value;
    }

    method GetIME() returns (r: bool)
      ensures r == IME
    {
      return IME;
    }

    method GetInterruptFlags() returns (r: int)
      ensures r == IF
    {
      return IF;
    }

    /** Stores `value` as is: no masking to 5 or 8 bits. */
    method SetInterruptFlags(value: int)
      modifies this
      ensures IF == value && IE == old(IE) && IME == old(IME)
    {
      IF := value;
    }

    method GetInterruptEnable() returns (r: int)
      ensures r == IE
    {
      return IE;
    }

    /** Stores `value` as is. */
    method SetInterruptEnable(value: int)
      modifies this
      ensures IE == value && IF == old(IF) && IME == old(IME)
    {
      IE := value;
    }
  }
}
