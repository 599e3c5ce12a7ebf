/** The load handlers of src/emu/instructions.ts. Each reads its operands, moves
    one byte between registers and the bus, advances PC past its immediate
    bytes and adds its cycle count. */
module Instructions {
  import opened Common
  import opened Processor
  import opened AddressDecoder
  import Bits

  /** Bits 3-5 of an opcode: `(opcode >> 3) & 0b111`. */
  function Bits3To5(opcode: Byte): (r: int)
    ensures 0 <= r < 8
  {
    (opcode / 8) % 8
  }

  /** Bits 0-2 of an opcode: `opcode & 0b111`. */
  function Bits0To2(opcode: Byte): (r: int)
    ensures 0 <= r < 8
  {
    opcode % 8
  }

  /** The two fields and the top two bits rebuild the opcode. */
  lemma OpcodeFields(opcode: Byte)
    ensures opcode == (opcode / 64) * 64 + Bits3To5(opcode) * 8 + Bits0To2(opcode)
  {
  }

  /** `(0xFF00 + n) & 0xFFFF` for a byte n: always in the high page
      0xFF00..0xFFFF, and equal to 0xFF00 + n. */
  function HighPage(n: Byte): (address: int)
    ensures 0xFF00 <= address <= 0xFFFF && address - 0xFF00 == n
  {
    (0xFF00 + n as int) % 0x10000
  }

  /** `((msb << 8) | lsb) & 0xFFFF`: the little-endian address of two bytes. */
  function Address16(lsb: Byte, msb: Byte): (address: int)
    ensures address == lsb + 0x100 * msb
  {
    Word(lsb, msb) % 0x10000
  }

  /** The arithmetic forms above are the source's bitwise expressions: `>> 3`
      on a byte is division by 8, masking with 7 or 0xFFFF keeps the low bits,
      and `(msb << 8) | lsb` is Word. */
  lemma BitwiseForms(opcode: Byte, n: Byte, lsb: Byte, msb: Byte)
    ensures Bits3To5(opcode) == Bits.BitAnd(opcode / 8, Bits.Ones(3))
    ensures Bits0To2(opcode) == Bits.BitAnd(opcode, Bits.Ones(3))
    ensures HighPage(n) == Bits.BitAnd(0xFF00 + n, Bits.Ones(16))
    ensures Address16(lsb, msb) == Bits.BitAnd(Bits.BitOr(msb * Bits.Pow2(8), lsb), Bits.Ones(16))
  {
    assert Bits.Ones(3) == 7 && Bits.Pow2(3) == 8;
    assert Bits.Ones(16) == 0xFFFF && Bits.Pow2(16) == 0x10000;
    Bits.AndLowBits(opcode / 8, 3);
    Bits.AndLowBits(opcode, 3);
    Bits.AndLowBits(0xFF00 + n, 16);
    WordIsShiftOr(lsb, msb);
    Bits.AndLowBits(Word(lsb, msb), 16);
  }

  /** Address16 is a bijection between byte pairs and 16-bit addresses: the
      low byte is the address modulo 256 and the high byte its quotient. */
  lemma Address16Bijective(lsb: Byte, msb: Byte, a: int)
    requires 0 <= a < 0x10000
    ensures Address16(lsb, msb) % 0x100 == lsb && Address16(lsb, msb) / 0x100 == msb
    ensures Address16(a % 0x100, a / 0x100) == a
  {
  }

  /** The opcodes that exhibit the two handler defects: 0x06 is LD B, n (register
      field B), and 0x78 is LD A, B, whose bits 3-5 name A and bits 0-2 name B,
      so LDrr as written copies A into B where the instruction loads B into A. */
  lemma WitnessOpcodes()
    ensures Bits3To5(0x06) == B && Bits0To2(0x06) == HL_INDIRECT
    ensures Bits3To5(0x78) == A && Bits0To2(0x78) == B
  {
  }

  /** LD r, n (00 rrr 110) as written: the immediate byte is read and PC moves
      past it, but no register receives it. */
  method LDrn(opcode: Byte, cpu: CPU)
    requires cpu.Valid()
    modifies cpu`PC, cpu`cycles
    ensures cpu.PC == old(cpu.PC) + 1 && cpu.cycles == old(cpu.cycles) + 2
    ensures cpu.registers[..] == old(cpu.registers[..]) && unchanged(cpu.mmu.Repr)
  {
    var reg := Bits3To5(opcode);
    var n := cpu.mmu.ReadByte(cpu.PC);
    cpu.IncrementPC();
    cpu.IncrementCycles(2);
  }

  /** LD r, n as evidently intended: register code (opcode >> 3) & 7 receives
      the immediate byte (code 6 storing it at (HL)). */
  method LDrnCorrected(opcode: Byte, cpu: CPU)
    requires cpu.Valid()
    modifies cpu`PC, cpu`cycles, cpu.registers
    modifies if Bits3To5(opcode) == HL_INDIRECT then {cpu.mmu} + cpu.RamFrame() else {}
    ensures cpu.Valid()
    ensures cpu.PC == old(cpu.PC) + 1 && cpu.cycles == old(cpu.cycles) + 2
    ensures Bits3To5(opcode) != HL_INDIRECT ==>
      cpu.registers[..] == old(cpu.registers[..])[Bits3To5(opcode) := old(cpu.mmu.Read(cpu.PC))]
    ensures Bits3To5(opcode) == HL_INDIRECT ==>
      cpu.registers[..] == old(cpu.registers[..]) && cpu.mmu.State() == Store(old(cpu.mmu.State()), old(cpu.HL()), old(cpu.mmu.Read(cpu.PC)))
      && cpu.mmu.ioHandlers == old(cpu.mmu.ioHandlers) && cpu.mmu.interruptFlags == old(cpu.mmu.interruptFlags)
  {
    var reg := Bits3To5(opcode);
    var n := cpu.mmu.ReadByte(cpu.PC);
    cpu.IncrementPC();
    cpu.SetRegister(reg, n);
    cpu.IncrementCycles(2);
  }

  /** LD (HL), n: the immediate byte is written to (HL). */
  method LDHLn(cpu: CPU)
    requires cpu.Valid()
    modifies cpu`PC, cpu`cycles, cpu.mmu`interruptEnable, cpu.RamFrame()
    ensures cpu.Valid()
    ensures cpu.PC == old(cpu.PC) + 1 && cpu.cycles == old(cpu.cycles) + 3
    ensures cpu.registers[..] == old(cpu.registers[..])
    ensures cpu.mmu.State() == Store(old(cpu.mmu.State()), old(cpu.HL()), old(cpu.mmu.Read(cpu.PC)))
  {
    var n := cpu.mmu.ReadByte(cpu.PC);
    cpu.IncrementPC();
    var hl := cpu.GetHL();
    cpu.mmu.WriteByte(hl, n);
    cpu.IncrementCycles(3);
  }

  /** LD r, r' (01 xxx yyy) as written: the register of bits 0-2 (`src`)
      receives the register of bits 3-5 (`dest`); with bits 0-2 = 6 the value goes
      to (HL) instead. One cycle, two when either field is 6. */
  method LDrr(opcode: Byte, cpu: CPU)
    requires cpu.Valid()
    modifies cpu`cycles, cpu.registers
    modifies if Bits0To2(opcode) == HL_INDIRECT then {cpu.mmu} + cpu.RamFrame() else {}
    ensures cpu.Valid()
    ensures cpu.PC == old(cpu.PC)
    ensures cpu.cycles == old(cpu.cycles) + if Bits0To2(opcode) == 6 || Bits3To5(opcode) == 6 then 2 else 1
    ensures Bits0To2(opcode) == HL_INDIRECT ==>
      cpu.registers[..] == old(cpu.registers[..]) && cpu.mmu.State() == Store(old(cpu.mmu.State()), old(cpu.HL()), old(cpu.Reg(Bits3To5(opcode))))
      && cpu.mmu.ioHandlers == old(cpu.mmu.ioHandlers) && cpu.mmu.interruptFlags == old(cpu.mmu.interruptFlags)
    ensures Bits0To2(opcode) != HL_INDIRECT ==>
      cpu.registers[..] == old(cpu.registers[..])[Bits0To2(opcode) := old(cpu.Reg(Bits3To5(opcode)))]
  {
    var src := Bits0To2(opcode);
    var dest := Bits3To5(opcode);
    var registerDest := cpu.GetRegister(dest);
    if src == 6 {
      var hl := cpu.GetHL();
      cpu.mmu.WriteByte(hl, registerDest);
      cpu.IncrementCycles(2);
      return;
    }
    if dest == 6 {
      cpu.SetRegister(src, registerDest);
      cpu.IncrementCycles(2);
      return;
    }
    cpu.SetRegister(src, registerDest);
    cpu.IncrementCycles(1);
  }

  /** LD r, r' as the opcode table and the handler's own names intend: the
      destination (bits 3-5) receives the source (bits 0-2). */
  method LDrrCorrected(opcode: Byte, cpu: CPU)
    requires cpu.Valid()
    modifies cpu`cycles, cpu.registers
    modifies if Bits3To5(opcode) == HL_INDIRECT then {cpu.mmu} + cpu.RamFrame() else {}
    ensures cpu.Valid()
    ensures cpu.PC == old(cpu.PC)
    ensures cpu.cycles == old(cpu.cycles) + if Bits0To2(opcode) == 6 || Bits3To5(opcode) == 6 then 2 else 1
    ensures Bits3To5(opcode) == HL_INDIRECT ==>
      cpu.registers[..] == old(cpu.registers[..]) && cpu.mmu.State() == Store(old(cpu.mmu.State()), old(cpu.HL()), old(cpu.Reg(Bits0To2(opcode))))
      && cpu.mmu.ioHandlers == old(cpu.mmu.ioHandlers) && cpu.mmu.interruptFlags == old(cpu.mmu.interruptFlags)
    ensures Bits3To5(opcode) != HL_INDIRECT ==>
      cpu.registers[..] == old(cpu.registers[..])[Bits3To5(opcode) := old(cpu.Reg(Bits0To2(opcode)))]
  {
    var src := Bits0To2(opcode);
    var dest := Bits3To5(opcode);
    var value := cpu.GetRegister(src);
    cpu.SetRegister(dest, value);
    cpu.IncrementCycles(if src == 6 || dest == 6 then 2 else 1);
  }

  /** LD A, (BC). */
  method LDABC(cpu: CPU)
    requires cpu.Valid()
    modifies cpu`cycles, cpu.registers
    ensures cpu.Valid()
    ensures cpu.PC == old(cpu.PC) && cpu.cycles == old(cpu.cycles) + 2
    ensures cpu.registers[..] ==
      old(cpu.registers[..])[A := old(cpu.mmu.Read((cpu.registers[B] as int) * 0x100 + (cpu.registers[C] as int)))]
  {
    ghost var regs := cpu.registers[..];
    var bc := Word(cpu.registers[C], cpu.registers[B]);
    var value := cpu.mmu.ReadByte(bc);
    assert value == old(cpu.mmu.Read((cpu.registers[B] as int) * 0x100 + (cpu.registers[C] as int)));
    cpu.SetRegister(A, value);
    assert cpu.registers[..] == regs[A := value];
    cpu.IncrementCycles(2);
  }

  /** LD A, (DE). */
  method LDADE(cpu: CPU)
    requires cpu.Valid()
    modifies cpu`cycles, cpu.registers
    ensures cpu.Valid()
    ensures cpu.PC == old(cpu.PC) && cpu.cycles == old(cpu.cycles) + 2
    ensures cpu.registers[..] ==
      old(cpu.registers[..])[A := old(cpu.mmu.Read((cpu.registers[D] as int) * 0x100 + (cpu.registers[E] as int)))]
  {
    ghost var regs := cpu.registers[..];
    var de := Word(cpu.registers[E], cpu.registers[D]);
    var value := cpu.mmu.ReadByte(de);
    assert value == old(cpu.mmu.Read((cpu.registers[D] as int) * 0x100 + (cpu.registers[E] as int)));
    cpu.SetRegister(A, value);
    assert cpu.registers[..] == regs[A := value];
    cpu.IncrementCycles(2);
  }

  /** LD (BC), A. */
  method LDBCA(cpu: CPU)
    requires cpu.Valid()
    modifies cpu`cycles, cpu.mmu`interruptEnable, cpu.RamFrame()
    ensures cpu.Valid()
    ensures cpu.PC == old(cpu.PC) && cpu.cycles == old(cpu.cycles) + 2
    ensures cpu.registers[..] == old(cpu.registers[..])
    ensures cpu.mmu.State() == Store(old(cpu.mmu.State()), old((cpu.registers[B] as int) * 0x100 + (cpu.registers[C] as int)), old(cpu.registers[A]))
  {
    var bc := Word(cpu.registers[C], cpu.registers[B]);
    var a := cpu.GetRegister(A);
    cpu.mmu.WriteByte(bc, a);
    cpu.IncrementCycles(2);
  }

  /** LD (DE), A. */
  method LDDEA(cpu: CPU)
    requires cpu.Valid()
    modifies cpu`cycles, cpu.mmu`interruptEnable, cpu.RamFrame()
    ensures cpu.Valid()
    ensures cpu.PC == old(cpu.PC) && cpu.cycles == old(cpu.cycles) + 2
    ensures cpu.registers[..] == old(cpu.registers[..])
    ensures cpu.mmu.State() == Store(old(cpu.mmu.State()), old((cpu.registers[D] as int) * 0x100 + (cpu.registers[E] as int)), old(cpu.registers[A]))
  {
    var de := Word(cpu.registers[E], cpu.registers[D]);
    var a := cpu.GetRegister(A);
    cpu.mmu.WriteByte(de, a);
    cpu.IncrementCycles(2);
  }

  /** LD A, (nn): the address is the little-endian pair of bytes at PC, PC + 1. */
  method LDAnn(cpu: CPU)
    requires cpu.Valid()
    modifies cpu`PC, cpu`cycles, cpu.registers
    ensures cpu.Valid()
    ensures cpu.PC == old(cpu.PC) + 2 && cpu.cycles == old(cpu.cycles) + 4
    ensures cpu.registers[..] ==
      old(cpu.registers[..])[A := old(cpu.mmu.Read(Address16(cpu.mmu.Read(cpu.PC), cpu.mmu.Read(cpu.PC + 1))))]
  {
    var nnLsb := cpu.mmu.ReadByte(cpu.PC);
    cpu.IncrementPC();
    var nnMsb := cpu.mmu.ReadByte(cpu.PC);
    cpu.IncrementPC();
    var address := Address16(nnLsb, nnMsb);
    var value := cpu.mmu.ReadByte(address);
    cpu.SetRegister(A, value);
    cpu.IncrementCycles(4);
  }

  /** LD (nn), A. */
  method LDnnA(cpu: CPU)
    requires cpu.Valid()
    modifies cpu`PC, cpu`cycles, cpu.mmu`interruptEnable, cpu.RamFrame()
    ensures cpu.Valid()
    ensures cpu.PC == old(cpu.PC) + 2 && cpu.cycles == old(cpu.cycles) + 4
    ensures cpu.registers[..] == old(cpu.registers[..])
    ensures cpu.mmu.State() == Store(old(cpu.mmu.State()), old(Address16(cpu.mmu.Read(cpu.PC), cpu.mmu.Read(cpu.PC + 1))), old(cpu.registers[A]))
  {
    var nnLsb := cpu.mmu.ReadByte(cpu.PC);
    cpu.IncrementPC();
    var nnMsb := cpu.mmu.ReadByte(cpu.PC);
    cpu.IncrementPC();
    var address := Address16(nnLsb, nnMsb);
    var registerA := cpu.GetRegister(A);
    cpu.mmu.WriteByte(address, registerA);
    cpu.IncrementCycles(4);
  }

  /** LD A, (0xFF00 + C). */
  method LDHAC(cpu: CPU)
    requires cpu.Valid()
    modifies cpu`cycles, cpu.registers
    ensures cpu.Valid()
    ensures cpu.PC == old(cpu.PC) && cpu.cycles == old(cpu.cycles) + 2
    ensures cpu.registers[..] == old(cpu.registers[..])[A := old(cpu.mmu.Read(HighPage(cpu.registers[C])))]
  {
    var registerC := cpu.GetRegister(C);
    var address := HighPage(registerC);
    var value := cpu.mmu.ReadByte(address);
    cpu.SetRegister(A, value);
    cpu.IncrementCycles(2);
  }

  /** LDH A, (n). */
  method LDHAn(cpu: CPU)
    requires cpu.Valid()
    modifies cpu`PC, cpu`cycles, cpu.registers
    ensures cpu.Valid()
    ensures cpu.PC == old(cpu.PC) + 1 && cpu.cycles == old(cpu.cycles) + 3
    ensures cpu.registers[..] == old(cpu.registers[..])[A := old(cpu.mmu.Read(HighPage(cpu.mmu.Read(cpu.PC))))]
  {
    var n := cpu.mmu.ReadByte(cpu.PC);
    cpu.IncrementPC();
    var address := HighPage(n);
    var value := cpu.mmu.ReadByte(address);
    cpu.SetRegister(A, value);
    cpu.IncrementCycles(3);
  }

  /** LDH (n), A. */
  method LDHnA(cpu: CPU)
    requires cpu.Valid()
    modifies cpu`PC, cpu`cycles, cpu.mmu`interruptEnable, cpu.RamFrame()
    ensures cpu.Valid()
    ensures cpu.PC == old(cpu.PC) + 1 && cpu.cycles == old(cpu.cycles) + 3
    ensures cpu.registers[..] == old(cpu.registers[..])
    ensures cpu.mmu.State() == Store(old(cpu.mmu.State()), old(HighPage(cpu.mmu.Read(cpu.PC))), old(cpu.registers[A]))
  {
    var n := cpu.mmu.ReadByte(cpu.PC);
    cpu.IncrementPC();
    var address := HighPage(n);
    var registerA := cpu.GetRegister(A);
    cpu.mmu.WriteByte(address, registerA);
    cpu.IncrementCycles(3);
  }
}
