/**
 The machine state owned by the CHIP-8 execute core of `chipotto::Emulator`:
 sixteen 8-bit general registers V0..VF, the 16-bit index register I, a
 sixteen-slot stack of 16-bit return addresses, the program counter and the
 stack pointer. The state is a passive value; every instruction handler is a
 pure transition from one `State` to the next.

 Fixed-width unsigned values are integers in their range. A conversion to
 `uint8_t` or `uint16_t`, and an addition that overflows one, is written out
 as a remainder (`Wrap8`, `Wrap16`); for these non-negative values the
 source's masks `& 0xF`, `& 0xFF` and `& 0xFFF` are remainders by 16, 256 and
 4096, and a shift right by k bits is a division by 2^k.
 */
module MachineState {

  type Byte = b: int | 0 <= b < 0x100
  type Word = w: int | 0 <= w < 0x1_0000

  /** A register number as decoded from one nibble of an instruction. */
  type RegIndex = i: int | 0 <= i < 16

  /** Register VF doubles as the carry / shifted-out-bit flag. */
  const VF: RegIndex := 0xF

  type RegisterFile = s: seq<Byte> | |s| == 16 witness seq(16, _ => 0)
  type CallStack = s: seq<Word> | |s| == 16 witness seq(16, _ => 0)

  /**
   The accessors GetRegisters, GetI, GetStack, GetPC and GetSP of the emulator
   are the fields of this datatype. The stack pointer is a free-running 16-bit
   value: it is never clamped, only masked when it selects a stack slot.
   */
  datatype State = State(regs: RegisterFile, i: Word, stack: CallStack, pc: Word, sp: Word)

  /** Conversion of an integer to an unsigned 8-bit value. */
  function Wrap8(v: int): Byte { v % 0x100 }

  /** Conversion of an integer to an unsigned 16-bit value. */
  function Wrap16(v: int): Word { v % 0x1_0000 }

  /** The stack slot a stack-pointer value selects: `sp & 0xF`. */
  function Slot(sp: Word): RegIndex { sp % 16 }

  /** Every register other than `x` holds the same value in `s` and `r`. */
  predicate OtherRegsUnchanged(s: State, r: State, x: RegIndex)
  {
    forall j :: 0 <= j < 16 && j != x ==> r.regs[j] == s.regs[j]
  }

  /** Every register other than `x` and VF holds the same value in `s` and `r`. */
  predicate OtherRegsUnchangedButFlag(s: State, r: State, x: RegIndex)
  {
    forall j :: 0 <= j < 16 && j != x && j != VF ==> r.regs[j] == s.regs[j]
  }

  /** The index register, the stack, PC and SP are the same in `s` and `r`. */
  predicate ControlUnchanged(s: State, r: State)
  {
    r.i == s.i && r.stack == s.stack && r.pc == s.pc && r.sp == s.sp
  }

  /**
   SetValueInRegisters: stores `value` into register `x` after converting it to
   an unsigned byte, so only its low eight bits survive (0xE32 is stored as
   0x32, and -1 as 0xFF).
   */
  function SetRegister(s: State, x: RegIndex, value: int): (r: State)
    ensures 0 <= value < 0x100 ==> r.regs[x] == value
    ensures (value - r.regs[x]) % 0x100 == 0
    ensures OtherRegsUnchanged(s, r, x)
    ensures ControlUnchanged(s, r)
  {
    s.(regs := s.regs[x := Wrap8(value)])
  }

  /** SetI: replaces the index register and nothing else. */
  function SetI(s: State, value: Word): (r: State)
    ensures r.i == value
    ensures r.regs == s.regs && r.stack == s.stack && r.pc == s.pc && r.sp == s.sp
  {
    s.(i := value)
  }

  /** Two writes of the same register agree exactly when the values agree modulo 256. */
  lemma SetRegisterTruncates(s: State, x: RegIndex, a: int, b: int)
    ensures SetRegister(s, x, a) == SetRegister(s, x, b) <==> a % 0x100 == b % 0x100
  {
  }

  // ---------------------------------------------------------------------
  // Instruction fields, in the standard CHIP-8 nibble layout
  // ---------------------------------------------------------------------

  /** The high nibble, which selects the opcode family. */
  function Family(w: Word): int { w / 0x1000 }

  /** x: bits 8..11, `(w >> 8) & 0xF`. */
  function X(w: Word): RegIndex { (w / 0x100) % 16 }

  /** y: bits 4..7, `(w >> 4) & 0xF`. */
  function Y(w: Word): RegIndex { (w / 0x10) % 16 }

  /** n: bits 0..3, the sub-opcode of the 8xy_ family. */
  function N(w: Word): int { w % 16 }

  /** kk: the low byte, `w & 0xFF`. */
  function KK(w: Word): Byte { w % 0x100 }

  /** nnn: the low twelve bits, an address, `w & 0xFFF`. */
  function NNN(w: Word): Word { w % 0x1000 }

  /** The instruction word with the given four nibbles, most significant first. */
  function Assemble(op: int, x: RegIndex, y: RegIndex, n: int): Word
    requires 0 <= op < 16 && 0 <= n < 16
  {
    op * 0x1000 + x * 0x100 + y * 0x10 + n
  }

  /** A word is the assembly of its four nibbles. */
  lemma AssembleDecoded(w: Word)
    ensures Assemble(Family(w), X(w), Y(w), N(w)) == w
  {
    var hi, lo := w / 0x100, w % 0x100;
    assert w == hi * 0x100 + lo;
    assert hi == Family(w) * 16 + X(w);
    assert lo == Y(w) * 16 + N(w);
  }
}
