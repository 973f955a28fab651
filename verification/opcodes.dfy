/**
 One transition per opcode family of `chipotto::Emulator` (Opcode0, Opcode1,
 ... OpcodeF). Each handler receives the whole 16-bit instruction word and
 reads its fields in the standard nibble layout. The external fetch loop adds
 2 to PC after every instruction; the handlers below do not, which is why JP
 stores nnn - 2 and why a taken skip adds only 2.
 */
module Opcodes {
  import opened MachineState
  import opened Bits

  /** 00EE - RET: PC takes the return address in the slot SP selects, then SP steps down. */
  function Opcode0(s: State, w: Word): (r: State)
    requires w == 0x00EE
    ensures r.pc == s.stack[Slot(s.sp)]
    ensures Wrap16(r.sp + 1) == s.sp
    ensures r.regs == s.regs && r.i == s.i && r.stack == s.stack
  {
    s.(pc := s.stack[Slot(s.sp)], sp := Wrap16(s.sp - 1))
  }

  /**
   1nnn - JP addr: PC becomes nnn - 2, modulo 2^16, so that the fetch loop's
   increment lands exactly on nnn.
   */
  function Opcode1(s: State, w: Word): (r: State)
    ensures Wrap16(r.pc + 2) == NNN(w)
    ensures NNN(w) >= 2 ==> r.pc == NNN(w) - 2
    ensures r.regs == s.regs && r.i == s.i && r.stack == s.stack && r.sp == s.sp
  {
    s.(pc := Wrap16(NNN(w) - 2))
  }

  /**
   2nnn - CALL addr: SP steps up, the pre-call PC is stored in the slot the new
   SP selects, and PC becomes nnn with no compensation for the fetch loop.
   */
  function Opcode2(s: State, w: Word): (r: State)
    ensures Wrap16(r.sp - 1) == s.sp
    ensures r.stack[Slot(r.sp)] == s.pc
    ensures forall j :: 0 <= j < 16 && j != Slot(r.sp) ==> r.stack[j] == s.stack[j]
    ensures r.pc == NNN(w) && r.pc < 0x1000
    ensures r.regs == s.regs && r.i == s.i
  {
    var sp := Wrap16(s.sp + 1);
    s.(sp := sp, stack := s.stack[Slot(sp) := s.pc], pc := NNN(w))
  }

  /** 3xkk - SE Vx, byte: skips the next instruction exactly when Vx equals kk. */
  function Opcode3(s: State, w: Word): (r: State)
    ensures r.pc != s.pc <==> s.regs[X(w)] == KK(w)
    ensures s.regs[X(w)] == KK(w) ==> (r.pc - s.pc) % 0x1_0000 == 2
    ensures r.regs == s.regs && r.i == s.i && r.stack == s.stack && r.sp == s.sp
  {
    if s.regs[X(w)] == KK(w) then s.(pc := Wrap16(s.pc + 2)) else s
  }

  /** 4xkk - SNE Vx, byte: skips the next instruction exactly when Vx differs from kk. */
  function Opcode4(s: State, w: Word): (r: State)
    ensures r.pc != s.pc <==> s.regs[X(w)] != KK(w)
    ensures s.regs[X(w)] != KK(w) ==> (r.pc - s.pc) % 0x1_0000 == 2
    ensures r.regs == s.regs && r.i == s.i && r.stack == s.stack && r.sp == s.sp
  {
    if s.regs[X(w)] != KK(w) then s.(pc := Wrap16(s.pc + 2)) else s
  }

  /** 6xkk - LD Vx, byte. */
  function Opcode6(s: State, w: Word): (r: State)
    ensures r.regs[X(w)] == KK(w)
    ensures OtherRegsUnchanged(s, r, X(w)) && ControlUnchanged(s, r)
  {
    s.(regs := s.regs[X(w) := KK(w)])
  }

  /**
   7xkk - ADD Vx, byte: 8-bit wrap-around and no flag, so subtracting kk
   modulo 256 recovers the old Vx, and without overflow Vx simply grows by kk.
   */
  function Opcode7(s: State, w: Word): (r: State)
    ensures Wrap8(r.regs[X(w)] - KK(w)) == s.regs[X(w)]
    ensures s.regs[X(w)] + KK(w) < 0x100 ==> r.regs[X(w)] == s.regs[X(w)] + KK(w)
    ensures OtherRegsUnchanged(s, r, X(w)) && ControlUnchanged(s, r)
  {
    var x := X(w);
    s.(regs := s.regs[x := Wrap8(s.regs[x] + KK(w))])
  }

  // ---------------------------------------------------------------------
  // The 8xy_ family, dispatched on the low nibble
  // ---------------------------------------------------------------------

  /** The 8xy_ sub-opcodes this model covers: 0 (LD), 2 (AND), 3 (XOR), 4 (ADD), E (SHL). */
  predicate Opcode8Modelled(w: Word)
  {
    N(w) == 0x0 || N(w) == 0x2 || N(w) == 0x3 || N(w) == 0x4 || N(w) == 0xE
  }

  /** 8xy0 - LD Vx, Vy. */
  function LoadReg(s: State, x: RegIndex, y: RegIndex): (r: State)
    ensures r.regs[x] == s.regs[y] && r.regs[y] == s.regs[y]
    ensures OtherRegsUnchanged(s, r, x) && ControlUnchanged(s, r)
  {
    s.(regs := s.regs[x := s.regs[y]])
  }

  /**
   8xy2 - AND Vx, Vy: Vx keeps exactly the bits it shares with Vy. The new Vx
   is a submask of both operands, and every byte that is a submask of both is
   a submask of it, which determines it as Vx & Vy.
   */
  function AndReg(s: State, x: RegIndex, y: RegIndex): (r: State)
    ensures IsSubmask(r.regs[x], s.regs[x]) && IsSubmask(r.regs[x], s.regs[y])
    ensures forall m: Byte :: IsSubmask(m, s.regs[x]) && IsSubmask(m, s.regs[y]) ==> IsSubmask(m, r.regs[x])
    ensures r.regs[x] <= s.regs[x] && r.regs[x] <= s.regs[y]
    ensures x != y ==> r.regs[y] == s.regs[y]
    ensures OtherRegsUnchanged(s, r, x) && ControlUnchanged(s, r)
  {
    var a, b := s.regs[x], s.regs[y];
    BitAndBelow(a, b);
    AndIsGreatestSubmask(a, b);
    s.(regs := s.regs[x := BitAnd(a, b)])
  }

  /** 8xy3 - XOR Vx, Vy: XORing the new Vx with Vy again gives back the old Vx. */
  function XorReg(s: State, x: RegIndex, y: RegIndex): (r: State)
    ensures x != y ==> BitXor(r.regs[x], s.regs[y]) == s.regs[x] && r.regs[y] == s.regs[y]
    ensures x == y ==> r.regs[x] == 0
    ensures OtherRegsUnchanged(s, r, x) && ControlUnchanged(s, r)
  {
    var a, b := s.regs[x], s.regs[y];
    ByteRangeIsPowerOfTwo();
    BitOpsBelow(a, b, 0x100);
    BitXorInvolution(a, b);
    XorZeroMeansEqual(a, b);
    s.(regs := s.regs[x := BitXor(a, b)])
  }

  /**
   8xy4 - ADD Vx, Vy: the 9-bit sum is formed first; Vx takes its low byte and
   VF its carry bit, so VF and Vx together hold the exact sum. When x is F the
   result write is followed by the flag write; no contract depends on that.
   */
  function AddRegCarry(s: State, x: RegIndex, y: RegIndex): (r: State)
    ensures x != VF ==> r.regs[VF] as int * 0x100 + r.regs[x] == s.regs[x] as int + s.regs[y]
    ensures OtherRegsUnchangedButFlag(s, r, x) && ControlUnchanged(s, r)
  {
    var sum := s.regs[x] as int + s.regs[y];
    var withResult := s.regs[x := sum % 0x100];
    s.(regs := withResult[VF := if sum > 0xFF then 1 else 0])
  }

  /**
   8xyE - SHL Vx {, Vy}: VF takes bit 7 of Vx as it was before the shift and Vx
   is shifted left by one within 8 bits, so VF and Vx together hold twice the
   old Vx. Vy is not read. The flag is written last; no contract depends on
   that when x is F.
   */
  function ShiftLeft(s: State, x: RegIndex): (r: State)
    ensures x != VF ==> r.regs[VF] as int * 0x100 + r.regs[x] == 2 * s.regs[x] as int
    ensures OtherRegsUnchangedButFlag(s, r, x) && ControlUnchanged(s, r)
  {
    var flag := (s.regs[x] / 0x80) % 2;
    var withResult := s.regs[x := (s.regs[x] as int * 2) % 0x100];
    s.(regs := withResult[VF := flag])
  }

  /** Opcode8: routes an 8xy_ word to its sub-operation by the low nibble. */
  function Opcode8(s: State, w: Word): (r: State)
    requires Opcode8Modelled(w)
    ensures OtherRegsUnchangedButFlag(s, r, X(w)) && ControlUnchanged(s, r)
    ensures N(w) != 0x4 && N(w) != 0xE ==> OtherRegsUnchanged(s, r, X(w))
  {
    var x, y := X(w), Y(w);
    match N(w)
    case 0x0 => LoadReg(s, x, y)
    case 0x2 => AndReg(s, x, y)
    case 0x3 => XorReg(s, x, y)
    case 0x4 => AddRegCarry(s, x, y)
    case 0xE => ShiftLeft(s, x)
  }

  // ---------------------------------------------------------------------
  // Index register, random byte
  // ---------------------------------------------------------------------

  /** Annn - LD I, addr: I becomes the 12-bit address nnn. */
  function OpcodeA(s: State, w: Word): (r: State)
    ensures r.i == NNN(w) && r.i < 0x1000
    ensures r.regs == s.regs && r.stack == s.stack && r.pc == s.pc && r.sp == s.sp
  {
    s.(i := NNN(w))
  }

  /**
   Cxkk - RND Vx, byte: Vx becomes a random byte masked by kk, that is, the
   greatest common submask of the two. The random byte `rnd` is a parameter,
   standing for the emulator's random engine.
   */
  function OpcodeC(s: State, w: Word, rnd: Byte): (r: State)
    ensures IsSubmask(r.regs[X(w)], rnd) && IsSubmask(r.regs[X(w)], KK(w))
    ensures forall m: Byte :: IsSubmask(m, rnd) && IsSubmask(m, KK(w)) ==> IsSubmask(m, r.regs[X(w)])
    ensures r.regs[X(w)] <= KK(w) && r.regs[X(w)] <= rnd
    ensures OtherRegsUnchanged(s, r, X(w)) && ControlUnchanged(s, r)
  {
    BitAndBelow(rnd, KK(w));
    AndIsGreatestSubmask(rnd, KK(w));
    s.(regs := s.regs[X(w) := BitAnd(rnd, KK(w))])
  }

  /** The FxNN sub-opcodes this model covers: 1E (ADD I, Vx). */
  predicate OpcodeFModelled(w: Word)
  {
    KK(w) == 0x1E
  }

  /**
   Fx1E - ADD I, Vx: plain 16-bit addition with no flag and no 12-bit mask, so
   subtracting Vx modulo 2^16 recovers the old I.
   */
  function OpcodeF(s: State, w: Word): (r: State)
    requires OpcodeFModelled(w)
    ensures Wrap16(r.i - s.regs[X(w)]) == s.i
    ensures s.i + s.regs[X(w)] < 0x1_0000 ==> r.i == s.i + s.regs[X(w)]
    ensures r.regs == s.regs && r.stack == s.stack && r.pc == s.pc && r.sp == s.sp
  {
    s.(i := Wrap16(s.i + s.regs[X(w)]))
  }
}
