/**
 Routing of one fetched instruction word to the handler of its family, as the
 emulator's caller does, and what every routed instruction leaves alone.
 */
module Dispatch {
  import opened MachineState
  import opened Opcodes

  /**
   The words this model gives a meaning to: 00EE, 1nnn, 2nnn, 3xkk, 4xkk,
   6xkk, 7xkk, 8xy0/2/3/4/E, Annn, Cxkk and Fx1E.
   */
  predicate Supported(w: Word)
  {
    var f := Family(w);
    || (f == 0x0 && w == 0x00EE)
    || f == 0x1 || f == 0x2 || f == 0x3 || f == 0x4 || f == 0x6 || f == 0x7
    || (f == 0x8 && Opcode8Modelled(w))
    || f == 0xA || f == 0xC
    || (f == 0xF && OpcodeFModelled(w))
  }

  /**
   Executes one supported instruction; `rnd` is the byte the random engine
   would produce, used only by Cxkk. Every instruction writes at most Vx and
   VF among the registers; only CALL writes the stack; only RET and CALL move
   SP; only Annn and Fx1E touch I; and VF changes only when it is Vx itself or
   the instruction is 8xy4 or 8xyE.
   */
  function Execute(s: State, w: Word, rnd: Byte): (r: State)
    requires Supported(w)
    ensures OtherRegsUnchangedButFlag(s, r, X(w))
    ensures r.stack != s.stack ==> Family(w) == 0x2
    ensures r.sp != s.sp ==> Family(w) == 0x0 || Family(w) == 0x2
    ensures r.i != s.i ==> Family(w) == 0xA || Family(w) == 0xF
    ensures r.regs != s.regs ==>
      Family(w) == 0x6 || Family(w) == 0x7 || Family(w) == 0x8 || Family(w) == 0xC
    ensures r.regs[VF] != s.regs[VF] ==>
      X(w) == VF || (Family(w) == 0x8 && (N(w) == 0x4 || N(w) == 0xE))
  {
    var f := Family(w);
    if f == 0x0 then Opcode0(s, w)
    else if f == 0x1 then Opcode1(s, w)
    else if f == 0x2 then Opcode2(s, w)
    else if f == 0x3 then Opcode3(s, w)
    else if f == 0x4 then Opcode4(s, w)
    else if f == 0x6 then Opcode6(s, w)
    else if f == 0x7 then Opcode7(s, w)
    else if f == 0x8 then Opcode8(s, w)
    else if f == 0xA then OpcodeA(s, w)
    else if f == 0xC then OpcodeC(s, w, rnd)
    else OpcodeF(s, w)
  }
}
