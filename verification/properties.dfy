/**
 Properties of the opcode handlers that relate several calls: the behaviour
 pinned down by the emulator's opcode tests, stated for an arbitrary state
 rather than for a freshly constructed emulator, and the round trips and
 invariants the handlers keep.
 */
module OpcodeProperties {
  import opened MachineState
  import opened Bits
  import opened Opcodes

  // ---------------------------------------------------------------------
  // JP and CALL / RET
  // ---------------------------------------------------------------------

  /** A later jump overwrites PC regardless of an earlier one. */
  lemma JumpOverwrites(s: State, a: Word, b: Word)
    ensures Opcode1(Opcode1(s, a), b) == Opcode1(s, b)
  {
  }

  /** The state after executing the jumps `ws` one after another. */
  function Jumps(s: State, ws: seq<Word>): State
    decreases |ws|
  {
    if |ws| == 0 then s else Jumps(Opcode1(s, ws[0]), ws[1..])
  }

  /**
   After any non-empty run of jumps, the state is that of the last jump alone:
   PC + 2 is its nnn, and nothing else has changed.
   */
  lemma {:induction false} JumpsLastWins(s: State, ws: seq<Word>)
    requires |ws| > 0
    ensures Jumps(s, ws) == Opcode1(s, ws[|ws| - 1])
    ensures Wrap16(Jumps(s, ws).pc + 2) == NNN(ws[|ws| - 1])
    decreases |ws|
  {
    if |ws| > 1 {
      JumpsLastWins(Opcode1(s, ws[0]), ws[1..]);
      JumpOverwrites(s, ws[0], ws[|ws| - 1]);
    }
  }

  /**
   JP and CALL to the same nnn disagree by the fetch loop's increment: after
   the loop adds 2, a JP lands on nnn but a CALL lands on nnn + 2.
   */
  lemma JumpCallAsymmetry(s: State, w: Word)
    ensures Wrap16(Opcode1(s, w).pc + 2) == NNN(w) == Opcode2(s, w).pc
    ensures Wrap16(Opcode2(s, w).pc + 2) == NNN(w) + 2
  {
  }

  /**
   RET undoes CALL: PC, SP, the registers and I are restored; the stack keeps
   the return address in the slot the call used and is otherwise unchanged.
   */
  lemma CallThenReturn(s: State, w: Word)
    ensures var r := Opcode0(Opcode2(s, w), 0x00EE);
      && r.pc == s.pc && r.sp == s.sp && r.regs == s.regs && r.i == s.i
      && r.stack == s.stack[Slot(Wrap16(s.sp + 1)) := s.pc]
  {
  }

  /** The state after executing the calls `ws` one after another. */
  function Calls(s: State, ws: seq<Word>): State
    decreases |ws|
  {
    if |ws| == 0 then s else Calls(Opcode2(s, ws[0]), ws[1..])
  }

  /** The state after executing RET `k` times. */
  function Returns(s: State, k: nat): State
  {
    if k == 0 then s else Opcode0(Returns(s, k - 1), 0x00EE)
  }

  /** The stack slot `e` entries below the one `sp` selects. */
  function SlotBelow(sp: Word, e: int): RegIndex
  {
    (sp - e) % 16
  }

  lemma SlotBelowAfterPush(sp: Word, e: int)
    ensures SlotBelow(Wrap16(sp + 1), e + 1) == SlotBelow(sp, e)
    ensures 0 < e + 1 < 16 ==> SlotBelow(Wrap16(sp + 1), e + 1) != Slot(Wrap16(sp + 1))
  {
  }

  /**
   Calls nested at most sixteen deep, followed by as many returns, restore PC,
   SP, the registers and I; the stack slots at and below the starting SP that
   the calls did not reach keep their contents. Sixteen is the depth of the
   stack: the slot index is SP masked to four bits, so a seventeenth nested
   call would reuse the first call's slot.
   */
  lemma {:induction false} NestedCallsReturn(s: State, ws: seq<Word>)
    requires |ws| <= 16
    ensures var r := Returns(Calls(s, ws), |ws|);
      && r.pc == s.pc && r.sp == s.sp && r.regs == s.regs && r.i == s.i
      && forall e :: 0 <= e < 16 - |ws| ==>
           r.stack[SlotBelow(s.sp, e)] == s.stack[SlotBelow(s.sp, e)]
    decreases |ws|
  {
    if |ws| > 0 {
      var n := |ws|;
      var s1 := Opcode2(s, ws[0]);
      var rest := ws[1..];
      assert Calls(s, ws) == Calls(s1, rest);
      NestedCallsReturn(s1, rest);
      var t := Returns(Calls(s1, rest), n - 1);
      var r := Returns(Calls(s, ws), n);
      assert r == Opcode0(t, 0x00EE);
      SlotBelowAfterPush(s.sp, -1);
      assert Slot(t.sp) == SlotBelow(s1.sp, 0);
      forall e | 0 <= e < 16 - n
        ensures r.stack[SlotBelow(s.sp, e)] == s.stack[SlotBelow(s.sp, e)]
      {
        SlotBelowAfterPush(s.sp, e);
      }
    }
  }

  // ---------------------------------------------------------------------
  // Conditional skips
  // ---------------------------------------------------------------------

  /** For the same register and byte, exactly one of SE and SNE skips. */
  lemma SkipsAreComplementary(s: State, se: Word, sne: Word)
    requires X(se) == X(sne) && KK(se) == KK(sne)
    ensures (Opcode3(s, se).pc != s.pc) != (Opcode4(s, sne).pc != s.pc)
  {
  }

  /**
   SE on VF with kk = E5: it skips after VF is set to E5, and does not skip
   after VF is set to E7.
   */
  lemma SkipIfEqualScenario(s: State)
    ensures var r1 := Opcode3(SetRegister(s, 0xF, 0xE5), 0x3FE5);
      && r1.pc == Wrap16(s.pc + 2)
      && Opcode3(SetRegister(r1, 0xF, 0xE7), 0x3FE5).pc == r1.pc
  {
  }

  /**
   SNE on VF with kk = E5: setting VF to E32 stores 32, which differs from E5,
   so it skips; after VF is set to E5 it does not skip.
   */
  lemma SkipIfNotEqualScenario(s: State)
    ensures var r1 := Opcode4(SetRegister(s, 0xF, 0xE32), 0x4FE5);
      && r1.pc == Wrap16(s.pc + 2)
      && Opcode4(SetRegister(r1, 0xF, 0xE5), 0x4FE5).pc == r1.pc
  {
  }

  // ---------------------------------------------------------------------
  // Immediate loads and adds
  // ---------------------------------------------------------------------

  /** 6FE5 leaves E5 in VF. */
  lemma LoadImmediateScenario(s: State)
    ensures Opcode6(s, 0x6FE5).regs[0xF] == 0xE5
  {
  }

  /**
   Two 7xkk additions to the same register whose bytes sum to 0 modulo 256
   cancel, restoring the whole state.
   */
  lemma AddImmediateCancels(s: State, a: Word, b: Word)
    requires X(a) == X(b) && (KK(a) + KK(b)) % 0x100 == 0
    ensures Opcode7(Opcode7(s, a), b) == s
  {
  }

  // ---------------------------------------------------------------------
  // The 8xy_ family
  // ---------------------------------------------------------------------

  /** Setting V3 to F and then executing 8D30 leaves F in both VD and V3. */
  lemma LoadRegScenario(s: State)
    ensures var r := Opcode8(SetRegister(s, 0x3, 0xF), 0x8D30);
      r.regs[0xD] == 0xF && r.regs[0x3] == 0xF
  {
  }

  /** AND is idempotent: repeating 8xy2 changes nothing more. */
  lemma AndIdempotent(s: State, x: RegIndex, y: RegIndex)
    ensures AndReg(AndReg(s, x, y), x, y) == AndReg(s, x, y)
  {
    var r1 := AndReg(s, x, y);
    var r2 := AndReg(r1, x, y);
    if x == y {
      BitAndSelf(s.regs[x]);
      BitAndSelf(r1.regs[x]);
    } else {
      BitAndAbsorbs(s.regs[x], s.regs[y]);
    }
    assert r2.regs[x] == r1.regs[x];
    assert r2.regs == r1.regs;
  }

  /**
   The greatest-common-submask clauses of the contracts of 8xy2 and Cxkk
   determine the result: the only byte meeting them is the AND itself.
   */
  lemma GreatestCommonSubmaskIsAnd(a: Byte, b: Byte, v: Byte)
    requires IsSubmask(v, a) && IsSubmask(v, b)
    requires forall m: Byte :: IsSubmask(m, a) && IsSubmask(m, b) ==> IsSubmask(m, v)
    ensures v == BitAnd(a, b)
  {
    var c := BitAnd(a, b);
    BitAndBelow(a, b);
    AndIsGreatestSubmask(a, b);
    assert IsSubmask(c, v);
    BitAndGreatest(v, a, b);
    SubmaskAntisymmetric(c, v);
  }

  /** 8xy3 executed twice with distinct x and y restores the whole state. */
  lemma XorTwiceRestores(s: State, x: RegIndex, y: RegIndex)
    requires x != y
    ensures XorReg(XorReg(s, x, y), x, y) == s
  {
  }

  /**
   8xy4 with x other than F: VF is 1 exactly when the true sum exceeds 255,
   and Vx is the sum modulo 256.
   */
  lemma AddCarryFlag(s: State, x: RegIndex, y: RegIndex)
    requires x != VF
    ensures var r := AddRegCarry(s, x, y);
      && (r.regs[VF] == 1 <==> s.regs[x] as int + s.regs[y] > 0xFF)
      && (r.regs[VF] == 0 <==> s.regs[x] as int + s.regs[y] <= 0xFF)
      && r.regs[x] == (s.regs[x] as int + s.regs[y]) % 0x100
  {
  }

  /** VD = C plus VC = 3 gives F with no carry; VD = 80 plus VC = 82 gives 02 with carry. */
  lemma AddCarryScenarios(s: State)
    ensures var r := Opcode8(SetRegister(SetRegister(s, 0xD, 0xC), 0xC, 0x3), 0x8DC4);
      r.regs[0xD] == 0xF && r.regs[0xF] == 0
    ensures var r := Opcode8(SetRegister(SetRegister(s, 0xD, 0x80), 0xC, 0x82), 0x8DC4);
      r.regs[0xD] == 0x02 && r.regs[0xF] == 1
  {
  }

  /** 8xyE with x other than F: VF is bit 7 of the old Vx and Vx is twice the old Vx modulo 256. */
  lemma ShiftFlag(s: State, x: RegIndex)
    requires x != VF
    ensures var r := ShiftLeft(s, x);
      && (r.regs[VF] == 1 <==> s.regs[x] >= 0x80)
      && (r.regs[VF] == 0 <==> s.regs[x] < 0x80)
      && r.regs[x] == (2 * s.regs[x] as int) % 0x100
  {
  }

  /** VD = FC shifts to F8 with VF = 1; VD = 02 shifts to 04 with VF = 0. */
  lemma ShiftScenarios(s: State)
    ensures var r := Opcode8(SetRegister(s, 0xD, 0xFC), 0x8DCE);
      r.regs[0xD] == 0xF8 && r.regs[0xF] == 1
    ensures var r := Opcode8(SetRegister(s, 0xD, 0x02), 0x8DCE);
      r.regs[0xD] == 0x04 && r.regs[0xF] == 0
  {
  }

  // ---------------------------------------------------------------------
  // Index register and random byte
  // ---------------------------------------------------------------------

  /** ADFC loads DFC into I. */
  lemma LoadIndexScenario(s: State)
    ensures OpcodeA(s, 0xADFC).i == 0xDFC
  {
  }

  /** With I = C and VD = 2, FD1E leaves E in I. */
  lemma AddIndexScenario(s: State)
    ensures OpcodeF(SetI(SetRegister(s, 0xD, 0x2), 0xC), 0xFD1E).i == 0xE
  {
  }

  /**
   The values Cxkk can leave in Vx, over all random bytes, are exactly the
   bytes with no bit outside kk; in particular kk = 0 always yields 0.
   */
  lemma RandomOutcomes(s: State, w: Word, m: Byte)
    ensures (exists rnd: Byte :: OpcodeC(s, w, rnd).regs[X(w)] == m) <==> IsSubmask(m, KK(w))
    ensures KK(w) == 0 ==> forall rnd: Byte :: OpcodeC(s, w, rnd).regs[X(w)] == 0
  {
    if IsSubmask(m, KK(w)) {
      assert OpcodeC(s, w, m).regs[X(w)] == m;
    }
  }
}
