# CHIP-8 instruction execute core of chipotto::Emulator, in Dafny

This project models the opcode handlers of the `chipotto::Emulator` CHIP-8
interpreter. Each handler takes one 16-bit instruction word and transforms a
small machine state, which has these parts:

- sixteen 8-bit registers V0..VF, with VF doubling as the carry / shifted-out-bit flag;
- the 16-bit index register I;
- a sixteen-slot stack of 16-bit return addresses;
- the program counter PC and the stack pointer SP.

Every handler is a pure function `State × word → State` (`Opcodes.Opcode0` …
`Opcodes.OpcodeF`). `Dispatch.Execute` routes a word to its handler by the
high nibble. The emulator's implementation file is not part of this model.
What the handlers do is taken from the opcode test file, which states their
contracts, and from the standard CHIP-8 instruction set. Every property is stated for an arbitrary state, not
for the emulator's initial one.

Files:

- `state.dfy` (module `MachineState`): the state, the register write, the
  index write, and instruction-field decoding.
- `bits.dfy` (module `Bits`): bitwise AND and XOR on unsigned values, one bit
  at a time, with their algebra.
- `opcodes.dfy` (module `Opcodes`): the handlers.
- `dispatch.dfy` (module `Dispatch`): routing by opcode family, and what each
  instruction leaves untouched.
- `properties.dfy` (module `OpcodeProperties`): multi-step properties and the
  test scenarios.

Conventions:

- Fixed-width values are integers in their range. Wrap-around is written out
  as a remainder: `Wrap8` for a conversion to `uint8_t`, `Wrap16` for
  `uint16_t`.
- The masks `& 0xF`, `& 0xFF` and `& 0xFFF` on these non-negative values are
  remainders by 16, 256 and 4096.
- SP is a free-running 16-bit value. It is masked to four bits only when it
  selects a stack slot (`Slot`), so RET from SP = 0 gives SP = 0xFFFF and
  reads slot 0. The 16-bit width is a modelling choice: the emulator's own SP
  type is not visible, and the tests read SP into a `uint16_t`
  (testopcode.cpp:30 and 70).
- An external fetch loop adds 2 to PC after every instruction. JP therefore
  stores nnn − 2, modulo 2^16, while CALL stores nnn unchanged. Both behaviours
  are kept exactly as the tests fix them. `JumpCallAsymmetry` states what this
  means: after the loop's increment, a JP lands on nnn and a CALL on nnn + 2.

Where the test text and its assertions disagree, the model follows this rule:

- The SNE test's "branch taken" / "branch not taken" comments are swapped
  relative to its assertions. The model follows the assertions: writing 0xE32
  stores 0x32, which differs from 0xE5, so the first SNE skips.
- The 7xkk test compares VF with the unwrapped sum `prev + 0xE5`. That can
  only hold when the sum does not overflow, because the register array holds
  `uint8_t`. The model wraps modulo 256. Its contract gives the plain sum
  exactly in the no-overflow case.
- The JP tests compare PC with `expected - 2` computed as an `int`. For nnn <
  2 that is negative, which no unsigned PC can equal. The model wraps modulo
  2^16, so nnn = 0 gives PC = 0xFFFE.
- The RET test compares SP with `Sp-1`, also computed as an `int`
  (testopcode.cpp:36). From SP = 0 that expects −1, which no unsigned SP can
  equal. The model wraps modulo 2^16, so SP becomes 0xFFFF.

## Model

| member | source | states |
|---|---|---|
| MachineState.SetRegister | testopcode.cpp:108-111 | Register x keeps only the low eight bits of the value: the stored byte is congruent to the value modulo 256 and equals it when it already fits. Other registers, I, the stack, PC and SP are unchanged. |
| MachineState.SetRegisterTruncates | testopcode.cpp:108-111 | Two writes to one register give the same state exactly when the values agree modulo 256, e.g. 0xE32 and 0x32. |
| MachineState.SetI | testopcode.cpp:271 | I takes the given value and nothing else changes. |
| MachineState.AssembleDecoded | testopcode.cpp:145-153 | Any word is recovered from its four nibble fields (family, x, y, n), so the decoding loses nothing. |
| Opcodes.Opcode0 | testopcode.cpp:29-36 | RET: PC is the stack entry in slot SP & 0xF, and SP + 1 wraps back to the old SP (SP' = SP − 1 modulo 2^16). The registers, I and the stack are unchanged. |
| Opcodes.Opcode1 | testopcode.cpp:43-47 | JP: PC + 2 wraps to w & 0xFFF, and PC is nnn − 2 whenever nnn ≥ 2. Nothing else changes. |
| Opcodes.Opcode2 | testopcode.cpp:69-77 | CALL: SP' − 1 wraps to SP. Slot SP' & 0xF holds the pre-call PC and every other slot is unchanged. PC is w & 0xFFF with no −2. The registers and I are unchanged. |
| Opcodes.Opcode3 | testopcode.cpp:84-98 | SE: PC changes iff Vx == kk, and when it does it advances by 2 modulo 2^16. Nothing else changes. |
| Opcodes.Opcode4 | testopcode.cpp:104-118 | SNE: PC changes iff Vx != kk, and when it does it advances by 2 modulo 2^16. Nothing else changes. |
| Opcodes.Opcode6 | testopcode.cpp:124-127 | LD Vx, byte: Vx is kk. The other registers and the control state are unchanged. |
| Opcodes.Opcode7 | testopcode.cpp:133-139 | ADD Vx, byte: subtracting kk modulo 256 recovers the old Vx, and without overflow Vx is exactly old Vx + kk. VF and the other registers are unchanged unless x is F. |
| Opcodes.LoadReg | testopcode.cpp:145-153 | 8xy0: Vx equals Vy and Vy is unchanged. No other register and no control state changes. |
| Opcodes.AndReg | testopcode.cpp:156-168 | 8xy2: the new Vx is the greatest common submask of Vx and Vy. It has no bit outside either operand, and every byte with that property is a submask of it, so it is Vx & Vy. It is at most both operands. Vy and everything else are unchanged. |
| Opcodes.XorReg | testopcode.cpp:171-183 | 8xy3: XORing the new Vx with Vy gives back the old Vx, Vy is unchanged, and x == y clears Vx. Everything else is unchanged. |
| Opcodes.AddRegCarry | testopcode.cpp:186-219 | 8xy4 with x ≠ F: VF·256 + Vx' equals the exact sum Vx + Vy. Registers other than x and F, and the control state, are unchanged. |
| Opcodes.ShiftLeft | testopcode.cpp:222-241 | 8xyE with x ≠ F: VF·256 + Vx' equals twice the old Vx. Registers other than x and F, and the control state, are unchanged. |
| Opcodes.Opcode8 | testopcode.cpp:142-241 | The 8xy_ family touches only Vx and VF and never the control state. The sub-opcodes 0, 2 and 3 do not touch VF unless x is F. |
| Opcodes.OpcodeA | testopcode.cpp:247-251 | LD I, addr: I is w & 0xFFF, a 12-bit address. Nothing else changes. |
| Opcodes.OpcodeC | testopcode.cpp:257-262 | RND: for any random byte, the new Vx is the greatest common submask of that byte and kk, so it is rnd & kk. It is at most both. Everything else is unchanged. |
| Opcodes.OpcodeF | testopcode.cpp:268-275 | Fx1E: subtracting Vx modulo 2^16 recovers the old I, and without overflow I is exactly I + Vx. Nothing else changes. |
| Dispatch.Execute | testopcode.cpp:25-276 | Any modelled instruction writes at most Vx and VF among the registers. Only CALL writes the stack, only RET and CALL move SP, only Annn and Fx1E change I, and only families 6, 7, 8 and C change registers. VF changes only if it is Vx or the instruction is 8xy4 or 8xyE. |
| OpcodeProperties.JumpOverwrites | testopcode.cpp:57-62 | A later JP overwrites the effect of an earlier one completely. |
| OpcodeProperties.JumpsLastWins | testopcode.cpp:50-63 | After any non-empty sequence of jumps, the state is that of the last jump alone, so PC + 2 is the last nnn. |
| OpcodeProperties.JumpCallAsymmetry | testopcode.cpp:43-77 | JP and CALL to the same nnn differ by the fetch loop's 2: JP's PC + 2 is nnn and CALL's PC is nnn. |
| OpcodeProperties.CallThenReturn | testopcode.cpp:29-77 | RET after CALL restores PC, SP, the registers and I. The stack differs only in the slot the call wrote, which holds the return address. |
| OpcodeProperties.NestedCallsReturn | testopcode.cpp:29-77 | Up to 16 nested CALLs followed by as many RETs restore PC, SP, the registers and I. Slots the calls did not reach are unchanged. |
| OpcodeProperties.SkipsAreComplementary | testopcode.cpp:80-119 | For the same register and byte, exactly one of SE and SNE skips. |
| OpcodeProperties.SkipIfEqualScenario | testopcode.cpp:84-98 | From any state, SE VF, E5 skips after VF := E5 and then does not skip after VF := E7. |
| OpcodeProperties.SkipIfNotEqualScenario | testopcode.cpp:104-118 | From any state, SNE VF, E5 skips after VF := E32 (stored as 32) and then does not skip after VF := E5. |
| OpcodeProperties.LoadImmediateScenario | testopcode.cpp:124-127 | 6FE5 leaves E5 in VF. |
| OpcodeProperties.AddImmediateCancels | testopcode.cpp:133-139 | Two 7xkk on the same register whose bytes sum to 0 modulo 256 restore the whole state. |
| OpcodeProperties.LoadRegScenario | testopcode.cpp:145-153 | After V3 := F, 8D30 leaves F in VD and in V3. |
| OpcodeProperties.AndIdempotent | testopcode.cpp:156-168 | A second 8xy2 with the same x and y changes nothing. |
| OpcodeProperties.GreatestCommonSubmaskIsAnd | testopcode.cpp:156-168 | A byte that is a common submask of a and b, and that every common submask of a and b is a submask of, equals a & b. So the contracts of 8xy2 and Cxkk fix the written value. |
| OpcodeProperties.XorTwiceRestores | testopcode.cpp:171-183 | With x ≠ y, a second 8xy3 restores the whole state. |
| OpcodeProperties.AddCarryFlag | testopcode.cpp:186-219 | 8xy4 with x ≠ F: VF = 1 iff Vx + Vy > 255, VF = 0 iff the sum is at most 255, and Vx' is the sum modulo 256. |
| OpcodeProperties.AddCarryScenarios | testopcode.cpp:186-219 | C + 3 gives F with VF = 0, and 80 + 82 gives 02 with VF = 1. |
| OpcodeProperties.ShiftFlag | testopcode.cpp:222-241 | 8xyE with x ≠ F: VF = 1 iff bit 7 of the old Vx is set, and Vx' is twice the old Vx modulo 256. |
| OpcodeProperties.ShiftScenarios | testopcode.cpp:222-241 | FC shifts to F8 with VF = 1, and 02 shifts to 04 with VF = 0. |
| OpcodeProperties.LoadIndexScenario | testopcode.cpp:247-251 | ADFC loads DFC into I. |
| OpcodeProperties.AddIndexScenario | testopcode.cpp:268-275 | With I = C and VD = 2, FD1E leaves E in I. |
| OpcodeProperties.RandomOutcomes | testopcode.cpp:254-263 | Over all random bytes, Cxkk can leave exactly the bytes with no bit outside kk in Vx. kk = 0 always yields 0. |

## Left out

- The random engine (`std::random_device` / `std::mt19937`) is not modelled. Cxkk takes the random byte as a parameter, and every property of it holds for all bytes.
- The random test-data generator and the unit-test framework are test plumbing, not behaviour.
- The emulator implementation file is not part of this model. It covers ROM loading, memory, display, keyboard, timers, audio and the outer fetch/decode loop that adds 2 to PC.
- No test shows what 00E0, 5xy0, 8xy1/5/6/7, 9xy0, Bnnn, Dxyn, ExNN or FxNN other than Fx1E do. `Dispatch.Supported` excludes them, and so do the requires of `Opcodes.Opcode0`, `Opcodes.Opcode8` and `Opcodes.OpcodeF`. Routing such a word is the caller's responsibility.
- Opcodes.AddRegCarry: when x is F, the contract says nothing about VF or Vx. No test shows whether the flag or the result is written last. The definition writes the flag last.
- Opcodes.ShiftLeft: when x is F, the contract says nothing about VF or Vx, for the same reason as 8xy4.
- The emulator's initial register, stack, PC, SP and I values are not modelled. No property depends on them.
- The read accessors (GetPC, GetSP, GetI, GetStack, GetRegisters) are the fields of `State` and have no members of their own.
- Bits.BitAnd and Bits.BitXor are the bit-by-bit definitions of `&` and `^`. They are not proved equal to the bit-vector operators, because converting between bit-vectors and integers is too expensive for the solver.
