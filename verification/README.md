# The EVM backend, verified

This project models the bottom half of a Rust-to-EVM compiler and proves what its
comments promise. Dafny checks everything: `dafny verify dfyconfig.toml`.

The EVM computes on 256-bit words; Rust computes on `u<w>` and `i<w>`. The backend
keeps one invariant between the two: an unsigned value is zero above its width, a
signed one is sign-extended across the word. A *repair* (a mask or a sign extension)
stored on an instruction restores it. The compiler assembles opcodes and labels into
bytes, wraps a runtime into deployable initcode, and a tracer accounts for the gas a
run spends.

| modules | what they hold |
|---|---|
| `Sequences`, `Powers`, `Words` | sequence ends; powers of two and modular arithmetic; 256-bit words, their bits, and the EVM's arithmetic on them (Yellow Paper, Appendix H.2) |
| `Types`, `WidthRepair` | types, the invariant, repairs and conversions; each operation's repaired result against exact integers |
| `Instructions`, `Arena`, `Builder` | operations and terminators, the function arenas, the function builder |
| `BuilderRuns`, `BlockRuns` | what holds after any history of builder calls, and the blocks read off the calls |
| `Machine`, `MachineLaws` | what each operation and opcode does to values and to the world, and what that means in bytes, integers and bits |
| `Soundness`, `Control` | a small-step interpreter with a call stack, type soundness over all its runs, and where each step takes control |
| `Computation`, `Transfers`, `Programs` | from a builder call to what a run computes, stores, loads and returns |
| `Effects`, `Removal`, `AllCallees` | the effect sets, the removal rule in a block, and in a block that calls unknown code |
| `Twins`, `Pruning`, `Reordering` | the removal rule over whole programs, and which operations may change places |
| `Isa`, `Immediates`, `Disassembler` | the opcode table, big-endian immediates, the decoder and the jump destinations |
| `Layout`, `Assembler`, `AssemblerRuns`, `LabelRuns`, `Reassembly` | the byte layout of emitted items, the assembler object, all its call histories, labels and errors, and decoding followed by re-emission |
| `TinyEvm`, `Deployer` | an interpreter of `PUSH`, `DUP`, `CODECOPY` and `RETURN`, and the deployer's fixpoint |
| `Tracer`, `TraceRuns` | the tracer, and its steps, frames and costs read off the hooks |

The objects the source updates in place (`Asm`, the decoder's cursor, the function
arenas, the function builder, the tracer) are classes. Each method is proved against
a function on values (`Assembler.Step`, `Builder.Step`, `Tracer.Apply`, the `With…`
functions of `Arena`); the theorems over whole histories are about those functions.

## Side conditions of type soundness

The builder leaves these to a verifier that the repository does not have yet. They
are the hypotheses of `Soundness.TypeSoundness`, with a start in a function of the
program entered with well-formed arguments:

- every value's width lies in 1..=256;
- operands, edge arguments, returned values and call results have the integer type
  their position asks for (only where a repair is `None`; repaired operations accept
  operands of any type);
- literals are well-formed at their type;
- raw opcodes are typed at a 256-bit type;
- an alloca's address is below 2^32.

## Where the code and its comments part

- `asm.rs:66-70` says that `bit_width` rejects every literal that breaks the
  invariant. It does for unsigned types. For `i<w>` narrower than a word it accepts
  the literals of exactly `w` significant bits, which are not well-formed, and rejects
  the negative ones in range, which are (`WidthRepair.BitWidthCheck`,
  `WidthRepair.SignBitLiteralSlipsThrough`).
- `inst.rs:169` calls a 0/1 result well-formed at any width. At `i1` a 1 is not
  (`WidthRepair.ComparisonFitsIff`); the builder types comparisons `BOOL`, so no built
  function shows it.
- `effect.rs:18-23` lets an unread pure instruction go wherever it stands. In front of
  a `GAS` that stays, deleting one that costs something changes the reading
  (`Removal.DeadAddBeforeGas`). Calls left aside, the rule is met exactly when no `GAS`
  stays behind a deleted instruction that costs something in the run
  (`Removal.RemovalIsSoundIff`); free ones, such as widening conversions, do no harm.
  Calls hand the gas on, and a callee may mind (`AllCallees.DeadAddBeforeCall`): for
  all callees the rule is met exactly when no call stays there either
  (`AllCallees.RuleHoldsForAllCalleesIff`).
- `effect.rs` declares `MSIZE` a memory read and a load a memory read, so the two do
  not conflict; yet a load can enlarge active memory, which `MSIZE` observes
  (`Reordering.LoadAndMsizeDoNotSwap`). `GAS` declares a context read and conflicts
  with no load; yet the load's cost shows in it (`Reordering.GasAndLoadDoNotSwap`).
  `Reordering.SwappableIff` says exactly when non-conflicting operations swap.
- `inst.rs:132-133` says that a raw opcode's results follow the table. The builder gives
  it one result or none, as the caller's choice of method asks
  (`BuilderRuns.RawResultsUnchecked`); `BuilderRuns.ResultCountsMatch` has the condition.
- `link.rs:27-31` speaks of convergence after one or two rounds. The loop assembles
  exactly three times from Shanghai on and twice before (`Deployer.Deploy`).

## Model

| member | source | states |
|---|---|---|
| Soundness.TypeSoundness | src/backend/evm-codegen/src/ir/builder.rs:196-220 | Type soundness. Every value bound in any open frame, after any number of steps of any program whose functions come out of builder calls and meet the listed side conditions, is well-formed at its `value_type`; block parameters, loops and internal calls included, nothing assumed of callee results, and under any gas schedule that prices an instruction by itself, its operand words and the world. The repairs are only the stored ones. |
| Soundness.RunStaysSound | src/backend/evm-codegen/src/ir/types.rs:8-18 | The invariant over every open frame survives any number of steps from any state that has it. |
| Soundness.StepKeeps | src/backend/evm-codegen/src/ir/types.rs:8-18 | One step keeps it, whichever instruction or terminator is next: calls push a frame, returns pop one and bind the results in the caller. Which edge is taken, and what its target then holds, is said by the rows of `Control`. |
| Soundness.ExecInstKeeps | src/backend/evm-codegen/src/ir/inst.rs:152-202 | Executing one instruction and applying its stored repair to its first result keeps every bound value well-formed. |
| Soundness.UnrepairedIsWellFormed | src/backend/evm-codegen/src/ir/inst.rs:168-196 | Every `Repair::None` that `default_repair` grants to a computing operation is justified at every width by the well-formedness of the operands alone. |
| Control.BranchGoes | src/backend/evm-codegen/src/ir/inst.rs:347-351 | From a `Brif` whose condition is bound, the top frame goes to the start of the `then` block when the word is nonzero and of the `otherwise` block when it is zero, with the parameters there holding the words of that edge's operands position by position and every other value, frame and the world as before; it is stuck exactly when that edge has unbound operands or the wrong number of them. |
| Control.SwitchGoes | src/backend/evm-codegen/src/ir/inst.rs:352-357 | From a `Switch` the frame goes in the same way along the first case whose literal is the word, and along the default when there is none. |
| Control.JumpGoes | src/backend/evm-codegen/src/ir/inst.rs:346 | A jump takes its one edge. |
| Control.BranchIsSelect | src/backend/evm-codegen/src/ir/inst.rs:100-104 | The diamond law: a branch to one block that passes `a` on its `then` edge and `b` on the other binds the parameter to the word that `Select` of the condition, `a` and `b` computes. |
| Control.CallGoes | src/backend/evm-codegen/src/ir/inst.rs:142-149 | An internal call opens a frame at the entry of its callee whose only bound values are the entry parameters, holding the operand words in order; the frames below stay as they are, and it happens exactly when the counts match and the gas suffices. |
| Control.ReturnGoes | src/backend/evm-codegen/src/ir/inst.rs:359-361 | A return closes the frame; the call that was waiting below binds its results to the returned words in order, and its frame goes on behind the call. |
| Control.HaltsEnd | src/backend/evm-codegen/src/ir/inst.rs:363-385 | Every halt, and a return from the outermost frame, ends the run. |
| Programs.StepComputes | src/backend/evm-codegen/src/ir/builder.rs:416-420 | From the call to the run: where a run of a finished function reaches the instruction that its `k`th builder call recorded, the step binds the handle that call returned to the Rust result of the operation on the words its arguments hold, in the order the caller named them, pays for it and moves on. |
| Programs.DifferenceRuns | src/backend/evm-codegen/src/ir/builder.rs:257-259 | A whole instance: the function built by `sub` of its two `u8` parameters and `ret`, entered with any two octets, binds the result to their difference modulo 256. |
| Types.WellFormedIffInRange | src/backend/evm-codegen/src/ir/types.rs:10-12 | The bit-level invariant (zeros above an unsigned width, copies of the sign bit above a signed one) holds exactly when the whole word reads as a number in the range of the type, exactly when that number equals the one its low bits denote. |
| Types.RepairWraps | src/backend/evm-codegen/src/ir/types.rs:131-171 | The mask or sign extension of a type, normalised away at the full width, turns any word into the well-formed word with the value of its low bits. |
| Types.MaskIsAnd | src/backend/evm-codegen/src/ir/types.rs:145-146 | The arithmetic reading of a mask is `AND` with `(1 << bits) - 1`, bit for bit. |
| Types.SextReplicates | src/backend/evm-codegen/src/ir/types.rs:147-150 | Sign extension keeps the bits below the width and copies bit `bits-1` to all above. |
| Types.SextIsSignExtend | src/backend/evm-codegen/src/ir/types.rs:147-149 | At a byte-aligned width a sign extension is the single `SIGNEXTEND` of the Yellow Paper, Appendix H.2. |
| Types.SextIsShiftPair | src/backend/evm-codegen/src/ir/types.rs:147-149 | At any width it is the `SHL`/`SAR` pair. |
| Types.ConvertIsRustAs | src/backend/evm-codegen/src/ir/types.rs:173-206 | `for_convert` is Rust's `as` for every pair of types: the result is well-formed at the destination and denotes the source value wrapped to it. |
| Types.ConvertIsExact | src/backend/evm-codegen/src/ir/types.rs:181-206 | It returns `None` if and only if every well-formed source word is already well-formed at the destination, the full-word normalisation included. |
| Types.UnrepresentableWitness | src/backend/evm-codegen/src/ir/types.rs:181-206 | When a repair is stored there is a well-formed source word that needs it, a whole `2^bits` away from its wrapped value. |
| Types.ConvertComposesIff | src/backend/evm-codegen/src/ir/types.rs:181-206 | Converting through a middle type agrees with converting directly on all source words if and only if the destination is no wider than the middle type or the first conversion is free. |
| Types.ConvertComposes | src/backend/evm-codegen/src/ir/types.rs:181-206 | The same law for one word, in the direction a caller uses. |
| Types.ConvertRoundTrips | src/backend/evm-codegen/src/ir/types.rs:181-206 | Converting to a type at least as wide and back is the identity, whatever the signs. |
| Types.ComparisonIsFree | src/backend/evm-codegen/src/ir/types.rs:22-24 | `SLT`/`LT` and `EQ` on well-formed words decide the Rust-level comparison with no preparation. |
| WidthRepair.AddWraps | src/backend/evm-codegen/src/ir/inst.rs:44-45 | `Add`, repaired, is exact addition wrapped to the width, at every width and both signs. |
| WidthRepair.SubWraps | src/backend/evm-codegen/src/ir/inst.rs:46 | `Sub`, repaired, is exact subtraction wrapped. |
| WidthRepair.MulWraps | src/backend/evm-codegen/src/ir/inst.rs:47 | `Mul`, repaired, is the exact product wrapped. |
| WidthRepair.ExpWraps | src/backend/evm-codegen/src/ir/inst.rs:59 | `Exp`, repaired, is the exact power wrapped, for every exponent word. |
| WidthRepair.ShlWraps | src/backend/evm-codegen/src/ir/inst.rs:77-80 | `Shl`, repaired, is multiplication by `2^shift` wrapped, shifts of 256 or more included. |
| WidthRepair.SignedDivWraps | src/backend/evm-codegen/src/ir/inst.rs:48-54 | Signed `Div` truncates toward zero and is exact but for the minimum over -1, which wraps to the minimum; a zero divisor gives 0. |
| WidthRepair.UnsignedDivExact | src/backend/evm-codegen/src/ir/inst.rs:191-193 | Unsigned `Div` and `Rem` need no repair and satisfy `x = y*q + r` with `r < y`; both are 0 on a zero divisor. |
| WidthRepair.SignedRemExact | src/backend/evm-codegen/src/ir/inst.rs:55-56 | Signed `Rem` is the truncated remainder, 0 on a zero divisor. |
| WidthRepair.TruncDivides | src/backend/evm-codegen/src/ir/inst.rs:48-56 | The truncated quotient and remainder used as the reference put the dividend back together, with a remainder smaller than the divisor. |
| WidthRepair.ShrExact | src/backend/evm-codegen/src/ir/inst.rs:195-196 | Unsigned `Shr` needs no repair and is division by `2^shift` for every shift word. |
| WidthRepair.SarExact | src/backend/evm-codegen/src/ir/inst.rs:198-199 | Signed `Sar` rounds toward minus infinity for every shift word. |
| WidthRepair.BitwiseStaysWellFormed | src/backend/evm-codegen/src/ir/inst.rs:181-185 | And, or and xor of well-formed words are well-formed, for either sign. |
| WidthRepair.NotComplements | src/backend/evm-codegen/src/ir/inst.rs:71-76 | `Not` gives `-1 - x` on signed types with no repair and `max - x` on unsigned ones with the mask. |
| WidthRepair.SelectPicks | src/backend/evm-codegen/src/ir/inst.rs:100-104 | The branch-free formula (the mask `0 - cond` selects one operand, its complement the other) equals the chosen operand whenever `cond` is 0 or 1. |
| WidthRepair.CompareDecides | src/backend/evm-codegen/src/ir/inst.rs:20-34 | All six comparisons, those synthesised with `ISZERO` included, decide the Rust comparison of the operands and give a well-formed `BOOL`. |
| Machine.CheckedArithmeticFlags | src/backend/evm-codegen/src/ir/inst.rs:61-65 | Checked arithmetic gives the exact result wrapped to the width, which is the part that speaks of the EVM computation; the flag is taken to mean what the source says of it, and is shown to be 1 exactly when the wrapped value differs from the exact one. |
| WidthRepair.WrapExactIff | src/backend/evm-codegen/src/ir/types.rs:10-12 | An integer wraps to itself exactly when the type can represent it. |
| WidthRepair.RawResultsFitIff | src/backend/evm-codegen/src/ir/builder.rs:451-452 | Storing no repair for raw opcode results is safe if and only if the result type is 256 bits wide. |
| WidthRepair.ComparisonFitsIff | src/backend/evm-codegen/src/ir/inst.rs:169-170 | A 0/1 result is well-formed at every type but `i1`, where 1 is not: the comment's "any width" fails there and only there. |
| WidthRepair.BitWidthCheck | src/backend/evm-codegen/src/asm.rs:66-76 | Comparing `bit_width` with the width of a type decides well-formedness of a literal exactly for unsigned types; for signed ones the lemma says exactly which literals the check misjudges. |
| WidthRepair.SignBitLiteralSlipsThrough | src/backend/evm-codegen/src/asm.rs:66-70 | The concrete failure: at `i<w>` narrower than a word, the literal `2^(w-1)` passes the check and breaks the invariant. |
| Immediates.WidthIsLeast | src/backend/evm-codegen/src/asm.rs:58-64 | `width` is the least number of bytes that holds the value, for every value. |
| Immediates.BitWidthIsLeast | src/backend/evm-codegen/src/asm.rs:66-76 | `bit_width` is the least number of bits that holds it. |
| Immediates.BytesDenote | src/backend/evm-codegen/src/asm.rs:49-55 | Writing a number big-endian in enough bytes and reading it back is the identity. |
| Immediates.DenoteBytes | src/backend/evm-codegen/src/asm.rs:49-55 | Reading bytes and writing them back in as many bytes is the identity. |
| Immediates.SignificantDenotes | src/backend/evm-codegen/src/asm.rs:276 | The narrowed bytes have the value of the whole immediate and a nonzero first byte. |
| Assembler.Asm.constructor | src/backend/evm-codegen/src/asm.rs:203-212 | A fresh assembler: no bytes, labels, fixups or error. |
| Assembler.Asm.Op | src/backend/evm-codegen/src/asm.rs:232-255 | One item of one byte, or the first failure: unknown name, an operand-carrying family, an opcode too new for the fork. The bytes, labels and fixups stay the layout of the emitted items. |
| Assembler.Asm.Push | src/backend/evm-codegen/src/asm.rs:261-277 | The narrowest push; zero is `PUSH0` from Shanghai on and `PUSH1 0` before. |
| Assembler.Asm.Dup | src/backend/evm-codegen/src/asm.rs:280-288 | `DUPn` for 1..16, otherwise the bad-depth failure. |
| Assembler.Asm.Swap | src/backend/evm-codegen/src/asm.rs:292-300 | `SWAPn` for 1..16, otherwise the bad-depth failure. |
| Assembler.Asm.NewLabel | src/backend/evm-codegen/src/asm.rs:304-308 | Gives back the next label; the only call that still acts after a failure. `LabelRuns.LabelsDiffer` says that it is fresh. |
| Assembler.Asm.Bind | src/backend/evm-codegen/src/asm.rs:316-325 | Records the offset and emits the `JUMPDEST`, or fails when the label is bound already. |
| Assembler.Asm.PushLabel | src/backend/evm-codegen/src/asm.rs:335-346 | A `PUSH2` with two zero bytes and a fixup pointing into them. |
| Assembler.Asm.Finish | src/backend/evm-codegen/src/asm.rs:349-367 | The error, the size check, then the patched bytes, which are the layout of the items with references resolved. |
| Assembler.Asm.EmitByte | src/backend/evm-codegen/src/asm.rs:372-382 | One byte, or the too-new failure and nothing else. |
| Assembler.Asm.EmitFamilyByte | src/backend/evm-codegen/src/asm.rs:386-389 | `DUP` and `SWAP` bytes are all in the table and exist on every fork. |
| Assembler.Asm.PushBytes | src/backend/evm-codegen/src/asm.rs:392-400 | The opcode that announces exactly the bytes that follow. |
| Assembler.Asm.Fail | src/backend/evm-codegen/src/asm.rs:402-405 | The first failure is kept. |
| Assembler.PatchFixups | src/backend/evm-codegen/src/asm.rs:358-364 | The patching loop applies every fixup, or stops at the first unbound label and names it. |
| Layout.PatchingResolves | src/backend/evm-codegen/src/asm.rs:358-364 | Patching two bytes at each fixup of the laid-out code gives the layout of the items with each reference replaced by a `PUSH2` of its label's offset; no other byte changes. |
| Layout.EncodeDecodes | src/backend/evm-codegen/src/asm/disasm.rs:128-148 | Laying items out and disassembling gives exactly the items' instructions: decoding of a concatenation, at every offset. |
| AssemblerRuns.FinishSucceedsIff | src/backend/evm-codegen/src/asm.rs:349-367 | `finish` succeeds if and only if no call was refused, every referenced label was bound, and the code is at most 65535 bytes or has no reference; otherwise after a refusal it returns the reason for the first one. |
| AssemblerRuns.RunSticks | src/backend/evm-codegen/src/asm.rs:402-405 | After the first refusal the emitted bytes and the recorded error never change again, whatever is called. |
| AssemblerRuns.RunBindsOnce | src/backend/evm-codegen/src/asm.rs:320-322 | No history binds a label twice. |
| LabelRuns.RunCountsLabels | src/backend/evm-codegen/src/asm.rs:304-308 | In every history, refused calls included, the label handed out next is the number of labels asked for before. |
| LabelRuns.LabelsDiffer | src/backend/evm-codegen/src/asm.rs:304-308 | Labels handed out by two different calls of one history differ, whatever was refused between them. |
| LabelRuns.HandlesBindOnce | src/backend/evm-codegen/src/asm.rs:316-325 | A history that binds only labels it was handed, each at most once, never has a binding refused, and its error is never a label bound twice. |
| LabelRuns.FirstRefusalExplained | src/backend/evm-codegen/src/asm.rs:232-325 | The error that `finish` returns after a refusal fits the first refused call: the name it used, the helper of the family the byte belongs to, the two forks, the depth given, or a label that an earlier call bound. |
| LabelRuns.FinishErrors | src/backend/evm-codegen/src/asm.rs:354-361 | With nothing refused, `finish` says how long the code is when it is too long and has references, and otherwise names the first label, in the order of the references, that no call bound. |
| AssemblerRuns.FinishRoundTrips | src/backend/evm-codegen/src/asm.rs:232-406 | For every call history whose `finish` succeeds, disassembling the result yields one instruction per emitting call, in order, with the same opcode and value, nothing truncated and no opcode newer than the fork. |
| AssemblerRuns.JumpsAreSafe | src/backend/evm-codegen/src/asm.rs:316-367 | Every label reference in finished code reads, as 16 big-endian bits, the offset of the one `JUMPDEST` that binding its label emitted, which is in `jumpdests`; the cast to `u16` loses nothing. |
| Disassembler.Instructions.Next | src/backend/evm-codegen/src/asm/disasm.rs:128-148 | The iterator yields the head of the remaining decoding and advances by its size, or leaves the position alone at the end. |
| Disassembler.DisassembleTiles | src/backend/evm-codegen/src/asm/disasm.rs:108-148 | Arbitrary bytes decode to instructions that tile the input: the bytes concatenate back, each pc is the previous plus its size, each reads its table row, and only the last can be truncated. |
| Disassembler.DecodingIsUnique | src/backend/evm-codegen/src/asm/disasm.rs:108-148 | There is no other such tiling. |
| Disassembler.JumpdestsAreTheValidDestinations | src/backend/evm-codegen/src/asm/disasm.rs:151-161 | `jumpdests` is the set D(c) of section 9.4.3 of the Ethereum Yellow Paper. |
| Disassembler.JumpdestMembership | src/backend/evm-codegen/src/asm/disasm.rs:157-161 | An offset is listed exactly when a decoded `JUMPDEST` starts there. |
| Reassembly.ReassemblyPreserves | src/backend/evm-codegen/src/asm/disasm.rs:20-23 | Re-emitting the decoded instructions of any untruncated code known on the fork succeeds, gives the same instructions up to push width with equal values, and never more bytes; the bytes are identical if and only if every push is already the narrowest. |
| Reassembly.Reemit | src/backend/evm-codegen/src/asm/disasm/tests.rs:174-208 | The decode-and-re-emit loop drives a fresh assembler with exactly one call per decoded instruction. |
| Reassembly.Reassemble | src/backend/evm-codegen/src/asm/disasm/tests.rs:174-208 | What the loop returns has the properties of the preservation lemma. |
| Deployer.AssemblePrologue | src/tooling/evm-testkit/src/link.rs:44-54 | Driving the assembler through the seven calls always succeeds, with the predicted length. |
| Deployer.Deploy | src/tooling/evm-testkit/src/link.rs:26-42 | The fixpoint loop terminates on every fork after exactly 3 assemblies from Shanghai on and 2 before, never errors, adds a prologue of at most 18 bytes before the runtime, and the initcode when executed returns exactly the runtime. |
| Deployer.PrologueLength | src/tooling/evm-testkit/src/link.rs:27-31 | The length as a function of the embedded offset: at most 18 bytes, and only a zero offset can be shorter than any other one-byte offset. |
| Deployer.PrologueReturnsRuntime | src/tooling/evm-testkit/src/link.rs:15-25 | Any prologue that embeds its own length returns, when executed in front of the runtime, that runtime byte for byte. |
| TinyEvm.ExecutePrefix | src/tooling/evm-testkit/src/link.rs:15-25 | Executing code byte by byte agrees with executing the instructions its prefix disassembles to. |
| Tracer.Tracer.EnterFrame | src/tooling/evm-testkit/src/trace.rs:102-106 | Opens a frame with a fresh id. |
| Tracer.Tracer.LeaveFrame | src/tooling/evm-testkit/src/trace.rs:108-111 | Closes the innermost frame; depth saturates at zero. |
| Tracer.Tracer.OnStep | src/tooling/evm-testkit/src/trace.rs:159-172 | Records a step at the current depth in the innermost frame, with no cost yet; `TraceRuns.StepsFollowEvents` says what it holds. |
| Tracer.Tracer.OnStepEnd | src/tooling/evm-testkit/src/trace.rs:174-178 | Charges the last step the saturating gas difference. |
| Tracer.Tracer.ChargeFrameOpeners | src/tooling/evm-testkit/src/trace.rs:144-155 | The backward pass with a map equals the forward definition: a call-category step with a later step in its own frame costs the saturating gap to the first such step; every other cost, every other field and the order are unchanged. |
| Tracer.Tracer.Finish | src/tooling/evm-testkit/src/trace.rs:113-130 | Charging, then rebasing. |
| Tracer.RebasedKeepsDifferences | src/tooling/evm-testkit/src/trace.rs:116-129 | Rebasing puts some step at depth 0 and keeps all differences and all other fields. |
| Tracer.RunBookkeeps | src/tooling/evm-testkit/src/trace.rs:101-111 | For every interleaving of events: depth is the number of open frames, open ids strictly increase, and all steps of one frame share its depth. |
| Tracer.IdsAreNeverReused | src/tooling/evm-testkit/src/trace.rs:102-106 | A closed frame's id never opens again and no later step carries it. |
| TraceRuns.StepsFollowEvents | src/tooling/evm-testkit/src/trace.rs:159-178 | For every sequence of events: as many steps as step starts, and the `k`th step has the pc, opcode, gas and stack of the `k`th step start, the depth and the innermost frame of the moment it came, and as cost its gas less what the last step end before the next start left, saturating, or 0 when there was none. |
| TraceRuns.BeginsAreTheStarts | src/tooling/evm-testkit/src/trace.rs:159-172 | The positions the steps are matched with are those of the step starts, all of them and in order. |
| TraceRuns.InnermostIsLastOpened | src/tooling/evm-testkit/src/trace.rs:102-111 | The innermost frame is the one opened by the last call or create that has not been closed, found by counting openings and closings, and its id is the number of openings up to it; no frame is open exactly when there is no such call. |
| TraceRuns.FramesNest | src/tooling/evm-testkit/src/trace.rs:102-111 | Events that close no more frames than they open leave the frames below untouched, and the depth moves by what they open less what they close. |
| TraceRuns.CostsFollowEvents | src/tooling/evm-testkit/src/trace.rs:159-178 | When every step is ended before the next event, the cost of a step is the gas of its start less the gas of the end right behind it. |
| TraceRuns.FrameCostsTelescope | src/tooling/evm-testkit/src/trace.rs:132-155 | When the gas at the hooks of a frame flows from step to step, the charged costs of the frame add up to the gas at its first step start minus the gas at the end of its last step, child frames notwithstanding. |
| TraceRuns.OpenersAre | src/tooling/evm-testkit/src/trace.rs:140-148 | The opcodes charged this way are the six that create or call. |
| Effects.UnionIsUnion | src/backend/evm-codegen/src/ir/effect.rs:71-73 | Union adds flags and no others. |
| Effects.ContainsIsSubset | src/backend/evm-codegen/src/ir/effect.rs:75-78 | `contains` is inclusion of flag sets, both ways. |
| Effects.IntersectsIsOverlap | src/backend/evm-codegen/src/ir/effect.rs:80-83 | `intersects` holds exactly when a flag is shared. |
| Effects.FlagsOfRow | src/backend/evm-codegen/src/ir/effect.rs:106-145 | Every flag of every row of the opcode table, by what the opcode touches: calls and creations read and write memory besides being external, logs read it, the copies write it. |
| Instructions.ArgsInOrder | src/backend/evm-codegen/src/ir/inst.rs:403-417 | What a terminator reads, form by form: the condition before the edges, the `then` operands before the `otherwise` operands, the cases in order before the default, pointer before length. |
| MachineLaws.LoadAfterStore | src/backend/evm-codegen/src/ir/inst.rs:115-118 | A word stored in memory is the word loaded from the same address, and bytes outside its 32 keep their values. |
| Removal.PureIgnoresWorld | src/backend/evm-codegen/src/ir/inst.rs:205-250 | An operation classified pure leaves the world alone and gives the same results in any other world. |
| Removal.RemovalIsSound | src/backend/evm-codegen/src/ir/effect.rs:18-23 | The removal rule: deleting any set of pure instructions whose results neither a later kept instruction nor the terminator reads keeps the block runnable, every value but the deleted ones, every value its terminator reads, and the world, which has exactly the deleted instructions' cost more gas. Asked for: no `GAS` kept behind a deleted instruction that costs something in the run, and calls kept there that go the same way with the gas saved on top. |
| Removal.RemovalIsSoundIff | src/backend/evm-codegen/src/ir/effect.rs:18-23 | The exact condition under any gas schedule, free instructions included: where the calls kept behind a charged deletion go the same way with the gas saved on top, what the rule allows leaves the block's values and world as they were if and only if no `GAS` is kept behind a charged deletion. |
| Removal.DeadAddBeforeGas | src/backend/evm-codegen/src/ir/effect.rs:51-55 | The concrete failure: the rule allows deleting a dead `add` that costs something in front of a `GAS` that the function returns, and the returned word changes. |
| AllCallees.RuleHoldsForAllCalleesIff | src/backend/evm-codegen/src/ir/effect.rs:18-23 | The exact condition over all callees: for a block that runs, with prices fixed per instruction and calls not free, what the rule allows leaves values and world as they were in every environment that differs in its callees if and only if neither a `GAS` nor a call is kept behind a deleted instruction with a price. |
| AllCallees.DeadAddBeforeCall | src/backend/evm-codegen/src/ir/effect.rs:61-64 | The concrete failing callee: behind a dead `add` with a price stands a call whose result the function returns, and for some callee the rule breaks the block. |
| Pruning.StepSimulates | src/backend/evm-codegen/src/ir/effect.rs:18-23 | Deleting dead pure instructions in every function at once: each step of the program is one step of the pruned program, or none where the instruction is gone, and keeps the two stacks of frames matched. |
| Pruning.PrunedHolds | src/backend/evm-codegen/src/ir/effect.rs:18-23 | The transformation itself: a pruned block holds exactly the instructions not deleted, and keeps its parameters and its terminator. |
| Pruning.PruningIsSound | src/backend/evm-codegen/src/ir/effect.rs:18-23 | The removal rule over whole programs, `GAS` included: mark as tainted the values that depend on a `GAS` reading, where none of them decides a branch, reaches an effect or leaves the frame in a halt. Every run, of any length, through loops, block parameters and internal calls, is matched by a run of the pruned program that is no longer, spends no more gas, and reaches the same world, the same stack of frames, every value but the deleted and the tainted ones, and the same terminator with the same operands. |
| Pruning.NothingTainted | src/backend/evm-codegen/src/ir/effect.rs:18-23 | A program without `GAS`, whose external callees are blind to gas, meets the discipline with nothing tainted: there pruning keeps every value but the deleted ones. |
| Reordering.ActionConfined | src/backend/evm-codegen/src/ir/inst.rs:205-250 | Every operation that does not hand away control writes only the components its effects declare, and what it writes and returns depends only on components they declare; active memory size, which `MSIZE` reads, and the gas left, which `GAS` reads, are the two exceptions. |
| Reordering.WorldsCommute | src/backend/evm-codegen/src/ir/effect.rs:38-64 | Two such operations whose declared writes miss the other's reads and writes, in either order that can be paid for, reach the same world but for its gas, with the same results except those of `MSIZE` and `GAS`. |
| Reordering.SwappableIff | src/backend/evm-codegen/src/ir/effect.rs:107-113 | They may swap, results included, if and only if neither is an `MSIZE` beside an operation that enlarges memory nor a `GAS` beside one that costs anything. |
| Reordering.ExchangeKeepsBlock | src/backend/evm-codegen/src/ir/effect.rs:38-64 | Exchanging two neighbours in a block: when their effects do not conflict, neither reads or rebinds the other's results, neither is `MSIZE` or `GAS`, and nothing behind them observes gas (`GAS`, or a call whose callee is not blind to it), the block ends with the same bindings and, gas aside, the same world. |
| Reordering.LoadAndMsizeDoNotSwap | src/backend/evm-codegen/src/ir/effect.rs:110-113 | The concrete failure: a load and `MSIZE` declare no conflict and do not commute on fresh memory. |
| Reordering.GasAndLoadDoNotSwap | src/backend/evm-codegen/src/ir/effect.rs:51-55 | The other concrete failure: `GAS` and a load declare no conflict and do not commute wherever the load costs anything. |
| Instructions.BlockCalls | src/backend/evm-codegen/src/ir/inst.rs:389-401 | The edges of a terminator, each once and in branch order; exactly the edges control can leave through. |
| Instructions.TerminatorArgs | src/backend/evm-codegen/src/ir/inst.rs:403-417 | The terminator's own operands, then the edge arguments in branch order; exactly the values it can read. |
| Arena.Function.constructor | src/backend/evm-codegen/src/ir/func.rs:72-87 | A function with one entry block that carries one parameter per signature parameter. |
| Arena.Function.CreateBlock | src/backend/evm-codegen/src/ir/func.rs:91-95 | Appends an empty block and returns its index. |
| Arena.Function.AppendParam | src/backend/evm-codegen/src/ir/func.rs:97-105 | Mints a value that points back to the parameter position it is appended at. |
| Arena.Function.AppendParams | src/backend/evm-codegen/src/ir/func.rs:83-85 | The loop over parameter types appends them in order. |
| Arena.Function.AppendInst | src/backend/evm-codegen/src/ir/func.rs:112-130 | Appends the instruction to the arena and to its block, minting one value per result that points back to it. |
| Arena.Function.SetTerminator | src/backend/evm-codegen/src/ir/func.rs:132-134 | Sets the terminator of one block and nothing else. |
| Arena.Function.PushValue | src/backend/evm-codegen/src/ir/func.rs:144-148 | Appends one value and returns its index. |
| Arena.NewFuncOk | src/backend/evm-codegen/src/ir/func.rs:72-87 | The arenas of a fresh function are consistent and its entry parameters are values `0..P-1`. |
| Arena.WithParamKeeps | src/backend/evm-codegen/src/ir/func.rs:97-105 | Appending a parameter keeps the arenas consistent. |
| Arena.WithInstKeeps | src/backend/evm-codegen/src/ir/func.rs:112-130 | Appending an instruction keeps them consistent: values in bijection with definition sites, the instruction in exactly one block once. |
| Arena.WithTerminatorKeeps | src/backend/evm-codegen/src/ir/func.rs:132-134 | Setting a terminator keeps them consistent. |
| Builder.FunctionBuilder.CreateBlockWith | src/backend/evm-codegen/src/ir/builder.rs:76-82 | A block with the given parameters; works after an error too. |
| Builder.FunctionBuilder.SwitchTo | src/backend/evm-codegen/src/ir/builder.rs:90-94 | Directs later instructions into a block; works after an error too. Which block that is for each later call is said by `BlockRuns.EveryBlockFollows`. |
| Builder.FunctionBuilder.Terminate | src/backend/evm-codegen/src/ir/builder.rs:175-193 | Sets the terminator of the current block and leaves no current block, or records the first error; `BlockRuns.TerminatorFollows` says which terminator a block ends up with. |
| Builder.FunctionBuilder.Emit | src/backend/evm-codegen/src/ir/builder.rs:196-220 | Appends the instruction to the current unterminated block and returns its fresh results, or records the first error, appends nothing and returns placeholders. |
| Builder.FunctionBuilder.SingleResult | src/backend/evm-codegen/src/ir/builder.rs:416-420 | Emits with the repair that `default_repair` gives and returns the next fresh handle, or the placeholder after an error; `Computation.SingleComputes` says what that handle will hold. |
| Builder.FunctionBuilder.CheckedArithmetic | src/backend/evm-codegen/src/ir/builder.rs:422-426 | Two results, the second a `BOOL`, with the repair for the first; the two handles are the next fresh ones in order. |
| Builder.FunctionBuilder.ConvertValue | src/backend/evm-codegen/src/ir/builder.rs:328-332 | The repair is `for_convert` from the recorded type of the operand; the next fresh handle comes back. |
| Builder.FunctionBuilder.PutValue | src/backend/evm-codegen/src/ir/builder.rs:353-356 | Stores take their type from the value and have no result. |
| Builder.FunctionBuilder.MemCopyValue | src/backend/evm-codegen/src/ir/builder.rs:358-361 | A memory copy has three operands and no result. |
| Builder.FunctionBuilder.RawOpcode | src/backend/evm-codegen/src/ir/builder.rs:428-453 | Refuses unknown names and the three reserved families with their reasons and nothing returned, and otherwise emits with no repair and returns as many fresh handles as asked for. |
| Builder.FunctionBuilder.CallFunction | src/backend/evm-codegen/src/ir/builder.rs:407-411 | Mints one result per returned type of the callee's signature and returns their handles in order. |
| Builder.FunctionBuilder.Finish | src/backend/evm-codegen/src/ir/builder.rs:166-171 | The function, or the first error. |
| Builder.FunctionBuilder.Fail | src/backend/evm-codegen/src/ir/builder.rs:222-224 | The first error is kept. |
| BuilderRuns.ReachableArenasOk | src/backend/evm-codegen/src/ir/func.rs:69-148 | After every call history with in-range handles: value indices in bijection with definition sites, each definition pointing back to the list that holds it, entry parameters `0..P-1`, each instruction in exactly one block once. |
| BuilderRuns.LaterCallsExtend | src/backend/evm-codegen/src/ir/builder.rs:175-220 | Later calls never change a recorded instruction or value, never touch a terminated block, and after the first error change no existing block. |
| BuilderRuns.ReachableBuilt | src/backend/evm-codegen/src/ir/builder.rs:413-453 | Every instruction of a builder-produced function has the arity, type, stored repair and result types of its kind: conversions by `for_convert` from the recorded operand type, stores typed by the stored value, calls by their first returned type, raw opcodes and memory copies with no repair, everything else by `default_repair`. |
| BuilderRuns.RequestBuilt | src/backend/evm-codegen/src/ir/builder.rs:413-453 | The same for the instruction one call appends. |
| BlockRuns.EveryBlockFollows | src/backend/evm-codegen/src/ir/builder.rs:90-94 | Over every history, with the current block read off the calls alone (the last `switch_to`, or the entry, with no terminator since), each block holds exactly the instructions accepted while it was current, in the order of the calls, and the terminator accepted while it was current. |
| BlockRuns.TerminatorFollows | src/backend/evm-codegen/src/ir/builder.rs:175-193 | A block ends in `t` if and only if a call that asked for `t` was accepted while that block was current. |
| BlockRuns.InstructionPlaced | src/backend/evm-codegen/src/ir/builder.rs:196-220 | Instruction `i` is what the accepted call before which `i` instructions had been recorded appended, it lies in the block that was current when that call was made, and no later call changes it: the operation, type, repair and operands of that call, and results of the types it asked for. |
| BlockRuns.FinishedFollows | src/backend/evm-codegen/src/ir/builder.rs:166-171 | `finish` succeeds if and only if no call had a reason to fail, read off the calls alone (no current block, a block already terminated, an unknown name, a reserved byte); otherwise it returns the reason of the first that had one. |
| BlockRuns.ParamsFollow | src/backend/evm-codegen/src/ir/builder.rs:76-82 | The block made by the `k`th creation has the parameters it was asked for, with their types in order, after any further calls. |
| Computation.SingleComputes | src/backend/evm-codegen/src/ir/builder.rs:244-342 | After an accepted single-result call for a constant, a number, a comparison or a choice, executing the appended instruction where its arguments hold suitable words binds exactly the handle returned, and to the Rust result of the operation on those words in the caller's order: `Sub` gives `x - y` wrapped, `Div` and `Rem` the truncated quotient and remainder of the first by the second, `Icmp` the relation of the first to the second, shifts the first by the second, `Select` the second or the third. |
| Computation.CheckedComputes | src/backend/evm-codegen/src/ir/builder.rs:422-426 | Checked arithmetic binds its first handle to the wrapped result on `a` and `b` in that order and its second to whether the exact one is out of range. |
| Computation.ConvertComputes | src/backend/evm-codegen/src/ir/builder.rs:328-332 | A conversion binds its handle to the operand's value, at the type the builder recorded for it, converted as Rust's `as`. |
| Computation.BinaryComputes | src/backend/evm-codegen/src/ir/inst.rs:44-82 | The repaired word of every two-operand operation is its exact integer or bitwise result, right shifts of either sign included. |
| Computation.WordOperations | src/backend/evm-codegen/src/ir/inst.rs:57-58 | `AddMod` and `MulMod` do not reduce before the modulus, their third operand; `ExtractByte` counts from the most significant byte. |
| Transfers.PutWrites | src/backend/evm-codegen/src/ir/builder.rs:353-381 | A store puts the word its second argument holds at the place its first argument names, and nothing else changes but the gas and, for memory, the active size. |
| Transfers.GetReads | src/backend/evm-codegen/src/ir/builder.rs:349-376 | A load binds its handle to what is kept at the place its argument names, brought to the type. |
| Transfers.ReadBack | src/backend/evm-codegen/src/ir/builder.rs:349-381 | The round trip through memory, storage or transient storage: a load at the stored value's type from the place stored at binds the very word stored. |
| Transfers.CopyCopies | src/backend/evm-codegen/src/ir/builder.rs:358-361 | A memory copy moves what its second argument points at to where its first points, as many bytes as its third says, overlapping or not. |
| Transfers.AllocaReserves | src/backend/evm-codegen/src/ir/builder.rs:345-347 | An alloca binds its handle to the address of its slot in the frame. |
| Transfers.RawRuns | src/backend/evm-codegen/src/ir/inst.rs:129-139 | A raw opcode is executed on its arguments in order, the first topmost, only with as many as the table says, and its results go to the handles returned. |
| MachineLaws.ArithmeticOpcodes | src/backend/evm-codegen/src/ir/inst.rs:131-133 | `ADD` to `EXP` in integers, with the topmost operand as minuend, dividend and base. |
| MachineLaws.ComparisonOpcodes | src/backend/evm-codegen/src/ir/inst.rs:131-133 | Comparisons give 1 or 0, the topmost operand on the left. |
| MachineLaws.PositionalOpcodes | src/backend/evm-codegen/src/ir/inst.rs:131-133 | `BYTE` and the shifts take the index or distance from the top. |
| MachineLaws.SignExtendOpcode | src/backend/evm-codegen/src/ir/inst.rs:131-133 | `SIGNEXTEND` copies bit `8k + 7` of its second operand to every bit above. |
| MachineLaws.StorageOpcodes | src/backend/evm-codegen/src/ir/effect.rs:119-123 | What `SSTORE` or `TSTORE` writes is what `SLOAD` or `TLOAD` reads there, and no other key changes. |
| MachineLaws.MemoryOpcodes | src/backend/evm-codegen/src/ir/effect.rs:109-115 | The same for `MSTORE` and `MLOAD`; `MSTORE8` writes the low byte; `MCOPY` moves what was there; `KECCAK256` hashes the range. |
| MachineLaws.CopyOpcodes | src/backend/evm-codegen/src/ir/inst.rs:131-133 | The copies from outside write at their first operand, `EXTCODECOPY` at its second. |
| MachineLaws.LogOpcodes | src/backend/evm-codegen/src/ir/inst.rs:131-133 | A log has the bytes its first two operands delimit and the others as topics, as many as its name says. |
| Transfers.CallRuns | src/backend/evm-codegen/src/ir/builder.rs:405-411 | A call as one step hands the callee its arguments in order and binds what comes back to the handles returned in order. |
| BuilderRuns.ResultCountsMatch | src/backend/evm-codegen/src/ir/inst.rs:296-308 | An instruction has as many results as `result_count` says, an internal call as many as the signature it was made with. A raw opcode has the number its caller asked for, which is `result_count` if and only if the caller asked for `stack_out`. |
| BuilderRuns.RawResultsUnchecked | src/backend/evm-codegen/src/ir/builder.rs:393-403 | The concrete failure: `SSTORE` asked for one result is accepted on a fresh builder and gets one, where the table has none. |
| BuilderRuns.ReservedIsNotAdmitted | src/backend/evm-codegen/src/ir/builder.rs:434-449 | The opcodes the escape hatch lets through are exactly the non-control, non-stack, non-terminating rows of the table. |

## Left out

- Soundness.TypeSoundness: does not claim that a run makes progress. A step that reads an unbound value, meets a wrong arity or reaches an unterminated block is stuck; dominance and termination of blocks are not checked by `finish` and are not claimed.
- Soundness.ExecInstKeeps: gas costs are an uninterpreted function of the instruction with its type and repair, its operand words and the world, so a neighbour's presence does not change them; running out of gas is the one exceptional halt; branches and returns cost nothing; `RETURNDATACOPY` out of bounds copies what the environment supplies rather than aborting, and opcodes that call out or create give an arbitrary result and an arbitrary next world with no more gas than they were handed.
- Machine.CheckedArithmeticFlags: the overflow flag is defined by its documented meaning; the instruction sequence that will compute it does not exist yet.
- Computation.SingleComputes: speaks of arguments whose words are well-formed at the operation's type (a comparison's at the recorded type of its first argument, a choice's condition 0 or 1), which type soundness keeps up. `Shr` on a signed type and `Sar` on an unsigned one are stated on the whole word, with no Rust operation behind them.
- WidthRepair.SarExact: minimality of the repairs of `Sar`, signed `Rem` and `AddMod` is not claimed; the source repairs them conservatively.
- Reordering.SwappableIff: asks that both orders can be paid for, that the price of `GAS` be the same everywhere, and that active memory and gas stay below 2^256. Equality of worlds leaves out the gas.
- Removal.RemovalIsSound: an internal call in the block is one uninterpreted step, and the block must be able to run before the deletion. Calls kept behind a charged deletion are covered where the callee the run reaches goes the same way with the saved gas and gives it back.
- Removal.RemovalIsSoundIff: gas amounts stay below 2^256, and calls kept behind a charged deletion are those of the preceding line.
- AllCallees.RuleHoldsForAllCalleesIff: prices depend on the instruction alone, and a call is not free; a callee may answer anything, or end the frame when the call is internal.
- Pruning.PruningIsSound: a tainted value may not decide a branch or reach an effect, and what an instruction costs may not depend on it; external calls are covered under `Machine.CalleesBlind`, that no callee lets the gas it is handed show in anything but the gas it gives back. A run that ends stuck or out of gas is matched up to that point.
- Deployer.Deploy: asks for a runtime shorter than 2^64 bytes, which is what the cast of its length to `u64` holds.
- AssemblerRuns.FinishSucceedsIff: label ids and buffer offsets are unbounded; the 32-bit label counter is not wrapped.
- BuilderRuns.ReachableArenasOk: handles must be in range where the source indexes an arena with them, and value, block and parameter indices are unbounded; the casts to `u32` and `u16` are not wrapped. Placeholder handles returned after an error count as in range only if the arena has a value 0.
- TraceRuns.FrameCostsTelescope: asks that every started step ends before the next event, as the interpreter loop does, and that a non-opener leaves the gas at which its frame resumes.
- The opcode table's 149 rows are a function from byte to row instead of a linear scan; mnemonics are the bytes they stand for, plus names the table does not have, so spellings are not modelled. Gas classes are left out.
- Memory, storage and transient storage are unbounded maps that read zero where nothing was written; `Load` and `Store` move whole 32-byte words at any address, as `MLOAD` and `MSTORE` do.
- Environment reads and hashing are uninterpreted functions of the operands and a context.
- The one-line builder methods (`add`, `icmp`, `alloca`, `jump`, `ret` and their like) are instances of `SingleResult`, `CheckedArithmetic`, `PutValue` and `Terminate`; `entry`, `block_param`, `note`, block kinds and names are left out.
- `Module` declaration, definition and verification: shallow bookkeeping over indices.
- All text output: `Display` and `LowerHex` implementations, listings and dumps.
- `rustc_codegen_evm`, the test kit's harness, outcome and fork files: plumbing around code that is not part of this model.
- Lowering to the operand stack and the per-function verifier: not written in the repository; their duties appear as the side conditions above.
