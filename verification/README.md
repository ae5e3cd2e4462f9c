# Verification of MagicHat's core

A Dafny model of the parts of MagicHat whose correctness is hard to see by reading them: the
MIPS native engine, the physical bus and what speeds it up, the PC Link, PPP and GMTP
protocols, the NE2000 receive ring, and three small state machines. `dafny verify
dfyconfig.toml` checks all of it.

**The native engine.** `Mips` is the reference interpreter: state, exec body, exceptions,
interrupt sampling, one step, and n steps; `Encoding`, `Bits` and `Exceptions` say independently
of it what instruction fields, the operations on words, and the way into a handler are, since
the native engine shares them. `MipsIr` is the translation's front end and the
meaning of its entries. `HostCode` is an abstract host: registers, flags, the guest structure,
memory, page tables, the instructions of AArch64 and the two-operand ones of x86-64, and a
structured code form with its flat layout.
`RegCache` and `A64Code` say what code is made for a block, `A64Proof`, `A64Step`,
`A64Helper`, `A64Memory`, `A64Block` and `A64Theorem` prove that it simulates the reference,
and `A64Emitter` is the emitter with its buffer, cursor and fixups, proved to produce that
code. `BlockCache` holds the block table, arena, links and tables; `RunLoop` the native run
loop. The main theorem, `RunLoop.RunJit`, says that a native run over any number of slots ends
in the state of as many single steps of the reference, each of which samples interrupts and
fetches its word anew. `X86Code` says what the x86-64 back end makes of a block; `X86Alu`,
`X86Step`, `X86Memory` and `X86Theorem` prove that every block computes exactly the run in which
two kinds of step are not the reference's (`X86Theorem.XBlockComputes`), hence the reference run
when no such step occurs (`X86Theorem.XBlockRefines`).

**Bus.** `BusMap` is the specification, first registered region wins with mirroring, and the
page and span rules over it; `Bus` the bus with its lookup cache and the 68k direct tables.

**Protocols.** `Crc`, `PppFraming`, `PppPhases`, `PcLink`, `Gmtp`, `Ne2000`.

**Small machines.** `PenQueue`, `KeyRing` with `KeyCodes`, `BusOrders` and `HostKeyboard`,
`EconoRam`.
`Words`, `ByteBits` and `Wrappers` are shared.

Where the code falls short of what it is for, the model keeps the code and states when it
holds:

- An immediate AND with 0 on x86-64 is skipped, which copies the operand
  (`X86Alu.AluExact`), and a branch whose destination or fall-through is address 0 loses its
  flags (`X86Step.BranchExact`). Each step of a block is right in exactly the states
  `X86Step.StepExact` gives; a block is right along runs of right steps, and wrong when its run
  ends elsewhere (`X86Theorem.XBlockRefines`, `X86Theorem.XBlockWrong`).
- An access that runs over the end of a mirrored chip takes what lies behind the chip's backing
  store, not its first bytes (`BusMap.SeamExact`). The aligned word at offset 4528148 of the
  4528151-byte ROM is one (`BusMap.SeamExample`); machine.c allocates exactly the image
  (src/machines/datarover840/machine.c:111-112), so behind it lies whatever the host has there,
  and a store into the flash goes there too. A comment (src/core/bus/bus.c:162-164) expects
  mirrored accesses to land anywhere.
- The page scan adds 4096 in 32 bits and misses overlays in the last page
  (`BusMap.PageHostExact`). `RunLoop.RunJit` asks for no such overlay.
- A block compares its words only on entry (`StraightLine.OwnStoreExample`). `RunLoop.RunJit`
  asks that no step rewrites the straight line ahead of it.
- A flush inside a compilation leaves the new block under the name 0 (`BlockCache.FlushedWay`,
  `BlockCache.Jit.Find`). `RunLoop.RunJit` holds until address 0 is looked up then.
- The two backslash keys of a host keyboard have one code (`KeyCodes.HostBack`).
- A PPP protocol number with an odd high octet is decoded as a compressed one
  (`PppFraming.DecodesExactly`).
- A GMTP count that lies whole 16-bit wraps behind something unacknowledged, or a block a wrap
  old, is mistaken for a new one (`Gmtp.OldAck`, `Gmtp.OldAckExample`, `Gmtp.WrapOldIsFresh`).
- Restoring a keyboard accepts a usage both held and waiting for release
  (`HostKeyboard.AcceptsMore`, `HostKeyboard.OneHeld`), which no run saves
  (`HostKeyboard.RunsDisjoint`); the bytes tell exactly when (`HostKeyboard.DisjointExact`).

Words are bounded integers or bit vectors, with wrap-around, sign extension, shifts and C
division written out. What the model does not see is an argument of arbitrary value: untranslated
instructions and odd fetches (`Env.other`, `Env.oddStep`, confined to what every instruction
respects: it keeps the instruction count and `cur_pc`, moves pc only by an exception, cannot
remove host memory, and moves the map generation when it edits the map), registers a call
destroys (`Env.clobber`), the size of a block's prologue, stubs and literals (`Jit.extra`), the
GMTP datagram form (`wire`), device handlers, and what the bus controller grants a keyboard
transfer (`Grant`).

## Model

| member | source | states |
|---|---|---|
| `MipsIr.DecodePreserves` | src/jit/mips_ir.c:6-100 | for every word and state (zero register holding zero), what the decoded entry means is what the instruction means: same registers, hi/lo, memory, pc pair, exceptions and bus counts (what fields, jumps and immediates are is pinned by the Encoding rows) |
| `MipsIr.DecodeMips` | src/jit/mips_ir.c:6-100 | the decoder, defaults first and then field by field, yields the entry the other lemmas are about, and never refuses a word (where it jumps is pinned by the Encoding rows) |
| `MipsIr.DecodeWellFormed` | src/jit/mips_ir.c:6-100 | every entry has registers below 32, a legal access size, and at most the immediates its operation uses |
| `MipsIr.InlineKeepsStatus` | src/jit/mips_ir.c:14-98 | an entry allowed in the middle of a block cannot write Status or Cause except by raising |
| `Encoding.FieldsExact` | src/cpu/mips/r3900.c:9-16 | the six fields both sides decode with are the word, digit by digit |
| `Encoding.ImmediateOf` | src/jit/mips_ir.c:69-86 | an entry's immediate is the signed number the low half stands for, that half itself for logic, or that half moved up for LUI |
| `Encoding.JumpReaches` | src/jit/mips_ir.c:59-61 | a J or JAL made for any aligned address of the region goes there, decoded or executed |
| `Encoding.BranchReaches` | src/jit/mips_ir.c:48-64 | a branch made for an address up to 32768 words away goes there when taken |
| `Bits.BitwiseBits` | src/cpu/mips/special.inc:59-62 | and, or and exclusive or of the reference and both back ends work bit by bit |
| `Bits.SumExact` | src/cpu/mips/special.inc:52-58 | a sum or difference is the exact one, less or more one wrap |
| `Bits.LeftShiftBits` | src/cpu/mips/special.inc:2-7 | a left shift moves bit k - n to bit k and fills with zeros |
| `Bits.RightShiftBits` | src/cpu/mips/special.inc:2-7 | a logical right shift moves bit k + n to bit k |
| `Bits.ArithShiftBits` | src/cpu/mips/special.inc:2-7 | an arithmetic one fills with the sign |
| `Bits.ProductExact` | src/cpu/mips/special.inc:21-28 | hi and lo together are the exact product, signed or unsigned |
| `Bits.ExtendMeans` | src/cpu/mips/execute.inc:106-118 | a loaded byte or halfword is extended to the number it stands for, signed or not |
| `Bits.ExtendExact` | src/cpu/mips/execute.inc:106-111 | a sign-extended byte or halfword is the number its low bits stand for |
| `Bits.StoredBack` | src/core/bus/bus.c:166-195 | what a big-endian store wrote a load of that size reads, and no other byte changed |
| `Exceptions.InterruptExact` | src/cpu/mips/r3900.c:324-384 | an interrupt replaces the instruction exactly when interrupts are on and one is both asked for, by its line or in Cause, and enabled |
| `Exceptions.LinesShow` | src/cpu/mips/r3900.c:324-384 | the lines show in bits 10 to 15 of Cause, and every other bit of it stays |
| `Exceptions.InterruptEnters` | src/cpu/mips/step.inc:14-25 | a step replaced by an interrupt: EPC is its pc, or 4 before it when that is a delay slot, BD says which, code 0, vector 0x80000080 or 0xBFC00180, and nothing completed |
| `Exceptions.MisalignedEnters` | src/cpu/mips/step.inc:27-30 | the same for a fetch from a misaligned address, with code 4 and the bad address kept |
| `Exceptions.OverflowEnters` | src/cpu/mips/special.inc:47-57 | the same with code 12 for an addition or subtraction whose exact result is no signed word; no register is written |
| `Exceptions.RaiseEnters` | src/cpu/mips/r3900.c:178-221 | entering a handler, refill vectors included, changes no other bit of Status and Cause and no other field |
| `Exceptions.HandlerMode` | src/cpu/mips/r3900.c:178-221 | a handler starts in kernel mode with interrupts off, and none replaces its first instruction |
| `Exceptions.SegmentsMean` | src/cpu/mips/r3900.c:121-176 | user mode reaches no kernel address, the two unmapped segments show the low 512 MiB, and the rest needs the TLB if there is one |
| `Exceptions.StandsStill` | src/cpu/mips/step.inc:3-12 | over any run a halted machine stands still, and with its power stopped only time passes |
| `Mips.StepsCompose` | src/cpu/mips/r3900.c:888-893 | running a + b reference steps is running a and then b |
| `Sampling.QuietMeans` | src/cpu/mips/r3900.c:324-384 | the guard native code relies on says exactly that sampling the interrupts now would take none and change nothing |
| `Sampling.SampleSettles` | src/cpu/mips/r3900.c:324-384 | after one sample that takes nothing, sampling again changes nothing |
| `Sampling.RaiseQuiet` | src/cpu/mips/r3900.c:178-221 | an exception leaves interrupts off and kernel mode on, so native code may go on from the vector (EPC, BD, code and vector are pinned by the Exceptions rows) |
| `Sampling.HelperKeeps` | src/cpu/mips/r3900.c:969-997 | every entry that goes through a helper keeps the pipeline in line and native code safe, unless it moves an interrupt input or the map or must end its block |
| `RegCache.BindOk` | src/jit/aarch64.c:155-164 | taking a free host for a guest keeps hosts distinct, slots and hosts pointing at each other, only cached registers dirty |
| `RegCache.ReadRefines` | src/jit/aarch64.c:167-175 | a read delivers the guest register, loads it at most once, and disturbs nothing but its own host |
| `RegCache.WriteRefines` | src/jit/aarch64.c:178-188 | once the chosen host holds the value, the guest register has it: dirty in the cache, or stored when there is no host; the zero register ignores it |
| `RegCache.WritebackRefines` | src/jit/aarch64.c:189-196 | writing back makes the memory image exactly the guest registers and clears nothing else |
| `RegCache.RestoreRefines` | src/jit/aarch64.c:200-205 | a restore reloads every cached register from memory and touches no other host register |
| `A64Proof.Compares` | src/jit/aarch64.c:96-103 | the condition codes after a compare are the signed and unsigned comparisons they are named for |
| `A64Proof.Overflows` | src/jit/aarch64.c:301-318 | the host overflow flag is the reference test for signed overflow, for addition and subtraction |
| `A64Proof.BothReads` | src/jit/aarch64.c:320-352 | reading two guest registers in a row keeps the first, under any mix of cached, uncached, equal and zero registers |
| `A64Proof.AluRefines` | src/jit/aarch64.c:320-383 | emitted arithmetic, logic, compares and shifts leave the cache representing the guest registers with the destination updated as the entry means |
| `A64Proof.ConstRefines` | src/jit/aarch64.c:325-326 | constants and moves from hi/lo do the same |
| `A64Step.MultiplyRefines` | src/jit/aarch64.c:391-399 | the 64-bit product split into lo and hi is the reference product, signed or unsigned |
| `A64Step.BranchRefines` | src/jit/aarch64.c:403-421 | a branch leaves the chosen destination in the branch register and the link value in its register, with operands read before the link is written |
| `A64Step.BranchStep` | src/jit/aarch64.c:403-421 | a branch entry simulates one reference step and sets the destination the delay slot will leave with |
| `A64Memory.LoadReverses` | src/jit/aarch64.c:274-282 | a little-endian host load followed by a byte reversal is the guest big-endian load |
| `A64Memory.StoreReverses` | src/jit/aarch64.c:286-291 | and likewise for stores |
| `A64Memory.TableAccess` | src/jit/aarch64.c:249-297 | a page-table entry and the reference access agree on the host bytes of every aligned access, provided no overlay hides in the last page |
| `A64Memory.MemoryStep` | src/jit/aarch64.c:249-297 | a load or store, by fast path or slow path, simulates one reference step; both paths end in the same register-cache state |
| `A64Block.TrappingStep` | src/jit/aarch64.c:301-318 | ADD, SUB and ADDI simulate one reference step, the overflow case through the reference path with the result register untouched |
| `A64Helper.CallRefines` | src/jit/aarch64.c:222-238 | writeback and call hand the helper the reference state at that instruction, whatever was cached |
| `A64Helper.HelperRefines` | src/jit/aarch64.c:222-238 | a helper entry simulates one reference step; told to leave, it exits with k + 1 retired and hands back the rest of the budget |
| `A64Helper.SlowPathRefines` | src/jit/aarch64.c:240-247 | a slow path re-establishes exactly the cache state of the fast path it rejoins |
| `A64Block.InsnStep` | src/jit/aarch64.c:482-492 | every kind of entry simulates one reference step |
| `A64Block.BodyRefines` | src/jit/aarch64.c:482-493 | the body of a block, of any length, ends in the machine of running its words one at a time, at its end or at any early exit |
| `A64Theorem.GuardRefines` | src/jit/aarch64.c:458-476 | the guard falls through exactly when every live word still equals the compiled one, and touches nothing the block uses |
| `A64Theorem.ClaimRefines` | src/jit/aarch64.c:477-480 | a block is entered exactly when the budget covers its length, which it takes off up front |
| `A64Theorem.TailRefines` | src/jit/aarch64.c:493-562 | counters, pc pair, delay-slot and branch latches at the end are those of the reference, and the exit taken is the one for that pc |
| `A64Theorem.LinkGoesToSuccessor` | src/jit/aarch64.c:503-506 | a block leaves through a link site only when pc is the one successor that site was emitted for |
| `A64Theorem.BlockRefines` | src/jit/aarch64.c:435-597 | block translation preserves meaning: for every block, entry state and budget the code ends in the reference machine with the right exit and remaining budget; a stale or too long block changes nothing |
| `A64Theorem.FlatBlockRefines` | src/jit/aarch64.c:435-597 | the same for the flat instruction list with resolved branch displacements, whatever code follows it |
| `HostCode.FlattenRuns` | src/jit/aarch64.c:125-134 | running laid-out code is evaluating its structure: every patched displacement lands where the structure says |
| `A64Emitter.PatchedAttempt` | src/jit/aarch64.c:292-296 | the three patches around a slow path give the layout the theorem is about |
| `A64Emitter.Emitter.Patch` | src/jit/aarch64.c:125-134 | patching redirects exactly the recorded branch to here and moves nothing, also after the buffer overflowed |
| `A64Emitter.Emitter.ReadReg` | src/jit/aarch64.c:167-175 | the emitter's register read appends the specified loads and moves its cache as specified |
| `A64Emitter.Emitter.WriteBack` | src/jit/aarch64.c:189-196 | the loop over the registers appends the stores of exactly the dirty ones and leaves none dirty |
| `A64Emitter.Emitter.PutMemory` | src/jit/aarch64.c:266-297 | emits exactly the specified code for a load or store |
| `A64Emitter.Emitter.PutTrapping` | src/jit/aarch64.c:301-318 | emits exactly the specified code for a trapping operation |
| `A64Emitter.Emitter.PutBody` | src/jit/aarch64.c:482-493 | the loop over the instructions emits the specified body |
| `A64Emitter.Emitter.PutGuard` | src/jit/aarch64.c:458-476 | the loop over pairs of words emits the specified guard |
| `A64Emitter.Emit` | src/jit/aarch64.c:458-562 | from the guard to the last branch, the emitter yields the flat code of the block exactly when it fits the room left to it, and nothing otherwise |
| `X86Alu.Alu3Computes` | src/jit/x86_64.c:276-282 | two-operand code computes the three-operand result under every aliasing of destination and operands |
| `X86Alu.XOperandsRefine` | src/jit/x86_64.c:428-436 | operands land in registers that neither the other read nor the scratch overwrites |
| `X86Alu.XAluRefines` | src/jit/x86_64.c:413-460 | emitted arithmetic, logic, compares and shifts leave every other guest register alone, and the destination with a value that is the entry's unless an immediate of 0 is skipped |
| `X86Alu.AluRightAt` | src/jit/x86_64.c:428-432 | in each register state: what the code leaves is what the entry means, unless it skips an AND of something else than 0 into a register |
| `X86Alu.AluExact` | src/jit/x86_64.c:413-432 | over all register states: if and only if the entry is not an immediate AND of a register with 0 into a register |
| `X86Alu.SkippedAndExample` | src/jit/x86_64.c:428-432 | `andi r2, r1, 0` decodes to such an entry: 7 stays 7 |
| `X86Step.XHiLoRefines` | src/jit/x86_64.c:471-494 | hi and lo are written as the reference writes them, also by the shortcut for a zero factor |
| `X86Step.XSelectRefines` | src/jit/x86_64.c:504-509 | what the compare, two constants and select leave in r12d, counting the flags a zero constant destroys |
| `X86Step.XBranchRefines` | src/jit/x86_64.c:496-515 | a branch leaves that destination in r12d and the link value in its register, with operands read before the link is written |
| `X86Step.BranchExact` | src/jit/x86_64.c:504-509 | the branch goes where the entry says on every register state if and only if neither destination is 0, or they are equal, or a register is compared with itself |
| `X86Step.BranchToZeroExample` | src/jit/x86_64.c:504-509 | a taken `beq` to address 0 that compares unequal registers |
| `X86Step.StepExact` | src/jit/x86_64.c:413-515 | in each machine state: the step an entry's code takes is the reference step if and only if it skips no AND of a nonzero register and loses no comparison that differs from equality |
| `X86Memory.XCallRefines` | src/jit/x86_64.c:303-319 | writeback and call hand the helper the reference state at that instruction, whatever was cached |
| `X86Memory.XHelperRefines` | src/jit/x86_64.c:303-323 | a helper entry simulates one reference step; told to leave, it exits with k + 1 retired and hands back the rest of the budget |
| `X86Memory.XSlowPathRefines` | src/jit/x86_64.c:324-331 | a slow path re-establishes exactly the cache state of the fast path it rejoins |
| `X86Memory.XMemoryStep` | src/jit/x86_64.c:334-389 | a load or store, by fast path or slow path, simulates one reference step |
| `X86Memory.XTrappingStep` | src/jit/x86_64.c:393-411 | ADD, SUB and ADDI simulate one reference step, the overflow case through the reference path with the result register untouched |
| `X86Theorem.XInsnStep` | src/jit/x86_64.c:568-577 | every entry's code takes the step `XRetire`: the reference step but for the two defects |
| `X86Theorem.XBodyRefines` | src/jit/x86_64.c:568-578 | the body of a block, of any length, ends in the machine of those steps one at a time, at its end or at any early exit |
| `X86Theorem.XGuardRefines` | src/jit/x86_64.c:553-558 | the guard falls through exactly when every live word still equals the compiled one |
| `X86Theorem.XClaimRefines` | src/jit/x86_64.c:559-566 | a block is entered exactly when the budget covers its length, which it takes off up front |
| `X86Theorem.XTailRefines` | src/jit/x86_64.c:580-643 | counters, pc pair and latches at the end, and the exit taken, also after r12d was moved on by 4 |
| `X86Theorem.XBlockComputes` | src/jit/x86_64.c:524-687 | for every block, entry state and budget the code ends in the machine, exit and budget of the run made of those steps; a stale or too long block changes nothing |
| `X86Theorem.XBlockRefines` | src/jit/x86_64.c:524-687 | block translation preserves meaning along every reference run whose steps are right |
| `X86Theorem.XBlockWrong` | src/jit/x86_64.c:524-687 | a block whose run ends in another machine than the reference's leaves that other machine |
| `X86Theorem.XFlatBlockRefines` | src/jit/x86_64.c:524-687 | for the flat code: a block with no skipped AND into a register and no unsafe branch gives the reference's state, exit and budget from every entry state |
| `X86Theorem.SkippedAndBlock` | src/jit/x86_64.c:428-432 | the block of `andi r2, r1, 0` alone ends with r1 in r2, where the reference has 0 |
| `BlockCache.ReadBlock` | src/jit/cache.c:179-224 | there is a block exactly where an instruction can be fetched; it is located where instruction fetch reads it, holds live words, and ends where the source ends it |
| `BlockCache.OneBlock` | src/jit/cache.c:193-217 | an address and its memory determine the block |
| `BlockCache.SpanWord` | src/jit/cache.c:179-191 | every whole word of a fetch span is the word at the translated address |
| `BlockCache.Jit.BuildTables` | src/jit/cache.c:150-166 | a table entry is present exactly for the pages the bus can serve whole |
| `BlockCache.Jit.Prepare` | src/jit/cache.c:168-177 | a generation change rebuilds the tables and drops every block |
| `BlockCache.Jit.Flush` | src/jit/cache.c:139-145 | everything is forgotten at once |
| `BlockCache.Jit.Compile` | src/jit/cache.c:193-256 | the block is emitted and filed exactly if there is one at the address and an empty arena has room for it; the arena is flushed exactly if there is one and it does not fit behind what is there; after such a flush the way is named 0 |
| `BlockCache.Jit.Find` | src/jit/cache.c:258-289 | an entry is found exactly if a way answers already or a block can be made; it was compiled for that address, unless that is address 0 and its way was misnamed; a way is misnamed exactly when a flush inside the compilation meets a nonzero address of set 0 |
| `BlockCache.Jit.Refile` | src/jit/cache.c:276-289 | an entry is made exactly if a block can be made; clearing, renaming and compiling one way leaves every other entry right |
| `BlockCache.FlushedWay` | src/jit/cache.c:276-289 | after that flush the way misses its own address, and address 0 hits it exactly when the block belongs to set 0 |
| `BlockCache.FlushedWayExample` | src/jit/cache.c:262-262 | the block at 0x10004, made by a compilation that flushed, is what a lookup of 0 finds |
| `BlockCache.PatchKeeps` | src/jit/cache.c:291-322 | redirecting a site to a block compiled for the successor it was emitted for keeps every site right |
| `BlockCache.Jit.ResolveLink` | src/jit/cache.c:291-322 | only an enterable pc is linked, to a block for exactly that pc, and not after a flush; it is linked whenever a block can be made, without a flush; afterwards every link site goes to its stub or to the one successor it was emitted for (stops at a misnamed way) |
| `BlockCache.Jit.Search` | src/jit/aarch64.c:513-537 | the register-jump search in native code finds a block exactly if a way answers for the address; it was compiled for that address, or that is 0 and a way is misnamed |
| `StraightLine.StepKeeps` | src/cpu/mips/step.inc:3-125 | no reference step removes host memory or the MMU, changes the map without its generation, or leaves the pc pair out of line without a pending branch |
| `StraightLine.RunIsSteps` | src/cpu/mips/r3900.c:888-893 | running the words of a block in a row is stepping the reference, which samples and fetches every time, as long as no step rewrites its own straight line |
| `StraightLine.OwnStoreExample` | src/jit/aarch64.c:458-476 | without that, checking words on entry alone is not enough: `sw r1, 4(zero)` at 0 |
| `StraightLine.StillStable` | src/jit/aarch64.c:458-476 | a step that leaves memory alone never breaks that hypothesis |
| `Traversal.Traverses` | src/cpu/mips/r3900.c:913-936 | one traversal of a block is worth exactly the reference steps it takes off the budget |
| `RunLoop.Hop` | src/jit/aarch64.c:494-562 | a traversal and the way to the next block: only to a block compiled for pc |
| `RunLoop.Native` | src/cpu/mips/r3900.c:969-1010 | native code from an entry runs a chain of blocks worth exactly the budget consumed, and ends; a valid first block that fits makes progress |
| `RunLoop.InterruptIsStep` | src/cpu/mips/r3900.c:324-384 | an interrupt taken on native entry is the reference step |
| `RunLoop.SampledRun` | src/cpu/mips/r3900.c:1011-1049 | sampling once on native entry is sound: the sampled machine runs on exactly like the reference |
| `RunLoop.Lookup` | src/cpu/mips/r3900.c:1019-1032 | native code is looked up exactly where the loop may enter it, and found exactly if a way answers or a block can be made, tables and blocks being those of the current map |
| `RunLoop.Turn` | src/cpu/mips/r3900.c:1016-1048 | one turn of the loop uses up the slots its reference steps account for, or uses none and leaves a block that will go next time |
| `RunLoop.RunJit` | src/cpu/mips/r3900.c:1011-1049 | the native run loop equals the per-instruction loop over the same slots, and terminates; it stays right until address 0 is looked up while a flush has left it naming another block |
| `BusMap.BackingIsMirror` | src/core/bus/bus.c:206-216 | identity, mask and division all compute the mirrored offset |
| `BusMap.PageHostExact` | src/core/bus/bus.c:315-341 | the page pointer is returned exactly as the uniformity rule allows, for every page and map, if and only if no overlay hides in the last page |
| `BusMap.HiddenOverlayExample` | src/core/bus/bus.c:325-325 | a one-byte overlay at the end of the address space is missed |
| `BusMap.PageHostAccess` | src/core/bus/bus.c:315-341 | every access inside a page with a pointer is answered by those very bytes |
| `BusMap.PageHostInBounds` | src/core/bus/bus.c:315-341 | and those bytes are inside the backing store |
| `BusMap.ReadSpanAccess` | src/core/bus/bus.c:343-362 | every access inside a span is answered by its bytes: no overlay, no mirror seam |
| `BusMap.ReadSpanInBounds` | src/core/bus/bus.c:343-362 | a span is not empty and lies in the backing store |
| `BusMap.MirrorAdvances` | src/core/bus/bus.c:206-216 | consecutive addresses short of the seam are consecutive bytes |
| `BusMap.SeamExact` | src/core/bus/bus.c:206-248 | the bytes the code takes are the mirrored ones, each of them, if and only if the access ends inside the copy of the chip it starts in |
| `BusMap.SeamExample` | src/core/bus/bus.c:206-248 | the aligned word at offset 4528148 of the 4528151-byte ROM takes a byte from behind the image |
| `Bus.DataInHost` | src/core/bus/bus.c:206-248 | only an access across a seam can reach past the memory the host has |
| `Bus.LineAnswers` | src/core/bus/bus.c:107-131 | a cache line that matches answers as the plain scan would |
| `Bus.MemoryBus.Find` | src/core/bus/bus.c:107-151 | find returns the first region that covers the access, cache or no cache, for every address, size and map |
| `Bus.MemoryBus.AddRegion` | src/core/bus/bus.c:25-31 | a region is added behind the others, and no stale line survives |
| `Bus.MemoryBus.AddRam` | src/core/bus/bus.c:33-44 | a RAM window is never smaller than the memory behind it |
| `Bus.MemoryBus.AddRom` | src/core/bus/bus.c:46-55 | a ROM keeps its window and its image |
| `Bus.MemoryBus.Edit` | src/core/bus/bus.c:13-17 | an edit followed by the invalidation it owes leaves lookups right |
| `Bus.MemoryBus.EnableLookup` | src/core/bus/bus.c:19-23 | switching the cache on or off is invisible |
| `Bus.MemoryBus.Read` | src/core/bus/bus.c:218-249 | the value of a read is what the first region answers (a device, ones, or `size` bytes from the backing offset on), nothing and a fault without one; one more read is counted |
| `Bus.MemoryBus.Write` | src/core/bus/bus.c:251-302 | a write puts its bytes at the backing offset of the first region if that is RAM or flash, and changes no memory otherwise; the counters of writes, faults and flash writes |
| `Bus.ReadMirrors` | src/core/bus/bus.c:218-249 | clear of the seam a read gives the mirrored bytes of the first region |
| `Bus.WriteMirrors` | src/core/bus/bus.c:251-302 | clear of the seam a write puts the value in the mirrored bytes and changes no other |
| `Bus.MemoryBus.PagePointer` | src/core/bus/bus.c:315-341 | the loop returns the specified page pointer |
| `Bus.MemoryBus.SpanFrom` | src/core/bus/bus.c:343-362 | the loop returns the specified span |
| `Bus.DirectAccess` | src/cpu/m68k/bus.h:269-305 | an access through a page pointer is the access the bus would make |
| `Bus.DirectBus.Prepare` | src/cpu/m68k/bus.h:229-252 | the direct tables hold exactly the pages the bus can serve whole, and are rebuilt when the generation moves |
| `Bus.DirectBus.Read` | src/cpu/m68k/bus.h:269-305 | a direct read gives the value, fault and read count of the bus |
| `Bus.DirectBus.Write` | src/cpu/m68k/bus.h:307-361 | a direct write leaves memory and every counter as the bus would |
| `Crc.Crc32Of` | src/host/pclink.c:24-41 | the table-driven loops compute the reflected CRC register of the data |
| `Crc.EthernetCrc` | src/devices/ne2000/ne2000.c:34-42 | the bitwise loops compute the complement of the same register |
| `Crc.BothCrcs` | src/host/pclink.c:24-41 | for all data the two are complements of each other (section 3.2.9 of IEEE 802.3-2018) |
| `Crc.TableStep` | src/host/pclink.c:31-40 | dividing by a byte through the table is dividing bit by bit |
| `Crc.MirrorStep` | src/devices/ne2000/ne2000.c:43-55 | the non-reflected register mirrors the reflected one at every bit |
| `Crc.MulticastHash` | src/devices/ne2000/ne2000.c:43-55 | the multicast hash is the bit reversal of the low six bits of the CRC register |
| `Crc.Residue` | src/devices/ne2000/ne2000.c:34-42 | data followed by its complemented register, low octet first, leaves the register 0xdebb20e3 (section 3.2.9 of IEEE 802.3-2018) |
| `Crc.CheckValue` | src/devices/ne2000/ne2000.c:34-42 | the digits 1 to 9 give 0xcbf43926 |
| `Ne2000.ChainAppend` | src/devices/ne2000/ne2000.c:86-107 | a packet stored behind the last one joins the chain of headers, and the others stay |
| `Ne2000.Consumed` | src/devices/ne2000/ne2000.c:60-109 | moving BNRY to the page named in the oldest header removes exactly that frame |
| `Ne2000.Enqueued` | src/devices/ne2000/ne2000.c:86-107 | a packet written at CURR that leaves a free page becomes the newest unread frame and CURR never meets BNRY |
| `Ne2000.PacketLayout` | src/devices/ne2000/ne2000.c:86-101 | the packet of every frame: next page and length in the header, then the frame, zeros to 60 bytes, and a check sequence that brings the register to its residue; it fills its pages but for less than one |
| `Ne2000.AcceptsExactly` | src/devices/ne2000/ne2000.c:65-71 | which register bit lets a broadcast, a group address of the hash table, or any other address pass |
| `Ne2000.SetBitIsOr` | src/devices/ne2000/ne2000.c:80-107 | setting an interrupt is the or with its mask |
| `Ne2000.Nic.Filter` | src/devices/ne2000/ne2000.c:65-72 | the address filter |
| `Ne2000.Nic.Copy` | src/devices/ne2000/ne2000.c:102-106 | the copy loop writes the packet from CURR across PSTOP and nothing else |
| `Ne2000.Nic.Receive` | src/devices/ne2000/ne2000.c:60-109 | an accepted frame is appended to the unread frames exactly if the chip listens, the filter passes it, and a page stays free; otherwise RAM, CURR and the queue stay, and what it counts and raises is what the reason for refusing says (section 7 of the DP8390D data sheet) |
| `Ne2000.Nic.Advance` | src/devices/ne2000/ne2000.c:144-150 | the remote address wraps from PSTOP to PSTART |
| `Ne2000.Nic.DmaRead` | src/devices/ne2000/ne2000.c:152-161 | one byte of remote DMA: station PROM, packet RAM or nothing, and the completion interrupt after the last |
| `Ne2000.Nic.ReadOldest` | src/devices/ne2000/ne2000.c:152-161 | a remote read from BNRY of count + 4 bytes returns the packet stored for the oldest frame, wherever the ring wraps |
| `Ne2000.Nic.SetBoundary` | src/devices/ne2000/ne2000.c:249-249 | writing BNRY with the next page of the oldest header dequeues exactly that frame |
| `Gmtp.AckExact` | src/host/pclink.c:253-276 | a 16-bit cumulative count of any value from acked to sent is understood as exactly that count, through wrap |
| `Gmtp.OldAck` | src/host/pclink.c:253-276 | an older count is ignored if and only if it is not a whole number of wraps behind something still unacknowledged; otherwise it acknowledges exactly that |
| `Gmtp.OldAckExample` | src/host/pclink.c:253-276 | count 1 with 65536 blocks acknowledged and 65537 sent acknowledges the last one |
| `Gmtp.ChunksJoin` | src/host/pclink.c:278-317 | cutting a message into blocks loses nothing and no block is over-long |
| `Gmtp.Sender.QueueWire` | src/host/pclink.c:189-209 | a frame leaves at once with room in the window and waits behind the others otherwise: an offer of the joined system |
| `Gmtp.Sender.Acknowledge` | src/host/pclink.c:253-276 | an acknowledgement moves the window and lets waiting frames out, in block order; pending frames mean a full window: an acknowledgement step of the joined system |
| `Gmtp.Sender.Drain` | src/host/pclink.c:262-275 | frames are let out in order, exactly while the window has room |
| `Gmtp.Sender.Emit` | src/host/pclink.c:278-317 | a message becomes consecutive blocks whose payloads join to it |
| `Gmtp.Sender.Connect` | src/host/pclink.c:472-499 | greetings and offer, once; the stream made for them is the one the next row reads back |
| `Gmtp.OfferReads` | src/host/pclink.c:353-370 | it parses as those three commands |
| `Gmtp.Sender.SendPackage` | src/host/pclink.c:500-514 | the package goes out in commands of at most 512 bytes and the end marker, once |
| `Gmtp.PackageReads` | src/host/pclink.c:500-514 | it parses as commands of 1 to 512 bytes whose payloads join to the package, and the end marker |
| `Gmtp.Sender.Pong` | src/host/pclink.c:516-526 | the transfer is done only once every block up to the end marker is acknowledged |
| `Gmtp.Receiver.Message` | src/host/pclink.c:632-650 | the payload of a block is appended exactly if it is the next one, and the answer is the count so far: a block step of the joined system |
| `Gmtp.FreshExact` | src/host/pclink.c:634-636 | a block less than a wrap old is taken exactly when it is the next one |
| `Gmtp.NextInOrder` | src/host/pclink.c:189-317 | every step of sender, receiver or channel keeps acked <= received <= sent <= block and the received stream a prefix |
| `Gmtp.ExactlyOnce` | src/host/pclink.c:189-317 | over every run of a channel that loses, duplicates and reorders, the receiver holds exactly the first payloads, in order |
| `Gmtp.FreshPairInOrder` | src/host/pclink.c:189-317 | so after any run of a fresh pair the stream is an initial part of what was offered |
| `Gmtp.WrapOldIsFresh` | src/host/pclink.c:634-636 | the age bound is needed: a copy one wrap old is taken for the next block |
| `PcLink.UnquoteQuoted` | src/host/pclink.c:323-350 | unquoting undoes quoting and leaves no quote pending |
| `PcLink.FirstBlock` | src/host/pclink.c:323-350 | a block has 1 to 256 bytes and never ends between a quote and its byte |
| `PcLink.BlockArrives` | src/host/pclink.c:704-736 | a whole block arrives as its unquoted bytes, whatever was waiting before |
| `PcLink.ParseSplit` | src/host/pclink.c:540-560 | parsing a stream in two portions is parsing it at once |
| `PcLink.WireRoundTrip` | src/host/pclink.c:323-350 | for every byte string, decoding what was emitted gives it back to the command parser |
| `PcLink.ParseFirst` | src/host/pclink.c:540-560 | a command at the front of a stream is read back, and the rest after it |
| `PcLink.CommandsRoundTrip` | src/host/pclink.c:353-370 | any sequence of commands with payload up to 1028 is parsed back as the same tags and payloads |
| `PcLink.Transport.Fill` | src/host/pclink.c:330-334 | the filling loop produces the specified block |
| `PcLink.Transport.Emit` | src/host/pclink.c:323-350 | emit appends exactly the specified wire form |
| `PcLink.Transport.Unstuff` | src/host/pclink.c:722-731 | the unquoting loop appends the specified bytes to the stream |
| `PcLink.Transport.DrainStream` | src/host/pclink.c:540-560 | takes exactly the whole commands off the stream |
| `PcLink.Transport.Listen` | src/host/pclink.c:687-702 | the link is greeted exactly when the four letters have just arrived in a row |
| `PcLink.Transport.Receive` | src/host/pclink.c:704-736 | byte by byte, the commands handed on are those of the specification |
| `PcLink.Transport.FromGuest` | src/host/pclink.c:675-737 | one byte from the guest, before and after the greeting |
| `PppFraming.Residue` | src/host/ppp.c:37-43 | the FCS over any data and its complemented, low-octet-first FCS is 0xf0b8 (section C.2 of RFC 1662) |
| `PppFraming.CheckValue` | src/host/ppp.c:37-43 | the digits 1 to 9 give 0x906e |
| `PppFraming.TxRing.Push` | src/host/ppp.c:52-57 | the transmit ring is a bounded FIFO |
| `PppFraming.TxRing.Read` | src/host/ppp.c:423-430 | reads come out in the order pushed |
| `PppFraming.TxRing.Send` | src/host/ppp.c:67-91 | the ring gains one whole frame or nothing |
| `PppFraming.Framer.Write` | src/host/ppp.c:397-421 | one octet in data mode moves the framer as specified: flags, escapes and over-long frames |
| `PppFraming.Framer.Receive` | src/host/ppp.c:322-340 | a frame is handed on exactly when it is long enough and its FCS is good |
| `PppFraming.StuffedOctet` | src/host/ppp.c:81-88 | each octet on the wire is itself, or 0x7d and its exclusive or with 0x20 for a control octet, an escape or a flag |
| `PppFraming.Transparent` | src/host/ppp.c:81-88 | stuffed data holds no flag and no control octet |
| `PppFraming.FeedBody` | src/host/ppp.c:67-91 | stuffing is undone exactly (section 4.2 of RFC 1662) |
| `PppFraming.DecodesExactly` | src/host/ppp.c:322-340 | the packet comes back if and only if bit 8 of its protocol number is clear |
| `PppFraming.FramesRoundTrip` | src/host/ppp.c:67-91 | any sequence of frames yields the same protocols and payloads in order |
| `PppPhases.AckExact` | src/host/ppp.c:186-246 | a request is acknowledged exactly when its options parse to the end and none is rejected or refused; an acknowledged IPCP request asked for the assigned address |
| `PppPhases.RejectWins` | src/host/ppp.c:186-246 | one rejected option makes the answer a Reject, whatever is wrong with the others |
| `PppPhases.ParsedIsReadable` | src/host/ppp.c:264-296 | the options a Nak is read for are all of those of a list that parses |
| `PppPhases.Modem.Judge` | src/host/ppp.c:186-246 | the option loop computes the specified verdict and answer |
| `PppPhases.Modem.SendConfigure` | src/host/ppp.c:107-142 | this end's request carries the next id and its MRU and character map, or its address and name server; the guest's parser reads them back; it is remembered for its answer |
| `PppPhases.Modem.ConfigureRequest` | src/host/ppp.c:186-246 | answers as judged, and opens the direction exactly on an acknowledgement, asking next for the layer that waited for it and for no other |
| `PppPhases.Modem.ConfigureAck` | src/host/ppp.c:248-320 | an acknowledgement counts exactly for the outstanding request; then it opens that direction and asks for the network layer if that waited |
| `PppPhases.OwnOptionsBack` | src/host/ppp.c:107-142 | the options this end sends parse to the values they were made from |
| `PppPhases.Modem.ConfigureNak` | src/host/ppp.c:264-296 | a Nak of the outstanding request, and only that, takes over the last value proposed for each option and makes a new request with them |
| `PppPhases.Modem.Terminate` | src/host/ppp.c:248-320 | a terminated layer takes everything above it down, and is acknowledged |
| `PppPhases.Modem.ControlPacket` | src/host/ppp.c:248-320 | what each code does, to phases, values and packets sent: requests, acknowledgements, refusals, terminations and echoes as the rows above; any other code and whatever is not well-formed change nothing. No IPCP request before LCP is open both ways (sections 3.4 to 3.7 of RFC 1661) |
| `PppPhases.Modem.Receive` | src/host/ppp.c:322-340 | control packets do what their code says, IPv4 is forwarded only while both layers are open, and anything else is dropped |
| `PppPhases.Modem.StartDial` | src/host/ppp.c:342-350 | a dial starts over with this end's LCP request |
| `PenQueue.TowardCloses` | src/frontend/sdl/pen_queue.h:107-118 | a movement goes at most 16 pixels per axis, never past the target and less than a pixel off the straight line, and comes exactly 16 closer until it arrives |
| `PenQueue.HopsExact` | src/frontend/sdl/pen_queue.h:84-123 | a target at distance D takes max(1, ceil(D / 16)) deliveries |
| `PenQueue.TimesExact` | src/frontend/sdl/pen_queue.h:36-40 | stamps less than 2^31 ms apart give their distance through wrap, and a rate that many clocks a second, rounded down |
| `PenQueue.NoJumps` | src/frontend/sdl/pen_queue.h:84-123 | over every run, a pen in contact stays on the way to its target in steps of at most 16 |
| `PenQueue.Pen.Begin` | src/frontend/sdl/pen_queue.h:38-48 | a new event follows the host spacing but is never in the past nor more than a sample ahead |
| `PenQueue.Pen.Schedule` | src/frontend/sdl/pen_queue.h:27-60 | the time of a new event keeps order, the hold time after the press and a sample after a movement |
| `PenQueue.Pen.Enqueue` | src/frontend/sdl/pen_queue.h:27-71 | presses and releases are always appended; a movement replaces only the target of a newest movement, and moves its time no later than now |
| `PenQueue.Pen.Deliver` | src/frontend/sdl/pen_queue.h:84-123 | delivers exactly when due; edges in order, none dropped or merged; a release finds the pen on the last touch posted before it, the hold time after the press and the settling time after the last point; each hop brings the count of hops left down by one |
| `PenQueue.Pen.Clear` | src/frontend/sdl/pen_queue.h:124-127 | dropping the queue leaves the pen where the guest saw it |
| `KeyRing.ParseScans` | src/devices/magicbus/keyboard.c:9-27 | the scan stream can be read back as the events, none mistaken for parts of others |
| `KeyRing.Keyboard.Key` | src/devices/magicbus/keyboard.c:9-27 | an event enters the ring whole or not at all |
| `KeyRing.Keyboard.Write` | src/devices/magicbus/keyboard.c:29-53 | accepts exactly the three complete envelopes, and what each changes |
| `KeyRing.Keyboard.Read` | src/devices/magicbus/keyboard.c:55-69 | hands over the oldest bytes behind their count and removes exactly those |
| `KeyCodes.Usage` | src/devices/magicbus/host_keys.c:7-25 | only usages with a code that needs no prefix sequence are known |
| `KeyCodes.HostBack` | src/devices/magicbus/host_keys.c:7-25 | every known key can be told from its code, but for the two backslash keys, which share one |
| `KeyCodes.KeysDistinct` | src/devices/magicbus/host_keys.c:7-25 | no two other keys look alike to the guest |
| `HostKeyboard.ToldWhole` | src/machines/datarover840/keyboard.c:174-213 | all scan bytes ever told read back as the host events, in order |
| `HostKeyboard.BreakAgrees` | src/machines/datarover840/keyboard.c:201-213 | telling a break keeps: held or waiting exactly when the last event told for the usage is a make, never both |
| `HostKeyboard.MakeAgrees` | src/machines/datarover840/keyboard.c:174-194 | and so does telling a make |
| `HostKeyboard.Accessory.HostKey` | src/machines/datarover840/keyboard.c:174-194 | a make is refused while its release waits or without room; a release never is, and is told or waits |
| `HostKeyboard.Accessory.ReleaseKeys` | src/machines/datarover840/keyboard.c:201-213 | waiting releases are told lowest usage first until one does not fit; none is lost |
| `HostKeyboard.Accessory.ReleaseAll` | src/machines/datarover840/keyboard.c:196-199 | everything held now waits for release |
| `BusOrders.WordFields` | src/machines/datarover840/keyboard.c:8-15 | an order word carries its operation in bits 3 to 7 and its address in bits 9 to 11 |
| `BusOrders.OneMeaning` | src/machines/datarover840/keyboard.c:8-15 | so no two orders share a word |
| `BusOrders.Interpret` | src/machines/datarover840/keyboard.c:26-28 | a word is read as an order exactly if it is the word of that order, and as none exactly if it is the word of none |
| `BusOrders.ActsOnExactly` | src/machines/datarover840/keyboard.c:29-51 | the ten orders the accessory acts on in some state; every other is without effect in all |
| `BusOrders.ByRegister` | src/machines/datarover840/keyboard.c:29-51 | the same effects register by register: which orders each transfer register answers to |
| `BusOrders.AddressedExactly` | src/machines/datarover840/keyboard.c:29-36 | after any run of orders the accessory is addressed exactly when the address order came after the last reset, or it was before and no reset came |
| `BusOrders.SilentUntilAddressed` | src/machines/datarover840/keyboard.c:29-36 | until it is addressed a run leaves it as it was, or as a reset leaves it |
| `HostKeyboard.Accessory.Obey` | src/machines/datarover840/keyboard.c:23-54 | a word has the effect of the one order it encodes, whose runs the rows above describe; unaddressed, all but the reset and the address order leave every register alone |
| `HostKeyboard.Accessory.Transmit` | src/machines/datarover840/keyboard.c:56-71 | the eighth byte hands the envelope over; only a reset empties the ring |
| `HostKeyboard.WordBytes` | src/machines/datarover840/keyboard.c:63-64 | the four bytes taken of a word make it again, the first the highest |
| `HostKeyboard.Accessory.Service` | src/machines/datarover840/keyboard.c:117-172 | waiting releases are told first; then the read is answered with what it asked for, the request note, the identity after order 12, the profile after 13, or scan bytes; the answer counts exactly when the controller took all of it and the closing command, and only then do scan bytes leave the ring |
| `HostKeyboard.RoundTrip` | src/machines/datarover840/keyboard.c:215-255 | for every sane state, the saved form is accepted and restores flags, bit maps and queued bytes |
| `HostKeyboard.RxBytes` | src/machines/datarover840/keyboard.c:232-242 | the saved count of received bytes is accepted exactly up to 1 MiB and in whole words, told from its four bytes |
| `HostKeyboard.DecodedSane` | src/machines/datarover840/keyboard.c:232-255 | whatever is accepted is a sane state |
| `HostKeyboard.DisjointExact` | src/machines/datarover840/keyboard.c:232-255 | the restored maps share no usage if and only if no two corresponding bytes share a bit |
| `HostKeyboard.RunsDisjoint` | src/machines/datarover840/keyboard.c:174-213 | and no run saves maps that do |
| `HostKeyboard.AcceptsMore` | src/machines/datarover840/keyboard.c:232-255 | any state with a usage held and the same usage waiting saves to a form that is accepted all the same |
| `HostKeyboard.OneHeld` | src/machines/datarover840/keyboard.c:232-255 | such maps: one byte of 0x10 holds the one usage 4 |
| `HostKeyboard.Accessory.Encode` | src/machines/datarover840/keyboard.c:215-230 | writes the saved form |
| `HostKeyboard.Accessory.Decode` | src/machines/datarover840/keyboard.c:232-255 | accepts exactly the well-formed forms and then is the saved device; otherwise nothing changes |
| `EconoRam.CommandRun` | src/devices/econoram/econoram.h:28-40 | eight slots starting with a one are one command, low bit first |
| `EconoRam.WriteRun` | src/devices/econoram/econoram.h:18-27 | a write transfer stores the bits sent, in order |
| `EconoRam.ReadRun` | src/devices/econoram/econoram.h:43-68 | a read transfer shows the bits stored, in order, and changes none |
| `EconoRam.ReadBack` | src/devices/econoram/econoram.h:18-68 | F9 and 256 bits, then any other valid command and 256 looks: the host sees what it sent and the parser is idle |
| `EconoRam.ZerosSynchronise` | src/devices/econoram/econoram.h:18-59 | n zero slots leave the device idle exactly if n reaches what it is owed, which is at most 263 |
| `EconoRam.LongestWait` | src/devices/econoram/econoram.h:28-40 | that bound is reached |
| `EconoRam.EconoRam.Receive` | src/devices/econoram/econoram.h:18-41 | one bit, on the byte array |
| `EconoRam.EconoRam.Drive` | src/devices/econoram/econoram.h:43-59 | both edges of a slot; a transfer never runs past its last bit |
| `EconoRam.EconoRam.Look` | src/devices/econoram/econoram.h:61-68 | what the line shows |

## Left out

- RunLoop.RunJit: assumes `Tame` (no step rewrites a word of its own straight line within 63 words, and no overlay hides in the last page), since the code is wrong without it; it stops with `ok` false where the code would enter a misnamed way; and it runs blocks of the AArch64 back end.
- RunLoop.Native: an access across a chip's seam counts as untranslated in the reference, so what it reads or writes there is arbitrary; native code takes the same helper for it.
- A64Theorem.BlockRefines: exits are symbolic (done, stale, budget, link, search); packing status and budget into one 64-bit result is not modelled.
- A64Emitter.Emit: instructions are abstract operations, so encodings, the prologue and epilogue, literal pool and stubs are not modelled beyond the space they take.
- X86Theorem.XBlockComputes: the calling convention is System V, and instructions are abstract, so encodings, the Windows convention, prologue, epilogue and stubs are not modelled; nor is the emitter with its buffer, as it is for AArch64. Flags that x86-64 leaves undefined are arbitrary.
- X86Theorem.XBlockRefines: one way only, since a later step can undo a wrong one; `X86Theorem.XBlockWrong` is the converse for the final machine.
- BlockCache.Jit.Compile: failures of `mprotect`, `mmap` and the cache-clear calls are not modelled.
- BlockCache.Jit.Find: the counters for invalidations and histograms are not modelled.
- Ne2000.Nic.Receive: the transmit side, the rest of the register file and the periodic tick of the NE2000 are not modelled. That the unread frames form a queue is said for BNRY inside the ring; a BNRY outside it, such as the PSTOP Magic Cap writes, never stops reception.
- Gmtp.ExactlyOnce: `ppp_direct` is fixed, so the window does not change during a run; 32-bit block counters do not wrap.
- Gmtp.Sender.Acknowledge: the IP and GMTP headers, association numbers and their checksums are the parameter `wire`.
- PcLink.Transport.DrainStream: what the link does with GBye and Abrt and how a package is wrapped for the 68k are not modelled.
- PppPhases.Modem.ControlPacket: AT commands, serial text, echo timing and the network behind IPv4 are not modelled.
- PenQueue.Pen.Enqueue: 64-bit clocks are unbounded numbers, and allocation does not fail.
- PenQueue.Pen.Deliver: the queue is a sequence, so the linking of list nodes is not modelled.
- HostKeyboard.Accessory.HostKey: keys injected past the host interface (`mh_dr_keyboard_key` called by a script) are not part of a run.
- HostKeyboard.Accessory.Service: the words go to an abstract controller that says how many it takes; the peripheral's information block is a parameter, and the error counters, and that of unknown orders, are not kept.
- HostKeyboard.Accessory.Encode: the controller's own registers are not part of the saved state.
- Mips.StepsCompose: 64-bit instruction and cycle counters are unbounded; the TLB, watchpoints, traces and replay are not modelled.
- Bus.MemoryBus.Read: device handlers are a function of the offset and size, and accesses they make themselves are not modelled.
- `src/jit/code_arena.c` and `src/jit/win_mman.h`: operating-system detail.
- The 68k core, the TX39 and MC68349 peripherals: only what the bus, the keyboard and the serial memory ask of them.
- Frontends, libslirp, sockets, card images, audio, LCD, snapshots: input/output and layout, with only per-branch facts to prove.
