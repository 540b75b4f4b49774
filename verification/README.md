# Acu: a verified model of the compiler back end and its virtual machine

Acu compiles a small language to bytecode, optimises the bytecode and runs it on a register machine.
This project models the places where these parts meet and proves that they fit together: the code that
the expression generator emits computes the value of the expression; the validator's one pass bounds
every run; the optimiser's in-place passes cannot be noticed; the tables, graph passes, the expression
parser and the arithmetic kernels do what the rest relies on. `dafny verify dfyconfig.toml` checks
everything.

## How the modules fit together

- **Words, values, instructions.** `Words` is 64-bit arithmetic on integers (wrap-around, truncating
  division, shifts, bitwise operations, powers). `Bytecode` is the opcode table, the four-byte
  instruction word with its signed fields, and branch offsets.
- **The machine.** `Vm` gives one step as a function of a chunk, a host (system calls, floating point,
  the string pool's address) and a state with overlapping register windows and a frame stack; class
  `Machine` is the dispatch loop, proved to take exactly these steps in place. `Layout` says where
  instructions start. `CallWindows` is what survives a call; `Validator` what the validator accepts and
  what that guarantees of every run; `Behaviour` what can be observed of a run, including divergence.
- **The expression generator.** `Expr` is the direct value of an expression over signed and unsigned
  integers and booleans, the constant folder and the purity test. `Emitted` is a second reading of
  expressions: the value the generated code computes (`EvalEmitted`) and whether it traps when nobody
  wants the value (`DropTraps`), with the conditions under which this is the direct value. `Fragments`
  says what it means that a piece of code, placed anywhere in any chunk, implements an expression, and
  how pieces compose; `OpTables` justifies opcode selection, operand swapping and strength reduction;
  `CallFragments` argument windows and whole calls. `EmitExpr` is the generator as a class that appends
  to its code, patches jumps and updates its register set: the contract of `EmitExpr` is compiler
  correctness, exact in value and trap. `RegSet` is the allocator's bitset.
- **Optimiser passes on the machine itself.** `JumpTargets`, `DeadCode`, `JumpRules` (peephole rules 1,
  3, 5 and 6, together with the identities of rule 10 from `Identities`), `Relocate` and `StripNops`,
  joined in `Optimizer`.
- **Optimiser passes on the contract machine.** The register passes rely on what the opcode table says
  of a call: it reads B to B+C-1 and writes A. `ContractVm` is the machine of the table: every activation
  has its own registers, and pure system calls leave no trace. Its central theorem says that a
  rewriting whose instruction pairs all respect one *linkage* (which register of the new program holds
  the value of which register of the old one, slot by slot) cannot be noticed. `DeadRegisters`,
  `DeadStores`, `ForwardMove` (rule 4) and `CopyPropagation` (rule 9) are instances, and
  `RegisterPasses` chains them: marks, dead stores, then one sweep of rules 4 and 9 on the same marks.
  `Derived` is why the rewritten code stays well formed and covered by those marks. Two rewritings have
  simulations of their own: `TailCalls` (rule 7), which changes the frame stack, and `BranchFusion`
  (rules 8 and 11), which turns two instructions into one; `FusedBranches` is the fused opcodes and their
  exact condition, `ContractSteps` the single steps both rely on.
- **From the contract machine to the machine itself.** On the machine B is also the base of the callee's
  window, which lies over the caller's registers from B on; RET_VOID leaves A alone; and nothing is
  cleared. `TableContract` defines *disciplined* code, by two assignments to slots that a data-flow analysis
  could compute: which registers may be looked at, and from where a return must deliver a value. On
  disciplined code both machines take the same steps, whatever the table leaves open. `DisciplineKept` says
  when a rewriting that respects a linkage keeps the discipline; `PassesOnMachine` (dead stores, rules 4
  and 9) and `FusionOnMachine` (rules 7, 8 and 11) are the passes on the machine itself. `Counterexamples`
  and `TableCounterexamples` have programs whose runs on the machine differ before and after a rewriting.
- **Tables and interners.** `Probing` is linear probing with doubling, shared by `SymbolTable`,
  `ConstantPool`, `StringInterner` and `TypeInterner`.
- **Graph passes.** `SyntaxTrees` (the walks that find calls and assignments to globals in a body),
  `Purity` (the purity fixed point over what they find), `Reachability` (the worklist over bodies,
  function placement and call patching), `GlobalInit` (order of global initialisers).
- **Front end and kernels.** `Parser` (precedence climbing), `StringLiterals` (escape, scan, unescape),
  `Power` (fast powers).

## Where the code does not do what one would expect

The model follows the code. In these places it departs from what its neighbours or its own tables
promise; each has a concrete input and a condition under which it does not occur, which is exact where
the text says so.

- A product or conjunction with the literal 0, and a power with exponent 0, drop the other operand with
  its division trap. `Emitted.DropTraps` says which traps survive, `Emitted.EmittedExact` and
  `Emitted.AbsorbedExact` when the code then still is the direct value, and
  `Fragments.QuotientTimesZeroArrives` that code for `(a / b) * 0` goes on with 0 whatever `b` holds.
  `Emitted.KeepsTraps` is a test of the expression alone that excludes all of this.
- Constants are folded as signed numbers whatever their type. Folding an unsigned quotient, remainder or
  order is right exactly under `Expr.FoldsAlike` (`Expr.FoldIntsSound`); `(0 - 1) / 2` on an unsigned type
  folds to 0 (`Expr.UnsignedFoldIsWrong`), and a divisor may fold to -1 although its value is 0, so that
  the division counts as pure (`Expr.MisfoldedDivisorTraps`); a division judged pure has no value exactly
  then (`Expr.PureDivisionExact`).
- `POW_IMM` and the unsigned forms of division, remainder and order read their immediate as an unsigned
  byte, while the generator uses them for literals whose signed value lies in -128..-1. The instruction
  and the code for a whole operation on a local and a literal are right for all operands exactly if the
  literal is not one of those (`OpTables.ImmediateFormExact`, `OpTables.LiteralOfLocalExact`).
- The validator does not look at the system-call number of `SYSCALL_VOID`
  (`Validator.ValidationMissesVoidSyscallId`). It also accepts a branch to the end of the code and a
  return from an empty frame stack. Runs of accepted code go wrong exactly in these three ways
  (`Validator.ValidatedRunsAreSafe`), and steps from safe states never use an unknown number if and only
  if all numbers are known (`Validator.UnknownSyscallExact`).
- A call without arguments made while register 255 is in use gets a window at register 0
  (`EmitExpr.CodeGen.AllocCallWindow` has the exact condition).
- `randomU64` is tabled PURE but advances a seed, so the dead-store pass may remove a draw: a program that
  draws twice and stores the second number then stores the first (`Counterexamples.DroppedRandomIsNoticed`).
- RET_VOID leaves the destination of a call alone, although the table says that the call writes it. Dead
  stores may therefore remove what the caller goes on to look at
  (`TableCounterexamples.SweptLeakIsNoticed`). Where no value is returned the machines agree exactly if
  what is left over happens to be the same (`TableContract.ReturnsAgree`); disciplined code never looks at
  it (`TableContract.LeftoverUnnoticed`).
- A callee's window lies over the caller's registers. Dead stores remove a load that only the callee sees
  (`TableCounterexamples.PeekIsNoticed`); rule 9 puts the source of a copied argument in place of the copy
  and so moves the window of a call over registers that are still in use
  (`TableCounterexamples.MovedWindowIsNoticed`, with code as the generator emits it for a local as an
  argument); rule 4 forwards a definition into the window of a call on the way
  (`TableCounterexamples.ForwardIsNoticed`). Discipline excludes the first, `PassesOnMachine.CopyClear` and
  `PassesOnMachine.ClearOfWindows` the others.
- Fusing EQ_IMM or NEQ_IMM with a branch decides rightly for all operands exactly if the immediate is not
  negative, because the value opcodes extend its sign and the branches do not
  (`FusedBranches.FusionExact`).
- Rules 8 and 11 remove a comparison whose register is dead on the fall-through path; they do not look at
  the branch target. A program that reads the result there stores something else afterwards
  (`Counterexamples.RemovedTestIsRead`, `Counterexamples.FusedResultIsRead`). Rule 8 also keeps a
  comparison that is still needed although it may have overwritten its operand, and then an equality test
  is read the wrong way round (`Counterexamples.KeptTestIsMisread`). `BranchFusion.Rule8Leaves` and
  `BranchFusion.Rule11Leaves` say exactly when both programs leave the two instructions for the same
  place with nothing but the result register different; with that register dead at both ends
  (`BranchFusion.Rule8Safe`, `BranchFusion.Rule11Safe`) the rules cannot be noticed.
- Turning `CALL_VOID; RET_VOID` into a tail call hands the callee's value to whoever waits for a result:
  in `Counterexamples.VoidTailCallLeaks` the caller's own register 0 keeps 5 in the original and becomes 7.
  `TailCalls.TailSite` states a static condition under which nobody waits.
- The purity analysis does not look for assignments in the arguments of calls, so a function that assigns
  to a global there can be marked PURE (`Purity.HiddenEffectIsMarkedPure`); `SyntaxTrees.EffectsExact` says
  when the test is right.
- The order of global initialisers follows the references in the initialisers themselves, not those in
  functions that they call: a global may be initialised after one that needs it
  (`GlobalInit.CalledReferenceComesLater`; exactly when is `GlobalInit.ReadyExact`).
- `AcuRegSet_Alloc` returns register 0 when all registers are in use (`RegSet.RegSet.Alloc`); the
  generator model records that it asked for a register in vain in `failed`, and `Grows` says that this
  cannot happen while there is room for as many registers as the expression has nodes.
- Dead-store elimination counts the argument range of a call modulo 256, the deadness test without
  wrapping; the first over-approximates the second (`DeadStores.UsesIncludeReads`).

## Model

| member | source | states |
|---|---|---|
| EmitExpr.CodeGen.EmitExpr | src/codegen/emit_expr.c:2051-2124 | for every integer or boolean expression over literals and locals: code is only appended; the emitted code, wherever the chunk ends up, traps exactly if the expression as emitted (`EvalEmitted`) has no value and otherwise arrives with that value in the returned register; with no target it traps exactly if `DropTraps`; registers in use, other than the target, the rest of the stack, globals and trace are unchanged; no temporary stays marked; nothing fails while there is room |
| EmitExpr.CodeGen.EmitBinary | src/codegen/emit_expr.c:850-920 | the same for a binary operator that does not fold, through operand swapping, strength reduction, immediate and register forms |
| EmitExpr.CodeGen.TryStrengthReduction | src/codegen/emit_expr.c:141-375 | either the state is untouched, or the cheaper code computes what the original operator does, value and trap |
| EmitExpr.CodeGen.EmitAbsorbed | src/codegen/emit_expr.c:216-343 | multiplication by, conjunction with and power of 0: the code traps exactly if the dropped operand still does, and otherwise delivers the absorbing value, also where the operand itself has none |
| EmitExpr.CodeGen.EmitUnsignedPower | src/codegen/emit_expr.c:239-290 | unsigned division and remainder by a power of two: a shift, a mask in the instruction, or a mask in a register |
| EmitExpr.CodeGen.EmitMasked | src/codegen/emit_expr.c:258-289 | the remainder by a power of two above 128: the operator's value and trap through a mask in a register, and that register is free again afterwards |
| EmitExpr.CodeGen.EmitSquare | src/codegen/emit_expr.c:304-325 | `x ** 2` as one multiplication of a register by itself |
| EmitExpr.CodeGen.EmitLogical | src/codegen/emit_expr.c:715-839 | the short-circuit conjunction and disjunction with their patched jumps: the right operand runs only if the left one does not decide |
| EmitExpr.CodeGen.EmitLogicalDiscard | src/codegen/emit_expr.c:715-839 | the same when nobody wants the value |
| EmitExpr.CodeGen.EmitUnary | src/codegen/emit_expr.c:110-139 | negation, complement and logical not implement their operators |
| EmitExpr.CodeGen.EmitBinaryInst | src/codegen/emit_expr.c:674-699 | appends the one instruction and frees exactly the operand registers that are temporaries and not the destination |
| EmitExpr.CodeGen.EmitLocal | src/codegen/emit_expr.c:569-621 | a local is read where it lives, or moved to the target |
| EmitExpr.CodeGen.EmitWord | src/codegen/emit_expr.c:535-550 | a folded constant arrives in the target through LOAD_IMM or the constant pool |
| EmitExpr.CodeGen.EmitLiteral | src/codegen/emit_expr.c:376-445 | an integer literal of either signedness arrives in the target; one of unsigned type becomes an immediate only up to 32767 |
| EmitExpr.CodeGen.ResolveTarget | include/codegen/codegen_internal.h:99-119 | the target register, or a register that was free |
| EmitExpr.CodeGen.AllocReg | include/codegen/codegen_internal.h:70-78 | a register that was free, the lowest such one, if there was any |
| EmitExpr.CodeGen.AllocCallWindow | src/codegen/emit_expr.c:60-79 | marks a window of consecutive registers; it lies above every register in use if and only if it is not the empty window beside register 255 |
| EmitExpr.CodeGen.EmitContiguousArgs | src/codegen/emit_expr.c:81-108 | the arguments arrive in consecutive registers above every register in use, each with its value |
| EmitExpr.CodeGen.EmitStandardCall | src/codegen/emit_expr.c:1859-1896 | argument code, then one call whose payload is recorded as a patch; the window is free again afterwards and only the result stays marked |
| CallFragments.MoreArgs | src/codegen/emit_expr.c:81-108 | evaluating one more argument keeps the arguments already in the window |
| CallFragments.CallExpressionPreserves | src/codegen/emit_expr.c:1859-1896 | a whole call expression, run to its return through whatever the callee does, leaves every register that was in use unchanged except the result register |
| CallFragments.CalleeReceivesArgs | src/vm/vm.c:282-309 | the callee starts with the argument values in its registers 0, 1, ... |
| Fragments.ShortFragment | src/codegen/emit_expr.c:715-839 | the code shape of short-circuit conjunction and disjunction implements them, given implementations of the operands |
| Fragments.TwoOperandFragment | src/codegen/emit_expr.c:674-699 | operand codes followed by a register-register instruction implement the operator |
| Fragments.OneOperandFragment | src/codegen/emit_expr.c:37-58 | operand code followed by a one-operand instruction implements the operator |
| Fragments.ImplementsExactly | src/codegen/emit_expr.c:2051-2124 | code that implements an expression traps if and only if the expression as emitted has no value, and arrives with v if and only if that is its value |
| Fragments.QuotientTimesZeroArrives | src/codegen/emit_expr.c:221-227 | any code for `(a / b) * 0` arrives with 0 whatever `b` holds, while the expression has no value exactly if `b` is 0 |
| Fragments.DiscardsBoth | src/codegen/emit_expr.c:865-873 | a strict operator whose value nobody wants leaves the traps of its operands and drops its own |
| Fragments.DiscardThenCompute | src/codegen/emit_expr.c:221-227 | a dropped operand followed by the code for what is left implements the whole |
| Emitted.EmittedKeepsValues | src/codegen/emit_expr.c:2051-2124 | wherever the expression has a value, the code delivers it and does not trap, if constants fold and immediates are read as their types demand |
| Emitted.EmittedIsDirect | src/codegen/emit_expr.c:2051-2124 | if moreover only pure operands are dropped, code and expression agree in every environment, traps included |
| Emitted.EmittedExact | src/codegen/emit_expr.c:2051-2124 | otherwise they agree if and only if the code does not outlive the expression's trap |
| Emitted.AbsorbedExact | src/codegen/emit_expr.c:216-343 | a product, conjunction or power with 0 is right if and only if dropping the operand traps wherever the operand has no value |
| Emitted.QuotientTimesZero | src/codegen/emit_expr.c:221-227 | the code for `(a / b) * 0` computes 0 in every environment; the expression does so unless `b` is 0 |
| Emitted.EmittedConst | src/codegen/emit_expr.c:2059-2065 | a folded expression is loaded as its constant and never traps |
| Emitted.PureEmits | src/codegen/const_eval.c:301-402 | the code for an expression judged pure never traps, so dropping it unemitted is right |
| Expr.EvalConstSound | src/codegen/const_eval.c:8-299 | what the folder computes is the expression's value in every environment, unless an unsigned operator inside is misread |
| Expr.FoldIntsSound | src/codegen/const_eval.c:92-151 | folding two constants gives the operator's value if and only if `FoldsAlike`: always for signed operators, for unsigned ones under a condition on the two numbers; it never folds a division by zero |
| Expr.FoldExact | src/codegen/const_eval.c:92-151 | an operator on rightly folded operands folds rightly if and only if the condition on the two constants holds |
| Expr.UnsignedFoldIsWrong | src/codegen/const_eval.c:105-108 | `(0 - 1) / 2` on an unsigned type folds to 0; its value is 2^63 - 1 |
| Expr.MisfoldedDivisorTraps | src/codegen/const_eval.c:326-356 | a division judged pure whose divisor is 0 |
| Expr.PureNeverTraps | src/codegen/const_eval.c:301-402 | an expression judged pure has a value in every environment, if its constants fold rightly |
| Expr.PureDivisionExact | src/codegen/const_eval.c:326-356 | a division judged pure, on operands that have values, has none if and only if its constant divisor is 0, and then the divisor folds to something else |
| Expr.ShortCircuitIsLogical | src/codegen/emit_expr.c:715-839 | on boolean values the short-circuit reading is plain conjunction and disjunction |
| OpTables.RegOpcodeComputes | src/codegen/op_tables.c:48-81 | the selected register opcode, signed or unsigned, computes the operator on the machine, including the division trap |
| OpTables.ImmOpcodeComputes | src/codegen/op_tables.c:48-81 | so does the immediate opcode with the encoded byte, negative literals of byte-reading forms apart |
| OpTables.ImmediateFormExact | src/codegen/emit_expr.c:642-672 | the immediate form is right for every operand if and only if it is not a power, an unsigned division, remainder or order with a negative literal |
| OpTables.LiteralOfLocalExact | src/codegen/emit_expr.c:642-672 | the code for a whole operation on a local and a literal is the direct value in every environment under the same condition |
| OpTables.SignedDivision | src/vm/vm.c:433-493 | the machine's division and remainder with their special case for -1 are truncating division |
| OpTables.SwapComputes | src/codegen/op_tables.c:6-46 | commutative operators may swap operands, comparisons swap to their mirror image |
| OpTables.CanonicalSame | src/codegen/emit_expr.c:623-640 | moving a literal to the right keeps the meaning |
| OpTables.SelfConstant | src/codegen/emit_expr.c:148-173 | an operator on a local and itself has the constant value the generator emits |
| OpTables.NeutralLiteral | src/codegen/emit_expr.c:208-375 | operators with their neutral literal return the operand |
| OpTables.ShiftComputes | src/codegen/emit_expr.c:232-236 | signed multiplication by a power of two is the shift |
| OpTables.UnsignedReduced | src/codegen/emit_expr.c:239-290 | unsigned division and remainder by a power of two are the shift and the mask that are emitted |
| OpTables.LiteralEmitted | src/codegen/emit_expr.c:642-672 | an operator with a literal on its right that neither folds nor absorbs computes on the literal, or on its byte |
| Words.PowerOfTwoReductions | src/codegen/emit_expr.c:232-289 | unsigned multiplication, division and remainder by a power of two are shift, shift and mask |
| Words.PowerOfTwoTest | include/codegen/math_utils.h:17-23 | `v & (v - 1)` is zero exactly for powers of two, and then the trailing zeros are the logarithm |
| Words.TruncDivRem | src/vm/vm.c:433-493 | truncating division and remainder recompose the dividend; the remainder has the dividend's sign |
| RegSet.RegSet.constructor | include/codegen/reg_alloc.h:11-13 | the empty set |
| RegSet.RegSet.MarkUsed | include/codegen/reg_alloc.h:30-32 | adds one register to the set that the four words stand for |
| RegSet.RegSet.Free | include/codegen/reg_alloc.h:26-28 | removes one register |
| RegSet.RegSet.Alloc | include/codegen/reg_alloc.h:15-24 | adds the lowest free register; returns a register already in use if and only if all are, and then it is 0 |
| RegSet.RegSet.GetHighestUsed | include/codegen/reg_alloc.h:34-41 | the greatest member, or -1 |
| RegSet.LowestBit | include/codegen/reg_alloc.h:15-24 | counting trailing zeros finds the lowest set bit |
| RegSet.HighestBitIs | include/codegen/reg_alloc.h:34-41 | counting leading zeros finds the highest set bit |
| Bytecode.PayloadRoundTrip | include/defines/bytecode.h:659-747 | a payload stored as an instruction word reads back |
| Bytecode.FieldBx | include/defines/bytecode.h:691-737 | a 16-bit signed field reads back what was stored and leaves opcode and A alone |
| Bytecode.FieldAx | include/defines/bytecode.h:695-747 | the same for the 24-bit field |
| Bytecode.FieldC | include/defines/bytecode.h:679-729 | the same for the 8-bit field |
| Bytecode.SetBranchOffsetReads | include/defines/bytecode.h:868-894 | retargeting a branch changes where it goes and none of the registers it tests |
| Vm.InvertedBranch | include/defines/bytecode.h:384-447 | the inverted branch is taken exactly when the original is not |
| Vm.Machine.constructor | src/vm/vm.c:70-100 | loading a chunk gives the initial state |
| Vm.Machine.Dispatch | src/vm/vm.c:126-1055 | one turn of the dispatch loop, on the machine's own fields and stack, is one step of the specification |
| Vm.Machine.RunFor | src/vm/vm.c:126-1055 | so are any number of turns |
| Vm.Machine.MoveArgsDown | src/vm/vm.c:349-362 | moving tail-call arguments down one by one is the block move, although the ranges overlap |
| Vm.Machine.DoTailCall | src/vm/vm.c:339-366 | a tail call reuses the window: arguments moved to its start, nothing below or above touched |
| Vm.Machine.DoCall | src/vm/vm.c:282-337 | checks both stacks, pushes the frame, slides the window |
| Vm.Machine.DoSyscall | src/vm/vm.c:368-410 | hands the argument registers to the host and stores its answer, or stops with its status |
| Vm.StepMovesControl | src/vm/vm.c:155-366 | where control can go in one step: the next instruction, a branch or call target, a saved return address |
| CallWindows.StepInsideCall | src/vm/vm.c:166-187 | every step of a callee, nested and tail calls included, keeps the caller's cells and frames |
| CallWindows.CallReturnsToCaller | src/vm/vm.c:282-337 | from a call to its matching return: all cells below the caller's base + B unchanged except A; ip is call + 2 and the register base is the caller's again |
| CallWindows.LiveRegistersSurviveCall | src/codegen/emit_expr.c:60-79 | registers below B keep their values over a call, except the result register |
| Validator.Validate | src/serializer/serializer.c:154-299 | the two scanning loops accept exactly the chunks in which every opcode is known, every instruction fits, branches and calls go to boundaries, and constants, globals and system calls are in range |
| Validator.CheckOperands | src/serializer/serializer.c:201-292 | the second loop's test of one instruction |
| Validator.SafeStep | src/vm/vm.c:155-410 | one step of accepted code keeps ip and return addresses on boundaries, the window in the stack and the frames within capacity; it goes wrong if and only if it runs off the end, returns from an empty frame stack, or makes an unknown system call with SYSCALL_VOID |
| Validator.ValidatedRunsAreSafe | src/serializer/serializer.c:154-299 | the same for every run: it goes wrong with a fault if and only if it comes to such a step |
| Validator.InitialStateIsSafe | src/vm/vm.c:70-100 | a freshly loaded chunk starts safe |
| Validator.ValidationMissesVoidSyscallId | src/serializer/serializer.c:274-292 | an accepted chunk whose first step uses a system-call number that does not exist |
| Validator.KnownSyscallsSuffice | src/serializer/serializer.c:274-292 | if every SYSCALL_VOID has a known number, no run of accepted code uses an unknown one |
| Validator.UnknownSyscallExact | src/serializer/serializer.c:274-292 | accepted code makes no unknown system call from any safe state if and only if all its numbers are known |
| Behaviour.SameBehaviourDiverges | src/vm/vm.c:126-153 | programs with the same endings diverge together |
| JumpTargets.CollectJumpTargets | src/optimizer/optimizer.c:428-459 | marks exactly the start of the code and every slot some instruction branches to or calls |
| DeadCode.EliminateDeadCode | src/optimizer/optimizer.c:461-500 | the in-place pass overwrites exactly the instructions behind a terminator up to the next mark, and reports whether anything changed |
| DeadCode.DeadCodeIsNeverReached | src/optimizer/optimizer.c:461-500 | in every run neither ip nor any saved return address is ever at an overwritten instruction, and both programs run identically, step by step |
| DeadCode.PrunedWellFormed | src/optimizer/optimizer.c:461-500 | the result is well formed and the same marks still cover its targets |
| JumpRules.Rule1Preserves | src/optimizer/optimizer.c:701-710 | dropping a branch to the next instruction keeps every run's behaviour, the layout and the marks |
| JumpRules.Rule3Preserves | src/optimizer/optimizer.c:732-756 | so does retargeting a conditional branch past a jump |
| JumpRules.Rule5Preserves | src/optimizer/optimizer.c:765-786 | so does inverting a branch around a jump |
| JumpRules.Rule6Preserves | src/optimizer/optimizer.c:788-811 | so does shortcutting a jump to a jump or to a return |
| JumpRules.Rule10Preserves | src/optimizer/optimizer.c:936-989 | so do the algebraic identities |
| Identities.SimplifiedExecutes | src/optimizer/optimizer.c:936-989 | the simplified instruction does in every state what the original did |
| JumpRules.ThreadingPreservesBehaviour | src/optimizer/optimizer.c:679-1031 | a sweep with rules 1, 3, 5, 6 and 10 (of the eleven) keeps every run, finite or infinite, and the marks collected before it stay sound while it changes targets |
| JumpRules.ThreadJumps | src/optimizer/optimizer.c:679-1031 | the in-place sweep with these five rules is that sweep |
| JumpRules.VisitRule5 | src/optimizer/optimizer.c:765-786 | rule 5 on the array |
| JumpRules.VisitRule6 | src/optimizer/optimizer.c:788-811 | rule 6 on the array |
| JumpRules.VisitRule10 | src/optimizer/optimizer.c:936-989 | rule 10 on the array |
| Relocate.OffsetShrinks | src/optimizer/optimizer.c:1079-1102 | every relocated offset lies between 0 (for a backward branch -1) and the old one, so the range assertions hold |
| Relocate.StepSimulates | src/optimizer/optimizer.c:1033-1125 | ip, saved return addresses, branch targets and call payloads stay related by the slot map over every step |
| Relocate.StrippingPreservesBehaviour | src/optimizer/optimizer.c:1033-1125 | the stripped program has the same endings and divergence as the original |
| StripNops.StripNopsAndRelocate | src/optimizer/optimizer.c:1033-1125 | sliding the code down in place while relocating gives exactly the stripped program |
| StripNops.FillRemap | src/optimizer/optimizer.c:1039-1060 | the slot map, payload slots included |
| StripNops.StrippedSame | src/optimizer/optimizer.c:1062-1064 | when nothing is to be dropped, relocation would change nothing |
| StripNops.StrippedWellFormed | src/optimizer/optimizer.c:1033-1125 | the stripped program is well formed |
| Optimizer.Round | src/optimizer/optimizer.c:1150-1163 | one round of marks, dead code, the sweep with rules 1, 3, 5, 6 and 10, and stripping cannot be noticed (dead stores and the other rules are not in it) |
| Optimizer.Optimize | src/optimizer/optimizer.c:1127-1169 | neither can the loop of such rounds, for any chunk, host and run |
| ContractVm.CompatibleCodeBehavesAlike | include/defines/bytecode.h:101-345 | a rewriting that respects a linkage at every instruction has the same endings, with the same globals, events and status, as the original |
| ContractVm.StepSimulates | include/defines/bytecode.h:101-345 | one step of the original is one or two of the rewritten program |
| DeadRegisters.IsRegDeadAfter | src/optimizer/optimizer.c:266-319 | the scan decides the deadness predicate |
| DeadRegisters.DeadRegisterIsUnobservable | src/optimizer/optimizer.c:266-319 | if a register is dead behind a point, two configurations differing only in it have the same observable future |
| DeadStores.EliminateDeadStores | src/optimizer/optimizer.c:502-604 | the in-place pass, block by block backwards, gives the swept code, and reports whether anything changed |
| DeadStores.CollectBlock | src/optimizer/optimizer.c:514-534 | collects one basic block: consecutive instructions, none but the first a target, none but the last a branch |
| DeadStores.SweepInstruction | src/optimizer/optimizer.c:560-600 | removes a dead pure definition, voids a call whose result is dead, updates the live set |
| DeadStores.AddInstructionUses | src/optimizer/optimizer.c:112-148 | adds exactly the counted uses |
| DeadStores.UsesIncludeReads | src/optimizer/optimizer.c:112-148 | every register an instruction reads counts as used |
| DeadStores.DeadStoresPreserveBehaviour | src/optimizer/optimizer.c:502-604 | on the contract machine: on validated code from which no random draw is dropped, the pass cannot be noticed |
| DeadStores.SweptSound | src/optimizer/optimizer.c:502-604 | the swept code is well formed and the marks collected before still cover its targets |
| Counterexamples.DroppedRandomIsNoticed | src/vm/syscall.c:183-191 | a program that draws twice and stores the second number: on the machine, the swept program stores the first |
| ForwardMove.TryForwardDefToMove | src/optimizer/optimizer.c:326-426 | fires exactly if there is a MOVE to forward to, rewrites definition and MOVE, and otherwise changes nothing |
| ForwardMove.FindConflict | src/optimizer/optimizer.c:373-391 | finds out whether the final register is touched in between |
| ForwardMove.ForwardingPreservesBehaviour | src/optimizer/optimizer.c:326-426 | on the contract machine, the rewriting cannot be noticed, whatever lies in between |
| ForwardMove.ForwardedSound | src/optimizer/optimizer.c:326-426 | the rewritten code is well formed and covered by the same marks |
| CopyPropagation.PropagateCopy | src/optimizer/optimizer.c:869-934 | rule 9 in place is the rule as a function |
| CopyPropagation.CopyScan | src/optimizer/optimizer.c:881-920 | the substitution scan on the array |
| CopyPropagation.CopyingPreservesBehaviour | src/optimizer/optimizer.c:881-920 | substituting the source for the copy up to the end of the block cannot be noticed |
| CopyPropagation.DeadDefinitionRemoved | src/optimizer/optimizer.c:922-928 | dropping a definition whose register is dead cannot be noticed |
| CopyPropagation.Rule9PreservesBehaviour | src/optimizer/optimizer.c:869-934 | on the contract machine, the whole rule cannot be noticed |
| CopyPropagation.Rule9Sound | src/optimizer/optimizer.c:869-934 | the rewritten code is well formed and covered by the same marks |
| Derived.DerivedSound | src/optimizer/optimizer.c:428-459 | code in which every instruction is kept with its control flow or blanked is well formed, and marks that covered it still do |
| RegisterPasses.SweepRegisters | src/optimizer/optimizer.c:679-1031 | a whole in-place sweep of rules 4 and 9 with the marks collected before it cannot be noticed |
| RegisterPasses.RegisterRound | src/optimizer/optimizer.c:1150-1163 | on the contract machine: marks, dead stores and that sweep, on validated code without draws, cannot be noticed |
| TableContract.StepMatches | src/vm/vm.c:155-410 | one step of disciplined code is the same on the machine itself and on the machine of the table: registers that may be looked at, saved frames, globals and observed events stay equal, unless the register stack is used up |
| TableContract.Lockstep | src/vm/vm.c:126-1055 | so is every run; a register stack of 255 cells a frame is never used up |
| TableContract.MachineFollows | include/defines/bytecode.h:101-345 | what cannot be noticed between two disciplined programs on the contract machine cannot be noticed on the machine itself |
| TableContract.ReturnsAgree | src/vm/vm.c:166-187 | after a return both machines have the same in the destination if and only if a value is returned or the leftover is the same |
| TableContract.LeftoverUnnoticed | src/vm/vm.c:166-187 | disciplined programs end alike whatever RET_VOID is taken to hand over |
| DisciplineKept.KeepsDiscipline | include/defines/bytecode.h:101-345 | a rewriting that respects a linkage and keeps what is looked at behind calls below their windows leaves disciplined code |
| DisciplineKept.CompatibleOnMachine | include/defines/bytecode.h:101-345 | such a rewriting cannot be noticed on the machine itself |
| PassesOnMachine.DeadStoresOnMachine | src/optimizer/optimizer.c:502-604 | on disciplined, validated code from which no draw is dropped, the pass cannot be noticed on the machine itself |
| PassesOnMachine.SweptIsDisciplined | src/optimizer/optimizer.c:502-604 | the swept code is disciplined again |
| PassesOnMachine.ForwardingOnMachine | src/optimizer/optimizer.c:326-426 | rule 4 cannot be noticed on the machine itself, and leaves disciplined code, if the final register lies below the windows of the calls in between |
| PassesOnMachine.Rule9OnMachine | src/optimizer/optimizer.c:869-934 | rule 9 cannot be noticed on the machine itself if what is looked at behind the calls it rewrites stays below their windows |
| PassesOnMachine.Rule9IsDisciplined | src/optimizer/optimizer.c:869-934 | the code it leaves is disciplined |
| PassesOnMachine.JoinedOnMachine | src/optimizer/optimizer.c:1127-1169 | a run of the machine-level passes, a round of register passes between disciplined programs, and another run of the first: together they cannot be noticed on the machine itself |
| TableCounterexamples.SweptLeakIsNoticed | src/vm/vm.c:181-187 | a validated program without draws in which dead stores remove a load in front of a call that returns nothing: the machine stores another value |
| TableCounterexamples.LeakIsUndisciplined | src/vm/vm.c:181-187 | no assignment of facts makes that program disciplined |
| TableCounterexamples.PeekIsNoticed | src/vm/vm.c:282-337 | the same for a callee that looks at a register it was not passed |
| TableCounterexamples.MovedWindowIsNoticed | src/optimizer/optimizer.c:150-168 | a program in which rule 9 moves a call's window over a register still in use: the machine stores 7 instead of 9 |
| TableCounterexamples.MovedWindowIsNotClear | src/optimizer/optimizer.c:869-934 | that program is excluded by the condition on windows, whatever facts make it disciplined |
| TableCounterexamples.MovedIsDisciplined | src/optimizer/optimizer.c:869-934 | and it is disciplined |
| TableCounterexamples.ForwardIsNoticed | src/optimizer/optimizer.c:326-426 | a program in which rule 4 forwards into the window of a call on the way: the machine stores 7 instead of 5 |
| TailCalls.IntroduceTailCall | src/optimizer/optimizer.c:813-834 | rule 7 on the array |
| TailCalls.Unwind | src/vm/vm.c:166-187 | the returns stacked up behind former tail calls deliver what the one remaining return delivers |
| TailCalls.TailCallPreservesBehaviour | src/optimizer/optimizer.c:813-834 | on the contract machine: except that it may outlive a call-stack overflow, the program with the tail call has the same endings; without overflow also the same divergence |
| TailCalls.Rule7Sound | src/optimizer/optimizer.c:813-834 | the rewritten code is well formed and covered by the same marks |
| FusionOnMachine.TailCallIsDisciplined | src/optimizer/optimizer.c:813-834 | the tail call leaves disciplined code, without further conditions |
| FusionOnMachine.TailCallOnMachine | src/optimizer/optimizer.c:813-834 | rule 7 cannot be noticed on the machine itself where it cannot on the contract machine, call-stack overflows apart |
| Counterexamples.VoidTailCallLeaks | src/optimizer/optimizer.c:822-833 | a program and its rewriting, in terms of machine runs: the caller's register 0, which nobody returned to, is stored as 5 by the original and as 7 after the rule |
| FusedBranches.FusionExact | src/optimizer/optimizer.c:606-677 | the fused branch decides as comparison and branch do for all operands if and only if they are not EQ_IMM or NEQ_IMM with a negative immediate |
| BranchFusion.FuseZeroTest | src/optimizer/optimizer.c:836-867 | rule 8 on the array: fires exactly under the rule's tests, and removes the comparison exactly if its register is dead on the fall-through path |
| BranchFusion.FuseBranch | src/optimizer/optimizer.c:991-1025 | rule 11 on the array, likewise |
| BranchFusion.Rule8PreservesBehaviour | src/optimizer/optimizer.c:836-867 | if a removed result is dead at the branch target too, and a kept test meets the condition of `Rule8Leaves`, rule 8 cannot be noticed |
| BranchFusion.Rule11PreservesBehaviour | src/optimizer/optimizer.c:991-1025 | the same for rule 11 under the condition of `Rule11Leaves` |
| BranchFusion.Rule8Leaves | src/optimizer/optimizer.c:836-867 | from any configuration, both programs leave the site for the same place with nothing but the result register different if and only if the test is removed, leaves its operand alone, is NEQ, or the branch goes to the next instruction |
| BranchFusion.Rule11Leaves | src/optimizer/optimizer.c:991-1025 | they do so from every configuration if and only if the comparison is not EQ or NEQ with a negative immediate, or the branch goes to the next instruction |
| FusionOnMachine.Rule8OnMachine | src/optimizer/optimizer.c:836-867 | rule 8 cannot be noticed on the machine itself, for disciplined code and under the same condition |
| FusionOnMachine.Rule11OnMachine | src/optimizer/optimizer.c:991-1025 | the same for rule 11 |
| FusionOnMachine.Rule8IsDisciplined | src/optimizer/optimizer.c:836-867 | the code after rule 8 is disciplined |
| FusionOnMachine.Rule11IsDisciplined | src/optimizer/optimizer.c:991-1025 | the code after rule 11 is disciplined |
| BranchFusion.Rule8Sound | src/optimizer/optimizer.c:836-867 | the rewritten code is well formed and covered by the same marks |
| BranchFusion.Rule11Sound | src/optimizer/optimizer.c:991-1025 | the same for rule 11 |
| BranchFusion.FusedBehavesAlike | src/optimizer/optimizer.c:836-1025 | two instructions against one: whole runs end alike if every other instruction pair respects the linkage and the two sites match |
| BranchFusion.ScannedPlaces | src/optimizer/optimizer.c:266-319 | what the pass's scan finds dead satisfies the liveness equations over all paths |
| Counterexamples.RemovedTestIsRead | src/optimizer/optimizer.c:836-867 | a program whose removed zero test is read at the branch target: on the machine it stores the register's old value instead of 1 |
| Counterexamples.FusedResultIsRead | src/optimizer/optimizer.c:991-1025 | the same for rule 11 |
| Counterexamples.KeptTestIsMisread | src/optimizer/optimizer.c:836-867 | a program whose kept equality test overwrites its operand: on the machine the branch goes the other way |
| Probing.ProbeEnds | src/table/symbol_table.c:82-119 | a probe meets a free slot before it has gone round |
| Probing.MissedNothing | src/table/symbol_table.c:202-227 | a probe that stops at a free slot has passed every entry of its home |
| Probing.Insert | src/table/symbol_table.c:111-116 | filling the free slot at the end of a probe stores the new entry and keeps all others findable |
| Probing.Replace | src/table/symbol_table.c:97-105 | handing a slot over to a newer entry of the same hash does the same |
| Probing.Rehash | src/table/symbol_table.c:50-80 | doubling the table keeps exactly the entries |
| SymbolTable.SymbolTable.constructor | src/table/symbol_table.c:12-24 | an empty table |
| SymbolTable.SymbolTable.PushScope | src/table/symbol_table.c:32-38 | a new scope, its parent stored unchecked; the scopes remain a forest if and only if the parent exists already |
| SymbolTable.SymbolTable.Add | src/table/symbol_table.c:82-119 | appends the symbol, which from now on answers to its name and scope |
| SymbolTable.SymbolTable.LookupExact | src/table/symbol_table.c:202-227 | the symbol added last for the name in the scope, or null |
| SymbolTable.SymbolTable.Lookup | src/table/symbol_table.c:229-242 | over a forest of scopes: the outcome of walking the enclosing ones; the walk ends |
| SymbolTable.NearestScopeWins | src/table/symbol_table.c:229-242 | that is the latest symbol of the nearest enclosing scope that has the name |
| SymbolTable.LatestPush | src/table/symbol_table.c:82-119 | a new symbol takes over from the latest one of its name and scope, and from no other |
| ConstantPool.ConstantPool.Intern | src/pool/constant_pool.c:67-108 | the one id of the value; old ids keep their values |
| ConstantPool.ConstantPool.Get | src/pool/constant_pool.c:110-115 | an id reads back its value, other numbers read 0 |
| StringInterner.StringInterner.constructor | src/interner/string_interner.c:14-28 | only the empty string, as id 0 |
| StringInterner.StringInterner.Intern | src/interner/string_interner.c:67-125 | the one id of the string, 0 for the empty one; old ids keep their strings although the buffer grows |
| StringInterner.StringInterner.GetString | src/interner/string_interner.c:127-135 | an id reads back its string, other numbers the empty one |
| StringInterner.TextsPush | src/interner/string_interner.c:112-119 | appending bytes and the closing zero adds one text and moves no other |
| TypeInterner.TypeInterner.constructor | src/interner/type_interner.c:16-29 | each primitive kind has its own number as id |
| TypeInterner.TypeInterner.Intern | src/interner/type_interner.c:139-194 | the one id of the type; old ids keep their types |
| TypeInterner.HashType | src/interner/type_interner.c:37-74 | the hash depends only on what the type means, not on where its list is stored |
| TypeInterner.EqTypeIsStructural | src/interner/type_interner.c:76-109 | the field-by-field comparison is structural equality |
| TypeInterner.TypeInterner.GetFunc | src/interner/type_interner.c:218-223 | the one id of a function type, its parameters stored behind the others |
| GlobalInit.Checker.Ensure | src/analyzer/analyzer_pass3.c:92-147 | the depth-first visit walks the initialiser, ends, keeps the order duplicate-free and appends its global, or reports a cycle |
| GlobalInit.Checker.CheckAll | src/analyzer/analyzer_pass3.c:1375-1399 | every global is in the order exactly once; an error is reported if and only if the references in the initialisers have a cycle; without one the order is topological; without references it is the order of declaration |
| GlobalInit.Checker.CheckExpr | src/analyzer/analyzer_pass3.c:189-209 | the walk over an expression ensures every global it comes to |
| GlobalInit.ReferencesComplete | src/analyzer/analyzer_pass3.c:189-209 | it comes to a global if and only if the global stands in the expression |
| GlobalInit.ReadyExact | src/analyzer/analyzer_pass3.c:92-147 | under that order an initialiser is ready to run if and only if the globals it needs only through calls come before it, too |
| GlobalInit.CalledReferenceComesLater | src/analyzer/analyzer_pass3.c:480-560 | two globals without references that stay in the order of declaration although the first needs the second |
| GlobalInit.TopologicalHasNoCycle | src/analyzer/analyzer_pass3.c:92-147 | a graph with a topological order of all globals has no cycle |
| GlobalInit.CycleOnPath | src/analyzer/analyzer_pass3.c:106-110 | meeting a global that is being checked closes a cycle |
| Purity.AnalyzePurity | src/analyzer/analyzer_pass4.c:283-344 | the loop ends with flags on exactly the greatest set of functions that have no direct effects and call only one another |
| Purity.Sweep | src/analyzer/analyzer_pass4.c:308-337 | one sweep removes only functions no pure set contains, and a sweep without change means closed |
| Purity.PureIffHarmless | src/analyzer/analyzer_pass4.c:259-344 | a function is in that set exactly if no call path from it reaches an impure or unresolved callee |
| Purity.AnalyzeDeclarations | src/analyzer/analyzer_pass4.c:259-344 | the whole pass from bodies to flags: every body walked for effects and callees, then the greatest pure set marked |
| Purity.InfoMeaning | src/analyzer/analyzer_pass4.c:259-306 | a symbol is impure in itself unless it is a function whose body neither assigns to a global outside call arguments nor makes an unresolved call; it calls exactly what its body calls |
| Purity.HiddenEffectIsMarkedPure | src/analyzer/analyzer_pass4.c:13-115 | a function that assigns to a global in a call argument is in the greatest pure set |
| SyntaxTrees.HasDirectSideEffects | src/analyzer/analyzer_pass4.c:13-115 | the tree walk for effects is `Effects` |
| SyntaxTrees.EffectsAreOpen | src/analyzer/analyzer_pass4.c:13-115 | it finds an effect if and only if an assignment to a global stands outside all call arguments |
| SyntaxTrees.EffectsExact | src/analyzer/analyzer_pass4.c:13-115 | so it decides whether the body assigns to a global if and only if it finds one or no call argument holds one |
| SyntaxTrees.CollectCallees | src/analyzer/analyzer_pass4.c:121-253 | the tree walk appends the callees in order and reports unresolved ones |
| SyntaxTrees.CalleesComplete | src/analyzer/analyzer_pass4.c:121-253 | it lists exactly the symbols called anywhere in the tree, arguments included |
| Reachability.Marker.CollectCalls | src/analyzer/analyzer_pass5.c:13-108 | the tree walk marks and pushes every function called in the tree that was not marked before, each once |
| Reachability.Marker.MarkReachable | src/analyzer/analyzer_pass5.c:110-150 | from bodies and roots, the worklist runs dry with exactly the reachable functions marked |
| Reachability.Marker.Push | src/analyzer/analyzer_pass5.c:24-34 | a callee that is not marked yet is marked and pushed, once |
| Reachability.CallsMeaning | src/analyzer/analyzer_pass5.c:13-108 | one function calls another in the call graph if and only if its body holds such a call; the same for roots |
| Reachability.LinkProgram | src/codegen/codegen.c:133-215 | every reachable function's code is placed once, unchanged but for its calls, and every emitted call goes to the entry of a function that was placed |
| Reachability.PatchCalls | src/codegen/codegen.c:205-215 | the patching loop writes every payload and nothing else |
| Parser.ParseIsSound | src/parser/parser.c:781-815 | a successful parse consumes exactly the in-order reading of its tree; every spine operator binds tighter than asked; right operands of left-associative and left operands of right-associative operators bind strictly tighter; depth stays within the limit |
| Parser.ParseOfFlatten | src/parser/parser.c:781-815 | every such tree is parsed back from its tokens |
| Parser.Unambiguous | src/parser/parser.c:781-815 | two such trees with the same tokens are equal |
| Parser.AssociativityOfShape | src/parser/parser.c:627-641 | the shape spelled out: left-associative operators nest to the left, `**` to the right |
| Parser.Cursor.ParseExpression | src/parser/parser.c:781-815 | the token cursor follows that parse and builds the tree without its parentheses |
| Parser.Cursor.ParseInfix | src/parser/parser.c:627-641 | the operator and its right operand |
| Parser.Cursor.ParsePrefixExpression | src/parser/parser.c:429-492 | literals, identifiers, groups and unary operators |
| StringLiterals.AppendEscaped | src/stringify/ast_stringifier.c:238-270 | appends the quoted, escaped bytes |
| StringLiterals.FindStringEnd | src/lexer/lexer.c:174-193 | the scan by 32-byte chunks finds the first quote, backslash, line end or zero, as a bytewise scan would |
| StringLiterals.MaskFindsFirst | src/lexer/lexer.c:174-193 | the trailing zeros of a movemask are the first matching byte |
| StringLiterals.ScanString | src/lexer/lexer.c:230-267 | the scanner with its chunked skips ends where the bytewise scanner does |
| StringLiterals.ParseStringValue | src/parser/parser.c:202-265 | the unescaping loop, with its report of unknown escapes |
| StringLiterals.UnescapedEscaped | src/parser/parser.c:202-265 | unescaping undoes escaping for all bytes |
| StringLiterals.StringRoundTrip | src/stringify/ast_stringifier.c:238-270 | for every byte string whose quoted form has at most 65535 bytes, that form is scanned as one token and parsed back to the bytes |
| Power.PowU64 | src/types/acu_value.c:17-51 | the power modulo 2^64 for all bases and exponents |
| Power.PowBySquaring | src/types/acu_value.c:33-50 | the loop with the split into trailing zeros and odd part |
| Power.IntPow | include/codegen/math_utils.h:4-15 | the same power for exponents that are not negative, 0 otherwise |

## Left out

- Emitted.EmittedIsDirect: goes one way (`ReadsRight` and `KeepsTraps` imply the direct value in every environment), because a misread operator or a dropped trap may sit where it cannot matter; per environment `Emitted.EmittedExact` and per operator `Expr.FoldExact` and `OpTables.LiteralOfLocalExact` are exact.
- EmitExpr.CodeGen.EmitStandardCall: the contract covers argument evaluation, register use and the patch; the callee's value is whatever it returns.
- DeadStores.DeadStoresPreserveBehaviour: about the contract machine, one way (no dropped draw implies preservation), because a dropped draw in code that never runs cannot be noticed either; the machine itself is `PassesOnMachine.DeadStoresOnMachine`.
- PassesOnMachine.DeadStoresOnMachine: like the other theorems on the machine itself, one way, because code that looks at what the table does not promise may do so where it does not matter. Compared are status, globals and system calls that are not pure; no part of the program reads the exit code of HALT. The host answers pure calls as the table says. If the register stack is small, runs that use it up are not compared.
- TailCalls.TailCallPreservesBehaviour: for `CALL_VOID` it assumes a static over-approximation of where a result is waited for; outcomes after a call-stack overflow of the original are not compared.
- BranchFusion.Rule8PreservesBehaviour: the deadness at the target is required one way, because a result that is read there only in code that never runs cannot be noticed; what happens at the site is exact in `Rule8Leaves`; it is about the contract machine, while the failing inputs are runs of the machine itself.
- BranchFusion.Rule11PreservesBehaviour: the same.
- RegisterPasses.RegisterRound: assumes code without `randomU64` draws, a sufficient condition for no draw to be dropped.
- SymbolTable.SymbolTable.Lookup: the scopes are a forest. The callers establish it: a root scope has no parent (src/module/module_manager.c:37 and 86); a block's parent is the scope being checked (src/analyzer/analyzer_pass3.c:364-365) and a function body's the root scope of its module (src/analyzer/analyzer_pass3.c:1409-1426), both pushed before.
- StringLiterals.StringRoundTrip: the buffer carries at least 32 zero bytes behind its limit, as the file loader provides.
- Power.IntPow: signed overflow, undefined in C, is taken as wrap-around.
- Floating point: one uninterpreted function of the host; float folding and float literals are not part of this model.
- Casts in the expression generator and their folding: values are 64-bit words, and an operator's kind carries the signedness of its operands' type; narrower widths matter to casts only.
- Globals as operands and the cache of the last stored global; assignments, declarations, blocks, conditionals, loops, `return` and the generator's own tail calls.
- Inside `EmitExpr` the constant pool is a sequence and the register bitset a set; `ConstantPool` and `RegSet` prove the data structures themselves. `max_reg` is not tracked.
- Peephole rule 2.
- The whole loop with all passes in one sweep is not one theorem: `PassesOnMachine.JoinedOnMachine` joins the two groups of passes in sequence, for disciplined code in between; that the machine-level passes keep the discipline is not shown, and rules 7, 8 and 11 are theorems of their own because they need a condition. The contract machine has no register-stack overflow, starts a callee's other registers at 0, and does not observe the exit code of HALT.
- On the contract machine, one event is one system call that is not pure; bodies of system calls, clocks and files are answers of the host.
- In `GlobalInit` an initialiser has its parts in the order in which type checking meets them; type inference, coercions and the other diagnostics of the analyser are left out. In `SyntaxTrees` a call carries the symbol it resolves to and an assignment whether its target is a global.
- Parsing beyond literals, identifiers, parentheses, unary and binary operators is the outcome `Outside`; error messages, recovery and statements are left out.
- Hash slots are pairs of hash and id, not packed words; ids are natural numbers below the null id; growth of vectors and the arena is taken for granted.
- The string pool, the file manager, serialisation, the disassembler and both main programs: plumbing, or the same hash scheme again.
- `AcuRegSet_AllocContiguous` (unused by the generator), tuples, arrays and vectors in the generator (stubs).
