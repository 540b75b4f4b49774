/** Programs on which a rewriting of the optimiser can be noticed, as runs of the VM itself. */
module Counterexamples {
  import opened Words
  import opened Bytecode
  import opened Layout
  import opened Vm
  import opened JumpTargets
  import opened DeadRegisters
  import opened DeadStores
  import opened TailCalls
  import opened BranchFusion
  import ContractVm
  import opened FusedBranches
  import JumpRules

  // ---- single steps ---------------------------------------------------------------------------------

  lemma ThenRun(c: Chunk, h: Host, s: State, t: State, n: nat)
    requires Step(c, h, s) == Go(t)
    ensures Run(c, h, s, n + 1) == Run(c, h, t, n)
  {
    hide Step;
  }

  predicate At(c: Chunk, s: State, w: Word) {
    0 <= s.ip < |c.code| && s.HasWindow() && c.code[s.ip] == w
  }

  lemma ComputeStep(c: Chunk, h: Host, s: State, w: Word, v: u64, n: nat)
    requires At(c, s, w) && IsCompute(w.op)
    requires Compute(c, h, s.globals, w, s.Reg(w.b), s.Reg(w.c)) == Val(v)
    ensures Run(c, h, s, n + 1) == Run(c, h, s.SetReg(w.a, v).Goto(s.ip + 1), n)
  {
    hide Compute;
    ThenRun(c, h, s, s.SetReg(w.a, v).Goto(s.ip + 1), n);
  }

  lemma LoadStep(c: Chunk, h: Host, s: State, a: u8, v: u8, n: nat)
    requires At(c, s, Word(OP_LOAD_IMM, a, v, 0))
    ensures Run(c, h, s, n + 1) == Run(c, h, s.SetReg(a, v).Goto(s.ip + 1), n)
  {
    SignedFields(Word(OP_LOAD_IMM, a, v, 0));
    ComputeStep(c, h, s, Word(OP_LOAD_IMM, a, v, 0), v, n);
  }

  lemma JumpStep(c: Chunk, h: Host, s: State, op: u8, a: u8, offset: u8, n: nat)
    requires At(c, s, EncodeAsBx(op, a, offset)) && IsBoolJump(op)
    ensures var to := s.ip + 1 + if (op == OP_JUMP_IF_TRUE) == (s.Reg(a) != 0) then offset else 0;
            Run(c, h, s, n + 1) == Run(c, h, s.Goto(to), n)
  {
    hide Step;
    FieldBx(Word(op, a, 0, 0), offset);
    BranchStep(c, h, s);
    ThenRun(c, h, s, Step(c, h, s).next, n);
  }

  lemma PassNop(c: Chunk, h: Host, s: State, n: nat)
    requires At(c, s, NOP_WORD)
    ensures Run(c, h, s, n + 1) == Run(c, h, s.Goto(s.ip + 1), n)
  {
    JumpRules.NopStep(c, h, s);
    ThenRun(c, h, s, s.Goto(s.ip + 1), n);
  }

  /** The program stores register `a` in the only global and stops. */
  lemma StoresAndHalts(c: Chunk, h: Host, s: State, a: u8)
    requires At(c, s, Word(OP_STORE_GLOBAL, a, 0, 0)) && s.ip + 1 < |c.code| && c.code[s.ip + 1] == HALT_WORD
    requires |s.globals| == 1
    ensures Run(c, h, s, 2) == Stop(Final(Halted, s.Reg(0), [s.Reg(a)], s.trace))
  {
    hide Step;
    var t := s.(globals := s.globals[0 := s.Reg(a)], ip := s.ip + 1);
    assert t.globals == [s.Reg(a)];
    StoreStep(c, h, s, a);
    ThenRun(c, h, s, t, 1);
    HaltsNow(c, h, t);
  }

  const HALT_WORD := Word(OP_HALT, 0, 0, 0)

  lemma StoreStep(c: Chunk, h: Host, s: State, a: u8)
    requires At(c, s, Word(OP_STORE_GLOBAL, a, 0, 0)) && |s.globals| == 1
    ensures Step(c, h, s) == Go(s.(globals := s.globals[0 := s.Reg(a)], ip := s.ip + 1))
  {
    hide Compute;
  }

  lemma HaltsNow(c: Chunk, h: Host, s: State)
    requires At(c, s, HALT_WORD)
    ensures Run(c, h, s, 1) == Stop(Final(Halted, s.Reg(0), s.globals, s.trace))
  {
    hide Compute;
    assert Step(c, h, s) == Stop(Final(Halted, s.Reg(0), s.globals, s.trace));
    assert Run(c, h, s, 1) == Step(c, h, s);
  }

  lemma EnterStep(c: Chunk, h: Host, s: State, w: Word, target: u8, n: nat)
    requires At(c, s, w) && s.ip + 1 < |c.code| && c.code[s.ip + 1] == Word(target, 0, 0, 0)
    requires w.op == OP_CALL || w.op == OP_CALL_VOID
    requires s.base + w.b + REG_WINDOW <= |s.stack| && |s.frames| < FRAME_CAPACITY
    ensures var f := Frame(s.ip + 2, s.base, if w.op == OP_CALL then Some(w.a) else None);
            Run(c, h, s, n + 1) == Run(c, h, s.(ip := target, base := s.base + w.b, frames := s.frames + [f]), n)
  {
    hide Step;
    WideStep(c, h, s);
    ThenRun(c, h, s, Step(c, h, s).next, n);
  }

  lemma TailStep(c: Chunk, h: Host, s: State, target: u8, n: nat)
    requires At(c, s, Word(OP_TAILCALL, 0, 0, 0)) && s.ip + 1 < |c.code| && c.code[s.ip + 1] == Word(target, 0, 0, 0)
    ensures Run(c, h, s, n + 1) == Run(c, h, s.Goto(target), n)
  {
    hide Step;
    WideStep(c, h, s);
    assert MoveArgs(s.stack, s.base, 0, 0) == s.stack;
    ThenRun(c, h, s, Step(c, h, s).next, n);
  }

  /** A return, with the value of register 0 or without. */
  lemma LeaveStep(c: Chunk, h: Host, s: State, w: Word, n: nat)
    requires At(c, s, w) && (w == Word(OP_RET, 0, 0, 0) || w == Word(OP_RET_VOID, 0, 0, 0)) && s.frames != []
    requires s.frames[|s.frames| - 1].base + REG_WINDOW <= |s.stack|
    ensures var f := s.frames[|s.frames| - 1];
            var t := s.(ip := f.returnIp, base := f.base, frames := s.frames[..|s.frames| - 1]);
            Run(c, h, s, n + 1) ==
            Run(c, h, if w.op == OP_RET && f.returnReg.Some? then t.SetReg(f.returnReg.value, s.Reg(0)) else t, n)
  {
    hide Run;
    ReturnSteps(c, h, s, w);
    ThenRun(c, h, s, Step(c, h, s).next, n);
  }

  lemma ReturnSteps(c: Chunk, h: Host, s: State, w: Word)
    requires At(c, s, w) && (w == Word(OP_RET, 0, 0, 0) || w == Word(OP_RET_VOID, 0, 0, 0))
    ensures Step(c, h, s) == StepReturn(s, if w.op == OP_RET then Some(0) else None)
  {
    hide Compute;
    hide StepReturn;
  }

  /** The run from `s` ends normally with `v` in the only global. */
  ghost predicate EndsStoring(c: Chunk, h: Host, s: State, v: u64) {
    exists n: nat, exit: u64, trace: seq<Event> :: Run(c, h, s, n) == Stop(Final(Halted, exit, [v], trace))
  }

  // ---- rule 7 ---------------------------------------------------------------------------------------

  /** Main loads 5 and stores the result of a call at 5; the function there calls one that returns 7,
      and returns nothing itself. */
  function LeakChunk(): Chunk {
    Chunk([Word(OP_LOAD_IMM, 0, 5, 0), Word(OP_CALL, 0, 1, 0), Word(5, 0, 0, 0),
           Word(OP_STORE_GLOBAL, 0, 0, 0), HALT_WORD,
           Word(OP_CALL_VOID, 0, 0, 0), Word(8, 0, 0, 0), Word(OP_RET_VOID, 0, 0, 0),
           Word(OP_LOAD_IMM, 0, 7, 0), Word(OP_RET, 0, 0, 0)], [], 0, 1)
  }

  function LeakMarks(): seq<bool> {
    [true, false, false, false, false, true, false, false, true, false, false]
  }

  /** At the start of a chunk, with room for one more window on the stack. */
  ghost predicate Starts(c: Chunk, s: State) { IsInitial(c, s) && |s.stack| > REG_WINDOW }

  /** Both programs call the function at 5 like this. */
  lemma MainCalls(c: Chunk, h: Host, s: State, n: nat) returns (t: State)
    requires Starts(LeakChunk(), s) && |c.code| == 10 && c.code[..5] == LeakChunk().code[..5]
    ensures t == State(5, 1, s.stack[0 := 5], [Frame(3, 0, Some(0))], s.globals, s.trace)
    ensures Run(c, h, s, n + 2) == Run(c, h, t, n)
  {
    hide Run;
    forall i | 0 <= i < 5 ensures c.code[i] == LeakChunk().code[i] {
      assert c.code[..5][i] == LeakChunk().code[..5][i];
    }
    LoadStep(c, h, s, 0, 5, n + 1);
    var t1 := s.SetReg(0, 5).Goto(1);
    EnterStep(c, h, t1, Word(OP_CALL, 0, 1, 0), 5, n);
    t := State(5, 1, s.stack[0 := 5], [Frame(3, 0, Some(0))], s.globals, s.trace);
    assert t1.frames + [Frame(3, 0, Some(0))] == [Frame(3, 0, Some(0))];
  }

  lemma ReturnsSeven(c: Chunk, h: Host, s: State, n: nat)
    requires |c.code| == 10 && s.ip == 8 && s.HasWindow()
    requires c.code[8] == Word(OP_LOAD_IMM, 0, 7, 0) && c.code[9] == Word(OP_RET, 0, 0, 0)
    requires s.frames != [] && s.frames[|s.frames| - 1].base + REG_WINDOW <= |s.stack|
    ensures var f, t0 := s.frames[|s.frames| - 1], s.SetReg(0, 7);
            var t := t0.(ip := f.returnIp, base := f.base, frames := s.frames[..|s.frames| - 1]);
            Run(c, h, s, n + 2) == Run(c, h, if f.returnReg.Some? then t.SetReg(f.returnReg.value, 7) else t, n)
  {
    hide Run;
    LoadStep(c, h, s, 0, 7, n + 1);
    LeaveStep(c, h, s.SetReg(0, 7).Goto(9), Word(OP_RET, 0, 0, 0), n);
  }

  /** The original: RET_VOID leaves main's register 0 alone. */
  lemma OriginalStoresFive(h: Host, s: State)
    requires Starts(LeakChunk(), s)
    ensures EndsStoring(LeakChunk(), h, s, 5)
  {
    hide Run;
    hide EncodeAsBx;
    var c := LeakChunk();
    var t := MainCalls(c, h, s, 6);
    EnterStep(c, h, t, Word(OP_CALL_VOID, 0, 0, 0), 8, 5);
    var t1 := t.(ip := 8, frames := t.frames + [Frame(7, 1, None)]);
    ReturnsSeven(c, h, t1, 3);
    var t2 := t.SetReg(0, 7).Goto(7);
    assert t1.frames[..1] == t.frames;
    LeaveStep(c, h, t2, Word(OP_RET_VOID, 0, 0, 0), 2);
    var t3 := State(3, 0, t2.stack, [], s.globals, s.trace);
    assert t2.frames[..0] == [];
    StoresAndHalts(c, h, t3, 0);
    assert Run(c, h, s, 8) == Stop(Final(Halted, t3.Reg(0), [5], s.trace));
  }

  /** The rewritten program: the tail call hands 7 to main. */
  lemma RewrittenStoresSeven(h: Host, s: State)
    requires Starts(LeakChunk(), s)
    ensures EndsStoring(LeakChunk().(code := Rule7(LeakChunk().code, 5)), h, s, 7)
  {
    hide Run;
    hide EncodeAsBx;
    var c := LeakChunk().(code := Rule7(LeakChunk().code, 5));
    forall i | 0 <= i < 10 && i != 5 && i != 7 ensures c.code[i] == LeakChunk().code[i] {
    }
    assert c.code[..5] == LeakChunk().code[..5];
    var t := MainCalls(c, h, s, 5);
    TailStep(c, h, t, 8, 4);
    ReturnsSeven(c, h, t.Goto(8), 2);
    var t3 := State(3, 0, t.SetReg(0, 7).stack[0 := 7], [], s.globals, s.trace);
    assert t.frames[..0] == [];
    StoresAndHalts(c, h, t3, 0);
    assert Run(c, h, s, 7) == Stop(Final(Halted, t3.Reg(0), [7], s.trace));
  }

  /** If somebody waits for the result, dropping a RET_VOID hands out a value nobody returned. */
  lemma VoidTailCallLeaks(h: Host, s: State)
    requires Starts(LeakChunk(), s)
    ensures Collected(LeakChunk().code, LeakMarks()) && Rule7Applies(LeakChunk().code, LeakMarks(), 5)
    ensures EndsStoring(LeakChunk(), h, s, 5)
    ensures EndsStoring(LeakChunk().(code := Rule7(LeakChunk().code, 5)), h, s, 7)
  {
    LeakCollected();
    OriginalStoresFive(h, s);
    RewrittenStoresSeven(h, s);
  }

  // ---- rules 8 and 11 -------------------------------------------------------------------------------

  /** A comparison whose result the branch target reads, and the fall-through overwrites. */
  function ReadChunk(comparison: Word): Chunk {
    Chunk([comparison, EncodeAsBx(OP_JUMP_IF_TRUE, 1, 2), Word(OP_LOAD_IMM, 1, 9, 0), HALT_WORD,
           Word(OP_STORE_GLOBAL, 1, 0, 0), HALT_WORD], [], 0, 1)
  }

  function ReadMarks(): seq<bool> { [true, false, false, false, true, false, false] }

  const ZERO_TEST := Word(OP_EQ_IMM, 1, 0, 0)
  const LESS_THAN_ONE := Word(OP_LT_S_IMM, 1, 0, 1)

  /** With register 0 at zero the original comes to the store with the result, 1. */
  lemma ComparedStoresOne(h: Host, s: State, comparison: Word)
    requires comparison == ZERO_TEST || comparison == LESS_THAN_ONE
    requires IsInitial(ReadChunk(comparison), s) && s.Reg(0) == 0
    ensures EndsStoring(ReadChunk(comparison), h, s, 1)
  {
    hide Run;
    hide EncodeAsBx;
    var c := ReadChunk(comparison);
    ComparesToOne(c, h, s, comparison);
    ComputeStep(c, h, s, comparison, 1, 3);
    var t := s.SetReg(1, 1).Goto(1);
    JumpStep(c, h, t, OP_JUMP_IF_TRUE, 1, 2, 2);
    StoresAndHalts(c, h, t.Goto(4), 1);
    assert Run(c, h, s, 4) == Stop(Final(Halted, t.Reg(0), [1], s.trace));
  }

  lemma ComparesToOne(c: Chunk, h: Host, s: State, comparison: Word)
    requires comparison == ZERO_TEST || comparison == LESS_THAN_ONE
    requires s.HasWindow() && s.Reg(0) == 0
    ensures IsCompute(comparison.op)
    ensures Compute(c, h, s.globals, comparison, s.Reg(comparison.b), s.Reg(comparison.c)) == Val(1)
  {
  }

  /** The scan of rule 8 and rule 11 finds the result dead: it is overwritten right behind the branch. */
  lemma ScannedDead(code: seq<Word>)
    requires |code| == 6 && code[2] == Word(OP_LOAD_IMM, 1, 9, 0)
    ensures DeadAfter(code, ReadMarks(), 2, 1)
  {
  }

  /** Rule 8 removes a test whose result is read at the branch target: the program stores the old value
      of register 1 instead. */
  lemma RemovedTestIsRead(h: Host, s: State)
    requires IsInitial(ReadChunk(ZERO_TEST), s) && s.Reg(0) == 0
    ensures Collected(ReadChunk(ZERO_TEST).code, ReadMarks())
    ensures Rule8Applies(ReadChunk(ZERO_TEST).code, ReadMarks(), 0)
    ensures EndsStoring(ReadChunk(ZERO_TEST), h, s, 1)
    ensures EndsStoring(ReadChunk(ZERO_TEST).(code := Rule8(ReadChunk(ZERO_TEST).code, ReadMarks(), 0)), h, s, s.Reg(1))
  {
    hide Run;
    ReadCollected(ZERO_TEST);
    hide Collected;
    ComparedStoresOne(h, s, ZERO_TEST);
    var code := ReadChunk(ZERO_TEST).code;
    ReadReach(ZERO_TEST);
    var d := ReadChunk(ZERO_TEST).(code := Rule8(code, ReadMarks(), 0));
    ScannedDead(code[1 := ZeroFused(code, 0)]);
    assert d.code[0] == NOP_WORD && d.code[1] == EncodeAsBx(OP_JUMP_IF_FALSE, 0, 2);
    PassNop(d, h, s, 3);
    JumpStep(d, h, s.Goto(1), OP_JUMP_IF_FALSE, 0, 2, 2);
    StoresAndHalts(d, h, s.Goto(4), 1);
    assert Run(d, h, s, 4) == Stop(Final(Halted, s.Reg(0), [s.Reg(1)], s.trace));
  }

  lemma ReadReach(comparison: Word)
    ensures BranchOffset(ReadChunk(comparison).code[1]) == 2 && Reach(ReadChunk(comparison).code, 0) == 2
  {
    FieldBx(Word(OP_JUMP_IF_TRUE, 1, 0, 0), 2);
  }

  /** The same with rule 11. */
  lemma FusedResultIsRead(h: Host, s: State)
    requires IsInitial(ReadChunk(LESS_THAN_ONE), s) && s.Reg(0) == 0
    ensures Collected(ReadChunk(LESS_THAN_ONE).code, ReadMarks())
    ensures Rule11Applies(ReadChunk(LESS_THAN_ONE).code, ReadMarks(), 0)
    ensures EndsStoring(ReadChunk(LESS_THAN_ONE), h, s, 1)
    ensures EndsStoring(ReadChunk(LESS_THAN_ONE).(code := Rule11(ReadChunk(LESS_THAN_ONE).code, 0)), h, s, s.Reg(1))
  {
    hide Run;
    ReadCollected(LESS_THAN_ONE);
    hide Collected;
    ComparedStoresOne(h, s, LESS_THAN_ONE);
    var code := ReadChunk(LESS_THAN_ONE).code;
    ReadReach(LESS_THAN_ONE);
    var d := ReadChunk(LESS_THAN_ONE).(code := Rule11(code, 0));
    ScannedDead(code);
    var w := Word(OP_JUMP_LT_S_IMM, 0, 1, 3);
    assert d.code[0] == w;
    BranchStep(d, h, s);
    assert Taken(w, s.Reg(0), s.Reg(1)) && BranchOffset(w) == 3;
    ThenRun(d, h, s, s.Goto(4), 2);
    StoresAndHalts(d, h, s.Goto(4), 1);
    assert Run(d, h, s, 3) == Stop(Final(Halted, s.Reg(0), [s.Reg(1)], s.trace));
  }

  /** An equality test that overwrites its operand and is kept, because its result is stored next. */
  function KeptChunk(): Chunk {
    Chunk([Word(OP_EQ_IMM, 0, 0, 0), EncodeAsBx(OP_JUMP_IF_TRUE, 0, 2), Word(OP_STORE_GLOBAL, 0, 0, 0), HALT_WORD,
           Word(OP_LOAD_IMM, 1, 9, 0), Word(OP_STORE_GLOBAL, 1, 0, 0), HALT_WORD], [], 0, 1)
  }

  function KeptMarks(): seq<bool> { [true, false, false, false, true, false, false, false] }

  /** Rule 8 then branches on the result as if it were the operand: the original stores 9, the rewritten
      program 1. */
  lemma KeptTestIsMisread(h: Host, s: State)
    requires IsInitial(KeptChunk(), s) && s.Reg(0) == 0
    ensures Collected(KeptChunk().code, KeptMarks()) && Rule8Applies(KeptChunk().code, KeptMarks(), 0)
    ensures EndsStoring(KeptChunk(), h, s, 9)
    ensures EndsStoring(KeptChunk().(code := Rule8(KeptChunk().code, KeptMarks(), 0)), h, s, 1)
  {
    hide Run;
    KeptCollected();
    hide Collected;
    var c := KeptChunk();
    var test := Word(OP_EQ_IMM, 0, 0, 0);
    FieldBx(Word(OP_JUMP_IF_TRUE, 0, 0, 0), 2);
    assert Reach(c.code, 0) == 2;
    assert Compute(c, h, s.globals, test, s.Reg(0), s.Reg(0)) == Val(1);
    ComputeStep(c, h, s, test, 1, 4);
    var t := s.SetReg(0, 1).Goto(1);
    JumpStep(c, h, t, OP_JUMP_IF_TRUE, 0, 2, 3);
    var u := t.Goto(4);
    assert Compute(c, h, s.globals, Word(OP_LOAD_IMM, 1, 9, 0), u.Reg(9), u.Reg(0)) == Val(9);
    ComputeStep(c, h, u, Word(OP_LOAD_IMM, 1, 9, 0), 9, 2);
    StoresAndHalts(c, h, u.SetReg(1, 9).Goto(5), 1);
    assert Run(c, h, s, 5) == Stop(Final(Halted, 1, [9], s.trace));
    var d := c.(code := Rule8(c.code, KeptMarks(), 0));
    var q := c.code[1 := ZeroFused(c.code, 0)];
    assert !DeadAfter(q, KeptMarks(), 2, 0);
    assert d.code == q && d.code[1] == EncodeAsBx(OP_JUMP_IF_FALSE, 0, 2);
    assert Compute(d, h, s.globals, test, s.Reg(0), s.Reg(0)) == Val(1);
    ComputeStep(d, h, s, test, 1, 3);
    JumpStep(d, h, t, OP_JUMP_IF_FALSE, 0, 2, 2);
    StoresAndHalts(d, h, t.Goto(2), 0);
    assert Run(d, h, s, 4) == Stop(Final(Halted, 1, [1], s.trace));
  }

  // ---- dead stores ----------------------------------------------------------------------------------

  const DRAW := Event(ContractVm.RANDOM_U64, [])

  /** Two numbers are drawn into register 0; the second one is stored. */
  function DrawChunk(): Chunk {
    Chunk([Word(OP_SYSCALL, 0, 0, 0), Word(ContractVm.RANDOM_U64, 0, 0, 0),
           Word(OP_SYSCALL, 0, 0, 0), Word(ContractVm.RANDOM_U64, 0, 0, 0),
           Word(OP_STORE_GLOBAL, 0, 0, 0), HALT_WORD], [], 0, 1)
  }

  function DrawMarks(): seq<bool> { [true, false, false, false, false, false, false] }

  lemma DrawStep(c: Chunk, h: Host, s: State, n: nat)
    requires At(c, s, Word(OP_SYSCALL, 0, 0, 0)) && s.ip + 1 < |c.code|
    requires c.code[s.ip + 1] == Word(ContractVm.RANDOM_U64, 0, 0, 0) && h.reply(s.trace + [DRAW]).status == 0
    ensures Run(c, h, s, n + 1) ==
            Run(c, h, s.(trace := s.trace + [DRAW], ip := s.ip + 2).SetReg(0, h.reply(s.trace + [DRAW]).ret), n)
  {
    hide Step;
    WideStep(c, h, s);
    assert s.stack[s.base..s.base] == [];
    ThenRun(c, h, s, Step(c, h, s).next, n);
  }

  /** The pass removes the first draw: it is tabled pure, and its number is not used. */
  lemma FirstDrawSwept()
    ensures Scans(DrawChunk().code, 0)
    ensures Swept(DrawChunk().code, DrawMarks()) == DrawChunk().code[0 := NOP_WORD][1 := NOP_WORD]
  {
    var code, marks := DrawChunk().code, DrawMarks();
    assert Scans(code, 5) && Scans(code, 4) && Scans(code, 2);
    assert BlockEnds(code, marks, 5) && LeavesAt(code, 5);
    assert !BlockEnds(code, marks, 4) && !BlockEnds(code, marks, 2) && !BlockEnds(code, marks, 0);
    assert LiveIn(code, marks, 4, 0) && LiveOut(code, marks, 2, 0) && !LiveIn(code, marks, 2, 0);
    assert Unused(code, marks, 0) && PureAt(code, 0) && !Unused(code, marks, 2);
    assert StoreSwept(code, marks, 0) == [NOP_WORD, NOP_WORD];
    assert StoreSwept(code, marks, 2) == code[2..4];
    assert StoreSwept(code, marks, 4) == [code[4]] && StoreSwept(code, marks, 5) == [code[5]];
    assert SweptFrom(code, marks, 6) == [];
    assert SweptFrom(code, marks, 5) == [code[5]];
    assert SweptFrom(code, marks, 4) == [code[4], code[5]];
    assert SweptFrom(code, marks, 2) == [code[2], code[3], code[4], code[5]];
  }

  /** A dropped draw is noticed: the generator is one number behind, and the program stores the number the
      original threw away. */
  lemma DroppedRandomIsNoticed(h: Host, s: State)
    requires IsInitial(DrawChunk(), s) && h.reply([DRAW]).status == 0 && h.reply([DRAW, DRAW]).status == 0
    ensures Scans(DrawChunk().code, 0)
    ensures EndsStoring(DrawChunk(), h, s, h.reply([DRAW, DRAW]).ret)
    ensures EndsStoring(DrawChunk().(code := Swept(DrawChunk().code, DrawMarks())), h, s, h.reply([DRAW]).ret)
  {
    hide Run;
    hide Swept;
    FirstDrawSwept();
    var c := DrawChunk();
    var first, second := h.reply([DRAW]).ret, h.reply([DRAW, DRAW]).ret;
    assert s.trace + [DRAW] == [DRAW] && [DRAW] + [DRAW] == [DRAW, DRAW];
    DrawStep(c, h, s, 3);
    var t := s.(trace := [DRAW], ip := 2).SetReg(0, first);
    DrawStep(c, h, t, 2);
    var u := t.(trace := [DRAW, DRAW], ip := 4).SetReg(0, second);
    StoresAndHalts(c, h, u, 0);
    assert Run(c, h, s, 4) == Stop(Final(Halted, u.Reg(0), [second], u.trace));
    var d := c.(code := Swept(c.code, DrawMarks()));
    PassNop(d, h, s, 4);
    PassNop(d, h, s.Goto(1), 3);
    DrawStep(d, h, s.Goto(2), 2);
    var v := s.(trace := [DRAW], ip := 4).SetReg(0, first);
    StoresAndHalts(d, h, v, 0);
    assert Run(d, h, s, 5) == Stop(Final(Halted, v.Reg(0), [first], v.trace));
  }

  // ---- the inputs are what the pass may meet --------------------------------------------------------

  /** Marks as the pass collects them, on well-formed code. */
  ghost predicate Collected(code: seq<Word>, marks: seq<bool>) { WellFormed(code) && Covers(code, marks) }

  lemma {:induction false} OneSlotEach(code: seq<Word>, from: nat)
    requires forall i :: 0 <= i < |code| ==> Slots(code[i].op) == 1 && code[i].op < ACU_OPCODE_COUNT
    requires from <= |code|
    ensures Scans(code, from) && forall i :: from <= i <= |code| ==> Meets(code, from, i)
    decreases |code| - from
  {
    if from < |code| { OneSlotEach(code, from + 1); }
  }

  /** One-slot code with a single branch is well formed if that branch stays inside, and covered if its
      target is marked. */
  lemma OneBranchCollected(code: seq<Word>, marks: seq<bool>, at: nat)
    requires |code| <= MAX_CODE && |marks| == |code| + 1 && marks[0] && at < |code|
    requires forall i :: 0 <= i < |code| ==> Slots(code[i].op) == 1 && code[i].op < ACU_OPCODE_COUNT
    requires forall i :: 0 <= i < |code| && i != at ==> !IsBranch(code[i].op)
    requires IsBranch(code[at].op) && 0 <= at + 1 + BranchOffset(code[at]) <= |code|
    requires marks[at + 1 + BranchOffset(code[at])]
    ensures Collected(code, marks)
  {
    hide BranchOffset;
    OneSlotEach(code, 0);
    forall i | 0 <= i < |code| && Boundary(code, i) ensures GoodAt(code, i) {
    }
  }

  lemma ReadCollected(comparison: Word)
    requires comparison == ZERO_TEST || comparison == LESS_THAN_ONE
    ensures Collected(ReadChunk(comparison).code, ReadMarks())
  {
    ReadReach(comparison);
    OneBranchCollected(ReadChunk(comparison).code, ReadMarks(), 1);
  }

  lemma KeptCollected()
    ensures Collected(KeptChunk().code, KeptMarks())
  {
    FieldBx(Word(OP_JUMP_IF_TRUE, 0, 0, 0), 2);
    OneBranchCollected(KeptChunk().code, KeptMarks(), 1);
  }

  lemma LeakLayout(i: int)
    ensures Boundary(LeakChunk().code, i) <==>
            i == 0 || i == 1 || i == 3 || i == 4 || i == 5 || i == 7 || i == 8 || i == 9 || i == 10
    ensures Scans(LeakChunk().code, 0)
  {
    var code := LeakChunk().code;
    assert Meets(code, 9, i) <==> i == 9 || i == 10;
    assert Meets(code, 8, i) <==> i == 8 || Meets(code, 9, i);
    assert Meets(code, 7, i) <==> i == 7 || Meets(code, 8, i);
    assert Meets(code, 5, i) <==> i == 5 || Meets(code, 7, i);
    assert Meets(code, 4, i) <==> i == 4 || Meets(code, 5, i);
    assert Meets(code, 3, i) <==> i == 3 || Meets(code, 4, i);
    assert Meets(code, 1, i) <==> i == 1 || Meets(code, 3, i);
    assert Scans(code, 9) && Scans(code, 8) && Scans(code, 7) && Scans(code, 5) && Scans(code, 4);
    assert Scans(code, 3) && Scans(code, 1);
  }

  lemma LeakGood(i: nat)
    requires i < 10 && Boundary(LeakChunk().code, i)
    ensures GoodAt(LeakChunk().code, i)
  {
    hide Boundary;
    hide BranchOffset;
    var code := LeakChunk().code;
    LeakLayout(i);
    LeakLayout(5);
    LeakLayout(8);
    assert Payload(code[2]) == 5 && Payload(code[6]) == 8;
    if i != 1 && i != 5 {
      assert Slots(code[i].op) == 1 && !IsCall(code[i].op) && !IsBranch(code[i].op);
    }
  }

  lemma LeakEnters(k: nat, i: nat)
    requires k < 10 && Boundary(LeakChunk().code, k) && EntersAt(LeakChunk().code, k, i)
    ensures i == 5 || i == 8
  {
    hide Boundary;
    hide BranchOffset;
    var code := LeakChunk().code;
    LeakLayout(k);
    assert Payload(code[2]) == 5 && Payload(code[6]) == 8;
  }

  lemma LeakCollected()
    ensures Collected(LeakChunk().code, LeakMarks())
  {
    hide Boundary;
    hide Scans;
    hide GoodAt;
    hide EntersAt;
    var code := LeakChunk().code;
    LeakLayout(0);
    forall i | 0 <= i < |code| && Boundary(code, i) ensures GoodAt(code, i) {
      LeakGood(i);
    }
    forall i | 0 <= i <= |code| && IsTarget(code, i) ensures LeakMarks()[i] {
      if i != 0 {
        var k :| 0 <= k < |code| && Boundary(code, k) && EntersAt(code, k, i);
        LeakEnters(k, i);
      }
    }
  }
}
