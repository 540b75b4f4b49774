/** Programs that look at what the opcode table does not promise, or whose windows a rewriting moves: on the
    machine itself the register passes can be noticed. Each input is left out by one of the conditions
    under which they cannot. */
module TableCounterexamples {
  import opened Words
  import opened Bytecode
  import opened Layout
  import opened Vm
  import opened JumpTargets
  import opened ContractVm
  import opened DeadRegisters
  import opened DeadStores
  import opened TableContract
  import opened PassesOnMachine
  import opened Counterexamples
  import Validator
  import ForwardMove
  import CopyPropagation

  // ---- layout ---------------------------------------------------------------------------------------

  predicate Single(w: Word) { Slots(w.op) == 1 && w.op < ACU_OPCODE_COUNT && !IsBranch(w.op) && !IsCall(w.op) }

  /** One call at `at`, one-slot instructions without branches around it. */
  predicate OneCall(code: seq<Word>, at: nat) {
    && at + 1 < |code| <= MAX_CODE && IsCall(code[at].op)
    && Payload(code[at + 1]) < |code| && Payload(code[at + 1]) != at + 1
    && forall i :: 0 <= i < |code| && i != at && i != at + 1 ==> Single(code[i])
  }

  lemma {:induction false} OneCallScans(code: seq<Word>, at: nat, from: nat)
    requires OneCall(code, at) && from <= |code| && from != at + 1
    ensures Scans(code, from)
    ensures forall i: int :: Meets(code, from, i) <==> from <= i <= |code| && (i != at + 1 || from > at + 1)
    decreases |code| - from
  {
    if from < |code| {
      OneCallScans(code, at, if from == at then at + 2 else from + 1);
    }
  }

  lemma OneCallCollected(code: seq<Word>, marks: seq<bool>, at: nat)
    requires OneCall(code, at) && |marks| == |code| + 1 && marks[0] && marks[Payload(code[at + 1])]
    ensures Collected(code, marks)
    ensures forall i: int :: Boundary(code, i) <==> 0 <= i <= |code| && i != at + 1
  {
    hide BranchOffset;
    OneCallScans(code, at, 0);
    forall i | 0 <= i < |code| && Boundary(code, i) ensures GoodAt(code, i) {
      assert i != at ==> Single(code[i]);
    }
    forall k, i | 0 <= k < |code| && Boundary(code, k) && k != at ensures !EntersAt(code, k, i) {
      assert Single(code[k]);
    }
  }

  lemma OneCallValid(c: Chunk, at: nat)
    requires OneCall(c.code, at) && c.code[at].b + c.code[at].c <= REG_WINDOW
    requires forall i :: 0 <= i < |c.code| && i != at && i != at + 1 ==> EasyOperands(c, c.code[i])
    ensures Validator.ValidChunk(c)
  {
    hide Boundary;
    hide Validator.BoundaryValid;
    hide EasyOperands;
    OneCallScans(c.code, at, 0);
    BoundaryMeets(c.code);
    forall i | 0 <= i < |c.code| && Boundary(c.code, i) ensures Validator.BoundaryValid(c, i) {
      if i == at { CallValid(c, i); } else { EasyValid(c, i); }
    }
  }

  lemma BoundaryMeets(code: seq<Word>)
    ensures forall i: int :: Boundary(code, i) == Meets(code, 0, i)
  {
  }

  /** One dead store among live ones. */
  lemma OnlySwept(code: seq<Word>, marks: seq<bool>, at: nat)
    requires |marks| == |code| + 1 && Scans(code, 0) && Boundary(code, at) && at < |code|
    requires Slots(code[at].op) == 1 && code[at].op != OP_NOP && Unused(code, marks, at) && PureAt(code, at)
    requires forall i :: 0 <= i < |code| && Boundary(code, i) && i != at ==> !Unused(code, marks, i)
    requires forall i :: 0 < i < |code| && !Boundary(code, i) ==> Boundary(code, i - 1) && Slots(code[i - 1].op) == 2
    ensures Swept(code, marks) == code[at := NOP_WORD]
  {
    hide Swept;
    hide Unused;
    var q := Swept(code, marks);
    forall i | 0 <= i < |code| ensures q[i] == code[at := NOP_WORD][i] {
      var k := if Boundary(code, i) then i else i - 1;
      SweptAt(code, marks, k);
    }
  }

  lemma MoveStep(c: Chunk, h: Host, s: State, a: u8, b: u8, n: nat)
    requires At(c, s, Word(OP_MOVE, a, b, 0))
    ensures Run(c, h, s, n + 1) == Run(c, h, s.SetReg(a, s.Reg(b)).Goto(s.ip + 1), n)
  {
    MoveValue(c, h, s.globals, Word(OP_MOVE, a, b, 0), s.Reg(b), s.Reg(0));
    ComputeStep(c, h, s, Word(OP_MOVE, a, b, 0), s.Reg(b), n);
  }

  // ---- a caller that counts on a result nobody returns ----------------------------------------------

  lemma LeakBoundaries()
    ensures Scans(LeakChunk().code, 0) && Validator.ValidChunk(LeakChunk())
    ensures forall i: int :: Boundary(LeakChunk().code, i) <==>
              i == 0 || i == 1 || i == 3 || i == 4 || i == 5 || i == 7 || i == 8 || i == 9 || i == 10
  {
    hide Boundary;
    hide BranchOffset;
    hide Scans;
    var code := LeakChunk().code;
    LeakLayout(0);
    forall i: int ensures Boundary(code, i) <==>
      i == 0 || i == 1 || i == 3 || i == 4 || i == 5 || i == 7 || i == 8 || i == 9 || i == 10
    {
      LeakLayout(i);
    }
    forall i | 0 <= i < |code| && Boundary(code, i) ensures Validator.BoundaryValid(LeakChunk(), i) {
      LeakLayout(5);
      LeakLayout(8);
      LeakValidAt(i);
    }
  }

  /** An instruction in whose operands the validator has little to look for. */
  predicate EasyOperands(c: Chunk, w: Word) {
    Single(w) && w.op != OP_LOAD_GLOBAL && w.op != OP_LOAD_CONST && w.op != OP_LOAD_STR &&
    (w.op == OP_STORE_GLOBAL ==> GetBx(w) < c.globalSlots)
  }

  lemma EasyValid(c: Chunk, i: nat)
    requires i < |c.code| && EasyOperands(c, c.code[i])
    ensures Validator.BoundaryValid(c, i)
  {
    hide GetBx;
    hide BranchOffset;
  }

  lemma CallValid(c: Chunk, i: nat)
    requires i + 1 < |c.code| && IsCall(c.code[i].op) && c.code[i].b + c.code[i].c <= REG_WINDOW
    requires Payload(c.code[i + 1]) < |c.code| && Boundary(c.code, Payload(c.code[i + 1]))
    ensures Validator.BoundaryValid(c, i)
  {
    hide Boundary;
    hide Payload;
    hide GetBx;
    hide BranchOffset;
  }

  lemma LeakValidAt(i: nat)
    requires i < 10 && i != 2 && i != 6
    requires Boundary(LeakChunk().code, 5) && Boundary(LeakChunk().code, 8)
    ensures Validator.BoundaryValid(LeakChunk(), i)
  {
    hide Boundary;
    hide Validator.BoundaryValid;
    assert Payload(LeakChunk().code[2]) == 5 && Payload(LeakChunk().code[6]) == 8;
    if i == 1 || i == 5 { CallValid(LeakChunk(), i); } else { EasyValid(LeakChunk(), i); }
  }

  /** What dead-store elimination takes for live. */
  lemma LeakUses()
    ensures var code, marks := LeakChunk().code, LeakMarks();
            Unused(code, marks, 0) && PureAt(code, 0) && !Unused(code, marks, 1) && !Unused(code, marks, 8)
  {
    var code, marks := LeakChunk().code, LeakMarks();
    assert LiveIn(code, marks, 3, 0);
    assert LiveOut(code, marks, 1, 0);
    assert !LiveIn(code, marks, 1, 0);
    assert LiveIn(code, marks, 9, 0);
  }

  lemma LeakLoadSwept()
    ensures KeepsDraws(LeakChunk().code, LeakMarks()) && Scans(LeakChunk().code, 0)
    ensures Swept(LeakChunk().code, LeakMarks()) == LeakChunk().code[0 := NOP_WORD]
  {
    hide Boundary;
    hide Swept;
    hide LiveOut;
    hide PureAt;
    hide Scans;
    LeakBoundaries();
    LeakUses();
    OnlySwept(LeakChunk().code, LeakMarks(), 0);
  }

  /** Dead-store elimination removes the load of register 0 in front of a call that is tabled to write it and
      does not: the program stores what was in the register before. */
  lemma SweptLeakIsNoticed(h: Host, s: State)
    requires Counterexamples.Starts(LeakChunk(), s)
    ensures Collected(LeakChunk().code, LeakMarks()) && Validator.ValidChunk(LeakChunk())
    ensures KeepsDraws(LeakChunk().code, LeakMarks())
    ensures EndsStoring(LeakChunk(), h, s, 5)
    ensures EndsStoring(LeakChunk().(code := Swept(LeakChunk().code, LeakMarks())), h, s, s.Reg(0))
  {
    hide Run;
    hide Swept;
    LeakCollected();
    LeakBoundaries();
    LeakLoadSwept();
    OriginalStoresFive(h, s);
    var c := LeakChunk().(code := LeakChunk().code[0 := NOP_WORD]);
    PassNop(c, h, s, 7);
    EnterStep(c, h, s.Goto(1), Word(OP_CALL, 0, 1, 0), 5, 6);
    var t := State(5, 1, s.stack, [Frame(3, 0, Some(0))], s.globals, s.trace);
    assert s.frames + [Frame(3, 0, Some(0))] == [Frame(3, 0, Some(0))];
    EnterStep(c, h, t, Word(OP_CALL_VOID, 0, 0, 0), 8, 5);
    var t1 := t.(ip := 8, frames := t.frames + [Frame(7, 1, None)]);
    ReturnsSeven(c, h, t1, 3);
    var t2 := t.SetReg(0, 7).Goto(7);
    assert t1.frames[..1] == t.frames;
    LeaveStep(c, h, t2, Word(OP_RET_VOID, 0, 0, 0), 2);
    var t3 := State(3, 0, t2.stack, [], s.globals, s.trace);
    assert t2.frames[..0] == [];
    StoresAndHalts(c, h, t3, 0);
    assert Run(c, h, s, 8) == Stop(Final(Halted, t3.Reg(0), [s.Reg(0)], s.trace));
  }

  /** What the discipline asks of single instructions. */
  lemma InstructionKeeps(code: seq<Word>, facts: Facts, wants: Wants, ip: nat)
    requires ip < |code| && KeepsAt(code, facts, wants, ip)
    ensures code[ip].op == OP_STORE_GLOBAL ==> facts(ip, code[ip].a)
    ensures code[ip].op == OP_CALL && facts(ip + 2, code[ip].a) && ip + 1 < |code| ==> wants(Payload(code[ip + 1]))
    ensures code[ip].op == OP_CALL_VOID && wants(ip) ==> wants(ip + 2)
    ensures IsCall(code[ip].op) && ip + 1 < |code| ==> Passed(facts, Payload(code[ip + 1]), code[ip].c)
    ensures code[ip].op == OP_RET_VOID ==> !wants(ip)
  {
    hide Payload;
    if code[ip].op == OP_STORE_GLOBAL { assert InstReadsReg(code[ip], code[ip].a); }
  }

  /** This program is not disciplined: main looks at a result, and the function it calls returns none. */
  lemma LeakIsUndisciplined(facts: Facts, wants: Wants)
    ensures !Disciplined(LeakChunk().code, facts, wants)
  {
    hide KeepsAt;
    hide Boundary;
    var code := LeakChunk().code;
    assert Payload(code[2]) == 5;
    LeakBoundaries();
    if Disciplined(code, facts, wants) {
      InstructionKeeps(code, facts, wants, 1);
      InstructionKeeps(code, facts, wants, 3);
      InstructionKeeps(code, facts, wants, 5);
      InstructionKeeps(code, facts, wants, 7);
    }
  }

  // ---- a callee that counts on what its caller left -------------------------------------------------

  /** Main loads 5 into register 1 and calls a function without arguments at a window over it; the function
      stores its register 0. */
  function PeekChunk(): Chunk {
    Chunk([Word(OP_LOAD_IMM, 1, 5, 0), Word(OP_CALL_VOID, 0, 1, 0), Word(4, 0, 0, 0), HALT_WORD,
           Word(OP_STORE_GLOBAL, 0, 0, 0), Word(OP_RET_VOID, 0, 0, 0)], [], 0, 1)
  }

  function PeekMarks(): seq<bool> { [true, false, false, false, true, false, false] }

  lemma PeekLayout()
    ensures Collected(PeekChunk().code, PeekMarks()) && Scans(PeekChunk().code, 0) && Validator.ValidChunk(PeekChunk())
    ensures forall i: int :: Boundary(PeekChunk().code, i) <==> 0 <= i <= 6 && i != 2
  {
    hide Boundary;
    hide BranchOffset;
    hide Scans;
    var code := PeekChunk().code;
    assert Payload(code[2]) == 4;
    OneCallCollected(code, PeekMarks(), 1);
    OneCallScans(code, 1, 0);
    OneCallValid(PeekChunk(), 1);
  }

  lemma PeekUses()
    ensures Unused(PeekChunk().code, PeekMarks(), 0) && PureAt(PeekChunk().code, 0)
  {
    var code, marks := PeekChunk().code, PeekMarks();
    assert !LiveIn(code, marks, 3, 1);
    assert !LiveIn(code, marks, 1, 1);
  }

  lemma PeekSwept()
    ensures KeepsDraws(PeekChunk().code, PeekMarks()) && Scans(PeekChunk().code, 0)
    ensures Swept(PeekChunk().code, PeekMarks()) == PeekChunk().code[0 := NOP_WORD]
  {
    hide Boundary;
    hide Swept;
    hide LiveOut;
    hide PureAt;
    hide Scans;
    PeekLayout();
    PeekUses();
    OnlySwept(PeekChunk().code, PeekMarks(), 0);
  }

  /** The callee's store of a register that is none of its arguments; with or without the caller's load. */
  lemma PeekRuns(c: Chunk, h: Host, s: State, v: u64)
    requires |c.code| == 6 && c.code[1..] == PeekChunk().code[1..] && s.ip == 1 && s.base == 0 && s.frames == []
    requires |s.stack| > REG_WINDOW && |s.globals| == 1 && s.stack[1] == v
    ensures Run(c, h, s, 4) == Stop(Final(Halted, s.Reg(0), [v], s.trace))
  {
    hide Run;
    forall i | 1 <= i < 6 ensures c.code[i] == PeekChunk().code[i] {
      assert c.code[1..][i - 1] == PeekChunk().code[1..][i - 1];
    }
    EnterStep(c, h, s, Word(OP_CALL_VOID, 0, 1, 0), 4, 3);
    var t := s.(ip := 4, base := 1, frames := s.frames + [Frame(3, 0, None)]);
    StoreStep(c, h, t, 0);
    var t1 := t.(globals := t.globals[0 := t.Reg(0)], ip := 5);
    ThenRun(c, h, t, t1, 2);
    LeaveStep(c, h, t1, Word(OP_RET_VOID, 0, 0, 0), 1);
    var t2 := t1.(ip := 3, base := 0, frames := t1.frames[..0]);
    HaltsNow(c, h, t2);
    assert t1.globals == [v] && t2.frames == s.frames;
  }

  lemma PeekIsNoticed(h: Host, s: State)
    requires Counterexamples.Starts(PeekChunk(), s)
    ensures Collected(PeekChunk().code, PeekMarks()) && Validator.ValidChunk(PeekChunk())
    ensures KeepsDraws(PeekChunk().code, PeekMarks())
    ensures EndsStoring(PeekChunk(), h, s, 5)
    ensures EndsStoring(PeekChunk().(code := Swept(PeekChunk().code, PeekMarks())), h, s, s.Reg(1))
  {
    hide Run;
    hide Swept;
    PeekLayout();
    PeekSwept();
    var c := PeekChunk();
    LoadStep(c, h, s, 1, 5, 4);
    PeekRuns(c, h, s.SetReg(1, 5).Goto(1), 5);
    assert Run(c, h, s, 5) == Stop(Final(Halted, s.SetReg(1, 5).Reg(0), [5], s.trace));
    var d := c.(code := c.code[0 := NOP_WORD]);
    PassNop(d, h, s, 4);
    PeekRuns(d, h, s.Goto(1), s.Reg(1));
    assert Run(d, h, s, 5) == Stop(Final(Halted, s.Reg(0), [s.Reg(1)], s.trace));
  }

  lemma PeekIsUndisciplined(facts: Facts, wants: Wants)
    ensures !Disciplined(PeekChunk().code, facts, wants)
  {
    hide KeepsAt;
    hide Boundary;
    var code := PeekChunk().code;
    assert Payload(code[2]) == 4;
    PeekLayout();
    if Disciplined(code, facts, wants) {
      InstructionKeeps(code, facts, wants, 1);
      InstructionKeeps(code, facts, wants, 4);
    }
  }

  // ---- rule 9 moves a window ------------------------------------------------------------------------

  /** Main keeps 5 in register 0 and 9 in register 1, and passes a copy of register 0 to a function that uses a
      register of its own. */
  function MovedChunk(): Chunk {
    Chunk([Word(OP_LOAD_IMM, 0, 5, 0), Word(OP_LOAD_IMM, 1, 9, 0), Word(OP_MOVE, 2, 0, 0),
           Word(OP_CALL, 3, 2, 1), Word(7, 0, 0, 0), Word(OP_STORE_GLOBAL, 1, 0, 0), HALT_WORD,
           Word(OP_LOAD_IMM, 1, 7, 0), Word(OP_RET, 0, 0, 0)], [], 0, 1)
  }

  function MovedMarks(): seq<bool> { [true, false, false, false, false, false, false, true, false, false] }

  /** The argument is now read where it was copied from, and the callee's window lies there, too. */
  function MovedCode(): seq<Word> { MovedChunk().code[2 := NOP_WORD][3 := Word(OP_CALL, 3, 0, 1)] }

  lemma MovedLayout()
    ensures Collected(MovedChunk().code, MovedMarks()) && Validator.ValidChunk(MovedChunk())
    ensures Scans(MovedChunk().code, 0) && Scans(MovedChunk().code, 3)
    ensures forall i: int :: Boundary(MovedChunk().code, i) <==> 0 <= i <= 9 && i != 4
  {
    hide Boundary;
    hide BranchOffset;
    var code := MovedChunk().code;
    assert Payload(code[4]) == 7;
    OneCallCollected(code, MovedMarks(), 3);
    OneCallScans(code, 3, 0);
    OneCallScans(code, 3, 3);
    OneCallValid(MovedChunk(), 3);
  }

  lemma MovedCopy()
    requires Scans(MovedChunk().code, 3)
    ensures CopyPropagation.Copied(MovedChunk().code, MovedMarks(), 2) == MovedChunk().code[3 := Word(OP_CALL, 3, 0, 1)]
  {
    var code, marks := MovedChunk().code, MovedMarks();
    assert Scans(code, 5) && Scans(code, 6) && Scans(code, 7);
    assert CopyPropagation.CopiedFrom(code, marks, 6, 2, 0) == code[6..];
    assert CopyPropagation.CopiedFrom(code, marks, 5, 2, 0) == code[5..];
    assert CopyPropagation.CopiedFrom(code, marks, 3, 2, 0) == [Word(OP_CALL, 3, 0, 1), code[4]] + code[5..];
  }

  lemma MovedByRule9()
    requires Scans(MovedChunk().code, 3)
    ensures CopyPropagation.Rule9(MovedChunk().code, MovedMarks(), 2) == MovedCode()
  {
    MovedCopy();
    hide CopyPropagation.Copied;
    var q, marks := MovedChunk().code[3 := Word(OP_CALL, 3, 0, 1)], MovedMarks();
    assert DeadAfter(q, marks, 6, 2) && DeadAfter(q, marks, 5, 2) && DeadAfter(q, marks, 3, 2);
    assert q[2 := NOP_WORD] == MovedCode();
  }

  /** The original: the callee's registers 0, 1, ... are main's 2, 3, ... */
  lemma CopyStoresNine(h: Host, s: State)
    requires Counterexamples.Starts(MovedChunk(), s) && |s.stack| > REG_WINDOW + 1
    ensures EndsStoring(MovedChunk(), h, s, 9)
  {
    hide Run;
    var c := MovedChunk();
    LoadStep(c, h, s, 0, 5, 7);
    var s1 := s.SetReg(0, 5).Goto(1);
    LoadStep(c, h, s1, 1, 9, 6);
    var s2 := s1.SetReg(1, 9).Goto(2);
    MoveStep(c, h, s2, 2, 0, 5);
    var s3 := s2.SetReg(2, 5).Goto(3);
    EnterStep(c, h, s3, Word(OP_CALL, 3, 2, 1), 7, 4);
    var t := s3.(ip := 7, base := 2, frames := s3.frames + [Frame(5, 0, Some(3))]);
    LoadStep(c, h, t, 1, 7, 3);
    var t1 := t.SetReg(1, 7).Goto(8);
    LeaveStep(c, h, t1, Word(OP_RET, 0, 0, 0), 2);
    var t2 := t1.(ip := 5, base := 0, frames := t1.frames[..0]).SetReg(3, t1.Reg(0));
    StoresAndHalts(c, h, t2, 1);
    assert Run(c, h, s, 8) == Stop(Final(Halted, t2.Reg(0), [9], s.trace));
  }

  /** The rewritten program: they are main's 0, 1, ... */
  lemma MovedStoresSeven(h: Host, s: State)
    requires Counterexamples.Starts(MovedChunk(), s)
    ensures EndsStoring(MovedChunk().(code := MovedCode()), h, s, 7)
  {
    hide Run;
    var c := MovedChunk().(code := MovedCode());
    LoadStep(c, h, s, 0, 5, 7);
    var s1 := s.SetReg(0, 5).Goto(1);
    LoadStep(c, h, s1, 1, 9, 6);
    var s2 := s1.SetReg(1, 9).Goto(2);
    PassNop(c, h, s2, 5);
    var s3 := s2.Goto(3);
    EnterStep(c, h, s3, Word(OP_CALL, 3, 0, 1), 7, 4);
    var t := s3.(ip := 7, base := 0, frames := s3.frames + [Frame(5, 0, Some(3))]);
    LoadStep(c, h, t, 1, 7, 3);
    var t1 := t.SetReg(1, 7).Goto(8);
    LeaveStep(c, h, t1, Word(OP_RET, 0, 0, 0), 2);
    var t2 := t1.(ip := 5, base := 0, frames := t1.frames[..0]).SetReg(3, t1.Reg(0));
    StoresAndHalts(c, h, t2, 1);
    assert Run(c, h, s, 8) == Stop(Final(Halted, t2.Reg(0), [7], s.trace));
  }

  /** Copy propagation into a call with one argument moves the callee's window over registers that the caller
      still uses. */
  lemma MovedWindowIsNoticed(h: Host, s: State)
    requires Counterexamples.Starts(MovedChunk(), s) && |s.stack| > REG_WINDOW + 1
    ensures Collected(MovedChunk().code, MovedMarks()) && Scans(MovedChunk().code, 3)
    ensures EndsStoring(MovedChunk(), h, s, 9)
    ensures EndsStoring(MovedChunk().(code := CopyPropagation.Rule9(MovedChunk().code, MovedMarks(), 2)), h, s, 7)
  {
    hide CopyPropagation.Rule9;
    MovedLayout();
    MovedByRule9();
    CopyStoresNine(h, s);
    MovedStoresSeven(h, s);
  }

  /** What this program looks at. */
  function MovedFacts(): Facts {
    (i: int, r: u8) =>
      (r == 0 && (1 <= i <= 2 || 7 <= i <= 8)) || (r == 1 && 2 <= i <= 5) || (r == 2 && i == 3)
  }

  lemma MovedIsDisciplined()
    ensures Disciplined(MovedChunk().code, MovedFacts(), (i: int) => false)
  {
    var code := MovedChunk().code;
    MovedLayout();
    assert Payload(code[4]) == 7;
    forall i | 0 <= i < |code| && Boundary(code, i) ensures KeepsAt(code, MovedFacts(), (i: int) => false, i) {
      forall r: u8 | InstReadsReg(code[i], r) ensures MovedFacts()(i, r) {
        assert (i == 3 && r == 2) || (i == 5 && r == 1) || (i == 8 && r == 0) || (i == 2 && r == 0);
      }
    }
  }

  /** It is disciplined, but the window does not stay clear. */
  lemma MovedWindowIsNotClear(facts: Facts, wants: Wants)
    requires Disciplined(MovedChunk().code, facts, wants)
    ensures !CopyClear(MovedChunk().code, MovedMarks(), 2, facts)
  {
    hide KeepsAt;
    hide Boundary;
    var code, marks := MovedChunk().code, MovedMarks();
    MovedLayout();
    InstructionKeeps(code, facts, wants, 5);
    var k := CopyPropagation.CopyLink(code, marks, 2);
    assert CopyPropagation.Visited(code, marks, 3, 2, 0, 3);
    assert k(5, 1, 1) && facts(5, 1);
    assert !CopyClearAt(code, marks, 2, facts, 3);
  }

  // ---- rule 4 forwards into a window ----------------------------------------------------------------

  /** Main defines register 0, makes a call with a window behind it, and moves register 0 to 1. */
  function ForwardChunk(): Chunk {
    Chunk([Word(OP_LOAD_IMM, 0, 5, 0), Word(OP_CALL_VOID, 0, 1, 0), Word(6, 0, 0, 0), Word(OP_MOVE, 1, 0, 0),
           Word(OP_STORE_GLOBAL, 1, 0, 0), HALT_WORD, Word(OP_LOAD_IMM, 0, 7, 0), Word(OP_RET_VOID, 0, 0, 0)], [], 0, 1)
  }

  function ForwardMarks(): seq<bool> { [true, false, false, false, false, false, true, false, false] }

  lemma ForwardLayout()
    ensures Collected(ForwardChunk().code, ForwardMarks())
    ensures forall i: int :: Boundary(ForwardChunk().code, i) <==> 0 <= i <= 8 && i != 2
  {
    hide BranchOffset;
    var code := ForwardChunk().code;
    assert Payload(code[2]) == 6;
    OneCallCollected(code, ForwardMarks(), 1);
  }

  lemma ForwardSite()
    ensures ForwardMove.Site(ForwardChunk().code, ForwardMarks(), 0, 3)
    ensures !ClearOfWindows(ForwardChunk().code, 0, 3)
  {
    var code, marks := ForwardChunk().code, ForwardMarks();
    ForwardLayout();
    hide Boundary;
    assert DeadAfter(code, marks, 5, 0) && DeadAfter(code, marks, 4, 0);
    assert Payload(code[2]) == 6 && ForwardMove.Quiet(code, marks, 1, 0);
    assert Boundary(code, 1) && code[1].op == OP_CALL_VOID;
  }

  /** From the call on; the value is stored that register 1 gets back from there or from register 0. */
  lemma ForwardRuns(c: Chunk, h: Host, s: State, v: u64)
    requires |c.code| == 8 && c.code[1..3] == ForwardChunk().code[1..3] && c.code[4..] == ForwardChunk().code[4..]
    requires s.ip == 1 && s.base == 0 && s.frames == [] && |s.stack| > REG_WINDOW && |s.globals| == 1
    requires (c.code[3] == Word(OP_MOVE, 1, 0, 0) && v == s.Reg(0)) || (c.code[3] == NOP_WORD && v == 7)
    ensures exists exit: u64 :: Run(c, h, s, 6) == Stop(Final(Halted, exit, [v], s.trace))
  {
    hide Run;
    forall i | 1 <= i < 8 && i != 3 ensures c.code[i] == ForwardChunk().code[i] {
      assert i < 3 ==> c.code[1..3][i - 1] == ForwardChunk().code[1..3][i - 1];
      assert i > 3 ==> c.code[4..][i - 4] == ForwardChunk().code[4..][i - 4];
    }
    EnterStep(c, h, s, Word(OP_CALL_VOID, 0, 1, 0), 6, 5);
    var t := s.(ip := 6, base := 1, frames := s.frames + [Frame(3, 0, None)]);
    LoadStep(c, h, t, 0, 7, 4);
    var t1 := t.SetReg(0, 7).Goto(7);
    LeaveStep(c, h, t1, Word(OP_RET_VOID, 0, 0, 0), 3);
    var t2 := t1.(ip := 3, base := 0, frames := t1.frames[..0]);
    assert t2.Reg(0) == s.Reg(0) && t2.Reg(1) == 7;
    ForwardTail(c, h, t2, v);
  }

  lemma ForwardTail(c: Chunk, h: Host, t: State, v: u64)
    requires |c.code| == 8 && c.code[4] == Word(OP_STORE_GLOBAL, 1, 0, 0) && c.code[5] == HALT_WORD
    requires t.ip == 3 && t.HasWindow() && |t.globals| == 1
    requires (c.code[3] == Word(OP_MOVE, 1, 0, 0) && v == t.Reg(0)) || (c.code[3] == NOP_WORD && v == t.Reg(1))
    ensures exists exit: u64 :: Run(c, h, t, 3) == Stop(Final(Halted, exit, [v], t.trace))
  {
    hide Run;
    if c.code[3] == NOP_WORD {
      PassNop(c, h, t, 2);
      StoresAndHalts(c, h, t.Goto(4), 1);
    } else {
      MoveStep(c, h, t, 1, 0, 2);
      StoresAndHalts(c, h, t.SetReg(1, t.Reg(0)).Goto(4), 1);
    }
  }

  /** Rule 4 forwards a definition into a register that lies in the window of a call on the way. */
  lemma ForwardIsNoticed(h: Host, s: State)
    requires Counterexamples.Starts(ForwardChunk(), s)
    ensures Collected(ForwardChunk().code, ForwardMarks())
    ensures ForwardMove.Site(ForwardChunk().code, ForwardMarks(), 0, 3) && !ClearOfWindows(ForwardChunk().code, 0, 3)
    ensures EndsStoring(ForwardChunk(), h, s, 5)
    ensures EndsStoring(ForwardChunk().(code := ForwardMove.ForwardedCode(ForwardChunk().code, 0, 3)), h, s, 7)
  {
    hide Run;
    ForwardLayout();
    ForwardSite();
    hide ForwardMove.Site;
    var c := ForwardChunk();
    LoadStep(c, h, s, 0, 5, 6);
    ForwardRuns(c, h, s.SetReg(0, 5).Goto(1), 5);
    var exit: u64 :| Run(c, h, s.SetReg(0, 5).Goto(1), 6) == Stop(Final(Halted, exit, [5], s.trace));
    assert Run(c, h, s, 7) == Stop(Final(Halted, exit, [5], s.trace));
    var d := c.(code := ForwardMove.ForwardedCode(c.code, 0, 3));
    assert d.code[0] == Word(OP_LOAD_IMM, 1, 5, 0);
    LoadStep(d, h, s, 1, 5, 6);
    ForwardRuns(d, h, s.SetReg(1, 5).Goto(1), 7);
    var exit': u64 :| Run(d, h, s.SetReg(1, 5).Goto(1), 6) == Stop(Final(Halted, exit', [7], s.trace));
    assert Run(d, h, s, 7) == Stop(Final(Halted, exit', [7], s.trace));
  }
}
