/** The register VM: one step of `AcuVM_Run` as a function of the chunk, the host and the state,
    bounded runs, and the dispatch loop itself as a class that updates its fields and its stack
    array in place. */
module Vm {
  import opened Words
  import opened Bytecode

  const REG_WINDOW: nat := 256
  const FRAME_CAPACITY: nat := 1024
  const SYSCALL_COUNT: nat := 59
  const SYSCALL_EXIT: nat := 15
  const SYSCALL_PANIC: nat := 16

  datatype Chunk = Chunk(code: seq<Word>, constants: seq<u64>, stringPoolSize: nat, globalSlots: nat)

  /** A system call as the outside world sees it. */
  datatype Event = Event(id: u32, args: seq<u64>)

  datatype Reply = Reply(status: nat, ret: u64)

  /** What the VM does not define itself: the answer of the outside world to a history of
      system calls (status 0 continues), floating-point operations, and the address of the
      string pool. */
  datatype Host = Host(reply: seq<Event> -> Reply, floatOp: (u8, u64, u64) -> u64, stringBase: u64)

  datatype Frame = Frame(returnIp: int, base: nat, returnReg: Option<u8>)

  datatype State = State(ip: int, base: nat, stack: seq<u64>, frames: seq<Frame>,
                         globals: seq<u64>, trace: seq<Event>)
  {
    predicate HasWindow() { base + REG_WINDOW <= |stack| }

    function Reg(r: u8): u64
      requires HasWindow()
    {
      stack[base + r]
    }

    function SetReg(r: u8, v: u64): State
      requires HasWindow()
    {
      this.(stack := stack[base + r := v])
    }

    function Goto(target: int): State { this.(ip := target) }
  }

  datatype Status = Halted | StackOverflow | CallStackOverflow | DivisionByZero | HostStatus(code: nat)

  /** What remains observable when the VM has stopped. */
  datatype Final = Final(status: Status, exitCode: u64, globals: seq<u64>, trace: seq<Event>)

  /** Undefined behaviour of the C program, by cause. */
  datatype Fault = BadIp | OffEnd | BadOpcode | BadWindow | BadIndex | BadSyscall | EmptyFrames

  datatype Outcome = Go(next: State) | Stop(final: Final) | Wild(fault: Fault)

  // ---- arithmetic of the opcodes --------------------------------------------------------------

  function Bool(b: bool): u64 { if b then 1 else 0 }

  function DivS(x: u64, y: u64): Option<u64> {
    if y == 0 then None
    else if y == ALL_ONES then Some(if x == TWO_63 then TWO_63 else Neg(x))
    else Some(Wrap(TruncDiv(Signed(x), Signed(y))))
  }

  function RemS(x: u64, y: u64): Option<u64> {
    if y == 0 then None
    else if y == ALL_ONES then Some(0)
    else Some(Wrap(TruncRem(Signed(x), Signed(y))))
  }

  function DivU(x: u64, y: u64): Option<u64> {
    if y == 0 then None else Some(ShrinkDiv(x, y))
  }

  function ShrinkDiv(x: u64, y: u64): u64
    requires y != 0
  {
    ShrinksDiv(x, y);
    x / y
  }

  function RemU(x: u64, y: u64): Option<u64> {
    if y == 0 then None else Some(x % y)
  }

  /** The ten comparisons in opcode order: EQ NEQ LT_S LT_U LTE_S LTE_U GT_S GT_U GTE_S GTE_U. */
  predicate Compare(cc: int, x: u64, y: u64) {
    if cc == 0 then x == y
    else if cc == 1 then x != y
    else if cc == 2 then Signed(x) < Signed(y)
    else if cc == 3 then x < y
    else if cc == 4 then Signed(x) <= Signed(y)
    else if cc == 5 then x <= y
    else if cc == 6 then Signed(x) > Signed(y)
    else if cc == 7 then x > y
    else if cc == 8 then Signed(x) >= Signed(y)
    else x >= y
  }

  /** Register-register opcodes; None is the division trap. */
  function BinaryOp(h: Host, op: u8, x: u64, y: u64): Option<u64> {
    if op == OP_ADD then Some(Add(x, y))
    else if op == OP_SUB then Some(Sub(x, y))
    else if op == OP_MUL then Some(Mul(x, y))
    else if op == OP_DIV_S then DivS(x, y)
    else if op == OP_DIV_U then DivU(x, y)
    else if op == OP_REM_S then RemS(x, y)
    else if op == OP_REM_U then RemU(x, y)
    else if op == OP_POW then Some(PowWord(x, y))
    else if op == OP_AND then Some(And(x, y))
    else if op == OP_OR then Some(Or(x, y))
    else if op == OP_XOR then Some(Xor(x, y))
    else if op == OP_SHL then Some(Shl(x, y % 64))
    else if op == OP_SHR_S then Some(ShrS(x, y % 64))
    else if op == OP_SHR_U then Some(ShrU(x, y % 64))
    else if OP_EQ <= op <= OP_GTE_U then Some(Bool(Compare(op - OP_EQ, x, y)))
    else Some(h.floatOp(op, x, y))
  }

  /** Register-immediate opcodes. The immediate byte is sign-extended, except by the unsigned
      division, remainder and comparisons, the shifts and the power, which read it as a byte. */
  function ImmediateOp(op: u8, x: u64, c: u8): Option<u64> {
    var i := SignExtend8(c);
    if op == OP_ADD_IMM then Some(Wrap(Signed(x) + i))
    else if op == OP_SUB_IMM then Some(Wrap(Signed(x) - i))
    else if op == OP_RSUB_IMM then Some(Wrap(i - Signed(x)))
    else if op == OP_MUL_IMM then Some(Wrap(Signed(x) * i))
    else if op == OP_DIV_S_IMM then DivS(x, Wrap(i))
    else if op == OP_DIV_U_IMM then DivU(x, c)
    else if op == OP_REM_S_IMM then RemS(x, Wrap(i))
    else if op == OP_REM_U_IMM then RemU(x, c)
    else if op == OP_POW_IMM then Some(PowWord(x, c))
    else if op == OP_AND_IMM then Some(And(x, Wrap(i)))
    else if op == OP_OR_IMM then Some(Or(x, Wrap(i)))
    else if op == OP_XOR_IMM then Some(Xor(x, Wrap(i)))
    else if op == OP_SHL_IMM then Some(Shl(x, c % 64))
    else if op == OP_SHR_S_IMM then Some(ShrS(x, c % 64))
    else if op == OP_SHR_U_IMM then Some(ShrU(x, c % 64))
    else
      var cc := op - OP_EQ_IMM;
      Some(Bool(Compare(cc, x, if UnsignedImm(cc) then c else Wrap(i))))
  }

  /** Among the comparison codes, the unsigned orders read their immediate as a byte. */
  predicate UnsignedImm(cc: int) { cc == 3 || cc == 5 || cc == 7 || cc == 9 }

  function UnaryOp(h: Host, op: u8, x: u64): u64 {
    if op == OP_MOVE then x
    else if op == OP_NEG then Neg(x)
    else if op == OP_NOT then Not(x)
    else if op == OP_LNOT then Bool(x == 0)
    else if op == OP_SEXT8 then Wrap(SignExtend8(x % 0x100))
    else if op == OP_SEXT16 then Wrap(SignExtend16(x % 0x1_0000))
    else if op == OP_SEXT32 then
      var low := x % 0x1_0000_0000;
      Wrap(if low < 0x8000_0000 then low else low - 0x1_0000_0000)
    else if op == OP_ZEXT8 || op == OP_TRUNC8 then x % 0x100
    else if op == OP_ZEXT16 || op == OP_TRUNC16 then x % 0x1_0000
    else if op == OP_ZEXT32 || op == OP_TRUNC32 then x % 0x1_0000_0000
    else h.floatOp(op, x, 0)
  }

  /** Whether a branch is taken, given the values of registers A and B. Immediate branches zero-extend for EQ and NEQ
      as well, unlike the EQ_IMM and NEQ_IMM value opcodes. */
  predicate Taken(w: Word, x: u64, y: u64) {
    if w.op == OP_JUMP then true
    else if w.op == OP_JUMP_IF_TRUE then x != 0
    else if w.op == OP_JUMP_IF_FALSE then x == 0
    else if IsRegJump(w.op) then Compare(w.op - OP_JUMP_EQ, x, y)
    else
      var cc := w.op - OP_JUMP_EQ_IMM;
      Compare(cc, x, if cc < 2 || UnsignedImm(cc) then w.b else Wrap(GetsB(w)))
  }

  // ---- one step -------------------------------------------------------------------------------

  datatype Value = Val(v: u64) | DivTrap | OutOfRange

  function FromOption(o: Option<u64>): Value {
    match o
    case Some(v) => Val(v)
    case None => DivTrap
  }

  /** The value a computing instruction stores in register A, given those of B and C. */
  function Compute(c: Chunk, h: Host, globals: seq<u64>, w: Word, x: u64, y: u64): Value
    requires IsCompute(w.op)
  {
    if w.op == OP_LOAD_IMM then Val(Wrap(GetsBx(w)))
    else if w.op == OP_LOAD_CONST then
      if GetBx(w) < |c.constants| then Val(c.constants[GetBx(w)]) else OutOfRange
    else if w.op == OP_LOAD_STR then
      if GetBx(w) < |c.constants|
      then Val(Wrap(h.stringBase + c.constants[GetBx(w)] % 0x1_0000_0000)) else OutOfRange
    else if w.op == OP_LOAD_GLOBAL then
      if GetBx(w) < |globals| then Val(globals[GetBx(w)]) else OutOfRange
    else if IsBinaryReg(w.op) then FromOption(BinaryOp(h, w.op, x, y))
    else if IsBinaryImm(w.op) then FromOption(ImmediateOp(w.op, x, w.c))
    else Val(UnaryOp(h, w.op, x))
  }

  function Trap(s: State, status: Status): Outcome {
    Stop(Final(status, 0, s.globals, s.trace))
  }

  function StepCompute(c: Chunk, h: Host, s: State, w: Word): Outcome
    requires s.HasWindow() && IsCompute(w.op)
  {
    match Compute(c, h, s.globals, w, s.Reg(w.b), s.Reg(w.c))
    case Val(v) => Go(s.SetReg(w.a, v).Goto(s.ip + 1))
    case DivTrap => Trap(s, DivisionByZero)
    case OutOfRange => Wild(BadIndex)
  }

  /** CALL and CALL_VOID: check both stacks, push a frame, slide the window to B. */
  function StepCall(s: State, w: Word, target: int): Outcome
    requires s.HasWindow()
  {
    if s.base + w.b > |s.stack| - REG_WINDOW then Trap(s, StackOverflow)
    else if |s.frames| >= FRAME_CAPACITY then Trap(s, CallStackOverflow)
    else
      var frame := Frame(s.ip + 2, s.base, if w.op == OP_CALL then Some(w.a) else None);
      Go(s.(ip := target, base := s.base + w.b, frames := s.frames + [frame]))
  }

  /** The stack after the arguments have been moved down to the start of the window. */
  function MoveArgs(stack: seq<u64>, base: nat, from: u8, argc: u8): seq<u64>
    requires base + REG_WINDOW <= |stack| && from + argc <= REG_WINDOW
  {
    stack[..base] + stack[base + from..base + from + argc] + stack[base + argc..]
  }

  function StepTailCall(s: State, w: Word, target: int): Outcome
    requires s.HasWindow()
  {
    if w.b + w.c > REG_WINDOW then Trap(s, StackOverflow)
    else Go(s.(ip := target, stack := MoveArgs(s.stack, s.base, w.b, w.c)))
  }

  function StepSyscall(h: Host, s: State, w: Word, id: u32): Outcome
    requires s.HasWindow()
  {
    if w.b + w.c > REG_WINDOW then Trap(s, StackOverflow)
    else if id >= SYSCALL_COUNT then Wild(BadSyscall)
    else
      var trace := s.trace + [Event(id, s.stack[s.base + w.b..s.base + w.b + w.c])];
      var r := h.reply(trace);
      var t := s.(trace := trace, ip := s.ip + 2);
      if r.status != 0 then Stop(Final(HostStatus(r.status), 0, t.globals, t.trace))
      else if w.op == OP_SYSCALL then Go(t.SetReg(w.a, r.ret))
      else Go(t)
  }

  /** RET (with the returned register) and RET_VOID (None). */
  function StepReturn(s: State, src: Option<u8>): Outcome
    requires s.HasWindow()
  {
    if s.frames == [] then Wild(EmptyFrames)
    else
      var frame := s.frames[|s.frames| - 1];
      var t := s.(ip := frame.returnIp, base := frame.base, frames := s.frames[..|s.frames| - 1]);
      if !t.HasWindow() then Wild(BadWindow)
      else if src.Some? && frame.returnReg.Some?
      then Go(t.SetReg(frame.returnReg.value, s.Reg(src.value)))
      else Go(t)
  }

  /** Executes the instruction `w` found at the current ip. */
  function Execute(c: Chunk, h: Host, s: State, w: Word): Outcome
    requires 0 <= s.ip < |c.code| && s.HasWindow()
  {
    if w.op == OP_NOP then Go(s.Goto(s.ip + 1))
    else if w.op == OP_HALT then Stop(Final(Halted, s.Reg(0), s.globals, s.trace))
    else if w.op == OP_RET then StepReturn(s, Some(w.a))
    else if w.op == OP_RET_VOID then StepReturn(s, None)
    else if IsBranch(w.op) then Go(s.Goto(s.ip + 1 + if Taken(w, s.Reg(w.a), s.Reg(w.b)) then BranchOffset(w) else 0))
    else if IsCompute(w.op) then StepCompute(c, h, s, w)
    else if w.op == OP_STORE_GLOBAL then
      if GetBx(w) < |s.globals|
      then Go(s.(globals := s.globals[GetBx(w) := s.Reg(w.a)], ip := s.ip + 1)) else Wild(BadIndex)
    else if Slots(w.op) == 2 then
      if s.ip + 1 >= |c.code| then Wild(BadIp)
      else
        var payload := Payload(c.code[s.ip + 1]);
        if w.op == OP_TAILCALL then StepTailCall(s, w, payload)
        else if IsCall(w.op) then StepCall(s, w, payload)
        else StepSyscall(h, s, w, payload)
    else Wild(BadOpcode)
  }

  function Step(c: Chunk, h: Host, s: State): Outcome {
    if s.ip == |c.code| then Wild(OffEnd)
    else if s.ip < 0 || s.ip > |c.code| then Wild(BadIp)
    else if !s.HasWindow() then Wild(BadWindow)
    else Execute(c, h, s, c.code[s.ip])
  }

  lemma BranchStep(c: Chunk, h: Host, s: State)
    requires 0 <= s.ip < |c.code| && s.HasWindow() && IsBranch(c.code[s.ip].op)
    ensures var w := c.code[s.ip];
            Step(c, h, s) ==
            Go(s.Goto(s.ip + 1 + if Taken(w, s.Reg(w.a), s.Reg(w.b)) then BranchOffset(w) else 0))
  {
  }

  /** Moving a branch does not change the comparison it makes. */
  lemma TakenSame(w: Word, i: int, s: State)
    requires IsBranch(w.op) && FitsBranch(w.op, i) && s.HasWindow()
    ensures var v := SetBranchOffset(w, i);
            Taken(v, s.Reg(v.a), s.Reg(v.b)) == Taken(w, s.Reg(w.a), s.Reg(w.b))
  {
    hide Compare;
    SetBranchOffsetReads(w, i);
  }

  /** The inverted opcode branches exactly when the original does not. */
  lemma InvertedBranch(w: Word, x: u64, y: u64)
    requires IsCondBranch(w.op)
    ensures IsCondBranch(GetInverted(w.op)) && IsBoolJump(GetInverted(w.op)) == IsBoolJump(w.op)
    ensures Taken(w.(op := GetInverted(w.op)), x, y) == !Taken(w, x, y)
  {
  }

  lemma WideStep(c: Chunk, h: Host, s: State)
    requires 0 <= s.ip && s.ip + 1 < |c.code| && s.HasWindow() && Slots(c.code[s.ip].op) == 2
    ensures var w, payload := c.code[s.ip], Payload(c.code[s.ip + 1]);
            Step(c, h, s) ==
            if w.op == OP_TAILCALL then StepTailCall(s, w, payload)
            else if IsCall(w.op) then StepCall(s, w, payload)
            else StepSyscall(h, s, w, payload)
  {
  }

  /** A step looks at nothing of the code but the instruction it executes. */
  lemma StepReadsInstruction(c: Chunk, d: Chunk, h: Host, s: State)
    requires d == c.(code := d.code) && |d.code| == |c.code| && 0 <= s.ip < |c.code|
    requires d.code[s.ip] == c.code[s.ip]
    requires Slots(c.code[s.ip].op) == 2 && s.ip + 1 < |c.code| ==> d.code[s.ip + 1] == c.code[s.ip + 1]
    ensures Step(d, h, s) == Step(c, h, s)
  {
  }

  /** The ways control leaves the instruction at `s.ip` for `t.ip`, with what happens to the frames. */
  predicate ControlMoves(code: seq<Word>, s: State, t: State)
    requires 0 <= s.ip < |code|
  {
    var w := code[s.ip];
    if IsCall(w.op) then
      s.ip + 1 < |code| && t.ip == Payload(code[s.ip + 1]) &&
      (if w.op == OP_TAILCALL then t.frames == s.frames
       else t.frames == s.frames + [Frame(s.ip + 2, s.base, if w.op == OP_CALL then Some(w.a) else None)])
    else if w.op == OP_RET || w.op == OP_RET_VOID then
      s.frames != [] && t.ip == s.frames[|s.frames| - 1].returnIp &&
      t.frames == s.frames[..|s.frames| - 1]
    else
      t.frames == s.frames &&
      (if IsBranch(w.op)
       then t.ip == s.ip + 1 + BranchOffset(w) || (t.ip == s.ip + 1 && w.op != OP_JUMP)
       else t.ip == s.ip + Slots(w.op) && w.op != OP_HALT)
  }

  lemma StepMovesControl(c: Chunk, h: Host, s: State)
    requires Step(c, h, s).Go?
    ensures 0 <= s.ip < |c.code| && s.HasWindow() && ControlMoves(c.code, s, Step(c, h, s).next)
    ensures IsSyscall(c.code[s.ip].op) ==>
              var t := Step(c, h, s).next;
              s.ip + 1 < |c.code| && t.trace != [] && h.reply(t.trace).status == 0 &&
              t.trace[|t.trace| - 1].id == Payload(c.code[s.ip + 1])
  {
    hide Compare;
    hide Compute;
  }

  /** At most `n` steps from `s`. */
  function Run(c: Chunk, h: Host, s: State, n: nat): Outcome
    decreases n
  {
    if n == 0 then Go(s)
    else
      match Step(c, h, s)
      case Go(t) => Run(c, h, t, n - 1)
      case o => o
  }

  /** The system calls tabled as terminators. */
  predicate EndsProgram(id: nat) { id == SYSCALL_EXIT || id == SYSCALL_PANIC }

  predicate EndsInTerminator(trace: seq<Event>) {
    trace != [] && EndsProgram(trace[|trace| - 1].id)
  }

  /** The terminating system calls do not come back with status 0. */
  ghost predicate TerminatorsStop(h: Host) {
    forall trace: seq<Event> :: EndsInTerminator(trace) ==> h.reply(trace).status != 0
  }

  /** The state in which `AcuVM_Run` starts a loaded chunk. */
  predicate IsInitial(c: Chunk, s: State) {
    s.ip == 0 && s.base == 0 && s.frames == [] && s.trace == [] && s.HasWindow() &&
    |s.globals| == c.globalSlots
  }

  lemma {:induction false} RunCompose(c: Chunk, h: Host, s: State, m: nat, n: nat)
    requires Run(c, h, s, m).Go?
    ensures Run(c, h, s, m + n) == Run(c, h, Run(c, h, s, m).next, n)
    decreases m
  {
    if m > 0 {
      RunCompose(c, h, Step(c, h, s).next, m - 1, n);
    }
  }

  /** A run that stops after m steps gives the same answer for every larger bound. */
  lemma {:induction false} RunStable(c: Chunk, h: Host, s: State, m: nat, n: nat)
    requires !Run(c, h, s, m).Go? && m <= n
    ensures Run(c, h, s, n) == Run(c, h, s, m)
    decreases m
  {
    if Step(c, h, s).Go? {
      RunStable(c, h, Step(c, h, s).next, m - 1, n - 1);
    }
  }

  // ---- the dispatch loop in place ---------------------------------------------------------------

  /** `AcuVM` while it runs: the stack and the globals are arrays updated in place. */
  class Machine {
    var ip: int
    var base: nat
    const stack: array<u64>
    var frames: seq<Frame>
    const globals: array<u64>
    var trace: seq<Event>

    ghost predicate Valid()
      reads this
    {
      (stack as object) != globals
    }

    ghost function Abstract(): State
      reads this, stack, globals
    {
      State(ip, base, stack[..], frames, globals[..], trace)
    }

    /** `AcuVM_Load`: zeroed stack and globals, no frames. */
    constructor (c: Chunk, capacity: nat)
      requires REG_WINDOW <= capacity
      ensures Valid() && fresh(stack) && fresh(globals)
      ensures IsInitial(c, Abstract()) && stack.Length == capacity
      ensures forall i :: 0 <= i < capacity ==> stack[i] == 0
      ensures forall i :: 0 <= i < globals.Length ==> globals[i] == 0
    {
      ip, base, frames, trace := 0, 0, [], [];
      stack := new u64[capacity](_ => 0);
      globals := new u64[c.globalSlots](_ => 0);
    }

    /** The copy loop of TAILCALL, ascending in place. */
    method MoveArgsDown(from: u8, argc: u8)
      requires Valid() && base + REG_WINDOW <= stack.Length && from + argc <= REG_WINDOW
      modifies stack
      ensures stack[..] == MoveArgs(old(stack[..]), base, from, argc)
    {
      ghost var was := stack[..];
      for i := 0 to argc
        invariant forall k :: base <= k < base + i ==> stack[k] == was[k + from]
        invariant forall k :: 0 <= k < base ==> stack[k] == was[k]
        invariant forall k :: base + i <= k < stack.Length ==> stack[k] == was[k]
      {
        stack[base + i] := stack[base + from + i];
      }
    }

    /** One pass through the dispatch loop; the result is the final status, if the VM stops. */
    method Dispatch(c: Chunk, h: Host) returns (final: Option<Final>)
      requires Valid() && !Step(c, h, Abstract()).Wild?
      modifies this, stack, globals
      ensures Valid()
      ensures Step(c, h, old(Abstract())) ==
              match final { case None => Go(Abstract()) case Some(f) => Stop(f) }
    {
      ghost var s := Abstract();
      var w := c.code[ip];
      var op := w.op;
      final := None;
      if op == OP_NOP {
        ip := ip + 1;
      } else if op == OP_HALT {
        final := Some(Final(Halted, stack[base], globals[..], trace));
      } else if op == OP_RET || op == OP_RET_VOID {
        var retVal := stack[base + w.a];
        var frame := frames[|frames| - 1];
        frames := frames[..|frames| - 1];
        ip, base := frame.returnIp, frame.base;
        if op == OP_RET && frame.returnReg.Some? {
          stack[base + frame.returnReg.value] := retVal;
        }
      } else if IsBranch(op) {
        ip := ip + 1 + if Taken(w, stack[base + w.a], stack[base + w.b]) then BranchOffset(w) else 0;
      } else if IsCompute(op) {
        match Compute(c, h, globals[..], w, stack[base + w.b], stack[base + w.c]) {
          case Val(v) =>
            stack[base + w.a] := v;
            ip := ip + 1;
          case DivTrap =>
            final := Some(Final(DivisionByZero, 0, globals[..], trace));
        }
      } else if op == OP_STORE_GLOBAL {
        globals[GetBx(w)] := stack[base + w.a];
        ip := ip + 1;
      } else {
        final := DispatchWide(c, h, w, Payload(c.code[ip + 1]));
      }
    }

    /** The two-slot instructions of the dispatch loop. */
    method DispatchWide(c: Chunk, h: Host, w: Word, payload: u32) returns (final: Option<Final>)
      requires Valid() && Abstract().HasWindow() && Slots(w.op) == 2
      requires 0 <= ip < |c.code| - 1 && payload == Payload(c.code[ip + 1])
      requires !Execute(c, h, Abstract(), w).Wild?
      modifies this, stack
      ensures Valid()
      ensures Execute(c, h, old(Abstract()), w) ==
              match final { case None => Go(Abstract()) case Some(f) => Stop(f) }
    {
      if w.op == OP_TAILCALL {
        final := DoTailCall(w, payload);
      } else if IsCall(w.op) {
        final := DoCall(w, payload);
      } else {
        final := DoSyscall(h, w, payload);
      }
    }

    method DoTailCall(w: Word, target: u32) returns (final: Option<Final>)
      requires Valid() && Abstract().HasWindow()
      modifies this, stack
      ensures Valid()
      ensures StepTailCall(old(Abstract()), w, target) ==
              match final { case None => Go(Abstract()) case Some(f) => Stop(f) }
    {
      final := None;
      if w.b + w.c > REG_WINDOW {
        final := Some(Final(StackOverflow, 0, globals[..], trace));
      } else {
        MoveArgsDown(w.b, w.c);
        ip := target;
      }
    }

    method DoCall(w: Word, target: u32) returns (final: Option<Final>)
      requires Valid() && Abstract().HasWindow()
      modifies this
      ensures Valid()
      ensures StepCall(old(Abstract()), w, target) ==
              match final { case None => Go(Abstract()) case Some(f) => Stop(f) }
    {
      final := None;
      if base + w.b > stack.Length - REG_WINDOW {
        final := Some(Final(StackOverflow, 0, globals[..], trace));
      } else if |frames| >= FRAME_CAPACITY {
        final := Some(Final(CallStackOverflow, 0, globals[..], trace));
      } else {
        frames := frames + [Frame(ip + 2, base, if w.op == OP_CALL then Some(w.a) else None)];
        base := base + w.b;
        ip := target;
      }
    }

    method DoSyscall(h: Host, w: Word, id: u32) returns (final: Option<Final>)
      requires Valid() && Abstract().HasWindow() && !StepSyscall(h, Abstract(), w, id).Wild?
      modifies this, stack
      ensures Valid()
      ensures StepSyscall(h, old(Abstract()), w, id) ==
              match final { case None => Go(Abstract()) case Some(f) => Stop(f) }
    {
      final := None;
      if w.b + w.c > REG_WINDOW {
        final := Some(Final(StackOverflow, 0, globals[..], trace));
      } else {
        trace := trace + [Event(id, stack[base + w.b..base + w.b + w.c])];
        var r := h.reply(trace);
        if r.status != 0 {
          final := Some(Final(HostStatus(r.status), 0, globals[..], trace));
          return;
        }
        ip := ip + 2;
        if w.op == OP_SYSCALL {
          stack[base + w.a] := r.ret;
        }
      }
    }

    /** `AcuVM_Run` for at most `n` dispatches. */
    method RunFor(c: Chunk, h: Host, n: nat) returns (final: Option<Final>)
      requires Valid() && !Run(c, h, Abstract(), n).Wild?
      modifies this, stack, globals
      ensures Valid()
      ensures Run(c, h, old(Abstract()), n) ==
              match final { case None => Go(Abstract()) case Some(f) => Stop(f) }
    {
      final := None;
      ghost var start := Abstract();
      var left := n;
      while left > 0
        invariant 0 <= left <= n && Valid() && final == None
        invariant Run(c, h, start, n) == Run(c, h, Abstract(), left)
      {
        final := Dispatch(c, h);
        if final.Some? { return; }
        left := left - 1;
      }
    }
  }
}
