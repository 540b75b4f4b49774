/** The machine as the opcode table describes it to the optimiser: every activation has its own
    register file, a call reads registers B to B+C-1 and writes only A, and pure system calls leave
    no trace. Over it, one simulation theorem for all rewritings of register operands. */
module ContractVm {
  import opened Words
  import opened Bytecode
  import opened Layout
  import opened Vm

  const RANDOM_U64: nat := 17

  type Registers = s: seq<u64> | |s| == REG_WINDOW witness seq(REG_WINDOW, _ => 0)

  datatype Activation = Activation(returnIp: int, regs: Registers, returnReg: Option<u8>)

  datatype Config = Config(ip: int, regs: Registers, frames: seq<Activation>, globals: seq<u64>,
                           trace: seq<Event>)

  datatype Result = Next(config: Config) | Done(final: Final) | Failed(fault: Fault)

  /** The world with the answers of the pure system calls split off: they may depend on the history
      but are not part of it. `leftover` is what a caller finds in its destination when the callee
      returns nothing; the table does not say. */
  datatype World = World(host: Host, answer: (u32, seq<Event>, seq<u64>) -> u64, leftover: u64)

  /** The system-call table's purity column (at most PURE). */
  predicate TabledPure(id: nat) {
    8 <= id <= 12 || id == RANDOM_U64 || 19 <= id < SYSCALL_COUNT
  }

  /** The random generator is tabled pure but advances a seed, so it stays an event. */
  predicate Traceless(id: nat) { TabledPure(id) && id != RANDOM_U64 }

  // ---- one step -------------------------------------------------------------------------------------

  function Arguments(regs: Registers, w: Word): (r: seq<u64>)
    requires w.b + w.c <= REG_WINDOW
  {
    regs[w.b..w.b + w.c]
  }

  /** The register file a callee starts with. */
  function CalleeRegisters(regs: Registers, w: Word): Registers
    requires w.b + w.c <= REG_WINDOW
  {
    Arguments(regs, w) + seq(REG_WINDOW - w.c, _ => 0)
  }

  function Give(regs: Registers, r: Option<u8>, v: u64): Registers {
    match r
    case Some(a) => regs[a := v]
    case None => regs
  }

  function Leave(s: Config, v: u64): Result {
    if s.frames == [] then Failed(EmptyFrames)
    else
      var f := s.frames[|s.frames| - 1];
      Next(Config(f.returnIp, Give(f.regs, f.returnReg, v), s.frames[..|s.frames| - 1], s.globals, s.trace))
  }

  function ReturnRegister(w: Word): Option<u8> {
    if w.op == OP_CALL || w.op == OP_SYSCALL then Some(w.a) else None
  }

  function StopWith(s: Config, status: Status): Result {
    Done(Final(status, 0, s.globals, s.trace))
  }

  function EnterCall(s: Config, w: Word, target: int): Result
    requires w.b + w.c <= REG_WINDOW
  {
    if w.op == OP_TAILCALL then Next(s.(ip := target, regs := CalleeRegisters(s.regs, w)))
    else if |s.frames| >= FRAME_CAPACITY then StopWith(s, CallStackOverflow)
    else
      var f := Activation(s.ip + 2, s.regs, ReturnRegister(w));
      Next(s.(ip := target, regs := CalleeRegisters(s.regs, w), frames := s.frames + [f]))
  }

  function SystemCall(e: World, s: Config, w: Word, id: u32): Result
    requires w.b + w.c <= REG_WINDOW
  {
    var args := Arguments(s.regs, w);
    if id >= SYSCALL_COUNT then Failed(BadSyscall)
    else if Traceless(id) then
      Next(s.(ip := s.ip + 2, regs := Give(s.regs, ReturnRegister(w), e.answer(id, s.trace, args))))
    else
      var trace := s.trace + [Event(id, args)];
      var r := e.host.reply(trace);
      if r.status != 0 then Done(Final(HostStatus(r.status), 0, s.globals, trace))
      else Next(s.(ip := s.ip + 2, regs := Give(s.regs, ReturnRegister(w), r.ret), trace := trace))
  }

  /** Executes `w`; a wide instruction comes with its payload. */
  function Perform(c: Chunk, e: World, s: Config, w: Word, payload: Option<u32>): Result {
    if w.op == OP_NOP then Next(s.(ip := s.ip + 1))
    else if w.op == OP_HALT then StopWith(s, Halted)
    else if w.op == OP_RET then Leave(s, s.regs[w.a])
    else if w.op == OP_RET_VOID then Leave(s, e.leftover)
    else if IsBranch(w.op) then
      Next(s.(ip := s.ip + 1 + if Taken(w, s.regs[w.a], s.regs[w.b]) then BranchOffset(w) else 0))
    else if IsCompute(w.op) then
      match Compute(c, e.host, s.globals, w, s.regs[w.b], s.regs[w.c])
      case Val(v) => Next(s.(ip := s.ip + 1, regs := s.regs[w.a := v]))
      case DivTrap => StopWith(s, DivisionByZero)
      case OutOfRange => Failed(BadIndex)
    else if w.op == OP_STORE_GLOBAL then
      if GetBx(w) < |s.globals|
      then Next(s.(ip := s.ip + 1, globals := s.globals[GetBx(w) := s.regs[w.a]])) else Failed(BadIndex)
    else if Slots(w.op) == 2 then
      if payload.None? then Failed(BadIp)
      else if w.b + w.c > REG_WINDOW then StopWith(s, StackOverflow)
      else if IsCall(w.op) then EnterCall(s, w, payload.value)
      else SystemCall(e, s, w, payload.value)
    else Failed(BadOpcode)
  }

  function PayloadAt(code: seq<Word>, i: int): Option<u32> {
    if 0 <= i < |code| then Some(Payload(code[i])) else None
  }

  function CStep(c: Chunk, e: World, s: Config): Result {
    if s.ip == |c.code| then Failed(OffEnd)
    else if s.ip < 0 || s.ip > |c.code| then Failed(BadIp)
    else Perform(c, e, s, c.code[s.ip], PayloadAt(c.code, s.ip + 1))
  }

  function CRun(c: Chunk, e: World, s: Config, n: nat): Result
    decreases n
  {
    if n == 0 then Next(s)
    else
      match CStep(c, e, s)
      case Next(t) => CRun(c, e, t, n - 1)
      case o => o
  }

  ghost predicate CEnds(c: Chunk, e: World, s: Config, o: Result) {
    !o.Next? && exists n: nat :: CRun(c, e, s, n) == o
  }

  ghost predicate CEndsAlike(c: Chunk, s: Config, d: Chunk, t: Config, e: World, o: Result) {
    CEnds(c, e, s, o) <==> CEnds(d, e, t, o)
  }

  /** The same endings with the same observables, and hence the same divergence. */
  ghost predicate CSame(c: Chunk, s: Config, d: Chunk, t: Config, e: World) {
    forall o: Result :: CEndsAlike(c, s, d, t, e, o)
  }

  lemma CSameTrans(c: Chunk, s: Config, d: Chunk, t: Config, f: Chunk, u: Config, e: World)
    requires CSame(c, s, d, t, e) && CSame(d, t, f, u, e)
    ensures CSame(c, s, f, u, e)
  {
    forall o: Result ensures CEndsAlike(c, s, f, u, e, o) {
      assert CEndsAlike(c, s, d, t, e, o) && CEndsAlike(d, t, f, u, e, o);
    }
  }

  /** A start of the program: at slot 0, with nothing to return to. */
  predicate Starts(c: Chunk, s: Config) {
    s.ip == 0 && s.frames == [] && |s.globals| == c.globalSlots
  }

  // ---- linkages -------------------------------------------------------------------------------------

  /** Which register of the rewritten program (second argument) holds the value of which register
      of the original (third argument) when control is at a slot (first argument). */
  type Linkage = (int, u8, u8) -> bool

  ghost predicate Linked(k: Linkage, ip: int, x: Registers, y: Registers) {
    forall l: u8, r: u8 :: k(ip, l, r) ==> y[l] == x[r]
  }

  /** What the link l-r needs of two activations that are going to be resumed. */
  predicate Resumes(f: Activation, g: Activation, l: u8, r: u8) {
    if f.returnReg == Some(r) then g.returnReg == Some(l)
    else g.returnReg != Some(l) && g.regs[l] == f.regs[r]
  }

  ghost predicate FrameLinked(code: seq<Word>, k: Linkage, f: Activation, g: Activation) {
    && g.returnIp == f.returnIp && 0 <= f.returnIp <= |code| && Boundary(code, f.returnIp)
    && forall l: u8, r: u8 :: k(f.returnIp, l, r) ==> Resumes(f, g, l, r)
  }

  /** Two configurations that agree on everything observable and, through the linkage, on registers. */
  ghost predicate Related(c: Chunk, k: Linkage, s: Config, t: Config) {
    && t.ip == s.ip && 0 <= s.ip <= |c.code| && Boundary(c.code, s.ip)
    && t.globals == s.globals && t.trace == s.trace && |s.globals| == c.globalSlots
    && Linked(k, s.ip, s.regs, t.regs)
    && |t.frames| == |s.frames|
    && forall i :: 0 <= i < |s.frames| ==> FrameLinked(c.code, k, s.frames[i], t.frames[i])
  }

  ghost predicate RelatedResult(c: Chunk, k: Linkage, o: Result, p: Result) {
    match o
    case Next(s) => p.Next? && Related(c, k, s, p.config)
    case _ => p == o
  }

  // ---- compatible instruction pairs -----------------------------------------------------------------

  /** No register is written between `ip` and `next`. */
  ghost predicate Passes(k: Linkage, ip: int, next: int) {
    forall l: u8, r: u8 :: k(next, l, r) ==> k(ip, l, r)
  }

  /** Register `a` of the original is written to no use: the rewritten program does nothing. */
  ghost predicate Drops(k: Linkage, ip: int, next: int, a: u8) {
    forall l: u8, r: u8 :: k(next, l, r) ==> r != a && k(ip, l, r)
  }

  /** A MOVE of the original that the rewritten program has made unnecessary. */
  ghost predicate Forwards(k: Linkage, ip: int, next: int, w: Word) {
    forall l: u8, r: u8 :: k(next, l, r) ==> k(ip, l, if r == w.a then w.b else r)
  }

  /** Both programs write the same value, to registers w.a and v.a; a MOVE also makes its
      destination available wherever its source already was. */
  predicate DefinesLink(k: Linkage, ip: int, w: Word, v: Word, l: u8, r: u8) {
    if r == w.a then l == v.a || (w.op == OP_MOVE && k(ip, l, w.b))
    else l != v.a && k(ip, l, r)
  }

  ghost predicate Defines(k: Linkage, ip: int, next: int, w: Word, v: Word) {
    forall l: u8, r: u8 :: k(next, l, r) ==> DefinesLink(k, ip, w, v, l, r)
  }

  /** The links after a call or system call, whose result one or both programs store. */
  predicate ReturnsLink(k: Linkage, ip: int, w: Word, v: Word, l: u8, r: u8) {
    if ReturnRegister(w) == Some(r) then ReturnRegister(v) == Some(l)
    else ReturnRegister(v) != Some(l) && k(ip, l, r)
  }

  ghost predicate Returns(k: Linkage, ip: int, next: int, w: Word, v: Word) {
    forall l: u8, r: u8 :: k(next, l, r) ==> ReturnsLink(k, ip, w, v, l, r)
  }

  /** A function starts with equal register files. */
  ghost predicate Enters(k: Linkage, target: int) {
    forall l: u8, r: u8 :: k(target, l, r) ==> l == r
  }

  /** The same opcode on linked register operands and equal other fields. */
  predicate SameOperation(k: Linkage, ip: int, w: Word, v: Word) {
    && v.op == w.op
    && (if ReadsA(w.op) then k(ip, v.a, w.a) else WritesA(w.op) || v.a == w.a)
    && (if ReadsB(w.op) then k(ip, v.b, w.b) else v.b == w.b)
    && (if ReadsC(w.op) then k(ip, v.c, w.c) else v.c == w.c)
  }

  predicate ArgumentLinked(k: Linkage, ip: int, w: Word, v: Word, i: nat)
    requires w.b + i < REG_WINDOW && v.b + i < REG_WINDOW
  {
    k(ip, v.b + i, w.b + i)
  }

  ghost predicate ArgumentsLinked(k: Linkage, ip: int, w: Word, v: Word) {
    v.c == w.c && w.b + w.c <= REG_WINDOW && v.b + v.c <= REG_WINDOW &&
    forall i :: 0 <= i < w.c ==> ArgumentLinked(k, ip, w, v, i)
  }

  /** A MOVE of a register to itself. */
  predicate SelfMove(w: Word) { w.op == OP_MOVE && w.a == w.b }

  /** A computation that stores a value whatever its operands hold. */
  predicate NeverFails(c: Chunk, w: Word) {
    IsCompute(w.op) &&
    (w.op == OP_LOAD_CONST || w.op == OP_LOAD_STR ==> GetBx(w) < |c.constants|) &&
    (w.op == OP_LOAD_GLOBAL ==> GetBx(w) < c.globalSlots) &&
    !(OP_DIV_S <= w.op <= OP_REM_U) &&
    (OP_DIV_S_IMM <= w.op <= OP_REM_U_IMM ==> w.c != 0)
  }

  /** The rewritten program has NOPs where the original computes something it can do without. */
  ghost predicate DroppedAt(c: Chunk, d: Chunk, k: Linkage, ip: nat)
    requires ip < |c.code| == |d.code| && ip + Slots(c.code[ip].op) <= |c.code|
  {
    var w, next := c.code[ip], ip + Slots(c.code[ip].op);
    if w.op == OP_SYSCALL then
      Traceless(Payload(c.code[ip + 1])) && w.b + w.c <= REG_WINDOW && d.code[ip + 1].op == OP_NOP &&
      Drops(k, ip, next, w.a)
    else (w.op == OP_MOVE && Forwards(k, ip, next, w)) || (NeverFails(c, w) && Drops(k, ip, next, w.a))
  }

  /** Whether control may come back behind a wide instruction. */
  predicate ComesBack(w: Word, payload: u32) {
    w.op != OP_TAILCALL && !(IsSyscall(w.op) && EndsProgram(payload))
  }

  ghost predicate WideAt(c: Chunk, d: Chunk, k: Linkage, ip: nat)
    requires ip < |c.code| == |d.code| && ip + 2 <= |c.code|
  {
    var w, v := c.code[ip], d.code[ip];
    && Payload(d.code[ip + 1]) == Payload(c.code[ip + 1])
    && (v.op == w.op || (w.op == OP_CALL && v.op == OP_CALL_VOID) ||
        (w.op == OP_SYSCALL && v.op == OP_SYSCALL_VOID))
    && if w.b + w.c > REG_WINDOW then v.b + v.c > REG_WINDOW
       else
         && ArgumentsLinked(k, ip, w, v)
         && (ComesBack(w, Payload(c.code[ip + 1])) ==> Returns(k, ip, ip + 2, w, v))
         && (IsCall(w.op) ==> Enters(k, Payload(c.code[ip + 1])))
  }

  /** The instructions of the two programs at `ip` do the same to linked configurations. */
  ghost predicate PairAt(c: Chunk, d: Chunk, k: Linkage, ip: nat)
    requires ip < |c.code| == |d.code|
  {
    var w, v := c.code[ip], d.code[ip];
    var next := ip + Slots(w.op);
    next <= |c.code| &&
    if w.op == OP_NOP then v.op == OP_NOP && Passes(k, ip, next)
    else if v.op == OP_NOP then DroppedAt(c, d, k, ip)
    else if Slots(w.op) == 2 then WideAt(c, d, k, ip)
    else if IsCompute(w.op) then
      (SameOperation(k, ip, w, v) && Defines(k, ip, next, w, v)) ||
      (SelfMove(w) && v == w && Passes(k, ip, next))
    else if IsBranch(w.op) then
      SameOperation(k, ip, w, v) && (w.op != OP_JUMP ==> Passes(k, ip, next)) &&
      Passes(k, ip, ip + 1 + BranchOffset(w))
    else SameOperation(k, ip, w, v) && (w.op == OP_STORE_GLOBAL ==> Passes(k, ip, next))
  }

  /** The chunks differ in their code only. */
  predicate Recoded(c: Chunk, d: Chunk) { d == c.(code := d.code) && |d.code| == |c.code| }

  ghost predicate Compatible(c: Chunk, d: Chunk, k: Linkage) {
    Recoded(c, d) &&
    forall ip {:trigger PairAt(c, d, k, ip)} :: 0 <= ip < |c.code| && Boundary(c.code, ip) ==> PairAt(c, d, k, ip)
  }

  // ---- the simulation -------------------------------------------------------------------------------

  /** A value depends on the registers its opcode reads, and on nothing else. */
  lemma ComputeReads(c: Chunk, h: Host, globals: seq<u64>, w: Word, v: Word, x: u64, y: u64, x': u64, y': u64)
    requires IsCompute(w.op) && v.op == w.op
    requires if ReadsB(w.op) then x' == x else v.b == w.b
    requires if ReadsC(w.op) then y' == y else v.c == w.c
    ensures Compute(c, h, globals, v, x', y') == Compute(c, h, globals, w, x, y)
  {
    hide BinaryOp;
    hide ImmediateOp;
    hide UnaryOp;
    hide GetBx;
    hide GetsBx;
    if !ReadsB(w.op) { SameBx(w, v); }
  }

  lemma SameBx(w: Word, v: Word)
    requires v.b == w.b && v.c == w.c
    ensures GetBx(v) == GetBx(w) && GetsBx(v) == GetsBx(w)
  {
  }

  lemma ComputeSucceeds(c: Chunk, h: Host, globals: seq<u64>, w: Word, x: u64, y: u64)
    requires NeverFails(c, w) && |globals| == c.globalSlots
    ensures Compute(c, h, globals, w, x, y).Val?
  {
    if OP_DIV_S_IMM <= w.op <= OP_REM_U_IMM {
      assert Wrap(SignExtend8(w.c)) != 0;
    }
  }

  lemma TakenReads(k: Linkage, ip: int, w: Word, v: Word, s: Registers, t: Registers)
    requires IsBranch(w.op) && SameOperation(k, ip, w, v) && Linked(k, ip, s, t)
    ensures Taken(v, t[v.a], t[v.b]) == Taken(w, s[w.a], s[w.b])
    ensures BranchOffset(v) == BranchOffset(w)
  {
    hide Compare;
  }

  lemma ArgumentsAgree(k: Linkage, ip: int, w: Word, v: Word, x: Registers, y: Registers)
    requires Linked(k, ip, x, y) && ArgumentsLinked(k, ip, w, v)
    ensures Arguments(y, v) == Arguments(x, w) && CalleeRegisters(y, v) == CalleeRegisters(x, w)
  {
    forall i | 0 <= i < w.c ensures Arguments(y, v)[i] == Arguments(x, w)[i] {
      assert ArgumentLinked(k, ip, w, v, i);
    }
  }

  lemma LinkedAfterReturn(code: seq<Word>, k: Linkage, f: Activation, g: Activation, v: u64)
    requires FrameLinked(code, k, f, g)
    ensures Linked(k, f.returnIp, Give(f.regs, f.returnReg, v), Give(g.regs, g.returnReg, v))
  {
  }

  lemma LinkedAfterWrite(k: Linkage, ip: int, next: int, w: Word, v: Word, x: Registers, y: Registers, value: u64)
    requires Linked(k, ip, x, y) && Defines(k, ip, next, w, v)
    requires w.op == OP_MOVE ==> value == x[w.b]
    ensures Linked(k, next, x[w.a := value], y[v.a := value])
  {
  }

  lemma ReturnSimulates(c: Chunk, k: Linkage, s: Config, t: Config, v: u64)
    requires Related(c, k, s, t)
    ensures RelatedResult(c, k, Leave(s, v), Leave(t, v))
  {
    if s.frames != [] {
      var i := |s.frames| - 1;
      assert FrameLinked(c.code, k, s.frames[i], t.frames[i]);
      LinkedAfterReturn(c.code, k, s.frames[i], t.frames[i], v);
    }
  }

  lemma CallSimulates(c: Chunk, k: Linkage, s: Config, t: Config, w: Word, v: Word, target: nat)
    requires Related(c, k, s, t) && ArgumentsLinked(k, s.ip, w, v) && Enters(k, target)
    requires IsCall(w.op) && (v.op == w.op || (w.op == OP_CALL && v.op == OP_CALL_VOID))
    requires w.op != OP_TAILCALL ==> Returns(k, s.ip, s.ip + 2, w, v)
    requires target <= |c.code| && Boundary(c.code, target)
    requires s.ip + 2 <= |c.code| && Boundary(c.code, s.ip + 2)
    ensures RelatedResult(c, k, EnterCall(s, w, target), EnterCall(t, v, target))
  {
    hide Arguments;
    hide CalleeRegisters;
    ArgumentsAgree(k, s.ip, w, v, s.regs, t.regs);
    if w.op != OP_TAILCALL {
      var f := Activation(s.ip + 2, s.regs, ReturnRegister(w));
      var g := Activation(s.ip + 2, t.regs, ReturnRegister(v));
      forall l: u8, r: u8 | k(f.returnIp, l, r) ensures Resumes(f, g, l, r) {
        assert ReturnsLink(k, s.ip, w, v, l, r);
      }
      assert FrameLinked(c.code, k, f, g);
    }
  }

  lemma SystemCallSimulates(c: Chunk, e: World, k: Linkage, s: Config, t: Config, w: Word, v: Word, id: u32)
    requires Related(c, k, s, t) && ArgumentsLinked(k, s.ip, w, v) && TerminatorsStop(e.host)
    requires IsSyscall(w.op) && (v.op == w.op || (w.op == OP_SYSCALL && v.op == OP_SYSCALL_VOID))
    requires !EndsProgram(id) ==> Returns(k, s.ip, s.ip + 2, w, v)
    requires s.ip + 2 <= |c.code| && Boundary(c.code, s.ip + 2)
    ensures RelatedResult(c, k, SystemCall(e, s, w, id), SystemCall(e, t, v, id))
  {
    hide Arguments;
    ArgumentsAgree(k, s.ip, w, v, s.regs, t.regs);
    if EndsProgram(id) {
      assert EndsInTerminator(s.trace + [Event(id, Arguments(s.regs, w))]);
      return;
    }
    forall ret: u64
      ensures Linked(k, s.ip + 2, Give(s.regs, ReturnRegister(w), ret), Give(t.regs, ReturnRegister(v), ret))
    {
      forall l: u8, r: u8 | k(s.ip + 2, l, r)
        ensures Give(t.regs, ReturnRegister(v), ret)[l] == Give(s.regs, ReturnRegister(w), ret)[r]
      {
        assert ReturnsLink(k, s.ip, w, v, l, r);
      }
    }
  }

  lemma NopSimulates(c: Chunk, k: Linkage, s: Config, t: Config)
    requires Related(c, k, s, t) && Passes(k, s.ip, s.ip + 1)
    requires s.ip + 1 <= |c.code| && Boundary(c.code, s.ip + 1)
    ensures Related(c, k, s.(ip := s.ip + 1), t.(ip := t.ip + 1))
  {
  }

  lemma BranchSimulates(c: Chunk, e: World, k: Linkage, s: Config, t: Config, w: Word, v: Word)
    requires Related(c, k, s, t) && IsBranch(w.op) && SameOperation(k, s.ip, w, v)
    requires w.op != OP_JUMP ==> Passes(k, s.ip, s.ip + 1) && s.ip + 1 <= |c.code| && Boundary(c.code, s.ip + 1)
    requires var target := s.ip + 1 + BranchOffset(w);
             0 <= target <= |c.code| && Boundary(c.code, target) && Passes(k, s.ip, target)
    ensures RelatedResult(c, k, Perform(c, e, s, w, None), Perform(c, e, t, v, None))
  {
    TakenReads(k, s.ip, w, v, s.regs, t.regs);
  }

  lemma ComputeSimulates(c: Chunk, e: World, k: Linkage, s: Config, t: Config, w: Word, v: Word)
    requires Related(c, k, s, t) && IsCompute(w.op) && SameOperation(k, s.ip, w, v)
    requires Defines(k, s.ip, s.ip + 1, w, v) && s.ip + 1 <= |c.code| && Boundary(c.code, s.ip + 1)
    ensures RelatedResult(c, k, Perform(c, e, s, w, None), Perform(c, e, t, v, None))
  {
    hide Compute;
    ComputeReads(c, e.host, s.globals, w, v, s.regs[w.b], s.regs[w.c], t.regs[v.b], t.regs[v.c]);
    match Compute(c, e.host, s.globals, w, s.regs[w.b], s.regs[w.c]) {
      case Val(value) =>
        MoveValue(c, e.host, s.globals, w, s.regs[w.b], s.regs[w.c]);
        LinkedAfterWrite(k, s.ip, s.ip + 1, w, v, s.regs, t.regs, value);
      case _ =>
    }
  }

  lemma SelfMoveSimulates(c: Chunk, e: World, k: Linkage, s: Config, t: Config, w: Word)
    requires Related(c, k, s, t) && SelfMove(w) && Passes(k, s.ip, s.ip + 1)
    requires s.ip + 1 <= |c.code| && Boundary(c.code, s.ip + 1)
    ensures RelatedResult(c, k, Perform(c, e, s, w, None), Perform(c, e, t, w, None))
  {
    MoveValue(c, e.host, s.globals, w, s.regs[w.b], s.regs[w.c]);
    MoveValue(c, e.host, t.globals, w, t.regs[w.b], t.regs[w.c]);
    assert s.regs[w.a := s.regs[w.b]] == s.regs && t.regs[w.a := t.regs[w.b]] == t.regs;
    NopSimulates(c, k, s, t);
  }

  lemma MoveValue(c: Chunk, h: Host, globals: seq<u64>, w: Word, x: u64, y: u64)
    ensures w.op == OP_MOVE ==> Compute(c, h, globals, w, x, y) == Val(x)
  {
  }

  /** Halting, returning and storing globals. */
  lemma PlainSimulates(c: Chunk, e: World, k: Linkage, s: Config, t: Config, w: Word, v: Word)
    requires Related(c, k, s, t) && SameOperation(k, s.ip, w, v)
    requires Slots(w.op) == 1 && w.op != OP_NOP && !IsCompute(w.op) && !IsBranch(w.op)
    requires w.op == OP_STORE_GLOBAL ==>
               Passes(k, s.ip, s.ip + 1) && s.ip + 1 <= |c.code| && Boundary(c.code, s.ip + 1)
    ensures RelatedResult(c, k, Perform(c, e, s, w, None), Perform(c, e, t, v, None))
  {
    hide Leave;
    ReturnSimulates(c, k, s, t, if w.op == OP_RET then s.regs[w.a] else e.leftover);
  }

  /** Only wide instructions look at a payload. */
  lemma PayloadUnused(c: Chunk, e: World, s: Config, w: Word, payload: Option<u32>)
    requires Slots(w.op) == 1
    ensures Perform(c, e, s, w, payload) == Perform(c, e, s, w, None)
  {
  }

  lemma WideSimulates(c: Chunk, d: Chunk, e: World, k: Linkage, s: Config, t: Config)
    requires Recoded(c, d) && Related(c, k, s, t) && s.ip < |c.code| && s.ip + 2 <= |c.code|
    requires Slots(c.code[s.ip].op) == 2 && WideAt(c, d, k, s.ip) && GoodAt(c.code, s.ip)
    requires TerminatorsStop(e.host)
    requires Boundary(c.code, s.ip + 2)
    ensures RelatedResult(c, k, CStep(c, e, s), CStep(d, e, t))
  {
    hide EnterCall;
    hide SystemCall;
    hide ArgumentsLinked;
    hide Returns;
    var w, v, payload := c.code[s.ip], d.code[s.ip], Payload(c.code[s.ip + 1]);
    if w.b + w.c > REG_WINDOW { return; }
    ArgumentsFit(k, s.ip, w, v);
    if IsCall(w.op) {
      CallSimulates(c, k, s, t, w, v, payload);
    } else {
      SystemCallSimulates(c, e, k, s, t, w, v, payload);
    }
  }

  lemma ArgumentsFit(k: Linkage, ip: int, w: Word, v: Word)
    requires ArgumentsLinked(k, ip, w, v)
    ensures w.b + w.c <= REG_WINDOW && v.b + v.c <= REG_WINDOW
  {
  }

  /** A step the rewritten program replaces by one or two NOPs. */
  lemma DroppedSimulates(c: Chunk, d: Chunk, e: World, k: Linkage, s: Config, t: Config) returns (m: nat)
    requires Recoded(c, d) && Related(c, k, s, t) && s.ip < |c.code|
    requires var next := s.ip + Slots(c.code[s.ip].op); next <= |c.code| && Boundary(c.code, next)
    requires d.code[s.ip].op == OP_NOP && c.code[s.ip].op != OP_NOP && DroppedAt(c, d, k, s.ip)
    requires c.code[s.ip].op == OP_SYSCALL || Slots(c.code[s.ip].op) == 1
    ensures 1 <= m <= 2 && (m == 2 ==> CStep(d, e, t).Next?)
    ensures RelatedResult(c, k, CStep(c, e, s), CRun(d, e, t, m))
  {
    hide Compute;
    hide Arguments;
    var w := c.code[s.ip];
    assert CStep(d, e, t) == Next(t.(ip := t.ip + 1));
    if w.op == OP_SYSCALL {
      m := 2;
      assert CStep(d, e, t.(ip := t.ip + 1)) == Next(t.(ip := t.ip + 2));
      assert CRun(d, e, t, 2) == CRun(d, e, t.(ip := t.ip + 1), 1);
    } else {
      m := 1;
      assert CRun(d, e, t, 1) == CStep(d, e, t);
      if w.op == OP_MOVE && Forwards(k, s.ip, s.ip + 1, w) {
        MoveValue(c, e.host, s.globals, w, s.regs[w.b], s.regs[w.c]);
      } else {
        ComputeSucceeds(c, e.host, s.globals, w, s.regs[w.b], s.regs[w.c]);
      }
    }
  }

  /** One step of the original is one step of the rewritten program, or two NOPs. */
  lemma StepSimulates(c: Chunk, d: Chunk, e: World, k: Linkage, s: Config, t: Config) returns (m: nat)
    requires WellFormed(c.code) && TerminatorsStop(e.host) && Compatible(c, d, k) && Related(c, k, s, t)
    ensures 1 <= m <= 2 && (m == 2 ==> CStep(d, e, t).Next?)
    ensures RelatedResult(c, k, CStep(c, e, s), CRun(d, e, t, m))
  {
    RelatedIp(c, k, s, t);
    m := PairSimulates(c, d, e, k, s, t);
  }

  /** Only the pair at the current instruction matters. */
  lemma PairSimulates(c: Chunk, d: Chunk, e: World, k: Linkage, s: Config, t: Config) returns (m: nat)
    requires WellFormed(c.code) && TerminatorsStop(e.host) && Recoded(c, d) && Related(c, k, s, t)
    requires s.ip < |c.code| ==> PairAt(c, d, k, s.ip)
    ensures 1 <= m <= 2 && (m == 2 ==> CStep(d, e, t).Next?)
    ensures RelatedResult(c, k, CStep(c, e, s), CRun(d, e, t, m))
  {
    hide Perform;
    hide SameOperation;
    hide DroppedAt;
    hide WideAt;
    hide Passes;
    hide Defines;
    hide Related;
    RelatedIp(c, k, s, t);
    m := 1;
    OneRun(d, e, t);
    if s.ip < |c.code| {
      var w, v := c.code[s.ip], d.code[s.ip];
      assert GoodAt(c.code, s.ip);
      MeetsNext(c.code, 0, s.ip);
      if w.op == OP_NOP {
        NopSimulates(c, k, s, t);
        NopPerforms(c, e, s, w, PayloadAt(c.code, s.ip + 1));
        NopPerforms(d, e, t, v, PayloadAt(d.code, t.ip + 1));
      } else if v.op == OP_NOP {
        DroppedKind(c, d, k, s.ip);
        m := DroppedSimulates(c, d, e, k, s, t);
      } else if Slots(w.op) == 2 {
        WideSimulates(c, d, e, k, s, t);
      } else {
        if SameOperation(k, s.ip, w, v) { SameSlots(k, s.ip, w, v); }
        PayloadUnused(c, e, s, w, PayloadAt(c.code, s.ip + 1));
        PayloadUnused(d, e, t, v, PayloadAt(d.code, t.ip + 1));
        PerformSame(c, d, e, t, v);
        if SelfMove(w) && v == w && Passes(k, s.ip, s.ip + 1) {
          SelfMoveSimulates(c, e, k, s, t, w);
        } else if IsCompute(w.op) {
          ComputeSimulates(c, e, k, s, t, w, v);
        } else if IsBranch(w.op) {
          BranchSimulates(c, e, k, s, t, w, v);
        } else {
          PlainSimulates(c, e, k, s, t, w, v);
        }
      }
    }
  }

  lemma RelatedIp(c: Chunk, k: Linkage, s: Config, t: Config)
    requires Related(c, k, s, t)
    ensures t.ip == s.ip && 0 <= s.ip <= |c.code| && Boundary(c.code, s.ip)
  {
  }

  lemma OneRun(c: Chunk, e: World, s: Config)
    ensures CRun(c, e, s, 1) == CStep(c, e, s)
  {
    hide CStep;
    assert CStep(c, e, s).Next? ==> CRun(c, e, CStep(c, e, s).config, 0) == CStep(c, e, s);
  }

  lemma NopPerforms(c: Chunk, e: World, s: Config, w: Word, payload: Option<u32>)
    requires w.op == OP_NOP
    ensures Perform(c, e, s, w, payload) == Next(s.(ip := s.ip + 1))
  {
  }

  lemma SameSlots(k: Linkage, ip: int, w: Word, v: Word)
    requires SameOperation(k, ip, w, v)
    ensures v.op == w.op
  {
  }

  lemma DroppedKind(c: Chunk, d: Chunk, k: Linkage, ip: nat)
    requires ip < |c.code| == |d.code| && ip + Slots(c.code[ip].op) <= |c.code| && DroppedAt(c, d, k, ip)
    ensures c.code[ip].op == OP_SYSCALL || Slots(c.code[ip].op) == 1
  {
  }

  /** Rewriting the code of a chunk does not change what a given instruction does. */
  lemma PerformSame(c: Chunk, d: Chunk, e: World, t: Config, v: Word)
    requires d == c.(code := d.code)
    ensures Perform(d, e, t, v, None) == Perform(c, e, t, v, None)
  {
    hide BinaryOp;
    hide ImmediateOp;
    hide UnaryOp;
    hide Taken;
    hide BranchOffset;
    hide Leave;
  }

  lemma {:induction false} OriginalEnds(c: Chunk, d: Chunk, e: World, k: Linkage, s: Config, t: Config, n: nat)
      returns (m: nat)
    requires WellFormed(c.code) && TerminatorsStop(e.host) && Compatible(c, d, k) && Related(c, k, s, t)
    requires !CRun(c, e, s, n).Next?
    ensures CRun(d, e, t, m) == CRun(c, e, s, n)
    decreases n
  {
    hide CStep;
    hide Related;
    hide Compatible;
    var j := StepSimulates(c, d, e, k, s, t);
    m := j;
    if CStep(c, e, s).Next? {
      var u := CRun(d, e, t, j).config;
      var i := OriginalEnds(c, d, e, k, CStep(c, e, s).config, u, n - 1);
      CRunCompose(d, e, t, j, i);
      m := j + i;
    }
  }

  lemma {:induction false} RewrittenEnds(c: Chunk, d: Chunk, e: World, k: Linkage, s: Config, t: Config, m: nat)
      returns (n: nat)
    requires WellFormed(c.code) && TerminatorsStop(e.host) && Compatible(c, d, k) && Related(c, k, s, t)
    requires !CRun(d, e, t, m).Next?
    ensures CRun(d, e, t, m) == CRun(c, e, s, n)
    decreases m
  {
    hide CStep;
    hide Related;
    hide Compatible;
    var j := StepSimulates(c, d, e, k, s, t);
    OneRun(d, e, t);
    OneRun(c, e, s);
    n := 1;
    if CStep(c, e, s).Next? {
      var u := CRun(d, e, t, j).config;
      assert m > 0 && (m == 1 ==> j == 1);
      CRunCompose(d, e, t, j, m - j);
      var i := RewrittenEnds(c, d, e, k, CStep(c, e, s).config, u, m - j);
      n := i + 1;
    } else {
      CRunStable(d, e, t, if m < j then m else j, if m < j then j else m);
    }
  }

  lemma {:induction false} CRunCompose(c: Chunk, e: World, s: Config, m: nat, n: nat)
    requires CRun(c, e, s, m).Next?
    ensures CRun(c, e, s, m + n) == CRun(c, e, CRun(c, e, s, m).config, n)
    decreases m
  {
    hide CStep;
    if m > 0 {
      CRunCompose(c, e, CStep(c, e, s).config, m - 1, n);
    }
  }

  lemma {:induction false} CRunStable(c: Chunk, e: World, s: Config, m: nat, n: nat)
    requires !CRun(c, e, s, m).Next? && m <= n
    ensures CRun(c, e, s, n) == CRun(c, e, s, m)
    decreases m
  {
    hide CStep;
    if CStep(c, e, s).Next? {
      CRunStable(c, e, CStep(c, e, s).config, m - 1, n - 1);
    }
  }

  /** A rewriting whose instruction pairs are all compatible with one linkage cannot be noticed from
      any pair of related configurations. */
  lemma CompatibleCodeBehavesAlike(c: Chunk, d: Chunk, e: World, k: Linkage, s: Config, t: Config)
    requires WellFormed(c.code) && TerminatorsStop(e.host) && Compatible(c, d, k) && Related(c, k, s, t)
    ensures CSame(c, s, d, t, e)
  {
    hide Related;
    hide Compatible;
    forall o: Result ensures CEndsAlike(c, s, d, t, e, o) {
      if CEnds(c, e, s, o) {
        var n: nat :| CRun(c, e, s, n) == o;
        var m := OriginalEnds(c, d, e, k, s, t, n);
      }
      if CEnds(d, e, t, o) {
        var m: nat :| CRun(d, e, t, m) == o;
        var n := RewrittenEnds(c, d, e, k, s, t, m);
        assert CRun(c, e, s, n) == o;
      }
    }
  }

  lemma StartsRelated(c: Chunk, k: Linkage, s: Config)
    requires Starts(c, s) && Enters(k, 0)
    ensures Related(c, k, s, s)
  {
  }
}
