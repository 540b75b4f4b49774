/** `AcuRawChunk_Validate`: the two scanning loops, what exactly they accept, and what
    acceptance guarantees about every run of the VM. */
module Validator {
  import opened Words
  import opened Bytecode
  import opened Layout
  import opened Vm

  const MASK32: int := 0x1_0000_0000

  /** The operand checks made for one instruction. SYSCALL_VOID has none. */
  predicate ValidOperands(c: Chunk, ip: nat)
    requires ip < |c.code| && ip + Slots(c.code[ip].op) <= |c.code|
  {
    var w := c.code[ip];
    if IsBranch(w.op) then
      GetJumpTarget(ip, w) <= |c.code| && Boundary(c.code, GetJumpTarget(ip, w))
    else if w.op == OP_LOAD_GLOBAL || w.op == OP_STORE_GLOBAL then GetBx(w) < c.globalSlots
    else if w.op == OP_LOAD_CONST then GetBx(w) < |c.constants|
    else if w.op == OP_LOAD_STR then
      GetBx(w) < |c.constants| &&
      c.constants[GetBx(w)] % MASK32 + c.constants[GetBx(w)] / MASK32 <= c.stringPoolSize
    else if IsCall(w.op) then
      var target := Payload(c.code[ip + 1]);
      target < |c.code| && Boundary(c.code, target) && w.b + w.c <= REG_WINDOW
    else if w.op == OP_SYSCALL then
      Payload(c.code[ip + 1]) < SYSCALL_COUNT && w.b + w.c <= REG_WINDOW
    else true
  }

  ghost predicate ValidChunk(c: Chunk) {
    c.code == [] ||
    (Scans(c.code, 0) &&
     forall ip {:trigger BoundaryValid(c, ip)} ::
       0 <= ip < |c.code| && Boundary(c.code, ip) ==> BoundaryValid(c, ip))
  }

  predicate BoundaryValid(c: Chunk, ip: nat)
    requires ip < |c.code|
  {
    ip + Slots(c.code[ip].op) <= |c.code| && ValidOperands(c, ip)
  }

  /** The operand switch of the second pass, reading the boundaries from the marked array. */
  method CheckOperands(c: Chunk, ip: nat, isBoundary: array<bool>) returns (ok: bool)
    requires |c.code| <= MAX_CODE && ip < |c.code| && ip + Slots(c.code[ip].op) <= |c.code|
    requires isBoundary.Length == |c.code| + 1
    requires forall k :: 0 <= k <= |c.code| ==> isBoundary[k] == Boundary(c.code, k)
    ensures ok == ValidOperands(c, ip)
  {
    var w := c.code[ip];
    var op := w.op;
    if IsBranch(op) {
      var target := GetJumpTarget(ip, w);
      if target > |c.code| || !isBoundary[target] { return false; }
    }
    if op == OP_LOAD_GLOBAL || op == OP_STORE_GLOBAL {
      return GetBx(w) < c.globalSlots;
    } else if op == OP_LOAD_CONST {
      return GetBx(w) < |c.constants|;
    } else if op == OP_LOAD_STR {
      if GetBx(w) >= |c.constants| { return false; }
      var slice := c.constants[GetBx(w)];
      return slice % MASK32 + slice / MASK32 <= c.stringPoolSize;
    } else if IsCall(op) {
      var target := Payload(c.code[ip + 1]);
      if target >= |c.code| || !isBoundary[target] { return false; }
      return w.b + w.c <= REG_WINDOW;
    } else if op == OP_SYSCALL {
      if Payload(c.code[ip + 1]) >= SYSCALL_COUNT { return false; }
      return w.b + w.c <= REG_WINDOW;
    }
    return true;
  }

  /** The validator accepts exactly the chunks that satisfy `ValidChunk`. */
  method Validate(c: Chunk) returns (ok: bool)
    requires |c.code| <= MAX_CODE
    ensures ok <==> ValidChunk(c)
  {
    var size := |c.code|;
    if size == 0 { return true; }
    var isBoundary := new bool[size + 1](_ => false);

    var ip := 0;
    while ip < size
      invariant 0 <= ip <= size && Boundary(c.code, ip)
      invariant forall k :: 0 <= k < ip ==> isBoundary[k] == Boundary(c.code, k)
      invariant forall k :: ip <= k <= size ==> !isBoundary[k]
      invariant Scans(c.code, 0) == Scans(c.code, ip)
      decreases size - ip
    {
      var op := c.code[ip].op;
      if op >= ACU_OPCODE_COUNT { return false; }
      var slots := Slots(op);
      if ip + slots > size { return false; }
      isBoundary[ip] := true;
      MeetsNext(c.code, 0, ip);
      forall k | ip < k < ip + slots ensures !Boundary(c.code, k) {
        if Boundary(c.code, k) { NoBoundaryInside(c.code, 0, ip, k); }
      }
      ip := ip + slots;
    }
    isBoundary[size] := true;

    ip := 0;
    while ip < size
      invariant 0 <= ip <= size && Boundary(c.code, ip)
      invariant forall k :: 0 <= k <= size ==> isBoundary[k] == Boundary(c.code, k)
      invariant forall k :: 0 <= k < ip && Boundary(c.code, k) ==> BoundaryValid(c, k)
      decreases size - ip
    {
      ScansAt(c.code, 0, ip);
      ok := CheckOperands(c, ip, isBoundary);
      if !ok {
        assert !BoundaryValid(c, ip);
        return;
      }
      var slots := Slots(c.code[ip].op);
      MeetsNext(c.code, 0, ip);
      forall k | 0 <= k < ip + slots && Boundary(c.code, k) ensures BoundaryValid(c, k) {
        if k > ip { NoBoundaryInside(c.code, 0, ip, k); }
      }
      ip := ip + slots;
    }
    return true;
  }

  // ---- what acceptance guarantees ---------------------------------------------------------------

  ghost predicate SafeFrame(c: Chunk, stackSize: nat, f: Frame) {
    Boundary(c.code, f.returnIp) && 0 <= f.returnIp <= |c.code| && f.base + REG_WINDOW <= stackSize
  }

  /** The machine invariant: ip and all saved ips are instruction boundaries (or the end), every
      register window lies in the stack, the frame stack is within capacity. */
  ghost predicate SafeState(c: Chunk, s: State) {
    && 0 <= s.ip <= |c.code| && Boundary(c.code, s.ip)
    && s.HasWindow()
    && |s.globals| == c.globalSlots
    && |s.frames| <= FRAME_CAPACITY
    && forall i :: 0 <= i < |s.frames| ==> SafeFrame(c, |s.stack|, s.frames[i])
  }

  /** The undefined outcomes that validation does not exclude. */
  ghost predicate UncheckedFault(c: Chunk, s: State, f: Fault) {
    || (f == OffEnd && s.ip == |c.code|)
    || (f == EmptyFrames && s.frames == [] && 0 <= s.ip < |c.code| &&
        (c.code[s.ip].op == OP_RET || c.code[s.ip].op == OP_RET_VOID))
    || (f == BadSyscall && 0 <= s.ip < |c.code| && UnknownSyscall(c.code, s.ip))
  }

  /** The instruction at `ip` makes a system call whose number the validator should have refused. */
  predicate UnknownSyscall(code: seq<Word>, ip: nat)
    requires ip < |code|
  {
    code[ip].op == OP_SYSCALL_VOID && code[ip].b + code[ip].c <= REG_WINDOW &&
    ip + 1 < |code| && Payload(code[ip + 1]) >= SYSCALL_COUNT
  }

  ghost predicate KnownSyscalls(code: seq<Word>) {
    forall ip :: 0 <= ip < |code| && Boundary(code, ip) ==> !UnknownSyscall(code, ip)
  }

  /** A step of accepted code from a safe state keeps the state safe, and goes wrong in exactly these
      cases. */
  lemma SafeStep(c: Chunk, h: Host, s: State)
    requires |c.code| <= MAX_CODE && ValidChunk(c) && SafeState(c, s)
    ensures Step(c, h, s).Go? ==> SafeState(c, Step(c, h, s).next)
    ensures forall f: Fault :: Step(c, h, s) == Wild(f) <==> UncheckedFault(c, s, f)
  {
    if s.ip < |c.code| {
      ScansAt(c.code, 0, s.ip);
      MeetsNext(c.code, 0, s.ip);
      assert BoundaryValid(c, s.ip);
      SafeExecute(c, h, s, c.code[s.ip]);
    }
  }

  lemma SafeExecute(c: Chunk, h: Host, s: State, w: Word)
    requires |c.code| <= MAX_CODE
    requires SafeState(c, s) && s.ip < |c.code| && w == c.code[s.ip]
    requires w.op < ACU_OPCODE_COUNT && BoundaryValid(c, s.ip)
    requires Boundary(c.code, s.ip + Slots(w.op))
    ensures Execute(c, h, s, w).Go? ==> SafeState(c, Execute(c, h, s, w).next)
    ensures forall f: Fault :: Execute(c, h, s, w) == Wild(f) <==> UncheckedFault(c, s, f)
  {
    hide Compare;
    if w.op == OP_RET || w.op == OP_RET_VOID {
      if s.frames != [] {
        assert SafeFrame(c, |s.stack|, s.frames[|s.frames| - 1]);
      }
    } else if w.op == OP_CALL || w.op == OP_CALL_VOID {
      assert SafeFrame(c, |s.stack|, Frame(s.ip + 2, s.base, None));
    }
  }

  /** A loaded chunk that passes validation: every state of every run is safe, and a run goes wrong if and
      only if it comes to one of the three steps that validation leaves unchecked. */
  lemma {:induction false} ValidatedRunsAreSafe(c: Chunk, h: Host, s: State, n: nat)
    requires |c.code| <= MAX_CODE && ValidChunk(c) && SafeState(c, s)
    ensures Run(c, h, s, n).Go? ==> SafeState(c, Run(c, h, s, n).next)
    ensures forall f: Fault :: Run(c, h, s, n) == Wild(f) <==> exists m :: 0 <= m < n && ComesTo(c, h, s, m, f)
    decreases n
  {
    hide Step;
    hide SafeState;
    hide UncheckedFault;
    hide ValidChunk;
    if n > 0 {
      SafeStep(c, h, s);
      assert Run(c, h, s, 0) == Go(s);
      if Step(c, h, s).Go? {
        var t := Step(c, h, s).next;
        ValidatedRunsAreSafe(c, h, t, n - 1);
        forall f: Fault ensures Run(c, h, s, n) == Wild(f) <==> exists m :: 0 <= m < n && ComesTo(c, h, s, m, f) {
          if m :| 0 <= m < n - 1 && ComesTo(c, h, t, m, f) {
            assert ComesTo(c, h, s, m + 1, f);
          }
          if m :| 0 <= m < n && ComesTo(c, h, s, m, f) {
            assert m > 0 ==> ComesTo(c, h, t, m - 1, f);
          }
        }
      } else {
        forall f: Fault ensures Run(c, h, s, n) == Wild(f) <==> exists m :: 0 <= m < n && ComesTo(c, h, s, m, f) {
          assert Step(c, h, s) == Wild(f) ==> ComesTo(c, h, s, 0, f);
        }
      }
    }
  }

  /** After `m` steps the run is about to go wrong. */
  ghost predicate ComesTo(c: Chunk, h: Host, s: State, m: nat, f: Fault) {
    Run(c, h, s, m).Go? && UncheckedFault(c, Run(c, h, s, m).next, f)
  }

  /** If every system-call number is known, no run uses an unknown one. */
  lemma KnownSyscallsSuffice(c: Chunk, h: Host, s: State, n: nat)
    requires |c.code| <= MAX_CODE && ValidChunk(c) && SafeState(c, s) && KnownSyscalls(c.code)
    ensures Run(c, h, s, n) != Wild(BadSyscall)
  {
    hide Run;
    ValidatedRunsAreSafe(c, h, s, n);
    if Run(c, h, s, n) == Wild(BadSyscall) {
      var m :| 0 <= m < n && ComesTo(c, h, s, m, BadSyscall);
      ValidatedRunsAreSafe(c, h, s, m);
    }
  }

  /** And this is what the validator would have to look at: accepted code is free of such steps from all
      safe states exactly then. */
  lemma UnknownSyscallExact(c: Chunk, h: Host)
    requires |c.code| <= MAX_CODE && ValidChunk(c)
    ensures (forall s: State :: SafeState(c, s) ==> Step(c, h, s) != Wild(BadSyscall)) <==> KnownSyscalls(c.code)
  {
    hide Step;
    forall s: State | SafeState(c, s) && KnownSyscalls(c.code) ensures Step(c, h, s) != Wild(BadSyscall) {
      SafeStep(c, h, s);
    }
    forall ip | 0 <= ip < |c.code| && Boundary(c.code, ip) && UnknownSyscall(c.code, ip)
      ensures exists s: State :: SafeState(c, s) && Step(c, h, s) == Wild(BadSyscall)
    {
      var s := State(ip, 0, seq(REG_WINDOW, _ => 0), [], seq(c.globalSlots, _ => 0), []);
      assert SafeState(c, s) && UncheckedFault(c, s, BadSyscall);
      SafeStep(c, h, s);
    }
  }

  lemma InitialStateIsSafe(c: Chunk, s: State)
    requires IsInitial(c, s)
    ensures SafeState(c, s)
  {
  }

  /** The unchecked SYSCALL_VOID is a real hole: this chunk is accepted, and its first step
      indexes the system-call table out of range. */
  lemma ValidationMissesVoidSyscallId(h: Host, s: State)
    requires s.HasWindow() && s.ip == 0
    ensures ValidChunk(VoidSyscallChunk())
    ensures Step(VoidSyscallChunk(), h, s) == Wild(BadSyscall)
  {
    var c := VoidSyscallChunk();
    forall ip | 0 <= ip < |c.code| && Boundary(c.code, ip) ensures BoundaryValid(c, ip) {
      assert !Meets(c.code, 2, 1);
      assert !Boundary(c.code, 1);
    }
  }

  function VoidSyscallChunk(): Chunk {
    Chunk([Word(OP_SYSCALL_VOID, 0, 0, 0), Word(SYSCALL_COUNT, 0, 0, 0)], [], 0, 0)
  }
}
