/** `AcuOpt_IsRegDeadAfter`: when it says yes, the register's value cannot be observed. */
module DeadRegisters {
  import opened Words
  import opened Bytecode
  import opened Layout
  import opened Vm
  import opened ContractVm
  import opened DeadCode

  predicate IsFunctionExit(op: u8) {
    op == OP_RET || op == OP_RET_VOID || op == OP_HALT || op == OP_TAILCALL
  }

  /** The forward scan from `ip`: `reg` is overwritten, or the activation ends, before any use and
      before any place where control may part or meet. */
  predicate DeadAfter(code: seq<Word>, marks: seq<bool>, ip: nat, reg: u8)
    requires |marks| == |code| + 1
    decreases |code| - ip
  {
    if ip >= |code| then true
    else
      var w := code[ip];
      !marks[ip] &&
      if w.op == OP_NOP then DeadAfter(code, marks, ip + 1, reg)
      else if InstReadsReg(w, reg) then false
      else if (WritesA(w.op) && w.a == reg) || IsFunctionExit(w.op) || ExitsAt(code, ip) then true
      else if IsTerminator(w.op) || IsCondBranch(w.op) then false
      else DeadAfter(code, marks, ip + Slots(w.op), reg)
  }

  method IsRegDeadAfter(code: array<Word>, count: nat, fromIp: nat, reg: u8, isTarget: array<bool>)
      returns (dead: bool)
    requires count <= code.Length && count < isTarget.Length
    ensures dead == DeadAfter(code[..count], isTarget[..count + 1], fromIp, reg)
  {
    if fromIp >= count { return true; }
    ghost var was, marks := code[..count], isTarget[..count + 1];
    var ip := fromIp;
    while ip < count
      invariant DeadAfter(was, marks, fromIp, reg) == DeadAfter(was, marks, ip, reg)
      decreases count - ip
    {
      assert isTarget[ip] == marks[ip] && code[ip] == was[ip];
      if isTarget[ip] { return false; }
      var inst := code[ip];
      if inst.op == OP_NOP {
        ip := ip + 1;
        continue;
      }
      if InstReadsReg(inst, reg) { return false; }
      if WritesA(inst.op) && inst.a == reg { return true; }
      if IsFunctionExit(inst.op) { return true; }
      if IsSyscall(inst.op) {
        assert ip + 1 < count ==> code[ip + 1] == was[ip + 1];
        if ip + 1 < count && EndsProgram(Payload(code[ip + 1])) { return true; }
      }
      if IsTerminator(inst.op) || IsCondBranch(inst.op) { return false; }
      ip := ip + Slots(inst.op);
    }
    return true;
  }

  // ---- linkages that keep registers where they are --------------------------------------------------

  /** At `ip` only equal registers are linked. */
  ghost predicate Diagonal(k: Linkage, ip: int) {
    forall l: u8, r: u8 :: k(ip, l, r) ==> l == r
  }

  ghost predicate UsesLinked(k: Linkage, ip: int, w: Word) {
    forall r: u8 :: InstReadsReg(w, r) ==> k(ip, r, r)
  }

  /** Every register linked at `next` and not written by `w` is already linked at `ip`. */
  ghost predicate FlowLinked(k: Linkage, ip: int, next: int, w: Word) {
    forall r: u8 :: k(next, r, r) && !(WritesA(w.op) && w.a == r) ==> k(ip, r, r)
  }

  /** Control may fall through the instruction at `ip`. */
  predicate FallsThrough(code: seq<Word>, ip: nat)
    requires ip < |code|
  {
    !StopsAt(code, ip)
  }

  /** An instruction left as it is, under a linkage that obeys the liveness equations there. */
  lemma SamePair(c: Chunk, d: Chunk, k: Linkage, ip: nat)
    requires ip < |c.code| == |d.code| && ip + Slots(c.code[ip].op) <= |c.code|
    requires d.code[ip] == c.code[ip] && c.code[ip].op < ACU_OPCODE_COUNT
    requires Slots(c.code[ip].op) == 2 ==> d.code[ip + 1] == c.code[ip + 1]
    requires UsesLinked(k, ip, c.code[ip])
    requires var next := ip + Slots(c.code[ip].op);
             FallsThrough(c.code, ip) ==> Diagonal(k, next) && FlowLinked(k, ip, next, c.code[ip])
    requires IsBranch(c.code[ip].op) ==>
               var target := ip + 1 + BranchOffset(c.code[ip]);
               Diagonal(k, target) && FlowLinked(k, ip, target, c.code[ip])
    requires IsCall(c.code[ip].op) ==> Diagonal(k, Payload(c.code[ip + 1]))
    ensures PairAt(c, d, k, ip)
  {
    var w := c.code[ip];
    if Slots(w.op) == 2 && w.b + w.c <= REG_WINDOW {
      forall i | 0 <= i < w.c ensures ArgumentLinked(k, ip, w, w, i) {
        assert InstReadsReg(w, w.b + i);
      }
    } else if Slots(w.op) == 1 {
      ReadsItsOperands(w);
    }
  }

  /** An unchanged instruction that fits a linkage in its own code fits it next to any other change. */
  lemma PairKept(c: Chunk, d: Chunk, k: Linkage, i: nat)
    requires |d.code| == |c.code| && i < |c.code| && PairAt(c, c, k, i)
    requires d.code[i] == c.code[i] && (Slots(c.code[i].op) == 2 ==> d.code[i + 1] == c.code[i + 1])
    ensures PairAt(c, d, k, i)
  {
  }

  lemma ReadsItsOperands(w: Word)
    requires Slots(w.op) == 1
    ensures ReadsA(w.op) ==> InstReadsReg(w, w.a)
    ensures ReadsB(w.op) ==> InstReadsReg(w, w.b)
    ensures ReadsC(w.op) ==> InstReadsReg(w, w.c)
  {
  }

  // ---- a dead register is unobservable --------------------------------------------------------------

  /** Everything is linked to itself, except `reg` where the scan finds it dead. */
  function DeadLink(code: seq<Word>, marks: seq<bool>, reg: u8): Linkage
    requires |marks| == |code| + 1
  {
    (ip: int, l: u8, r: u8) => l == r && (r != reg || ip < 0 || !DeadAfter(code, marks, ip, reg))
  }

  lemma DeadLinkPair(c: Chunk, marks: seq<bool>, reg: u8, ip: nat)
    requires |marks| == |c.code| + 1 && WellFormed(c.code) && Boundary(c.code, ip) && ip < |c.code|
    ensures PairAt(c, c, DeadLink(c.code, marks, reg), ip)
  {
    assert GoodAt(c.code, ip);
    ScansAt(c.code, 0, ip);
    var k, w := DeadLink(c.code, marks, reg), c.code[ip];
    var next := ip + Slots(w.op);
    if IsBranch(w.op) {
      var target := ip + 1 + BranchOffset(w);
      assert FlowLinked(k, ip, target, w);
    }
    assert UsesLinked(k, ip, w);
    assert FallsThrough(c.code, ip) ==> FlowLinked(k, ip, next, w);
    SamePair(c, c, k, ip);
  }

  /** A configuration whose control is, and will return, at instruction boundaries. */
  ghost predicate Placed(c: Chunk, s: Config) {
    && 0 <= s.ip <= |c.code| && Boundary(c.code, s.ip) && |s.globals| == c.globalSlots
    && forall i :: 0 <= i < |s.frames| ==>
         0 <= s.frames[i].returnIp <= |c.code| && Boundary(c.code, s.frames[i].returnIp)
  }

  /** Two configurations that differ in a dead register only have the same future. */
  lemma DeadRegisterIsUnobservable(c: Chunk, e: World, marks: seq<bool>, s: Config, reg: u8, v: u64)
    requires WellFormed(c.code) && TerminatorsStop(e.host) && |marks| == |c.code| + 1 && Placed(c, s)
    requires DeadAfter(c.code, marks, s.ip, reg)
    ensures CSame(c, s, c, s.(regs := s.regs[reg := v]), e)
  {
    var k := DeadLink(c.code, marks, reg);
    forall ip | 0 <= ip < |c.code| && Boundary(c.code, ip) ensures PairAt(c, c, k, ip) {
      DeadLinkPair(c, marks, reg, ip);
    }
    forall i | 0 <= i < |s.frames| ensures FrameLinked(c.code, k, s.frames[i], s.frames[i]) {
    }
    CompatibleCodeBehavesAlike(c, c, e, k, s, s.(regs := s.regs[reg := v]));
  }
}
