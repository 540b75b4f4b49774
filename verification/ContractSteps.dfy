/** One step of the contract machine, kind by kind: what an instruction does to control and to the
    activations below. */
module ContractSteps {
  import opened Words
  import opened Bytecode
  import opened Vm
  import opened ContractVm
  import opened DeadCode

  predicate IsReturn(op: u8) { op == OP_RET || op == OP_RET_VOID }

  /** Instructions that neither call nor return treat the activations below as they find them. */
  lemma PlainStep(c: Chunk, e: World, s: Config, w: Word, payload: Option<u32>, frames: seq<Activation>)
    requires !IsReturn(w.op) && !IsCall(w.op)
    ensures Perform(c, e, s.(frames := frames), w, payload) ==
            match Perform(c, e, s, w, payload) { case Next(u) => Next(u.(frames := frames)) case o => o }
    ensures Perform(c, e, s, w, payload).Next? ==> Perform(c, e, s, w, payload).config.frames == s.frames
  {
    hide BinaryOp;
    hide ImmediateOp;
    hide UnaryOp;
    hide Taken;
    hide BranchOffset;
  }

  /** They go on to the next instruction, or branch. */
  lemma PlainMoves(c: Chunk, e: World, s: Config)
    requires TerminatorsStop(e.host) && 0 <= s.ip < |c.code| && CStep(c, e, s).Next?
    requires !IsReturn(c.code[s.ip].op) && !IsCall(c.code[s.ip].op)
    ensures var w, ip := c.code[s.ip], CStep(c, e, s).config.ip;
            (IsBranch(w.op) && ip == s.ip + 1 + BranchOffset(w)) ||
            (!StopsAt(c.code, s.ip) && ip == s.ip + Slots(w.op))
  {
    hide BinaryOp;
    hide ImmediateOp;
    hide UnaryOp;
    hide BranchOffset;
    var w := c.code[s.ip];
    if IsSyscall(w.op) && EndsProgram(Payload(c.code[s.ip + 1])) {
      var trace := s.trace + [Event(Payload(c.code[s.ip + 1]), Arguments(s.regs, w))];
      assert EndsInTerminator(trace);
    }
  }

  lemma PerformChunk(c: Chunk, d: Chunk, e: World, t: Config, w: Word, payload: Option<u32>)
    requires d == c.(code := d.code)
    ensures Perform(d, e, t, w, payload) == Perform(c, e, t, w, payload)
  {
    hide BinaryOp;
    hide ImmediateOp;
    hide UnaryOp;
    hide Taken;
    hide BranchOffset;
    hide Leave;
  }

  lemma StepPerforms(c: Chunk, e: World, s: Config)
    requires 0 <= s.ip < |c.code|
    ensures CStep(c, e, s) == Perform(c, e, s, c.code[s.ip], PayloadAt(c.code, s.ip + 1))
  {
    hide Perform;
  }

  /** Only the instruction and its payload matter. */
  lemma SameInstructionSteps(c: Chunk, d: Chunk, e: World, t: Config)
    requires d == c.(code := d.code) && |d.code| == |c.code| && 0 <= t.ip < |c.code|
    requires d.code[t.ip] == c.code[t.ip]
    requires Slots(c.code[t.ip].op) == 2 ==> PayloadAt(d.code, t.ip + 1) == PayloadAt(c.code, t.ip + 1)
    ensures CStep(d, e, t) == CStep(c, e, t)
  {
    hide CStep;
    hide Perform;
    hide PayloadAt;
    hide Slots;
    var w, p, q := c.code[t.ip], PayloadAt(c.code, t.ip + 1), PayloadAt(d.code, t.ip + 1);
    StepPerforms(c, e, t);
    StepPerforms(d, e, t);
    PerformChunk(c, d, e, t, w, q);
    if Slots(w.op) == 1 {
      PayloadUnused(c, e, t, w, p);
      PayloadUnused(c, e, t, w, q);
    }
  }

  lemma CallStep(c: Chunk, e: World, s: Config)
    requires 0 <= s.ip && s.ip + 1 < |c.code| && IsCall(c.code[s.ip].op)
    ensures var w := c.code[s.ip];
            CStep(c, e, s) == if w.b + w.c > REG_WINDOW then StopWith(s, StackOverflow)
                              else EnterCall(s, w, Payload(c.code[s.ip + 1]))
  {
  }

  function ReturnValue(code: seq<Word>, e: World, s: Config): u64
    requires 0 <= s.ip < |code|
  {
    if code[s.ip].op == OP_RET then s.regs[code[s.ip].a] else e.leftover
  }

  lemma ReturnStep(c: Chunk, e: World, s: Config)
    requires 0 <= s.ip < |c.code| && IsReturn(c.code[s.ip].op)
    ensures CStep(c, e, s) == Leave(s, ReturnValue(c.code, e, s))
  {
  }

  lemma CRunPrefix(c: Chunk, e: World, s: Config, m: nat, n: nat)
    requires m <= n && CRun(c, e, s, n).Next?
    ensures CRun(c, e, s, m).Next?
  {
    hide CStep;
    if !CRun(c, e, s, m).Next? { CRunStable(c, e, s, m, n); }
  }
}
