/** When the machine keeps what the opcode table promises of calls. The table says that a call reads
    registers B to B+C-1 and writes A. On the machine the callee's window lies over the caller's registers
    from B on, RET_VOID leaves A alone, and nothing is cleared. For code that never looks at what the table
    does not promise, both machines have the same runs. */
module TableContract {
  import opened Words
  import opened Bytecode
  import opened Layout
  import opened Vm
  import opened ContractVm
  import opened Behaviour

  // ---- the discipline -------------------------------------------------------------------------------

  /** The registers that may be looked at when control is at a slot. */
  type Facts = (int, u8) -> bool

  /** The slots from which a return must deliver a value. */
  type Wants = int -> bool

  ghost predicate Carries(facts: Facts, ip: int, next: int) { forall r: u8 :: facts(next, r) ==> facts(ip, r) }

  ghost predicate Follows(facts: Facts, wants: Wants, ip: int, next: int) {
    Carries(facts, ip, next) && (wants(ip) ==> wants(next))
  }

  /** Behind an instruction that stores in `dst`. */
  ghost predicate Stores(facts: Facts, wants: Wants, ip: int, next: int, dst: Option<u8>) {
    (forall r: u8 :: facts(next, r) && dst != Some(r) ==> facts(ip, r)) && (wants(ip) ==> wants(next))
  }

  /** A copy may be looked at if the register it is made of may. */
  ghost predicate Copies(facts: Facts, wants: Wants, ip: int, next: int, w: Word) {
    (forall r: u8 :: facts(next, r) ==> facts(ip, if r == w.a then w.b else r)) && (wants(ip) ==> wants(next))
  }

  ghost predicate Looks(facts: Facts, ip: int, w: Word) { forall r: u8 :: InstReadsReg(w, r) ==> facts(ip, r) }

  /** Behind a call only the registers below its window are left, and the result if the callee delivers
      one. */
  ghost predicate Survives(facts: Facts, ip: int, next: int, w: Word) {
    forall r: u8 :: facts(next, r) && ReturnRegister(w) != Some(r) ==> r < w.b && facts(ip, r)
  }

  /** A callee looks at its arguments only. */
  ghost predicate Passed(facts: Facts, target: int, argc: u8) { forall r: u8 :: facts(target, r) ==> r < argc }

  ghost predicate CallKeeps(facts: Facts, wants: Wants, ip: int, w: Word, target: int) {
    && w.b + w.c <= REG_WINDOW && Passed(facts, target, w.c)
    && if w.op == OP_TAILCALL then wants(ip) ==> wants(target)
       else
         && Survives(facts, ip, ip + 2, w)
         && (wants(ip) ==> wants(ip + 2))
         && (w.op == OP_CALL && facts(ip + 2, w.a) ==> wants(target))
  }

  /** The instruction at `ip` looks at nothing but these registers. */
  ghost predicate KeepsAt(code: seq<Word>, facts: Facts, wants: Wants, ip: nat)
    requires ip < |code|
  {
    var w := code[ip];
    var next := ip + Slots(w.op);
    next <= |code| &&
    if w.op == OP_NOP then Follows(facts, wants, ip, next)
    else if w.op == OP_MOVE then Copies(facts, wants, ip, next, w)
    else if IsSyscall(w.op) then
      w.b + w.c <= REG_WINDOW ==>
        Looks(facts, ip, w) &&
        (!EndsProgram(Payload(code[ip + 1])) ==> Stores(facts, wants, ip, next, ReturnRegister(w)))
    else
      Looks(facts, ip, w) &&
      if IsCompute(w.op) then Stores(facts, wants, ip, next, Some(w.a))
      else if IsBranch(w.op) then
        (w.op != OP_JUMP ==> Follows(facts, wants, ip, next)) &&
        Follows(facts, wants, ip, ip + 1 + BranchOffset(w))
      else if IsCall(w.op) then CallKeeps(facts, wants, ip, w, Payload(code[ip + 1]))
      else if w.op == OP_STORE_GLOBAL then Follows(facts, wants, ip, next)
      else w.op == OP_RET_VOID ==> !wants(ip)
  }

  ghost predicate Disciplined(code: seq<Word>, facts: Facts, wants: Wants) {
    WellFormed(code) &&
    forall ip {:trigger KeepsAt(code, facts, wants, ip)} ::
      0 <= ip < |code| && Boundary(code, ip) ==> KeepsAt(code, facts, wants, ip)
  }

  // ---- hosts that keep the purity column ------------------------------------------------------------

  /** The system calls that are not pure. */
  function Noted(trace: seq<Event>): seq<Event> {
    if trace == [] then []
    else
      var last := trace[|trace| - 1];
      Noted(trace[..|trace| - 1]) + if Traceless(last.id) then [] else [last]
  }

  predicate AnswersAlike(h: Host, e: World, trace: seq<Event>, event: Event) {
    h.reply(trace + [event]) ==
    if Traceless(event.id) then Reply(0, e.answer(event.id, Noted(trace), event.args))
    else e.host.reply(Noted(trace) + [event])
  }

  /** The answers of the host do not depend on pure calls made before, and pure calls succeed. */
  ghost predicate KeepsPurity(h: Host, e: World) {
    && h.floatOp == e.host.floatOp && h.stringBase == e.host.stringBase
    && forall trace: seq<Event>, event: Event :: AnswersAlike(h, e, trace, event)
  }

  /** Every world of the contract machine is that of some host. */
  function HostOf(e: World): Host {
    e.host.(reply := (trace: seq<Event>) =>
      if trace == [] then e.host.reply([])
      else
        var rest, last := trace[..|trace| - 1], trace[|trace| - 1];
        if Traceless(last.id) then Reply(0, e.answer(last.id, Noted(rest), last.args))
        else e.host.reply(Noted(rest) + [last]))
  }

  lemma HostOfKeepsPurity(e: World)
    ensures KeepsPurity(HostOf(e), e)
  {
    forall trace: seq<Event>, event: Event ensures AnswersAlike(HostOf(e), e, trace, event) {
      assert (trace + [event])[..|trace|] == trace;
    }
  }

  lemma NotedPush(trace: seq<Event>, event: Event)
    ensures Noted(trace + [event]) == Noted(trace) + if Traceless(event.id) then [] else [event]
  {
    assert (trace + [event])[..|trace|] == trace;
  }

  // ---- states of the two machines that belong together ----------------------------------------------

  /** The registers that may be looked at hold the same, and lie below `above`. */
  ghost predicate Holds(facts: Facts, at: int, spared: Option<u8>, stack: seq<u64>, base: int, above: int,
                        regs: Registers)
  {
    forall r: u8 :: facts(at, r) && spared != Some(r) ==>
      0 <= base + r < above && base + r < |stack| && stack[base + r] == regs[r]
  }

  /** Where the window of the activation above frame `i` begins, and where that activation goes on. */
  function Above(s: State, i: nat): int
    requires i < |s.frames|
  {
    if i + 1 < |s.frames| then s.frames[i + 1].base else s.base
  }

  function GoesOn(s: State, i: nat): int
    requires i < |s.frames|
  {
    if i + 1 < |s.frames| then s.frames[i + 1].returnIp else s.ip
  }

  ghost predicate FrameMatches(code: seq<Word>, facts: Facts, wants: Wants, s: State, t: Config, i: nat)
    requires i < |s.frames| == |t.frames|
  {
    var f, g := s.frames[i], t.frames[i];
    && g.returnIp == f.returnIp && 0 <= f.returnIp <= |code| && Boundary(code, f.returnIp)
    && g.returnReg == f.returnReg && f.base <= Above(s, i) <= s.base
    && Holds(facts, f.returnIp, f.returnReg, s.stack, f.base, Above(s, i), g.regs)
    && (f.returnReg.Some? && facts(f.returnIp, f.returnReg.value) ==> wants(GoesOn(s, i)))
  }

  ghost predicate FramesMatch(code: seq<Word>, facts: Facts, wants: Wants, s: State, t: Config) {
    && |t.frames| == |s.frames|
    && (forall i, j :: 0 <= i <= j < |s.frames| ==> s.frames[i].base <= s.frames[j].base)
    && forall i :: 0 <= i < |s.frames| ==> FrameMatches(code, facts, wants, s, t, i)
  }

  ghost predicate Matches(c: Chunk, facts: Facts, wants: Wants, s: State, t: Config) {
    && t.ip == s.ip && 0 <= s.ip <= |c.code| && Boundary(c.code, s.ip) && s.HasWindow()
    && t.globals == s.globals && t.trace == Noted(s.trace)
    && Holds(facts, s.ip, None, s.stack, s.base, |s.stack|, t.regs)
    && FramesMatch(c.code, facts, wants, s, t)
  }

  /** What is observed of the end of a run. No part of the program reads the exit code. */
  function Observed(f: Final): Final { f.(exitCode := 0, trace := Noted(f.trace)) }

  ghost predicate OutcomesMatch(c: Chunk, facts: Facts, wants: Wants, o: Outcome, p: Result) {
    match o
    case Go(s) => p.Next? && Matches(c, facts, wants, s, p.config)
    case Stop(f) => p == Done(Observed(f))
    case Wild(f) => p == Failed(f)
  }

  /** The register stack is used up: the contract machine has none. */
  predicate RunsOut(c: Chunk, s: State) {
    0 <= s.ip < |c.code| && (c.code[s.ip].op == OP_CALL || c.code[s.ip].op == OP_CALL_VOID) &&
    s.base + c.code[s.ip].b > |s.stack| - REG_WINDOW
  }

  // ---- one step -------------------------------------------------------------------------------------

  lemma FramesKept(code: seq<Word>, facts: Facts, wants: Wants, s: State, t: Config, u: State, v: Config)
    requires FramesMatch(code, facts, wants, s, t)
    requires u.frames == s.frames && u.base == s.base && |u.stack| == |s.stack| && v.frames == t.frames
    requires forall i :: 0 <= i < s.base && i < |s.stack| ==> u.stack[i] == s.stack[i]
    requires wants(s.ip) ==> wants(u.ip)
    ensures FramesMatch(code, facts, wants, u, v)
  {
    forall i | 0 <= i < |u.frames| ensures FrameMatches(code, facts, wants, u, v, i) {
      assert FrameMatches(code, facts, wants, s, t, i);
      var f := s.frames[i];
      forall r: u8 | facts(f.returnIp, r) && f.returnReg != Some(r)
        ensures u.stack[f.base + r] == s.stack[f.base + r]
      {
      }
    }
  }

  /** Control goes on with the registers as they are. */
  lemma GoesOnMatching(c: Chunk, facts: Facts, wants: Wants, s: State, t: Config, to: int, globals: seq<u64>)
    requires Matches(c, facts, wants, s, t) && Follows(facts, wants, s.ip, to)
    requires 0 <= to <= |c.code| && Boundary(c.code, to)
    ensures Matches(c, facts, wants, s.(ip := to, globals := globals), t.(ip := to, globals := globals))
  {
    FramesKept(c.code, facts, wants, s, t, s.(ip := to, globals := globals), t.(ip := to, globals := globals));
  }

  /** A register is written; `trace` may have grown. */
  lemma StoresMatching(c: Chunk, facts: Facts, wants: Wants, s: State, t: Config, to: int, dst: Option<u8>,
                       v: u64, trace: seq<Event>)
    requires Matches(c, facts, wants, s, t) && Stores(facts, wants, s.ip, to, dst)
    requires 0 <= to <= |c.code| && Boundary(c.code, to)
    ensures var u := s.(ip := to, trace := trace);
            Matches(c, facts, wants, if dst.Some? then u.SetReg(dst.value, v) else u,
                    t.(ip := to, regs := Give(t.regs, dst, v), trace := Noted(trace)))
  {
    var u0 := s.(ip := to, trace := trace);
    var u := if dst.Some? then u0.SetReg(dst.value, v) else u0;
    var t' := t.(ip := to, regs := Give(t.regs, dst, v), trace := Noted(trace));
    FramesKept(c.code, facts, wants, s, t, u, t');
    forall r: u8 | facts(to, r) ensures u.stack[u.base + r] == t'.regs[r] {
    }
  }

  lemma MoveMatching(c: Chunk, facts: Facts, wants: Wants, s: State, t: Config, w: Word)
    requires Matches(c, facts, wants, s, t) && Copies(facts, wants, s.ip, s.ip + 1, w)
    requires s.ip + 1 <= |c.code| && Boundary(c.code, s.ip + 1)
    ensures Matches(c, facts, wants, s.SetReg(w.a, s.Reg(w.b)).Goto(s.ip + 1),
                    t.(ip := t.ip + 1, regs := t.regs[w.a := t.regs[w.b]]))
  {
    var u, v := s.SetReg(w.a, s.Reg(w.b)).Goto(s.ip + 1), t.(ip := t.ip + 1, regs := t.regs[w.a := t.regs[w.b]]);
    FramesKept(c.code, facts, wants, s, t, u, v);
    forall r: u8 | facts(s.ip + 1, r) ensures u.stack[u.base + r] == v.regs[r] {
      assert facts(s.ip, if r == w.a then w.b else r);
    }
  }

  lemma CalleeRegister(regs: Registers, w: Word, r: u8)
    requires w.b + w.c <= REG_WINDOW && r < w.c
    ensures CalleeRegisters(regs, w)[r] == regs[w.b + r]
  {
    var args := Arguments(regs, w);
    assert args[r] == regs[w.b + r];
  }

  /** A call: the caller's registers that are left lie below the callee's window. */
  lemma CallMatching(c: Chunk, facts: Facts, wants: Wants, s: State, t: Config, w: Word, target: nat)
    requires Matches(c, facts, wants, s, t) && (w.op == OP_CALL || w.op == OP_CALL_VOID)
    requires CallKeeps(facts, wants, s.ip, w, target) && Looks(facts, s.ip, w)
    requires target <= |c.code| && Boundary(c.code, target) && s.ip + 2 <= |c.code| && Boundary(c.code, s.ip + 2)
    requires s.base + w.b + REG_WINDOW <= |s.stack|
    ensures var f := Frame(s.ip + 2, s.base, ReturnRegister(w));
            var g := Activation(t.ip + 2, t.regs, ReturnRegister(w));
            Matches(c, facts, wants, s.(ip := target, base := s.base + w.b, frames := s.frames + [f]),
                    t.(ip := target, regs := CalleeRegisters(t.regs, w), frames := t.frames + [g]))
  {
    var f := Frame(s.ip + 2, s.base, ReturnRegister(w));
    var g := Activation(t.ip + 2, t.regs, ReturnRegister(w));
    var u := s.(ip := target, base := s.base + w.b, frames := s.frames + [f]);
    var v := t.(ip := target, regs := CalleeRegisters(t.regs, w), frames := t.frames + [g]);
    var n := |s.frames|;
    forall i | 0 <= i < n + 1 ensures FrameMatches(c.code, facts, wants, u, v, i) {
      if i < n {
        assert FrameMatches(c.code, facts, wants, s, t, i);
        assert Above(u, i) == Above(s, i) && (GoesOn(u, i) == GoesOn(s, i) || (i == n - 1 && GoesOn(u, i) == s.ip + 2));
      }
    }
    forall i, j | 0 <= i <= j < n + 1 ensures u.frames[i].base <= u.frames[j].base {
      if i < n { assert FrameMatches(c.code, facts, wants, s, t, i); }
    }
    forall r: u8 | facts(target, r) ensures u.stack[u.base + r] == v.regs[r] {
      assert InstReadsReg(w, w.b + r);
      CalleeRegister(t.regs, w, r);
    }
  }

  lemma TailCallMatching(c: Chunk, facts: Facts, wants: Wants, s: State, t: Config, w: Word, target: nat)
    requires Matches(c, facts, wants, s, t) && w.op == OP_TAILCALL
    requires CallKeeps(facts, wants, s.ip, w, target) && Looks(facts, s.ip, w)
    requires target <= |c.code| && Boundary(c.code, target)
    ensures Matches(c, facts, wants, s.(ip := target, stack := MoveArgs(s.stack, s.base, w.b, w.c)),
                    t.(ip := target, regs := CalleeRegisters(t.regs, w)))
  {
    var u := s.(ip := target, stack := MoveArgs(s.stack, s.base, w.b, w.c));
    var v := t.(ip := target, regs := CalleeRegisters(t.regs, w));
    FramesKept(c.code, facts, wants, s, t, u, v);
    forall r: u8 | facts(target, r) ensures u.stack[u.base + r] == v.regs[r] {
      assert InstReadsReg(w, w.b + r);
      CalleeRegister(t.regs, w, r);
      assert u.stack[s.base + r] == s.stack[s.base + w.b + r];
    }
  }

  /** A return; the machine stores `v`, or nothing if nothing is returned. */
  lemma ReturnMatching(c: Chunk, facts: Facts, wants: Wants, s: State, t: Config, delivered: bool, v: u64, x: u64)
    requires Matches(c, facts, wants, s, t) && s.frames != []
    requires delivered ==> x == v
    requires !delivered ==> !wants(s.ip)
    ensures var f := s.frames[|s.frames| - 1];
            var u := s.(ip := f.returnIp, base := f.base, frames := s.frames[..|s.frames| - 1]);
            u.HasWindow() &&
            Leave(t, x).Next? &&
            Matches(c, facts, wants, if delivered && f.returnReg.Some? then u.SetReg(f.returnReg.value, v) else u,
                    Leave(t, x).config)
  {
    var n := |s.frames| - 1;
    var f, g := s.frames[n], t.frames[n];
    assert FrameMatches(c.code, facts, wants, s, t, n);
    var u0 := s.(ip := f.returnIp, base := f.base, frames := s.frames[..n]);
    var u := if delivered && f.returnReg.Some? then u0.SetReg(f.returnReg.value, v) else u0;
    var t' := Leave(t, x).config;
    forall i | 0 <= i < n ensures FrameMatches(c.code, facts, wants, u, t', i) {
      assert FrameMatches(c.code, facts, wants, s, t, i);
      assert Above(u, i) == Above(s, i) && GoesOn(u, i) == GoesOn(s, i);
      assert s.frames[i + 1].base <= s.frames[n].base;
      var k := s.frames[i];
      forall r: u8 | facts(k.returnIp, r) && k.returnReg != Some(r)
        ensures u.stack[k.base + r] == s.stack[k.base + r]
      {
      }
    }
    forall r: u8 | facts(f.returnIp, r) ensures u.stack[f.base + r] == t'.regs[r] {
    }
  }

  /** Operands that are looked at hold the same. */
  lemma OperandsMatch(c: Chunk, facts: Facts, wants: Wants, s: State, t: Config, w: Word, r: u8)
    requires Matches(c, facts, wants, s, t) && Looks(facts, s.ip, w) && InstReadsReg(w, r)
    ensures s.Reg(r) == t.regs[r]
  {
  }

  lemma SameValue(c: Chunk, facts: Facts, wants: Wants, h: Host, e: World, s: State, t: Config, w: Word)
    requires Matches(c, facts, wants, s, t) && Looks(facts, s.ip, w) && IsCompute(w.op) && KeepsPurity(h, e)
    ensures Compute(c, h, s.globals, w, s.Reg(w.b), s.Reg(w.c)) ==
            Compute(c, e.host, t.globals, w, t.regs[w.b], t.regs[w.c])
  {
    hide Matches;
    if ReadsB(w.op) { OperandsMatch(c, facts, wants, s, t, w, w.b); }
    if ReadsC(w.op) { OperandsMatch(c, facts, wants, s, t, w, w.c); }
    MatchesFields(c, facts, wants, s, t);
    ComputeReads(c, h, s.globals, w, w, s.Reg(w.b), s.Reg(w.c), t.regs[w.b], t.regs[w.c]);
    SameFloats(c, h, e.host, s.globals, w, t.regs[w.b], t.regs[w.c]);
  }

  lemma MatchesFields(c: Chunk, facts: Facts, wants: Wants, s: State, t: Config)
    requires Matches(c, facts, wants, s, t)
    ensures t.ip == s.ip && 0 <= s.ip <= |c.code| && Boundary(c.code, s.ip) && s.HasWindow()
    ensures t.globals == s.globals && t.trace == Noted(s.trace) && |t.frames| == |s.frames|
  {
  }

  lemma SameFloats(c: Chunk, h: Host, k: Host, globals: seq<u64>, w: Word, x: u64, y: u64)
    requires IsCompute(w.op) && h.floatOp == k.floatOp && h.stringBase == k.stringBase
    ensures Compute(c, h, globals, w, x, y) == Compute(c, k, globals, w, x, y)
  {
    hide ImmediateOp;
    hide GetBx;
    hide GetsBx;
    hide PowWord;
    hide Compare;
    hide DivS;
    hide DivU;
    hide RemS;
    hide RemU;
    hide SignExtend8;
    hide SignExtend16;
  }

  /** An instruction that neither calls nor returns. */
  lemma PlainMatching(c: Chunk, facts: Facts, wants: Wants, h: Host, e: World, s: State, t: Config)
    requires Disciplined(c.code, facts, wants) && Matches(c, facts, wants, s, t) && KeepsPurity(h, e)
    requires s.ip < |c.code| && Slots(c.code[s.ip].op) == 1
    requires c.code[s.ip].op != OP_RET && c.code[s.ip].op != OP_RET_VOID
    ensures OutcomesMatch(c, facts, wants, Step(c, h, s), CStep(c, e, t))
  {
    hide Compute;
    hide Taken;
    hide BranchOffset;
    hide Looks;
    hide Matches;
    hide Stores;
    hide Follows;
    hide WellFormed;
    MatchesFields(c, facts, wants, s, t);
    var w := c.code[s.ip];
    DisciplinedAt(c.code, facts, wants, s.ip);
    if w.op == OP_NOP {
      GoesOnMatching(c, facts, wants, s, t, s.ip + 1, s.globals);
    } else if w.op == OP_MOVE {
      MoveValue(c, h, s.globals, w, s.Reg(w.b), s.Reg(w.c));
      MoveValue(c, e.host, t.globals, w, t.regs[w.b], t.regs[w.c]);
      MoveMatching(c, facts, wants, s, t, w);
    } else if IsCompute(w.op) {
      SameValue(c, facts, wants, h, e, s, t, w);
      var value := Compute(c, h, s.globals, w, s.Reg(w.b), s.Reg(w.c));
      if value.Val? { StoresMatching(c, facts, wants, s, t, s.ip + 1, Some(w.a), value.v, s.trace); }
    } else if IsBranch(w.op) {
      if ReadsA(w.op) { OperandsMatch(c, facts, wants, s, t, w, w.a); }
      if ReadsB(w.op) { OperandsMatch(c, facts, wants, s, t, w, w.b); }
      TakenOperands(w, s.Reg(w.a), s.Reg(w.b), t.regs[w.a], t.regs[w.b]);
      var to := s.ip + 1 + if Taken(w, s.Reg(w.a), s.Reg(w.b)) then BranchOffset(w) else 0;
      GoesOnMatching(c, facts, wants, s, t, to, s.globals);
    } else if w.op == OP_STORE_GLOBAL {
      OperandsMatch(c, facts, wants, s, t, w, w.a);
      if GetBx(w) < |s.globals| {
        GoesOnMatching(c, facts, wants, s, t, s.ip + 1, s.globals[GetBx(w) := s.Reg(w.a)]);
      }
    }
  }

  lemma DisciplinedAt(code: seq<Word>, facts: Facts, wants: Wants, ip: nat)
    requires Disciplined(code, facts, wants) && Boundary(code, ip) && ip < |code|
    ensures KeepsAt(code, facts, wants, ip) && GoodAt(code, ip)
    ensures ip + Slots(code[ip].op) <= |code| && Boundary(code, ip + Slots(code[ip].op))
    ensures IsBranch(code[ip].op) ==>
              0 <= ip + 1 + BranchOffset(code[ip]) <= |code| && Boundary(code, ip + 1 + BranchOffset(code[ip]))
    ensures IsCall(code[ip].op) ==> Payload(code[ip + 1]) <= |code| && Boundary(code, Payload(code[ip + 1]))
  {
    MeetsNext(code, 0, ip);
    assert GoodAt(code, ip) && KeepsAt(code, facts, wants, ip);
  }

  lemma TakenOperands(w: Word, x: u64, y: u64, x': u64, y': u64)
    requires IsBranch(w.op) && (ReadsA(w.op) ==> x' == x) && (ReadsB(w.op) ==> y' == y)
    ensures Taken(w, x, y) == Taken(w, x', y') && (w.op == OP_JUMP ==> Taken(w, x, y))
  {
    hide Compare;
  }

  lemma ReturnStepMatching(c: Chunk, facts: Facts, wants: Wants, h: Host, e: World, s: State, t: Config)
    requires Disciplined(c.code, facts, wants) && Matches(c, facts, wants, s, t)
    requires s.ip < |c.code| && (c.code[s.ip].op == OP_RET || c.code[s.ip].op == OP_RET_VOID)
    ensures OutcomesMatch(c, facts, wants, Step(c, h, s), CStep(c, e, t))
  {
    hide Compute;
    hide Matches;
    hide WellFormed;
    MatchesFields(c, facts, wants, s, t);
    DisciplinedAt(c.code, facts, wants, s.ip);
    var w := c.code[s.ip];
    var delivered := w.op == OP_RET;
    if delivered { OperandsMatch(c, facts, wants, s, t, w, w.a); }
    if s.frames != [] {
      ReturnMatching(c, facts, wants, s, t, delivered, s.Reg(w.a), if delivered then t.regs[w.a] else e.leftover);
    }
  }

  lemma CallStepMatching(c: Chunk, facts: Facts, wants: Wants, h: Host, e: World, s: State, t: Config)
    requires Disciplined(c.code, facts, wants) && Matches(c, facts, wants, s, t) && !RunsOut(c, s)
    requires s.ip < |c.code| && IsCall(c.code[s.ip].op)
    ensures OutcomesMatch(c, facts, wants, Step(c, h, s), CStep(c, e, t))
  {
    hide Compute;
    hide Matches;
    hide WellFormed;
    hide Looks;
    hide CalleeRegisters;
    hide MoveArgs;
    MatchesFields(c, facts, wants, s, t);
    DisciplinedAt(c.code, facts, wants, s.ip);
    var w, target := c.code[s.ip], Payload(c.code[s.ip + 1]);
    WideStep(c, h, s);
    assert CStep(c, e, t) == EnterCall(t, w, target);
    if w.op == OP_TAILCALL {
      TailCallMatching(c, facts, wants, s, t, w, target);
    } else if |s.frames| < FRAME_CAPACITY {
      CallMatching(c, facts, wants, s, t, w, target);
    }
  }

  /** The arguments of a system call, read from the window or from the registers. */
  lemma ArgumentsMatch(c: Chunk, facts: Facts, wants: Wants, s: State, t: Config, w: Word)
    requires Matches(c, facts, wants, s, t) && Looks(facts, s.ip, w) && IsSyscall(w.op) && w.b + w.c <= REG_WINDOW
    ensures s.stack[s.base + w.b..s.base + w.b + w.c] == Arguments(t.regs, w)
  {
    forall i | 0 <= i < w.c ensures s.stack[s.base + w.b..s.base + w.b + w.c][i] == Arguments(t.regs, w)[i] {
      OperandsMatch(c, facts, wants, s, t, w, w.b + i);
    }
  }

  lemma SyscallMatching(c: Chunk, facts: Facts, wants: Wants, h: Host, e: World, s: State, t: Config)
    requires Disciplined(c.code, facts, wants) && Matches(c, facts, wants, s, t)
    requires KeepsPurity(h, e) && TerminatorsStop(e.host)
    requires s.ip < |c.code| && IsSyscall(c.code[s.ip].op)
    ensures OutcomesMatch(c, facts, wants, Step(c, h, s), CStep(c, e, t))
  {
    hide Payload;
    hide KeepsAt;
    hide Noted;
    hide Compute;
    hide Matches;
    hide WellFormed;
    hide Looks;
    hide Stores;
    hide Arguments;
    MatchesFields(c, facts, wants, s, t);
    DisciplinedAt(c.code, facts, wants, s.ip);
    var w, id := c.code[s.ip], Payload(c.code[s.ip + 1]);
    WideStep(c, h, s);
    if w.b + w.c > REG_WINDOW { return; }
    ArgumentsMatch(c, facts, wants, s, t, w);
    assert CStep(c, e, t) == SystemCall(e, t, w, id);
    if id >= SYSCALL_COUNT { return; }
    var event := Event(id, Arguments(t.regs, w));
    var trace := s.trace + [event];
    assert AnswersAlike(h, e, s.trace, event);
    NotedPush(s.trace, event);
    assert Noted(s.trace) + [] == Noted(s.trace);
    assert h.reply(trace).status == 0 && EndsProgram(id) ==> EndsInTerminator(Noted(s.trace) + [event]);
    if h.reply(trace).status == 0 {
      StoresMatching(c, facts, wants, s, t, s.ip + 2, ReturnRegister(w), h.reply(trace).ret, trace);
    }
  }

  lemma StepMatches(c: Chunk, facts: Facts, wants: Wants, h: Host, e: World, s: State, t: Config)
    requires Disciplined(c.code, facts, wants) && Matches(c, facts, wants, s, t) && !RunsOut(c, s)
    requires KeepsPurity(h, e) && TerminatorsStop(e.host)
    ensures OutcomesMatch(c, facts, wants, Step(c, h, s), CStep(c, e, t))
  {
    hide Step;
    hide CStep;
    hide Matches;
    hide Disciplined;
    hide KeepsPurity;
    hide RunsOut;
    MatchesFields(c, facts, wants, s, t);
    if s.ip == |c.code| {
      AtTheEnd(c, h, e, s, t);
    } else {
      var op := c.code[s.ip].op;
      if op == OP_RET || op == OP_RET_VOID {
        ReturnStepMatching(c, facts, wants, h, e, s, t);
      } else if IsCall(op) {
        CallStepMatching(c, facts, wants, h, e, s, t);
      } else if IsSyscall(op) {
        SyscallMatching(c, facts, wants, h, e, s, t);
      } else {
        PlainMatching(c, facts, wants, h, e, s, t);
      }
    }
  }

  lemma AtTheEnd(c: Chunk, h: Host, e: World, s: State, t: Config)
    requires s.ip == t.ip == |c.code|
    ensures Step(c, h, s) == Wild(OffEnd) && CStep(c, e, t) == Failed(OffEnd)
  {
  }

  // ---- whole runs -----------------------------------------------------------------------------------

  predicate Overflowed(o: Outcome) { o.Stop? && o.final.status == StackOverflow }

  /** As many windows as there can be activations, laid as far apart as calls can lay them. */
  const ROOM: nat := 255 * (FRAME_CAPACITY + 1) + REG_WINDOW

  /** The register stack cannot be used up by calls. */
  predicate Roomy(s: State) {
    && |s.stack| >= ROOM && s.base <= 255 * |s.frames| && |s.frames| <= FRAME_CAPACITY
    && forall i :: 0 <= i < |s.frames| ==> s.frames[i].base <= 255 * i
  }

  lemma RoomyStays(c: Chunk, h: Host, s: State)
    requires Roomy(s)
    ensures !RunsOut(c, s) && (Step(c, h, s).Go? ==> Roomy(Step(c, h, s).next))
  {
    hide Compute;
    hide Compare;
  }

  lemma RunsOutOverflows(c: Chunk, h: Host, s: State)
    requires RunsOut(c, s) && s.HasWindow() && s.ip + 1 < |c.code|
    ensures Overflowed(Step(c, h, s))
  {
  }

  /** Both machines take the same steps, up to a stack overflow. */
  lemma {:induction false} Lockstep(c: Chunk, facts: Facts, wants: Wants, h: Host, e: World, s: State, t: Config,
                                    n: nat)
    requires Disciplined(c.code, facts, wants) && Matches(c, facts, wants, s, t)
    requires KeepsPurity(h, e) && TerminatorsStop(e.host)
    ensures OutcomesMatch(c, facts, wants, Run(c, h, s, n), CRun(c, e, t, n)) ||
            (Overflowed(Run(c, h, s, n)) && !Roomy(s))
    decreases n
  {
    hide Step;
    hide CStep;
    hide Disciplined;
    hide Matches;
    hide KeepsPurity;
    hide RunsOut;
    hide Roomy;
    if n > 0 {
      if Roomy(s) { RoomyStays(c, h, s); }
      if RunsOut(c, s) {
        Exhausted(c, facts, wants, h, s, t);
      } else {
        StepMatches(c, facts, wants, h, e, s, t);
        if Step(c, h, s).Go? {
          Lockstep(c, facts, wants, h, e, Step(c, h, s).next, CStep(c, e, t).config, n - 1);
        }
      }
    }
  }

  lemma Exhausted(c: Chunk, facts: Facts, wants: Wants, h: Host, s: State, t: Config)
    requires Disciplined(c.code, facts, wants) && Matches(c, facts, wants, s, t) && RunsOut(c, s)
    ensures Overflowed(Step(c, h, s))
  {
    DisciplinedAt(c.code, facts, wants, s.ip);
    RunsOutOverflows(c, h, s);
  }

  /** The configuration that belongs to the first state of a program. */
  function FirstConfig(s: State): Config
    requires s.HasWindow() && s.base == 0
  {
    Config(0, s.stack[..REG_WINDOW], [], s.globals, [])
  }

  lemma FirstMatches(c: Chunk, facts: Facts, wants: Wants, s: State)
    requires IsInitial(c, s)
    ensures Matches(c, facts, wants, s, FirstConfig(s)) && Starts(c, FirstConfig(s))
    ensures |s.stack| >= ROOM ==> Roomy(s)
  {
  }

  predicate SameObserved(o: Outcome, p: Outcome) {
    match o
    case Go(_) => false
    case Stop(f) => p.Stop? && Observed(p.final) == Observed(f)
    case Wild(f) => p == Wild(f)
  }

  /** The program ends like this, too, unless its register stack is small and overflows. */
  ghost predicate Explained(d: Chunk, h: Host, s: State, o: Outcome) {
    exists p: Outcome :: Ends(d, h, s, p) && (SameObserved(o, p) || (Overflowed(p) && !Roomy(s)))
  }

  ghost predicate EndsExplained(c: Chunk, d: Chunk, h: Host, s: State, o: Outcome) {
    Ends(c, h, s, o) && (Overflowed(o) ==> Roomy(s)) ==> Explained(d, h, s, o)
  }

  /** On the machine itself the two programs cannot be told apart by what is observed of them, overflows of
      a small register stack apart. */
  ghost predicate Unnoticed(c: Chunk, d: Chunk, h: Host, s: State) {
    forall o: Outcome :: EndsExplained(c, d, h, s, o) && EndsExplained(d, c, h, s, o)
  }

  lemma OneWay(c: Chunk, d: Chunk, facts: Facts, wants: Wants, dFacts: Facts, dWants: Wants, h: Host, e: World,
               s: State, o: Outcome)
    requires Disciplined(c.code, facts, wants) && Disciplined(d.code, dFacts, dWants)
    requires IsInitial(c, s) && IsInitial(d, s) && KeepsPurity(h, e) && TerminatorsStop(e.host)
    requires CSame(c, FirstConfig(s), d, FirstConfig(s), e) || CSame(d, FirstConfig(s), c, FirstConfig(s), e)
    ensures EndsExplained(c, d, h, s, o)
  {
    hide Disciplined;
    hide KeepsPurity;
    hide Roomy;
    hide Matches;
    var t := FirstConfig(s);
    FirstMatches(c, facts, wants, s);
    FirstMatches(d, dFacts, dWants, s);
    if Ends(c, h, s, o) && (Overflowed(o) ==> Roomy(s)) {
      var n: nat :| Run(c, h, s, n) == o;
      Lockstep(c, facts, wants, h, e, s, t, n);
      var p := CRun(c, e, t, n);
      assert CEnds(c, e, t, p);
      assert CEndsAlike(c, t, d, t, e, p) || CEndsAlike(d, t, c, t, e, p);
      var m: nat :| CRun(d, e, t, m) == p;
      Lockstep(d, dFacts, dWants, h, e, s, t, m);
      assert Ends(d, h, s, Run(d, h, s, m));
    }
  }

  /** What cannot be noticed on the contract machine cannot be noticed on the machine itself, if both
      programs keep the discipline. */
  lemma MachineFollows(c: Chunk, d: Chunk, facts: Facts, wants: Wants, dFacts: Facts, dWants: Wants, h: Host,
                       e: World, s: State)
    requires Disciplined(c.code, facts, wants) && Disciplined(d.code, dFacts, dWants)
    requires IsInitial(c, s) && IsInitial(d, s) && KeepsPurity(h, e) && TerminatorsStop(e.host)
    requires CSame(c, FirstConfig(s), d, FirstConfig(s), e)
    ensures Unnoticed(c, d, h, s)
  {
    hide Disciplined;
    hide KeepsPurity;
    hide EndsExplained;
    hide CSame;
    forall o: Outcome ensures EndsExplained(c, d, h, s, o) && EndsExplained(d, c, h, s, o) {
      OneWay(c, d, facts, wants, dFacts, dWants, h, e, s, o);
      OneWay(d, c, dFacts, dWants, facts, wants, h, e, s, o);
    }
  }

  // ---- what RET_VOID hands over ---------------------------------------------------------------------

  /** Exactly when the two machines agree on the destination of a call after a return: if a value is
      returned, or if the machine happens to find there what the table leaves open. */
  lemma ReturnsAgree(c: Chunk, h: Host, e: World, s: State, t: Config, a: u8)
    requires 0 <= s.ip < |c.code| && t.ip == s.ip && s.HasWindow() && s.frames != [] && t.frames != []
    requires c.code[s.ip].op == OP_RET || c.code[s.ip].op == OP_RET_VOID
    requires c.code[s.ip].op == OP_RET ==> s.Reg(c.code[s.ip].a) == t.regs[c.code[s.ip].a]
    requires s.frames[|s.frames| - 1].returnReg == t.frames[|t.frames| - 1].returnReg == Some(a)
    requires s.frames[|s.frames| - 1].base + REG_WINDOW <= |s.stack|
    ensures Step(c, h, s).Go? && Step(c, h, s).next.HasWindow() && CStep(c, e, t).Next?
    ensures Step(c, h, s).next.Reg(a) == CStep(c, e, t).config.regs[a] <==>
            (c.code[s.ip].op == OP_RET || s.stack[s.frames[|s.frames| - 1].base + a] == e.leftover)
  {
    hide Compute;
  }

  ghost predicate EndsWithAny(c: Chunk, e: World, v: u64, t: Config, o: Result) {
    CEnds(c, e, t, o) <==> CEnds(c, e.(leftover := v), t, o)
  }

  /** Disciplined code never uses what RET_VOID hands over: whatever it is, the runs end alike. */
  lemma LeftoverUnnoticed(c: Chunk, facts: Facts, wants: Wants, e: World, v: u64, t: Config, o: Result)
    requires Disciplined(c.code, facts, wants) && TerminatorsStop(e.host)
    requires Starts(c, t) && t.trace == []
    ensures EndsWithAny(c, e, v, t, o)
  {
    hide Disciplined;
    hide Matches;
    var s := State(0, 0, t.regs + seq(ROOM, _ => 0), [], t.globals, []);
    assert s.stack[..REG_WINDOW] == t.regs;
    assert IsInitial(c, s) && FirstConfig(s) == t;
    FirstMatches(c, facts, wants, s);
    HostOfKeepsPurity(e);
    assert KeepsPurity(HostOf(e), e.(leftover := v)) by {
      forall trace: seq<Event>, event: Event
        ensures AnswersAlike(HostOf(e), e.(leftover := v), trace, event)
      {
        assert AnswersAlike(HostOf(e), e, trace, event);
      }
    }
    hide HostOf;
    hide KeepsPurity;
    hide Roomy;
    if CEnds(c, e, t, o) {
      var n: nat :| CRun(c, e, t, n) == o;
      Lockstep(c, facts, wants, HostOf(e), e, s, t, n);
      Lockstep(c, facts, wants, HostOf(e), e.(leftover := v), s, t, n);
    }
    if CEnds(c, e.(leftover := v), t, o) {
      var n: nat :| CRun(c, e.(leftover := v), t, n) == o;
      Lockstep(c, facts, wants, HostOf(e), e, s, t, n);
      Lockstep(c, facts, wants, HostOf(e), e.(leftover := v), s, t, n);
    }
  }
}
