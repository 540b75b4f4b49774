/** Rule 7 of the peephole pass: a call whose result is returned at once becomes a tail call. The
    rewritten program keeps fewer activations; except that it may outlive a call-stack overflow, it
    ends as the original does. */
module TailCalls {
  import opened Words
  import opened Bytecode
  import opened Layout
  import opened Vm
  import opened JumpTargets
  import opened ContractVm
  import opened ContractSteps
  import opened DeadCode
  import JumpRules

  // ---- the rule -------------------------------------------------------------------------------------

  predicate Rule7Applies(code: seq<Word>, marks: seq<bool>, ip: nat)
    requires |marks| == |code| + 1
  {
    ip + 2 < |code| && !marks[ip + 2] &&
    ((code[ip].op == OP_CALL && code[ip + 2].op == OP_RET && code[ip + 2].a == code[ip].a) ||
     (code[ip].op == OP_CALL_VOID && code[ip + 2].op == OP_RET_VOID))
  }

  function Rule7(code: seq<Word>, ip: nat): (r: seq<Word>)
    requires ip + 2 < |code|
    ensures |r| == |code|
  {
    code[ip := code[ip].(op := OP_TAILCALL, a := 0)][ip + 2 := NOP_WORD]
  }

  /** The rule at `ip`, in place. */
  method IntroduceTailCall(code: array<Word>, count: nat, isTarget: array<bool>, ip: nat) returns (changed: bool)
    requires ip < count <= code.Length && count < isTarget.Length
    modifies code
    ensures changed == Rule7Applies(old(code[..count]), isTarget[..count + 1], ip)
    ensures code[..count] == if changed then Rule7(old(code[..count]), ip) else old(code[..count])
  {
    changed := false;
    var inst := code[ip];
    if (inst.op == OP_CALL || inst.op == OP_CALL_VOID) && ip + 2 < count && !isTarget[ip + 2] {
      var ret := code[ip + 2];
      var isTail := false;
      if inst.op == OP_CALL && ret.op == OP_RET && ret.a == inst.a {
        isTail := true;
      } else if inst.op == OP_CALL_VOID && ret.op == OP_RET_VOID {
        isTail := true;
      }
      if isTail {
        code[ip] := inst.(op := OP_TAILCALL, a := 0);
        code[ip + 2] := NOP_WORD;
        changed := true;
      }
    }
  }

  // ---- who wants a result ---------------------------------------------------------------------------

  /** Where control may be while a caller waits for a result. */
  type Wants = int -> bool

  /** Being waited for carries over from the instruction at `ip` to whatever follows it. */
  predicate WantsFlow(code: seq<Word>, wants: Wants, ip: nat)
    requires ip < |code| && ip + Slots(code[ip].op) <= |code|
  {
    var w := code[ip];
    (wants(ip) && !StopsAt(code, ip) ==> wants(ip + Slots(w.op))) &&
    (wants(ip) && IsBranch(w.op) ==> wants(ip + 1 + BranchOffset(w))) &&
    (w.op == OP_CALL || (wants(ip) && w.op == OP_TAILCALL) ==> wants(Payload(code[ip + 1])))
  }

  ghost predicate WantsClosed(code: seq<Word>, wants: Wants) {
    forall ip :: 0 <= ip < |code| && Boundary(code, ip) && ip + Slots(code[ip].op) <= |code| ==>
      WantsFlow(code, wants, ip)
  }

  /** What the rewriting needs: the rule applies, and if it drops a RET_VOID, nobody who waits for a
      result can be waiting there. */
  ghost predicate TailSite(c: Chunk, marks: seq<bool>, at: nat, wants: Wants) {
    && WellFormed(c.code) && Covers(c.code, marks) && Boundary(c.code, at) && Rule7Applies(c.code, marks, at)
    && WantsClosed(c.code, wants) && (c.code[at].op == OP_CALL_VOID ==> !wants(at + 2))
  }

  // ---- the activations the rewritten program does without -------------------------------------------

  /** The activations that do not come back to `tail`. */
  function Kept(frames: seq<Activation>, tail: int): (r: seq<Activation>)
    ensures |r| <= |frames|
  {
    if frames == [] then []
    else
      var rest := Kept(frames[..|frames| - 1], tail);
      if frames[|frames| - 1].returnIp == tail then rest else rest + [frames[|frames| - 1]]
  }

  function Fewer(s: Config, tail: int): Config { s.(frames := Kept(s.frames, tail)) }

  predicate Waits(frames: seq<Activation>) {
    frames != [] && frames[|frames| - 1].returnReg.Some?
  }

  ghost predicate FrameAt(code: seq<Word>, at: nat, wants: Wants, frames: seq<Activation>, i: nat)
    requires at < |code| && i < |frames|
  {
    var f := frames[i];
    && 0 <= f.returnIp <= |code| && Boundary(code, f.returnIp)
    && (f.returnIp == at + 2 ==> f.returnReg == ReturnRegister(code[at]))
    && (Waits(frames[..i]) ==> wants(f.returnIp))
  }

  ghost predicate Stack(code: seq<Word>, at: nat, wants: Wants, frames: seq<Activation>)
    requires at < |code|
  {
    forall i :: 0 <= i < |frames| ==> FrameAt(code, at, wants, frames, i)
  }

  /** Where a run of the original can be between two steps of the rewritten program. */
  ghost predicate Tracks(code: seq<Word>, at: nat, wants: Wants, s: Config)
    requires at < |code|
  {
    && 0 <= s.ip <= |code| && Boundary(code, s.ip) && s.ip != at + 2
    && Stack(code, at, wants, s.frames) && (Waits(s.frames) ==> wants(s.ip))
  }

  lemma StackPop(code: seq<Word>, at: nat, wants: Wants, frames: seq<Activation>)
    requires at < |code| && Stack(code, at, wants, frames) && frames != []
    ensures Stack(code, at, wants, frames[..|frames| - 1])
    ensures FrameAt(code, at, wants, frames, |frames| - 1)
  {
    var rest := frames[..|frames| - 1];
    forall i | 0 <= i < |rest| ensures FrameAt(code, at, wants, rest, i) {
      assert FrameAt(code, at, wants, frames, i) && rest[..i] == frames[..i];
    }
  }

  lemma StackPush(code: seq<Word>, at: nat, wants: Wants, frames: seq<Activation>, f: Activation)
    requires at < |code| && Stack(code, at, wants, frames)
    requires 0 <= f.returnIp <= |code| && Boundary(code, f.returnIp)
    requires f.returnIp == at + 2 ==> f.returnReg == ReturnRegister(code[at])
    requires Waits(frames) ==> wants(f.returnIp)
    ensures Stack(code, at, wants, frames + [f])
    ensures Kept(frames + [f], at + 2) == Kept(frames, at + 2) + if f.returnIp == at + 2 then [] else [f]
  {
    var more := frames + [f];
    assert more[..|more| - 1] == frames;
    forall i | 0 <= i < |more| ensures FrameAt(code, at, wants, more, i) {
      if i < |frames| {
        assert FrameAt(code, at, wants, frames, i) && more[..i] == frames[..i];
      }
    }
  }

  /** If nobody waits for the top activation, nobody waits for the top one that is kept. */
  lemma {:induction false} KeptWaits(code: seq<Word>, at: nat, wants: Wants, frames: seq<Activation>)
    requires at < |code| && Stack(code, at, wants, frames) && !Waits(frames) && !wants(at + 2)
    ensures !Waits(Kept(frames, at + 2))
    decreases |frames|
  {
    if frames != [] && frames[|frames| - 1].returnIp == at + 2 {
      StackPop(code, at, wants, frames);
      KeptWaits(code, at, wants, frames[..|frames| - 1]);
    }
  }

  // ---- returning ------------------------------------------------------------------------------------

  /** The original's result `o` and the rewritten program's `p` belong together. */
  ghost predicate Together(code: seq<Word>, at: nat, wants: Wants, o: Result, p: Result)
    requires at < |code|
  {
    match o
    case Next(s) => Tracks(code, at, wants, s) && p == Next(Fewer(s, at + 2))
    case _ => p == o
  }

  /** The value of the return instruction behind the call. */
  lemma TailReturns(c: Chunk, e: World, marks: seq<bool>, at: nat, x: Config)
    requires |marks| == |c.code| + 1 && Rule7Applies(c.code, marks, at) && x.ip == at + 2
    ensures CStep(c, e, x) == Leave(x, if c.code[at].op == OP_CALL then x.regs[c.code[at].a] else e.leftover)
  {
  }

  lemma LeaveIgnores(s: Config, t: Config, v: u64, u: u64)
    requires t.frames == s.frames && t.globals == s.globals && t.trace == s.trace
    requires u == v || !Waits(s.frames)
    ensures Leave(t, u) == Leave(s, v)
  {
  }

  function Through(c: Chunk, e: World, o: Result, n: nat): Result {
    if o.Next? then CRun(c, e, o.config, n) else o
  }

  lemma ThroughStep(c: Chunk, e: World, s: Config, n: nat)
    ensures CRun(c, e, s, n + 1) == Through(c, e, CStep(c, e, s), n)
  {
    hide CStep;
  }

  /** A return of the original goes on through the returns behind the tail calls, to where the
      rewritten program returns at once. */
  lemma {:induction false} Unwind(c: Chunk, e: World, marks: seq<bool>, at: nat, wants: Wants, s: Config, v: u64)
      returns (n: nat)
    requires TailSite(c, marks, at, wants) && Stack(c.code, at, wants, s.frames)
    ensures Together(c.code, at, wants, Through(c, e, Leave(s, v), n), Leave(Fewer(s, at + 2), v))
    decreases |s.frames|
  {
    hide CStep;
    hide Stack;
    hide Boundary;
    hide WellFormed;
    hide IsTarget;
    hide WantsClosed;
    n := 0;
    if s.frames == [] { return; }
    var rest, f := s.frames[..|s.frames| - 1], s.frames[|s.frames| - 1];
    StackPop(c.code, at, wants, s.frames);
    var x := Leave(s, v).config;
    if f.returnIp == at + 2 {
      var value := if c.code[at].op == OP_CALL then v else e.leftover;
      TailReturns(c, e, marks, at, x);
      n := Unwind(c, e, marks, at, wants, x, value);
      ThroughStep(c, e, x, n);
      if c.code[at].op == OP_CALL_VOID {
        KeptWaits(c.code, at, wants, rest);
      }
      LeaveIgnores(Fewer(s, at + 2), Fewer(x, at + 2), v, value);
      n := n + 1;
    }
  }

  // ---- one step of the rewritten program ------------------------------------------------------------

  /** The call at `at` and the return behind it are two instructions of well-formed code. */
  lemma SiteFacts(c: Chunk, marks: seq<bool>, at: nat, wants: Wants)
    requires TailSite(c, marks, at, wants)
    ensures at + 2 < |c.code| && Slots(c.code[at].op) == 2
    ensures Boundary(c.code, at) && Boundary(c.code, at + 2)
  {
    MeetsNext(c.code, 0, at);
  }

  /** What is known of the instruction at a boundary of such code. */
  lemma SiteAt(c: Chunk, marks: seq<bool>, at: nat, wants: Wants, ip: nat)
    requires TailSite(c, marks, at, wants) && Boundary(c.code, ip) && ip < |c.code|
    ensures GoodAt(c.code, ip) && WantsFlow(c.code, wants, ip) && Boundary(c.code, ip + Slots(c.code[ip].op))
  {
    MeetsNext(c.code, 0, ip);
    assert GoodAt(c.code, ip) && WantsFlow(c.code, wants, ip);
  }

  /** Elsewhere the two programs have the same instructions. */
  lemma SameElsewhere(c: Chunk, e: World, at: nat, t: Config)
    requires at + 2 < |c.code| && Boundary(c.code, at) && Boundary(c.code, at + 2)
    requires 0 <= t.ip < |c.code| && Boundary(c.code, t.ip) && t.ip != at && t.ip != at + 2
    ensures CStep(c.(code := Rule7(c.code, at)), e, t) == CStep(c, e, t)
  {
    hide CStep;
    hide Boundary;
    hide Rule7;
    hide PayloadAt;
    SameWords(c.code, at, t.ip);
    SameInstructionSteps(c, c.(code := Rule7(c.code, at)), e, t);
  }

  lemma SameWords(code: seq<Word>, at: nat, ip: nat)
    requires at + 2 < |code| && Boundary(code, at) && Boundary(code, at + 2) && Boundary(code, ip)
    requires ip < |code| && ip != at && ip != at + 2
    ensures Rule7(code, at)[ip] == code[ip]
    ensures Slots(code[ip].op) == 2 ==> PayloadAt(Rule7(code, at), ip + 1) == PayloadAt(code, ip + 1)
  {
    hide Payload;
    if ip < at { NoBoundaryInside(code, 0, ip, at); }
    if ip < at + 2 { NoBoundaryInside(code, 0, ip, at + 2); }
  }

  /** The slot behind the tail call is entered by nothing but the return to it. */
  lemma NotToTail(code: seq<Word>, marks: seq<bool>, at: nat, ip: nat, i: nat)
    requires Covers(code, marks) && Boundary(code, at) && Rule7Applies(code, marks, at)
    requires Boundary(code, ip) && ip < |code| && i <= |code|
    requires EntersAt(code, ip, i) || (ip != at && i == ip + Slots(code[ip].op))
    ensures i != at + 2
  {
    if EntersAt(code, ip, i) {
      assert IsTarget(code, i);
    } else if ip < at {
      NoBoundaryInside(code, 0, ip, at);
    } else {
      NoBoundaryInside(code, 0, at, ip);
    }
  }

  ghost predicate Overflows(o: Result) { o.Done? && o.final.status == CallStackOverflow }

  /** A call, possibly the one that is rewritten. */
  lemma CallTogether(c: Chunk, e: World, marks: seq<bool>, at: nat, wants: Wants, s: Config)
    requires TailSite(c, marks, at, wants) && Tracks(c.code, at, wants, s)
    requires s.ip < |c.code| && IsCall(c.code[s.ip].op)
    ensures var o, p := CStep(c, e, s), CStep(c.(code := Rule7(c.code, at)), e, Fewer(s, at + 2));
            Overflows(o) || Together(c.code, at, wants, o, p)
  {
    hide CStep;
    hide Boundary;
    hide WellFormed;
    hide Covers;
    hide WantsClosed;
    hide Stack;
    var d, t := c.(code := Rule7(c.code, at)), Fewer(s, at + 2);
    var w := c.code[s.ip];
    SiteFacts(c, marks, at, wants);
    SiteAt(c, marks, at, wants, s.ip);
    CallStep(c, e, s);
    if s.ip != at { SameElsewhere(c, e, at, t); }
    CallStep(if s.ip == at then d else c, e, t);
    NotToTail(c.code, marks, at, s.ip, Payload(c.code[s.ip + 1]));
    if w.b + w.c <= REG_WINDOW {
      EnterTogether(c, at, wants, s, w, Payload(c.code[s.ip + 1]));
    }
  }

  lemma SameArguments(regs: Registers, w: Word, v: Word)
    requires v.b == w.b && v.c == w.c && w.b + w.c <= REG_WINDOW
    ensures CalleeRegisters(regs, v) == CalleeRegisters(regs, w)
  {
  }

  /** Entering a function: an activation that will come back to the tail is not kept. */
  lemma EnterTogether(c: Chunk, at: nat, wants: Wants, s: Config, w: Word, target: nat)
    requires at < |c.code| && Tracks(c.code, at, wants, s) && IsCall(w.op) && w.b + w.c <= REG_WINDOW
    requires target <= |c.code| && Boundary(c.code, target) && target != at + 2
    requires w.op != OP_TAILCALL ==> s.ip + 2 <= |c.code| && Boundary(c.code, s.ip + 2)
    requires s.ip == at ==> w == c.code[at]
    requires w.op == OP_CALL || (Waits(s.frames) && w.op == OP_TAILCALL) ==> wants(target)
    requires Waits(s.frames) && w.op != OP_TAILCALL ==> wants(s.ip + 2)
    ensures var v := if s.ip == at then w.(op := OP_TAILCALL, a := 0) else w;
            Overflows(EnterCall(s, w, target)) ||
            Together(c.code, at, wants, EnterCall(s, w, target), EnterCall(Fewer(s, at + 2), v, target))
  {
    hide Boundary;
    hide Stack;
    hide Kept;
    hide CalleeRegisters;
    SameArguments(s.regs, w, if s.ip == at then w.(op := OP_TAILCALL, a := 0) else w);
    if w.op != OP_TAILCALL {
      StackPush(c.code, at, wants, s.frames, Activation(s.ip + 2, s.regs, ReturnRegister(w)));
    }
  }

  lemma PlainTogether(c: Chunk, e: World, marks: seq<bool>, at: nat, wants: Wants, s: Config)
    requires TailSite(c, marks, at, wants) && Tracks(c.code, at, wants, s) && TerminatorsStop(e.host)
    requires s.ip < |c.code| && !IsCall(c.code[s.ip].op) && !IsReturn(c.code[s.ip].op)
    ensures var o, p := CStep(c, e, s), CStep(c.(code := Rule7(c.code, at)), e, Fewer(s, at + 2));
            Together(c.code, at, wants, o, p)
  {
    hide CStep;
    hide Perform;
    hide Boundary;
    hide WellFormed;
    hide Covers;
    hide WantsClosed;
    hide Stack;
    SiteFacts(c, marks, at, wants);
    SameElsewhere(c, e, at, Fewer(s, at + 2));
    StepPerforms(c, e, s);
    StepPerforms(c, e, Fewer(s, at + 2));
    PlainStep(c, e, s, c.code[s.ip], PayloadAt(c.code, s.ip + 1), Kept(s.frames, at + 2));
    if CStep(c, e, s).Next? {
      var x := CStep(c, e, s).config;
      PlainMoves(c, e, s);
      SiteAt(c, marks, at, wants, s.ip);
      NotToTail(c.code, marks, at, s.ip, x.ip);
    }
  }

  /** One step of the rewritten program is one or more steps of the original. */
  lemma StepTogether(c: Chunk, e: World, marks: seq<bool>, at: nat, wants: Wants, s: Config) returns (n: nat)
    requires TailSite(c, marks, at, wants) && Tracks(c.code, at, wants, s) && TerminatorsStop(e.host)
    ensures n >= 1
    ensures var o, p := CRun(c, e, s, n), CStep(c.(code := Rule7(c.code, at)), e, Fewer(s, at + 2));
            Overflows(o) || Together(c.code, at, wants, o, p)
  {
    hide Perform;
    hide CStep;
    hide WellFormed;
    hide Covers;
    hide WantsClosed;
    SiteFacts(c, marks, at, wants);
    var t := Fewer(s, at + 2);
    n := 1;
    OneRun(c, e, s);
    if s.ip == |c.code| {
      OffTheEnd(c, e, marks, at, s);
    } else if IsReturn(c.code[s.ip].op) {
      SameElsewhere(c, e, at, t);
      ReturnStep(c, e, s);
      ReturnStep(c, e, t);
      n := Unwind(c, e, marks, at, wants, s, ReturnValue(c.code, e, s));
      ThroughStep(c, e, s, n);
      n := n + 1;
    } else if IsCall(c.code[s.ip].op) {
      CallTogether(c, e, marks, at, wants, s);
    } else {
      PlainTogether(c, e, marks, at, wants, s);
    }
  }

  lemma OffTheEnd(c: Chunk, e: World, marks: seq<bool>, at: nat, s: Config)
    requires at + 2 < |c.code| && s.ip == |c.code|
    ensures CStep(c, e, s) == Failed(OffEnd)
    ensures CStep(c.(code := Rule7(c.code, at)), e, Fewer(s, at + 2)) == Failed(OffEnd)
  {
  }

  // ---- whole runs -----------------------------------------------------------------------------------

  /** What the original ends with, unless its call stack overflows, the rewritten program ends with. */
  lemma {:induction false} OriginalEnds(c: Chunk, e: World, marks: seq<bool>, at: nat, wants: Wants, s: Config, n: nat)
      returns (m: nat)
    requires TailSite(c, marks, at, wants) && Tracks(c.code, at, wants, s) && TerminatorsStop(e.host)
    requires !CRun(c, e, s, n).Next? && !Overflows(CRun(c, e, s, n))
    ensures CRun(c.(code := Rule7(c.code, at)), e, Fewer(s, at + 2), m) == CRun(c, e, s, n)
    decreases n
  {
    hide CStep;
    hide Tracks;
    hide TailSite;
    SiteFacts(c, marks, at, wants);
    var d, t := c.(code := Rule7(c.code, at)), Fewer(s, at + 2);
    var k := StepTogether(c, e, marks, at, wants, s);
    var o := CRun(c, e, s, k);
    OneRun(d, e, t);
    m := 1;
    if o.Next? {
      if n <= k { CRunPrefix(c, e, s, n, k); }
      CRunCompose(c, e, s, k, n - k);
      var i := OriginalEnds(c, e, marks, at, wants, o.config, n - k);
      m := i + 1;
    } else {
      CRunStable(c, e, s, if n < k then n else k, if n < k then k else n);
    }
  }

  /** What the rewritten program ends with, the original ends with, unless its call stack overflows. */
  lemma {:induction false} RewrittenEnds(c: Chunk, e: World, marks: seq<bool>, at: nat, wants: Wants, s: Config, m: nat)
      returns (n: nat)
    requires TailSite(c, marks, at, wants) && Tracks(c.code, at, wants, s) && TerminatorsStop(e.host)
    requires !CRun(c.(code := Rule7(c.code, at)), e, Fewer(s, at + 2), m).Next?
    ensures Overflows(CRun(c, e, s, n)) ||
            CRun(c, e, s, n) == CRun(c.(code := Rule7(c.code, at)), e, Fewer(s, at + 2), m)
    decreases m
  {
    hide CStep;
    hide Tracks;
    hide TailSite;
    SiteFacts(c, marks, at, wants);
    var d, t := c.(code := Rule7(c.code, at)), Fewer(s, at + 2);
    n := StepTogether(c, e, marks, at, wants, s);
    var o := CRun(c, e, s, n);
    if o.Next? {
      var i := RewrittenEnds(c, e, marks, at, wants, o.config, m - 1);
      CRunCompose(c, e, s, n, i);
      n := n + i;
    }
  }

  ghost predicate EndsAlikeButOverflow(c: Chunk, d: Chunk, e: World, s: Config, o: Result) {
    && (CEnds(c, e, s, o) && !Overflows(o) ==> CEnds(d, e, s, o))
    && (CEnds(d, e, s, o) ==> CEnds(c, e, s, o) || CallStackRunsOut(c, e, s))
  }

  ghost predicate CallStackRunsOut(c: Chunk, e: World, s: Config) {
    exists n: nat :: Overflows(CRun(c, e, s, n))
  }

  /** The rule preserves every ending, and every divergence, of a program that does not run out of
      call stack. */
  lemma TailCallPreservesBehaviour(c: Chunk, e: World, marks: seq<bool>, at: nat, wants: Wants, s: Config)
    requires TailSite(c, marks, at, wants) && TerminatorsStop(e.host) && Starts(c, s)
    ensures forall o: Result :: EndsAlikeButOverflow(c, c.(code := Rule7(c.code, at)), e, s, o)
    ensures !CallStackRunsOut(c, e, s) ==> CSame(c, s, c.(code := Rule7(c.code, at)), s, e)
  {
    hide CStep;
    var d := c.(code := Rule7(c.code, at));
    forall o: Result ensures EndsAlikeButOverflow(c, d, e, s, o) {
      if CEnds(c, e, s, o) && !Overflows(o) {
        var n: nat :| CRun(c, e, s, n) == o;
        var m := OriginalEnds(c, e, marks, at, wants, s, n);
        assert CRun(d, e, s, m) == o;
      }
      if CEnds(d, e, s, o) {
        var m: nat :| CRun(d, e, s, m) == o;
        var n := RewrittenEnds(c, e, marks, at, wants, s, m);
        assert CRun(c, e, s, n) == o || Overflows(CRun(c, e, s, n));
      }
    }
    if !CallStackRunsOut(c, e, s) {
      forall o: Result ensures CEndsAlike(c, s, d, s, e, o) {
        assert EndsAlikeButOverflow(c, d, e, s, o);
      }
    }
  }

  // ---- the rewritten code ---------------------------------------------------------------------------

  /** The rewritten code is well formed, and the marks collected before still cover it. */
  lemma Rule7Sound(code: seq<Word>, marks: seq<bool>, at: nat)
    requires WellFormed(code) && Covers(code, marks) && Boundary(code, at) && Rule7Applies(code, marks, at)
    ensures JumpRules.Sound(code, Rule7(code, at), marks)
  {
    hide GoodAt;
    hide IsTarget;
    hide BranchOffset;
    var q := Rule7(code, at);
    MeetsNext(code, 0, at);
    forall i ensures Boundary(code, i) == Boundary(q, i) {
      SameLayout(code, q, 0, i);
    }
    JumpRules.ScansKnown(code, 0);
    SameScan(code, q, 0);
    forall i | 0 <= i < |q| && Boundary(q, i) ensures GoodAt(q, i) {
      assert GoodAt(code, i);
      RewrittenGoodAt(code, marks, at, i);
    }
    RewrittenCovers(code, marks, at);
  }

  lemma RewrittenGoodAt(code: seq<Word>, marks: seq<bool>, at: nat, i: nat)
    requires |marks| == |code| + 1 && Rule7Applies(code, marks, at) && Boundary(code, at) && Boundary(code, at + 2)
    requires JumpRules.SameBoundaries(code, Rule7(code, at)) && Boundary(code, i) && i < |code| && GoodAt(code, i)
    ensures GoodAt(Rule7(code, at), i)
  {
    hide Boundary;
    if i == at + 2 {
      NopGoodAt(Rule7(code, at), i);
    } else if i != at {
      SameWords(code, at, i);
      JumpRules.GoodSlots(code, i);
      if Slots(code[i].op) == 2 { SamePayloadWord(code, at, i); }
      CopyGoodAt(code, Rule7(code, at), i);
    }
  }

  lemma SamePayloadWord(code: seq<Word>, at: nat, ip: nat)
    requires at + 2 < |code| && Boundary(code, at) && Boundary(code, at + 2) && Boundary(code, ip)
    requires ip + 1 < |code| && Slots(code[ip].op) == 2
    ensures Rule7(code, at)[ip + 1] == code[ip + 1]
  {
    if ip < at { NoBoundaryInside(code, 0, ip, at); }
    if ip < at + 2 { NoBoundaryInside(code, 0, ip, at + 2); }
  }

  lemma RewrittenCovers(code: seq<Word>, marks: seq<bool>, at: nat)
    requires Covers(code, marks) && Rule7Applies(code, marks, at) && Boundary(code, at) && Boundary(code, at + 2)
    requires JumpRules.SameBoundaries(code, Rule7(code, at))
    ensures Covers(Rule7(code, at), marks)
  {
    hide Boundary;
    hide Rule7;
    var q := Rule7(code, at);
    forall i | 0 <= i <= |q| && IsTarget(q, i) ensures marks[i] {
      if i != 0 {
        var k :| 0 <= k < |q| && Boundary(q, k) && EntersAt(q, k, i);
        assert Boundary(code, k);
        EntersAsBefore(code, marks, at, k, i);
      }
      assert IsTarget(code, i);
    }
  }

  lemma EntersAsBefore(code: seq<Word>, marks: seq<bool>, at: nat, k: nat, i: nat)
    requires |marks| == |code| + 1 && Rule7Applies(code, marks, at) && Boundary(code, at) && Boundary(code, at + 2)
    requires k < |code| && Boundary(code, k) && EntersAt(Rule7(code, at), k, i)
    ensures EntersAt(code, k, i)
  {
    hide Boundary;
    hide BranchOffset;
    if IsCall(code[k].op) && k + 1 < |code| { SamePayloadWord(code, at, k); }
  }
}
