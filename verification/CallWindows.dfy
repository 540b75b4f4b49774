/** Overlapping register windows: what a call leaves untouched in its caller, over every run
    of the VM from the CALL to its matching return. */
module CallWindows {
  import opened Words
  import opened Bytecode
  import opened Vm

  /** The first stack cell that belongs to the callee of the call `w` made in state `s`. */
  function WindowStart(s: State, w: Word): nat { s.base + w.b }

  /** `t` is inside the callee (or deeper): the caller's frames and the frame pushed for it are
      intact, every window in use starts at or above the callee's, and the caller's cells below
      the callee's window hold what they held at the call. */
  ghost predicate InsideCall(s: State, w: Word, t: State) {
    var d := |s.frames|;
    && |t.frames| > d
    && t.frames[..d] == s.frames
    && t.frames[d] == Frame(s.ip + 2, s.base, if w.op == OP_CALL then Some(w.a) else None)
    && t.base >= WindowStart(s, w)
    && (forall k :: d < k < |t.frames| ==> t.frames[k].base >= WindowStart(s, w))
    && |t.stack| == |s.stack|
    && (forall i :: 0 <= i < WindowStart(s, w) && i < |s.stack| ==> t.stack[i] == s.stack[i])
  }

  /** `t` is back in the caller: ip, window and frames as after a two-slot instruction, and below
      the callee's window only the destination register of a CALL may differ. */
  ghost predicate BackInCaller(s: State, w: Word, t: State) {
    && t.ip == s.ip + 2
    && t.base == s.base
    && t.frames == s.frames
    && |t.stack| == |s.stack|
    && (forall i :: 0 <= i < WindowStart(s, w) && i < |s.stack| ==>
          t.stack[i] == s.stack[i] || (w.op == OP_CALL && i == s.base + w.a))
  }

  predicate AtCall(c: Chunk, s: State, w: Word) {
    0 <= s.ip < |c.code| && s.HasWindow() && c.code[s.ip] == w &&
    (w.op == OP_CALL || w.op == OP_CALL_VOID)
  }

  lemma CallEnters(c: Chunk, h: Host, s: State, w: Word)
    requires AtCall(c, s, w) && Step(c, h, s).Go?
    ensures InsideCall(s, w, Step(c, h, s).next)
  {
  }

  /** One step inside a callee either stays inside or is the matching return. */
  lemma StepInsideCall(c: Chunk, h: Host, s: State, w: Word, t: State)
    requires s.HasWindow() && InsideCall(s, w, t) && Step(c, h, t).Go?
    ensures var u := Step(c, h, t).next;
            if |u.frames| > |s.frames| then InsideCall(s, w, u) else BackInCaller(s, w, u)
    ensures |Step(c, h, t).next.frames| >= |s.frames|
    ensures |Step(c, h, t).next.frames| == |s.frames| ==> ReturnDelivers(c, s, w, t, Step(c, h, t).next)
  {
    var u := Step(c, h, t).next;
    var v := c.code[t.ip];
    if v.op == OP_RET || v.op == OP_RET_VOID {
      var frame := t.frames[|t.frames| - 1];
      assert u.frames == t.frames[..|t.frames| - 1];
      if |u.frames| > |s.frames| {
        assert u.frames[..|s.frames|] == t.frames[..|s.frames|];
      } else {
        assert u.frames == s.frames;
      }
    } else {
      assert u.frames == t.frames || u.frames == t.frames + [u.frames[|u.frames| - 1]];
    }
  }

  /** The value delivered: RET stores its register in the destination of a CALL; a CALL_VOID or a
      RET_VOID stores nothing. */
  ghost predicate ReturnDelivers(c: Chunk, s: State, w: Word, t: State, u: State) {
    && s.HasWindow() && t.HasWindow() && |u.stack| == |s.stack| == |t.stack|
    && 0 <= t.ip < |c.code|
    && (c.code[t.ip].op == OP_RET || c.code[t.ip].op == OP_RET_VOID)
    && u.stack == (if w.op == OP_CALL && c.code[t.ip].op == OP_RET
                   then t.stack[s.base + w.a := t.Reg(c.code[t.ip].a)] else t.stack)
    && u.globals == t.globals && u.trace == t.trace
  }

  /** The run from `s` has made `n` steps and the call made at `s` has not returned. */
  ghost predicate StillInside(c: Chunk, h: Host, s: State, n: nat) {
    forall k :: 1 <= k <= n ==> Run(c, h, s, k).Go? && |Run(c, h, s, k).next.frames| > |s.frames|
  }

  lemma {:induction false} InsideThroughout(c: Chunk, h: Host, s: State, w: Word, n: nat)
    requires AtCall(c, s, w) && n >= 1 && StillInside(c, h, s, n)
    ensures InsideCall(s, w, Run(c, h, s, n).next)
  {
    assert Run(c, h, s, 1) == Step(c, h, s) by {
      assert Run(c, h, s, 1).Go?;
    }
    if n == 1 {
      CallEnters(c, h, s, w);
    } else {
      assert Run(c, h, s, n - 1).Go?;
      InsideThroughout(c, h, s, w, n - 1);
      LastStep(c, h, s, n - 1);
      assert Run(c, h, s, n).Go? && |Run(c, h, s, n).next.frames| > |s.frames|;
      StepInsideCall(c, h, s, w, Run(c, h, s, n - 1).next);
    }
  }

  lemma LastStep(c: Chunk, h: Host, s: State, n: nat)
    requires Run(c, h, s, n).Go?
    ensures Run(c, h, s, n + 1) == Step(c, h, Run(c, h, s, n).next)
  {
    RunCompose(c, h, s, n, 1);
  }

  /** From a call to its matching return, whatever happens in between (nested calls, tail calls,
      system calls), the caller resumes behind the call with its own window and frames; every
      register below the callee's window keeps its value except the destination of a CALL, which
      receives the returned register. */
  lemma CallReturnsToCaller(c: Chunk, h: Host, s: State, w: Word, n: nat)
    requires AtCall(c, s, w) && n >= 1 && StillInside(c, h, s, n)
    requires Run(c, h, s, n + 1).Go? && |Run(c, h, s, n + 1).next.frames| <= |s.frames|
    ensures BackInCaller(s, w, Run(c, h, s, n + 1).next)
    ensures ReturnDelivers(c, s, w, Run(c, h, s, n).next, Run(c, h, s, n + 1).next)
  {
    InsideThroughout(c, h, s, w, n);
    assert Run(c, h, s, n).Go?;
    LastStep(c, h, s, n);
    StepInsideCall(c, h, s, w, Run(c, h, s, n).next);
  }

  /** A window allocated above every live register loses none of them to the call. */
  lemma LiveRegistersSurviveCall(c: Chunk, h: Host, s: State, w: Word, n: nat, live: set<u8>)
    requires AtCall(c, s, w) && n >= 1 && StillInside(c, h, s, n)
    requires Run(c, h, s, n + 1).Go? && |Run(c, h, s, n + 1).next.frames| <= |s.frames|
    requires forall r :: r in live ==> r < w.b
    ensures var t := Run(c, h, s, n + 1).next;
            && t.HasWindow() && t.ip == s.ip + 2
            && (forall r :: r in live && (w.op == OP_CALL ==> r != w.a) ==> t.Reg(r) == s.Reg(r))
  {
    CallReturnsToCaller(c, h, s, w, n);
  }
}
