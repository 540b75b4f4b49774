/** `AcuChunk_Optimize` with the passes that are proved against the VM itself: target marks, dead
    code, the jump rules and NOP stripping, repeated until nothing changes. */
module Optimizer {
  import opened Words
  import opened Bytecode
  import opened Layout
  import opened Vm
  import opened Behaviour
  import opened JumpTargets
  import DeadCode
  import JumpRules
  import Relocate
  import StripNops

  const MAX_ITERATIONS: nat := 32

  ghost predicate PreservesRun(c: Chunk, q: seq<Word>, h: Host, s: State) {
    SameBehaviour(c, s, c.(code := q), s, h)
  }

  /** Whatever chunk the code belongs to and whatever world it runs in (as long as exit and panic do
      not return), replacing `p` by `q` cannot be noticed. */
  ghost predicate Preserves(p: seq<Word>, q: seq<Word>) {
    forall c: Chunk, h: Host, s: State ::
      c.code == p && IsInitial(c, s) && TerminatorsStop(h) ==> PreservesRun(c, q, h, s)
  }

  lemma PreservesRefl(p: seq<Word>)
    ensures Preserves(p, p)
  {
    forall c: Chunk, h: Host, s: State | c.code == p ensures PreservesRun(c, p, h, s) {
      SameBehaviourRefl(c, s, h);
    }
  }

  lemma PreservesTrans(p: seq<Word>, q: seq<Word>, r: seq<Word>)
    requires Preserves(p, q) && Preserves(q, r)
    ensures Preserves(p, r)
  {
    forall c: Chunk, h: Host, s: State |
      c.code == p && IsInitial(c, s) && TerminatorsStop(h)
      ensures PreservesRun(c, r, h, s)
    {
      var d := c.(code := q);
      assert PreservesRun(c, q, h, s) && PreservesRun(d, r, h, s);
      SameBehaviourTrans(c, s, d, s, c.(code := r), s, h);
    }
  }

  lemma PrunedPreserves(p: seq<Word>, marks: seq<bool>)
    requires WellFormed(p) && Covers(p, marks)
    ensures Preserves(p, DeadCode.Pruned(p, marks))
  {
    forall c: Chunk, h: Host, s: State |
      c.code == p && IsInitial(c, s) && TerminatorsStop(h)
      ensures PreservesRun(c, DeadCode.Pruned(p, marks), h, s)
    {
      DeadCode.InitialStateIsLive(c, marks, s);
      SameRuns(c, h, marks, s);
    }
  }

  lemma SameRuns(c: Chunk, h: Host, marks: seq<bool>, s: State)
    requires WellFormed(c.code) && Covers(c.code, marks) && TerminatorsStop(h)
    requires DeadCode.LiveState(c.code, marks, s)
    ensures SameBehaviour(c, s, DeadCode.PrunedChunk(c, marks), s, h)
  {
    var d := DeadCode.PrunedChunk(c, marks);
    forall o: Outcome ensures EndsAlike(c, s, d, s, h, o) {
      forall n: nat ensures Run(d, h, s, n) == Run(c, h, s, n) {
        DeadCode.DeadCodeIsNeverReached(c, h, marks, s, n);
      }
    }
  }

  lemma ThreadedPreserves(p: seq<Word>, marks: seq<bool>)
    requires WellFormed(p) && Covers(p, marks)
    ensures WellFormed(JumpRules.Threaded(p, marks, 0)) && Preserves(p, JumpRules.Threaded(p, marks, 0))
  {
    forall c: Chunk, h: Host, s: State | c.code == p && IsInitial(c, s)
      ensures PreservesRun(c, JumpRules.Threaded(p, marks, 0), h, s)
    {
      JumpRules.ThreadingPreservesBehaviour(c, h, marks, 0, s);
    }
    JumpRules.ThreadingPreservesBehaviour(Chunk(p, [], 0, 0), Host(_ => Reply(0, 0), (_, _, _) => 0, 0),
                                          marks, 0, State(0, 0, [], [], [], []));
  }

  lemma StrippedPreserves(p: seq<Word>)
    requires WellFormed(p)
    ensures WellFormed(Relocate.Stripped(p)) && Preserves(p, Relocate.Stripped(p))
  {
    forall c: Chunk, h: Host, s: State | c.code == p && IsInitial(c, s)
      ensures PreservesRun(c, Relocate.Stripped(p), h, s)
    {
      Relocate.InitialStatesRelated(c, s);
      Relocate.StrippingPreservesBehaviour(c, h, s, s);
    }
    StripNops.StrippedWellFormed(p);
  }

  /** One round of the passes, in place. */
  method Round(code: array<Word>, count: nat, isTarget: array<bool>, remap: array<nat>)
      returns (changed: bool, newCount: nat)
    requires 0 < count <= code.Length && count < isTarget.Length && count < remap.Length
    requires (remap as object) != code && (isTarget as object) != code && (isTarget as object) != remap
    requires WellFormed(code[..count])
    modifies code, isTarget, remap
    ensures newCount <= count && WellFormed(code[..newCount])
    ensures Preserves(old(code[..count]), code[..newCount])
  {
    hide WellFormed;
    hide Preserves;
    hide Covers;
    ghost var was := code[..count];
    WellFormedScans(was);
    CollectJumpTargets(code, count, isTarget);
    ghost var marks := isTarget[..count + 1];
    MarksCover(was, marks);
    changed := DeadCode.EliminateDeadCode(code, count, isTarget);
    ghost var pruned := code[..count];
    DeadCode.PrunedWellFormed(was, marks);
    PrunedPreserves(was, marks);
    var threaded := JumpRules.ThreadJumps(code, count, isTarget);
    changed := changed || threaded;
    ghost var jumps := code[..count];
    ThreadedPreserves(pruned, marks);
    PreservesTrans(was, pruned, jumps);
    newCount := count;
    if changed {
      newCount := StripNops.StripNopsAndRelocate(code, count, remap);
      WellFormedScans(jumps);
      StrippedPreserves(jumps);
      PreservesTrans(was, jumps, code[..newCount]);
    }
  }

  lemma WellFormedScans(code: seq<Word>)
    requires WellFormed(code)
    ensures Scans(code, 0)
  {
  }

  lemma MarksCover(code: seq<Word>, marks: seq<bool>)
    requires |marks| == |code| + 1
    requires forall i :: 0 <= i <= |code| ==> marks[i] == IsTarget(code, i)
    ensures Covers(code, marks)
  {
  }

  /** The optimiser's loop: the code it leaves in the first `newCount` slots behaves like the code
      it was given, for every chunk, host and initial state. */
  method Optimize(code: array<Word>, initialCount: nat) returns (newCount: nat)
    requires initialCount <= code.Length && WellFormed(code[..initialCount])
    modifies code
    ensures newCount <= initialCount && WellFormed(code[..newCount])
    ensures Preserves(old(code[..initialCount]), code[..newCount])
  {
    hide WellFormed;
    hide Preserves;
    ghost var was := code[..initialCount];
    PreservesRefl(was);
    newCount := initialCount;
    if initialCount == 0 { return; }
    var isTarget := new bool[initialCount + 1];
    var remap := new nat[initialCount + 1];
    var changed, iter := true, 0;
    while changed && iter < MAX_ITERATIONS
      invariant newCount <= initialCount && WellFormed(code[..newCount])
      invariant Preserves(was, code[..newCount])
      decreases MAX_ITERATIONS - iter
    {
      if newCount == 0 { break; }
      ghost var before := code[..newCount];
      changed, newCount := Round(code, newCount, isTarget, remap);
      PreservesTrans(was, before, code[..newCount]);
      iter := iter + 1;
    }
  }
}
