/** The jump rules of `AcuOpt_PeepholePass`: jumps to the next instruction (rule 1), branches to
    jumps (rule 3), a branch around a jump (rule 5), jumps to jumps and to returns (rule 6), and with
    them the algebraic identities (rule 10). One in-place sweep with target marks computed before it;
    every run keeps its behaviour and the marks stay sound. */
module JumpRules {
  import opened Words
  import opened Bytecode
  import opened Layout
  import opened Vm
  import opened Behaviour
  import opened JumpTargets
  import opened Identities

  // ---- the rules ------------------------------------------------------------------------------------

  function TargetOf(code: seq<Word>, ip: nat): nat
    requires ip < |code|
  {
    GetJumpTarget(ip, code[ip])
  }

  predicate Rule1Applies(code: seq<Word>, ip: nat)
    requires ip < |code|
  {
    IsBranch(code[ip].op) && TargetOf(code, ip) == ip + 1
  }

  predicate Rule3Applies(code: seq<Word>, ip: nat)
    requires ip < |code|
  {
    var target := TargetOf(code, ip);
    IsCondBranch(code[ip].op) && target < |code| && code[target].op == OP_JUMP &&
    var final := TargetOf(code, target);
    final <= |code| && final != target && FitsBranch(code[ip].op, final - ip - 1)
  }

  function Rule3(code: seq<Word>, ip: nat): (r: seq<Word>)
    requires ip < |code|
    ensures |r| == |code|
  {
    if Rule3Applies(code, ip)
    then code[ip := SetBranchOffset(code[ip], TargetOf(code, TargetOf(code, ip)) - ip - 1)]
    else code
  }

  predicate Rule5Applies(code: seq<Word>, marks: seq<bool>, ip: nat)
    requires ip < |code| && |marks| == |code| + 1
  {
    IsBoolJump(code[ip].op) && ip + 1 < |code| && !marks[ip + 1] && code[ip + 1].op == OP_JUMP &&
    TargetOf(code, ip) == ip + 2 &&
    var real_ := TargetOf(code, ip + 1);
    real_ <= |code| && real_ != ip + 1 && FitsImm16(real_ - ip - 1)
  }

  function Rule5(code: seq<Word>, marks: seq<bool>, ip: nat): (r: seq<Word>)
    requires ip < |code| && |marks| == |code| + 1
    ensures |r| == |code|
  {
    if Rule5Applies(code, marks, ip)
    then code[ip := SetsBx(code[ip].(op := GetInverted(code[ip].op)), TargetOf(code, ip + 1) - ip - 1)]
             [ip + 1 := NOP_WORD]
    else code
  }

  predicate Rule6JumpApplies(code: seq<Word>, ip: nat)
    requires ip < |code|
  {
    var target := TargetOf(code, ip);
    code[ip].op == OP_JUMP && target < |code| && target != ip && code[target].op == OP_JUMP &&
    var final := TargetOf(code, target);
    final <= |code| && final != target && final != ip && FitsImm24(final - ip - 1)
  }

  predicate Rule6ReturnApplies(code: seq<Word>, ip: nat)
    requires ip < |code|
  {
    var target := TargetOf(code, ip);
    code[ip].op == OP_JUMP && target < |code| && target != ip &&
    (code[target].op == OP_RET || code[target].op == OP_RET_VOID)
  }

  function Rule6(code: seq<Word>, ip: nat): (r: seq<Word>)
    requires ip < |code|
    ensures |r| == |code|
  {
    if Rule6JumpApplies(code, ip)
    then code[ip := SetsAx(code[ip], TargetOf(code, TargetOf(code, ip)) - ip - 1)]
    else if Rule6ReturnApplies(code, ip) then code[ip := code[TargetOf(code, ip)]]
    else code
  }

  /** What one visit of the sweep does at `ip`. */
  function RulesAt(code: seq<Word>, marks: seq<bool>, ip: nat): (r: seq<Word>)
    requires ip < |code| && |marks| == |code| + 1
    ensures |r| == |code|
  {
    if Rule1Applies(code, ip) then code[ip := NOP_WORD]
    else Rule10(Rule6(Rule5(Rule3(code, ip), marks, ip), ip), ip)
  }

  /** The whole sweep from `ip` on. */
  function Threaded(code: seq<Word>, marks: seq<bool>, ip: nat): (r: seq<Word>)
    requires |marks| == |code| + 1
    ensures |r| == |code|
    decreases |code| - ip
  {
    if ip >= |code| then code
    else Threaded(RulesAt(code, marks, ip), marks, ip + Slots(code[ip].op))
  }

  // ---- runs that stay together ----------------------------------------------------------------------

  predicate Address(code: seq<Word>, hole: int, i: int) {
    0 <= i <= |code| && Boundary(code, i) && i != hole
  }

  /** Control is, and will return, at instruction boundaries other than `hole`. */
  ghost predicate OnTrack(code: seq<Word>, hole: int, s: State) {
    Address(code, hole, s.ip) &&
    forall k :: 0 <= k < |s.frames| ==> Address(code, hole, s.frames[k].returnIp)
  }

  ghost predicate Joined(code: seq<Word>, hole: int, o: Outcome) {
    o.Go? ==> OnTrack(code, hole, o.next)
  }

  /** From `s` both programs come to the same outcome, one of them possibly a step later. */
  ghost predicate Matches(c: Chunk, d: Chunk, h: Host, code: seq<Word>, hole: int, s: State) {
    (Step(c, h, s) == Step(d, h, s) && Joined(code, hole, Step(c, h, s))) || TwoForOne(c, d, h, code, hole, s) ||
    TwoForOne(d, c, h, code, hole, s)
  }

  /** `c` takes two steps to what `d` does in one. */
  ghost predicate TwoForOne(c: Chunk, d: Chunk, h: Host, code: seq<Word>, hole: int, s: State) {
    Step(c, h, s).Go? && Step(c, h, Step(c, h, s).next) == Step(d, h, s) && Joined(code, hole, Step(d, h, s))
  }

  ghost predicate MatchesAlways(c: Chunk, d: Chunk, h: Host, code: seq<Word>, hole: int) {
    forall s: State :: OnTrack(code, hole, s) ==> Matches(c, d, h, code, hole, s)
  }

  lemma {:induction false} MatchedEnd(c: Chunk, d: Chunk, h: Host, code: seq<Word>, hole: int, s: State, n: nat)
      returns (m: nat)
    requires MatchesAlways(c, d, h, code, hole) && OnTrack(code, hole, s) && !Run(c, h, s, n).Go?
    ensures Run(d, h, s, m) == Run(c, h, s, n)
    decreases n, 0
  {
    hide Step;
    hide OnTrack;
    assert Matches(c, d, h, code, hole, s);
    if TwoForOne(c, d, h, code, hole, s) {
      var u := Step(c, h, s).next;
      assert Run(c, h, s, n) == Run(c, h, u, n - 1) && n > 1;
      m := MatchedFrom(c, d, h, code, hole, Step(d, h, s), n - 2);
      m := m + 1;
    } else if TwoForOne(d, c, h, code, hole, s) {
      m := MatchedFrom(c, d, h, code, hole, Step(c, h, s), n - 1);
      m := m + 2;
    } else {
      m := MatchedFrom(c, d, h, code, hole, Step(c, h, s), n - 1);
      m := m + 1;
    }
  }

  function Continue(c: Chunk, h: Host, o: Outcome, n: nat): Outcome {
    if o.Go? then Run(c, h, o.next, n) else o
  }

  lemma {:induction false} MatchedFrom(c: Chunk, d: Chunk, h: Host, code: seq<Word>, hole: int, o: Outcome, n: nat)
      returns (m: nat)
    requires MatchesAlways(c, d, h, code, hole) && Joined(code, hole, o) && !Continue(c, h, o, n).Go?
    ensures Continue(d, h, o, m) == Continue(c, h, o, n)
    decreases n, 1
  {
    m := 0;
    if o.Go? {
      m := MatchedEnd(c, d, h, code, hole, o.next, n);
    }
  }

  lemma MatchedBehaviour(c: Chunk, d: Chunk, h: Host, code: seq<Word>, hole: int, s: State)
    requires MatchesAlways(c, d, h, code, hole) && OnTrack(code, hole, s)
    ensures SameBehaviour(c, s, d, s, h)
  {
    assert MatchesAlways(d, c, h, code, hole) by {
      forall t: State | OnTrack(code, hole, t) ensures Matches(d, c, h, code, hole, t) {
        assert Matches(c, d, h, code, hole, t);
      }
    }
    forall o: Outcome ensures EndsAlike(c, s, d, s, h, o) {
      if Ends(c, h, s, o) {
        var n: nat :| Run(c, h, s, n) == o;
        var m := MatchedEnd(c, d, h, code, hole, s, n);
      }
      if Ends(d, h, s, o) {
        var n: nat :| Run(d, h, s, n) == o;
        var m := MatchedEnd(d, c, h, code, hole, s, n);
      }
    }
  }

  // ---- steps away from the rewritten slots ----------------------------------------------------------

  /** A slot nothing enters but the instruction right before it. */
  predicate Hole(code: seq<Word>, marks: seq<bool>, hole: int) {
    |marks| == |code| + 1 && (0 <= hole <= |code| ==> !marks[hole])
  }

  lemma TargetAddress(code: seq<Word>, marks: seq<bool>, hole: int, ip: nat, i: nat)
    requires WellFormed(code) && Covers(code, marks) && Hole(code, marks, hole)
    requires Boundary(code, ip) && ip < |code| && EntersAt(code, ip, i) && i <= |code|
    ensures Address(code, hole, i)
  {
    assert GoodAt(code, ip);
    assert IsTarget(code, i);
  }

  /** Control stays on track over every step that does not fall into the hole. */
  lemma TrackStep(c: Chunk, h: Host, marks: seq<bool>, hole: int, s: State)
    requires WellFormed(c.code) && Covers(c.code, marks) && Hole(c.code, marks, hole)
    requires OnTrack(c.code, hole, s)
    requires s.ip < |c.code| ==> s.ip + Slots(c.code[s.ip].op) != hole
    ensures Joined(c.code, hole, Step(c, h, s))
  {
    hide Execute;
    hide IsTarget;
    hide Hole;
    if Step(c, h, s).Go? {
      var code, w, t := c.code, c.code[s.ip], Step(c, h, s).next;
      StepMovesControl(c, h, s);
      assert GoodAt(code, s.ip);
      MeetsNext(code, 0, s.ip);
      if IsBranch(w.op) {
        TargetAddress(code, marks, hole, s.ip, s.ip + 1 + BranchOffset(w));
      } else if IsCall(w.op) {
        TargetAddress(code, marks, hole, s.ip, Payload(code[s.ip + 1]));
      } else if w.op == OP_RET || w.op == OP_RET_VOID {
        assert Address(code, hole, s.frames[|s.frames| - 1].returnIp);
      }
    }
  }

  /** `d` differs from `c` in the single-slot instruction at `ip` and perhaps in the one at `hole`. */
  ghost predicate DiffersAt(c: Chunk, d: Chunk, ip: nat, hole: int) {
    d == c.(code := d.code) && |d.code| == |c.code| && Boundary(c.code, ip) &&
    (0 <= hole <= |c.code| ==> Boundary(c.code, hole)) &&
    forall k :: 0 <= k < |c.code| && k != ip && k != hole ==> d.code[k] == c.code[k]
  }

  lemma MatchesElsewhere(c: Chunk, d: Chunk, h: Host, marks: seq<bool>, ip: nat, hole: int, s: State)
    requires WellFormed(c.code) && Covers(c.code, marks) && Hole(c.code, marks, hole)
    requires DiffersAt(c, d, ip, hole) && (hole == -1 || hole == ip + 1)
    requires ip < |c.code| && Slots(c.code[ip].op) == 1
    requires OnTrack(c.code, hole, s) && s.ip != ip
    ensures Step(d, h, s) == Step(c, h, s) && Joined(c.code, hole, Step(c, h, s))
  {
    hide Execute;
    hide IsTarget;
    hide Hole;
    var code := c.code;
    if s.ip < |code| {
      assert GoodAt(code, s.ip);
      if Slots(code[s.ip].op) == 2 {
        NotInside(code, s.ip, ip);
        if hole >= 0 { NotInside(code, s.ip, hole); }
      }
      StepReadsInstruction(c, d, h, s);
      // Only the instruction right before the hole ends there, and that is the one at `ip`.
      NotInside(code, s.ip, ip);
      TrackStep(c, h, marks, hole, s);
    }
  }

  /** No boundary is the payload slot of a wide instruction. */
  lemma NotInside(code: seq<Word>, ip: nat, i: int)
    requires Boundary(code, ip) && ip < |code| && Boundary(code, i)
    ensures i <= ip || i >= ip + Slots(code[ip].op)
  {
    if i > ip { NoBoundaryInside(code, 0, ip, i); }
  }

  // ---- each rule keeps the runs together ------------------------------------------------------------

  lemma Rule1Matches(c: Chunk, d: Chunk, h: Host, marks: seq<bool>, ip: nat, s: State)
    requires WellFormed(c.code) && Covers(c.code, marks) && ip < |c.code| && Boundary(c.code, ip)
    requires Rule1Applies(c.code, ip) && d == c.(code := c.code[ip := NOP_WORD])
    requires OnTrack(c.code, -1, s)
    ensures Matches(c, d, h, c.code, -1, s)
  {
    hide OnTrack;
    OnTrackAddress(c.code, -1, s);
    if s.ip != ip {
      MatchesElsewhere(c, d, h, marks, ip, -1, s);
    } else {
      TrackStep(c, h, marks, -1, s);
      if s.HasWindow() {
        BranchStep(c, h, s);
        NopStep(d, h, s);
      }
    }
  }

  lemma Rule10Matches(c: Chunk, d: Chunk, h: Host, marks: seq<bool>, ip: nat, s: State)
    requires WellFormed(c.code) && Covers(c.code, marks) && ip < |c.code| && Boundary(c.code, ip)
    requires Slots(c.code[ip].op) == 1 && d == c.(code := Rule10(c.code, ip)) && OnTrack(c.code, -1, s)
    ensures Matches(c, d, h, c.code, -1, s)
  {
    hide OnTrack;
    hide Simplified;
    OnTrackAddress(c.code, -1, s);
    if s.ip != ip {
      MatchesElsewhere(c, d, h, marks, ip, -1, s);
    } else {
      TrackStep(c, h, marks, -1, s);
      Rule10Steps(c, h, ip, s);
    }
  }

  lemma OnTrackAddress(code: seq<Word>, hole: int, s: State)
    requires OnTrack(code, hole, s)
    ensures Address(code, hole, s.ip)
  {
  }

  lemma NopStep(c: Chunk, h: Host, s: State)
    requires 0 <= s.ip < |c.code| && s.HasWindow() && c.code[s.ip].op == OP_NOP
    ensures Step(c, h, s) == Go(s.Goto(s.ip + 1))
  {
  }

  lemma NoWindowStep(c: Chunk, h: Host, s: State)
    requires 0 <= s.ip < |c.code| && !s.HasWindow()
    ensures Step(c, h, s) == Wild(BadWindow)
  {
  }

  /** A branch to a jump, retargeted to where the jump goes (rules 3 and 6). */
  lemma ShortcutMatches(c: Chunk, d: Chunk, h: Host, marks: seq<bool>, ip: nat, target: nat, final: nat, s: State)
    requires WellFormed(c.code) && Covers(c.code, marks) && ip < |c.code| && Boundary(c.code, ip)
    requires IsBranch(c.code[ip].op) && target == ip + 1 + BranchOffset(c.code[ip]) < |c.code|
    requires c.code[target].op == OP_JUMP && final == target + 1 + BranchOffset(c.code[target]) <= |c.code|
    requires FitsBranch(c.code[ip].op, final - ip - 1)
    requires d == c.(code := c.code[ip := SetBranchOffset(c.code[ip], final - ip - 1)])
    requires OnTrack(c.code, -1, s)
    ensures Matches(c, d, h, c.code, -1, s)
  {
    hide OnTrack;
    hide Step;
    hide Taken;
    hide IsTarget;
    hide GoodAt;
    OnTrackAddress(c.code, -1, s);
    if s.ip != ip {
      MatchesElsewhere(c, d, h, marks, ip, -1, s);
    } else if !s.HasWindow() {
      NoWindowStep(c, h, s);
      NoWindowStep(d, h, s);
    } else {
      var w, u := c.code[ip], s.Goto(target);
      SetBranchOffsetReads(w, final - ip - 1);
      TakenSame(w, final - ip - 1, s);
      TrackStep(c, h, marks, -1, s);
      BranchStep(c, h, s);
      BranchStep(d, h, s);
      if Taken(w, s.Reg(w.a), s.Reg(w.b)) {
        JumpStep(c, h, u);
        TrackStep(c, h, marks, -1, u);
        assert TwoForOne(c, d, h, c.code, -1, s);
      }
    }
  }

  lemma JumpStep(c: Chunk, h: Host, s: State)
    requires 0 <= s.ip < |c.code| && s.HasWindow() && c.code[s.ip].op == OP_JUMP
    ensures Step(c, h, s) == Go(s.Goto(s.ip + 1 + BranchOffset(c.code[s.ip])))
  {
    BranchStep(c, h, s);
  }

  /** A jump to a return, replaced by the return (rule 6). */
  lemma ReturnMatches(c: Chunk, d: Chunk, h: Host, marks: seq<bool>, ip: nat, target: nat, s: State)
    requires WellFormed(c.code) && Covers(c.code, marks) && ip < |c.code| && Boundary(c.code, ip)
    requires c.code[ip].op == OP_JUMP && target == ip + 1 + BranchOffset(c.code[ip]) < |c.code|
    requires c.code[target].op == OP_RET || c.code[target].op == OP_RET_VOID
    requires d == c.(code := c.code[ip := c.code[target]])
    requires OnTrack(c.code, -1, s)
    ensures Matches(c, d, h, c.code, -1, s)
  {
    hide OnTrack;
    hide IsTarget;
    hide GoodAt;
    OnTrackAddress(c.code, -1, s);
    if s.ip != ip {
      MatchesElsewhere(c, d, h, marks, ip, -1, s);
    } else if s.HasWindow() {
      TrackStep(c, h, marks, -1, s);
      JumpStep(c, h, s);
      TrackStep(c, h, marks, -1, s.Goto(target));
      assert TwoForOne(c, d, h, c.code, -1, s);
    } else {
      NoWindowStep(c, h, s);
      NoWindowStep(d, h, s);
    }
  }

  /** A conditional branch around a jump, turned into the inverted branch to the jump's target. */
  lemma Rule5Matches(c: Chunk, d: Chunk, h: Host, marks: seq<bool>, ip: nat, s: State)
    requires WellFormed(c.code) && Covers(c.code, marks) && ip < |c.code| && Boundary(c.code, ip)
    requires Rule5Applies(c.code, marks, ip) && d == c.(code := Rule5(c.code, marks, ip))
    requires OnTrack(c.code, ip + 1, s)
    ensures Matches(c, d, h, c.code, ip + 1, s)
  {
    hide OnTrack;
    hide Step;
    hide Taken;
    hide IsTarget;
    hide GoodAt;
    OnTrackAddress(c.code, ip + 1, s);
    MeetsNext(c.code, 0, ip);
    if s.ip != ip {
      MatchesElsewhere(c, d, h, marks, ip, ip + 1, s);
    } else if !s.HasWindow() {
      NoWindowStep(c, h, s);
      NoWindowStep(d, h, s);
    } else {
      var w, final := c.code[ip], TargetOf(c.code, ip + 1);
      var v := d.code[ip];
      FieldBx(w.(op := GetInverted(w.op)), final - ip - 1);
      InvertedBranch(w, s.Reg(w.a), s.Reg(w.b));
      TakenIgnoresOffset(w.(op := GetInverted(w.op)), final - ip - 1, s.Reg(w.a), s.Reg(w.b), s.Reg(v.b));
      BranchStep(c, h, s);
      BranchStep(d, h, s);
      if Taken(w, s.Reg(w.a), s.Reg(w.b)) {
        NopStep(d, h, s.Goto(ip + 1));
        JoinedAt(c.code, marks, ip + 1, ip, s, ip + 2);
        assert TwoForOne(d, c, h, c.code, ip + 1, s);
      } else {
        JumpStep(c, h, s.Goto(ip + 1));
        JoinedAt(c.code, marks, ip + 1, ip + 1, s, final);
        assert TwoForOne(c, d, h, c.code, ip + 1, s);
      }
    }
  }

  lemma TakenIgnoresOffset(w: Word, i: int, x: u64, y: u64, z: u64)
    requires IsBoolJump(w.op)
    ensures Taken(SetsBx(w, i), x, z) == Taken(w, x, y)
  {
    FieldBx(w, i);
  }

  /** Arriving at a target of the code keeps a state on track. */
  lemma JoinedAt(code: seq<Word>, marks: seq<bool>, hole: int, ip: nat, s: State, i: nat)
    requires WellFormed(code) && Covers(code, marks) && Hole(code, marks, hole)
    requires OnTrack(code, hole, s) && Boundary(code, ip) && ip < |code|
    requires IsBranch(code[ip].op) && TargetOf(code, ip) == i <= |code|
    ensures Joined(code, hole, Go(s.Goto(i)))
  {
    TargetAddress(code, marks, hole, ip, i);
  }

  // ---- each rule keeps the layout and the marks -----------------------------------------------------

  ghost predicate SameBoundaries(p: seq<Word>, q: seq<Word>) {
    |p| == |q| && forall i :: Boundary(p, i) == Boundary(q, i)
  }

  /** `q` is as well formed as generated code, and covered by the same marks as `p`. */
  ghost predicate Sound(p: seq<Word>, q: seq<Word>, marks: seq<bool>) {
    WellFormed(q) && Covers(q, marks) && SameBoundaries(p, q)
  }

  /** Replacing a single-slot instruction by another one is sound if the new one, when it branches,
      goes where the branch at some `k` went. */
  lemma ReplaceSound(p: seq<Word>, marks: seq<bool>, ip: nat, v: Word, k: nat)
    requires WellFormed(p) && Covers(p, marks) && Boundary(p, ip) && ip < |p|
    requires Slots(p[ip].op) == 1 && Slots(v.op) == 1 && v.op < ACU_OPCODE_COUNT
    requires IsBranch(v.op) ==> k < |p| && Boundary(p, k) && IsBranch(p[k].op) &&
                                ip + 1 + BranchOffset(v) == k + 1 + BranchOffset(p[k])
    ensures Sound(p, p[ip := v], marks)
  {
    hide GoodAt;
    hide BranchOffset;
    var q := p[ip := v];
    forall i ensures Boundary(p, i) == Boundary(q, i) {
      SameLayout(p, q, 0, i);
    }
    ScansKnown(p, 0);
    SameScan(p, q, 0);
    forall i | 0 <= i < |q| && Boundary(q, i) ensures GoodAt(q, i) {
      assert GoodAt(p, i);
      if i == ip {
        if IsBranch(v.op) { assert GoodAt(p, k); }
        ReplacedGoodAt(p, ip, v, k);
      } else {
        GoodSlots(p, i);
        NotInside(p, i, ip);
        CopyGoodAt(p, q, i);
      }
    }
    ReplacedCovers(p, marks, ip, v, k);
  }

  lemma GoodSlots(p: seq<Word>, i: nat)
    requires i < |p| && GoodAt(p, i)
    ensures i + Slots(p[i].op) <= |p|
  {
  }

  /** Scanned code has known opcodes at its boundaries. */
  lemma ScansKnown(p: seq<Word>, from: nat)
    requires Scans(p, 0)
    ensures forall k :: 0 <= k < |p| && Meets(p, 0, k) ==> p[k].op < ACU_OPCODE_COUNT
  {
    forall k | 0 <= k < |p| && Meets(p, 0, k) ensures p[k].op < ACU_OPCODE_COUNT {
      ScansAt(p, 0, k);
    }
  }

  lemma ReplacedGoodAt(p: seq<Word>, ip: nat, v: Word, k: nat)
    requires ip < |p| && SameBoundaries(p, p[ip := v]) && Slots(v.op) == 1
    requires IsBranch(v.op) ==> k < |p| && GoodAt(p, k) && IsBranch(p[k].op) &&
                                ip + 1 + BranchOffset(v) == k + 1 + BranchOffset(p[k])
    ensures GoodAt(p[ip := v], ip)
  {
    hide Boundary;
    hide BranchOffset;
  }

  lemma ReplacedCovers(p: seq<Word>, marks: seq<bool>, ip: nat, v: Word, k: nat)
    requires WellFormed(p) && Covers(p, marks) && Boundary(p, ip) && ip < |p|
    requires SameBoundaries(p, p[ip := v]) && Slots(p[ip].op) == 1 && Slots(v.op) == 1
    requires IsBranch(v.op) ==> k < |p| && Boundary(p, k) && IsBranch(p[k].op) &&
                                ip + 1 + BranchOffset(v) == k + 1 + BranchOffset(p[k])
    ensures Covers(p[ip := v], marks)
  {
    hide GoodAt;
    hide Boundary;
    hide BranchOffset;
    var q := p[ip := v];
    forall i | 0 <= i <= |q| && IsTarget(q, i) ensures marks[i] {
      if i != 0 {
        var at :| 0 <= at < |q| && Boundary(q, at) && EntersAt(q, at, i);
        NotInside(p, at, ip);
        if at == ip {
          assert EntersAt(p, k, i);
        } else {
          assert EntersAt(p, at, i);
        }
      }
      assert IsTarget(p, i);
    }
  }

  // ---- one visit ------------------------------------------------------------------------------------

  /** A start of the program: at slot 0, with nothing to return to. */
  predicate AtStart(s: State) { s.ip == 0 && s.frames == [] }

  lemma StartOnTrack(code: seq<Word>, hole: int, s: State)
    requires AtStart(s) && hole != 0
    ensures OnTrack(code, hole, s)
  {
  }

  /** Where a well-formed branch goes. */
  lemma TargetInside(code: seq<Word>, ip: nat)
    requires WellFormed(code) && Boundary(code, ip) && ip < |code| && IsBranch(code[ip].op)
    ensures TargetOf(code, ip) == ip + 1 + BranchOffset(code[ip]) <= |code|
    ensures Boundary(code, TargetOf(code, ip))
  {
    assert GoodAt(code, ip);
  }

  lemma Rule1Preserves(c: Chunk, h: Host, marks: seq<bool>, ip: nat, s: State)
    requires WellFormed(c.code) && Covers(c.code, marks) && Boundary(c.code, ip) && ip < |c.code| && AtStart(s)
    requires Rule1Applies(c.code, ip)
    ensures Sound(c.code, c.code[ip := NOP_WORD], marks)
    ensures SameBehaviour(c, s, c.(code := c.code[ip := NOP_WORD]), s, h)
  {
    hide Matches;
    var d := c.(code := c.code[ip := NOP_WORD]);
    ReplaceSound(c.code, marks, ip, NOP_WORD, ip);
    forall t: State | OnTrack(c.code, -1, t) ensures Matches(c, d, h, c.code, -1, t) {
      Rule1Matches(c, d, h, marks, ip, t);
    }
    StartOnTrack(c.code, -1, s);
    MatchedBehaviour(c, d, h, c.code, -1, s);
  }

  lemma ShortcutPreserves(c: Chunk, h: Host, marks: seq<bool>, ip: nat, target: nat, final: nat, s: State)
    requires WellFormed(c.code) && Covers(c.code, marks) && Boundary(c.code, ip) && ip < |c.code| && AtStart(s)
    requires IsBranch(c.code[ip].op) && target == TargetOf(c.code, ip) < |c.code|
    requires c.code[target].op == OP_JUMP && final == TargetOf(c.code, target)
    requires FitsBranch(c.code[ip].op, final - ip - 1)
    ensures var q := c.code[ip := SetBranchOffset(c.code[ip], final - ip - 1)];
            Sound(c.code, q, marks) && SameBehaviour(c, s, c.(code := q), s, h)
  {
    hide Matches;
    hide SetBranchOffset;
    hide GoodAt;
    var v := SetBranchOffset(c.code[ip], final - ip - 1);
    var d := c.(code := c.code[ip := v]);
    TargetInside(c.code, ip);
    TargetInside(c.code, target);
    SetBranchOffsetReads(c.code[ip], final - ip - 1);
    ReplaceSound(c.code, marks, ip, v, target);
    forall t: State | OnTrack(c.code, -1, t) ensures Matches(c, d, h, c.code, -1, t) {
      ShortcutMatches(c, d, h, marks, ip, target, final, t);
    }
    StartOnTrack(c.code, -1, s);
    MatchedBehaviour(c, d, h, c.code, -1, s);
  }

  lemma ReturnPreserves(c: Chunk, h: Host, marks: seq<bool>, ip: nat, s: State)
    requires WellFormed(c.code) && Covers(c.code, marks) && Boundary(c.code, ip) && ip < |c.code| && AtStart(s)
    requires Rule6ReturnApplies(c.code, ip)
    ensures var q := c.code[ip := c.code[TargetOf(c.code, ip)]];
            Sound(c.code, q, marks) && SameBehaviour(c, s, c.(code := q), s, h)
  {
    hide Matches;
    hide GoodAt;
    var target := TargetOf(c.code, ip);
    var d := c.(code := c.code[ip := c.code[target]]);
    TargetInside(c.code, ip);
    ReplaceSound(c.code, marks, ip, c.code[target], ip);
    forall t: State | OnTrack(c.code, -1, t) ensures Matches(c, d, h, c.code, -1, t) {
      ReturnMatches(c, d, h, marks, ip, target, t);
    }
    StartOnTrack(c.code, -1, s);
    MatchedBehaviour(c, d, h, c.code, -1, s);
  }

  lemma Rule5MatchesAlways(c: Chunk, h: Host, marks: seq<bool>, ip: nat, hole: int)
    requires WellFormed(c.code) && Covers(c.code, marks) && Boundary(c.code, ip) && ip < |c.code|
    requires Rule5Applies(c.code, marks, ip) && hole == ip + 1
    ensures MatchesAlways(c, c.(code := Rule5(c.code, marks, ip)), h, c.code, hole)
  {
    hide Matches;
    hide GoodAt;
    var d := c.(code := Rule5(c.code, marks, ip));
    forall t: State | OnTrack(c.code, hole, t) ensures Matches(c, d, h, c.code, hole, t) {
      Rule5Matches(c, d, h, marks, ip, t);
    }
  }

  lemma Rule5Sound(code: seq<Word>, marks: seq<bool>, ip: nat)
    requires WellFormed(code) && Covers(code, marks) && Boundary(code, ip) && ip < |code|
    requires Rule5Applies(code, marks, ip)
    ensures Sound(code, Rule5(code, marks, ip), marks)
  {
    hide GoodAt;
    hide BranchOffset;
    hide WellFormed;
    hide IsTarget;
    var w, diff := code[ip].(op := GetInverted(code[ip].op)), TargetOf(code, ip + 1) - ip - 1;
    var v := SetsBx(w, diff);
    MeetsNext(code, 0, ip);
    TargetInside(code, ip + 1);
    FieldBx(w, diff);
    BoolOffset(v);
    ReplaceSound(code, marks, ip, v, ip + 1);
    ReplaceSound(code[ip := v], marks, ip + 1, NOP_WORD, ip);
  }

  lemma BoolOffset(w: Word)
    requires IsBoolJump(w.op)
    ensures BranchOffset(w) == GetsBx(w)
  {
  }

  lemma Rule5Preserves(c: Chunk, h: Host, marks: seq<bool>, ip: nat, s: State)
    requires WellFormed(c.code) && Covers(c.code, marks) && Boundary(c.code, ip) && ip < |c.code| && AtStart(s)
    requires Rule5Applies(c.code, marks, ip)
    ensures Sound(c.code, Rule5(c.code, marks, ip), marks)
    ensures SameBehaviour(c, s, c.(code := Rule5(c.code, marks, ip)), s, h)
  {
    hide MatchesAlways;
    hide Rule5;
    hide Sound;
    Rule5Sound(c.code, marks, ip);
    Rule5MatchesAlways(c, h, marks, ip, ip + 1);
    StartOnTrack(c.code, ip + 1, s);
    MatchedBehaviour(c, c.(code := Rule5(c.code, marks, ip)), h, c.code, ip + 1, s);
  }

  lemma Rule3Preserves(c: Chunk, h: Host, marks: seq<bool>, ip: nat, s: State)
    requires WellFormed(c.code) && Covers(c.code, marks) && Boundary(c.code, ip) && ip < |c.code| && AtStart(s)
    ensures Sound(c.code, Rule3(c.code, ip), marks)
    ensures SameBehaviour(c, s, c.(code := Rule3(c.code, ip)), s, h)
  {
    hide GoodAt;
    hide SameBehaviour;
    if Rule3Applies(c.code, ip) {
      var target := TargetOf(c.code, ip);
      ShortcutPreserves(c, h, marks, ip, target, TargetOf(c.code, target), s);
    } else {
      SameBehaviourRefl(c, s, h);
    }
  }

  lemma Rule6Preserves(c: Chunk, h: Host, marks: seq<bool>, ip: nat, s: State)
    requires WellFormed(c.code) && Covers(c.code, marks) && Boundary(c.code, ip) && ip < |c.code| && AtStart(s)
    ensures Sound(c.code, Rule6(c.code, ip), marks)
    ensures SameBehaviour(c, s, c.(code := Rule6(c.code, ip)), s, h)
  {
    hide GoodAt;
    hide SameBehaviour;
    hide Sound;
    if Rule6JumpApplies(c.code, ip) {
      var target := TargetOf(c.code, ip);
      ShortcutPreserves(c, h, marks, ip, target, TargetOf(c.code, target), s);
    } else if Rule6ReturnApplies(c.code, ip) {
      ReturnPreserves(c, h, marks, ip, s);
    } else {
      SoundRefl(c.code, marks);
      SameBehaviourRefl(c, s, h);
    }
  }

  /** The identities change no control flow at all. */
  lemma Rule10Preserves(c: Chunk, h: Host, marks: seq<bool>, ip: nat, s: State)
    requires WellFormed(c.code) && Covers(c.code, marks) && Boundary(c.code, ip) && ip < |c.code| && AtStart(s)
    ensures Sound(c.code, Rule10(c.code, ip), marks)
    ensures SameBehaviour(c, s, c.(code := Rule10(c.code, ip)), s, h)
  {
    hide Matches;
    hide GoodAt;
    var d, w := c.(code := Rule10(c.code, ip)), c.code[ip];
    if Simplified(w) == w {
      assert d.code == c.code;
      SoundRefl(c.code, marks);
      SameBehaviourRefl(c, s, h);
    } else {
      ReplaceSound(c.code, marks, ip, Simplified(w), ip);
      forall t: State | OnTrack(c.code, -1, t) ensures Matches(c, d, h, c.code, -1, t) {
        Rule10Matches(c, d, h, marks, ip, t);
      }
      StartOnTrack(c.code, -1, s);
      MatchedBehaviour(c, d, h, c.code, -1, s);
    }
  }

  lemma SoundRefl(p: seq<Word>, marks: seq<bool>)
    requires WellFormed(p) && Covers(p, marks)
    ensures Sound(p, p, marks)
  {
  }

  /** Everything one visit does at `ip`, taken together. */
  lemma VisitPreserves(c: Chunk, h: Host, marks: seq<bool>, ip: nat, s: State)
    requires WellFormed(c.code) && Covers(c.code, marks) && Boundary(c.code, ip) && ip < |c.code| && AtStart(s)
    ensures Sound(c.code, RulesAt(c.code, marks, ip), marks)
    ensures SameBehaviour(c, s, c.(code := RulesAt(c.code, marks, ip)), s, h)
  {
    hide GoodAt;
    hide WellFormed;
    hide IsTarget;
    hide SameBehaviour;
    hide Rule3;
    hide Rule6;
    hide Rule10;
    if Rule1Applies(c.code, ip) {
      Rule1Preserves(c, h, marks, ip, s);
    } else {
      var c3 := c.(code := Rule3(c.code, ip));
      Rule3Preserves(c, h, marks, ip, s);
      var c5 := c.(code := Rule5(c3.code, marks, ip));
      if Rule5Applies(c3.code, marks, ip) {
        Rule5Preserves(c3, h, marks, ip, s);
      } else {
        SameBehaviourRefl(c3, s, h);
      }
      Rule6Preserves(c5, h, marks, ip, s);
      SameBehaviourTrans(c, s, c3, s, c5, s, h);
      var c6 := c.(code := Rule6(c5.code, ip));
      SameBehaviourTrans(c, s, c5, s, c6, s, h);
      Rule10Preserves(c6, h, marks, ip, s);
      SameBehaviourTrans(c, s, c6, s, c.(code := Rule10(c6.code, ip)), s, h);
    }
  }

  /** The sweep changes no run from the start of the program, finite or infinite; the result is well
      formed, and the marks collected before the sweep still cover it. */
  lemma {:induction false} ThreadingPreservesBehaviour(c: Chunk, h: Host, marks: seq<bool>, ip: nat, s: State)
    requires WellFormed(c.code) && Covers(c.code, marks) && Boundary(c.code, ip) && ip <= |c.code| && AtStart(s)
    ensures Sound(c.code, Threaded(c.code, marks, ip), marks)
    ensures SameBehaviour(c, s, c.(code := Threaded(c.code, marks, ip)), s, h)
    decreases |c.code| - ip
  {
    hide GoodAt;
    hide IsTarget;
    hide SameBehaviour;
    hide RulesAt;
    if ip < |c.code| {
      var d := c.(code := RulesAt(c.code, marks, ip));
      var next := ip + Slots(c.code[ip].op);
      VisitPreserves(c, h, marks, ip, s);
      MeetsNext(c.code, 0, ip);
      assert GoodAt(c.code, ip);
      GoodSlots(c.code, ip);
      assert Boundary(d.code, next) == Boundary(c.code, next);
      ThreadingPreservesBehaviour(d, h, marks, next, s);
      var q := Threaded(c.code, marks, ip);
      SameBehaviourTrans(c, s, d, s, c.(code := q), s, h);
      forall i ensures Boundary(c.code, i) == Boundary(q, i) {
        assert Boundary(c.code, i) == Boundary(d.code, i) == Boundary(q, i);
      }
    } else {
      SameBehaviourRefl(c, s, h);
      SoundRefl(c.code, marks);
    }
  }

  // ---- the pass -------------------------------------------------------------------------------------

  /** One visit of the sweep at `ip`, on the array. */
  method Visit(code: array<Word>, count: nat, isTarget: array<bool>, ip: nat) returns (changed: bool)
    requires ip < count <= code.Length && count < isTarget.Length
    modifies code
    ensures code[..count] == RulesAt(old(code[..count]), isTarget[..count + 1], ip)
    ensures !changed ==> code[..count] == old(code[..count])
  {
    ghost var was, marks := code[..count], isTarget[..count + 1];
    changed := false;
    if IsBranch(code[ip].op) {
      if GetJumpTarget(ip, code[ip]) == ip + 1 {
        code[ip] := NOP_WORD;
        return true;
      }
    }
    if IsCondBranch(code[ip].op) {
      changed := VisitRule3(code, count, ip);
    }
    ghost var was3 := code[..count];
    if IsBoolJump(code[ip].op) && ip + 1 < count && !isTarget[ip + 1] {
      var fired := VisitRule5(code, count, isTarget, ip);
      if fired {
        BranchStays(code[ip]);
        return true;
      }
    }
    if code[ip].op == OP_JUMP {
      var fired := VisitRule6(code, count, ip);
      BranchStays(code[ip]);
      changed := changed || fired;
      return;
    }
    var simplified := VisitRule10(code, count, ip);
    changed := changed || simplified;
  }

  /** Branches and returns are none of the instructions that have identities. */
  lemma BranchStays(w: Word)
    requires IsBranch(w.op) || w.op == OP_RET || w.op == OP_RET_VOID
    ensures Simplified(w) == w
  {
  }

  method VisitRule3(code: array<Word>, count: nat, ip: nat) returns (changed: bool)
    requires ip < count <= code.Length && IsCondBranch(code[ip].op)
    modifies code
    ensures code[..count] == Rule3(old(code[..count]), ip)
    ensures changed == Rule3Applies(old(code[..count]), ip)
  {
    changed := false;
    var target := GetJumpTarget(ip, code[ip]);
    if target < count && code[target].op == OP_JUMP {
      var final := GetJumpTarget(target, code[target]);
      if final <= count && final != target {
        var diff := final - ip - 1;
        if FitsBranch(code[ip].op, diff) {
          code[ip] := SetBranchOffset(code[ip], diff);
          changed := true;
        }
      }
    }
  }

  method VisitRule5(code: array<Word>, count: nat, isTarget: array<bool>, ip: nat) returns (changed: bool)
    requires ip + 1 < count <= code.Length && count < isTarget.Length
    requires IsBoolJump(code[ip].op) && !isTarget[ip + 1]
    modifies code
    ensures code[..count] == Rule5(old(code[..count]), isTarget[..count + 1], ip)
    ensures changed == Rule5Applies(old(code[..count]), isTarget[..count + 1], ip)
  {
    changed := false;
    if code[ip + 1].op == OP_JUMP && GetJumpTarget(ip, code[ip]) == ip + 2 {
      var final := GetJumpTarget(ip + 1, code[ip + 1]);
      if final <= count && final != ip + 1 {
        var diff := final - ip - 1;
        if -0x8000 <= diff <= 0x7FFF {
          code[ip] := SetsBx(code[ip].(op := GetInverted(code[ip].op)), diff);
          code[ip + 1] := NOP_WORD;
          changed := true;
        }
      }
    }
  }

  method VisitRule6(code: array<Word>, count: nat, ip: nat) returns (changed: bool)
    requires ip < count <= code.Length && code[ip].op == OP_JUMP
    modifies code
    ensures code[..count] == Rule6(old(code[..count]), ip)
    ensures changed == (Rule6JumpApplies(old(code[..count]), ip) || Rule6ReturnApplies(old(code[..count]), ip))
  {
    changed := false;
    var target := GetJumpTarget(ip, code[ip]);
    if target < count && target != ip {
      var inst := code[target];
      if inst.op == OP_JUMP {
        var final := GetJumpTarget(target, inst);
        if final <= count && final != target && final != ip {
          var diff := final - ip - 1;
          if -0x80_0000 <= diff <= 0x7F_FFFF {
            code[ip] := SetsAx(code[ip], diff);
            changed := true;
          }
        }
      } else if inst.op == OP_RET || inst.op == OP_RET_VOID {
        code[ip] := inst;
        changed := true;
      }
    }
  }

  method VisitRule10(code: array<Word>, count: nat, ip: nat) returns (changed: bool)
    requires ip < count <= code.Length
    modifies code
    ensures code[..count] == Rule10(old(code[..count]), ip)
    ensures !changed ==> code[..count] == old(code[..count])
  {
    changed := true;
    var inst := code[ip];
    if SelfZero(inst.op) && inst.b == inst.c {
      code[ip] := EncodeAsBx(OP_LOAD_IMM, inst.a, 0);
    } else if SelfOne(inst.op) && inst.b == inst.c {
      code[ip] := EncodeAsBx(OP_LOAD_IMM, inst.a, 1);
    } else if IsBinaryImm(inst.op) {
      var dst, src, imm := inst.a, inst.b, GetsC(inst);
      if (inst.op == OP_ADD_IMM || inst.op == OP_SUB_IMM || inst.op == OP_OR_IMM || inst.op == OP_XOR_IMM) &&
         imm == 0
      {
        code[ip] := if dst == src then NOP_WORD else Word(OP_MOVE, dst, src, 0);
      } else if inst.op == OP_MUL_IMM && imm == 1 {
        code[ip] := if dst == src then NOP_WORD else Word(OP_MOVE, dst, src, 0);
      } else if (inst.op == OP_MUL_IMM || inst.op == OP_AND_IMM) && imm == 0 {
        code[ip] := EncodeAsBx(OP_LOAD_IMM, dst, 0);
      } else if (inst.op == OP_SHL_IMM || inst.op == OP_SHR_S_IMM || inst.op == OP_SHR_U_IMM) &&
                inst.c % 64 == 0 {
        code[ip] := if dst == src then NOP_WORD else Word(OP_MOVE, dst, src, 0);
      } else {
        changed := false;
      }
    } else {
      changed := false;
    }
  }

  /** The in-place sweep over the first `count` slots. */
  method ThreadJumps(code: array<Word>, count: nat, isTarget: array<bool>) returns (changed: bool)
    requires count <= code.Length && count < isTarget.Length
    modifies code
    ensures code[..count] == Threaded(old(code[..count]), old(isTarget[..count + 1]), 0)
    ensures !changed ==> code[..count] == old(code[..count])
  {
    hide RulesAt;
    ghost var was, marks := code[..count], isTarget[..count + 1];
    changed := false;
    var ip := 0;
    while ip < count
      invariant Threaded(code[..count], marks, ip) == Threaded(was, marks, 0)
      invariant isTarget[..count + 1] == marks
      invariant !changed ==> code[..count] == was
      decreases count - ip
    {
      var slots := Slots(code[ip].op);
      var visited := Visit(code, count, isTarget, ip);
      changed := changed || visited;
      ip := ip + slots;
    }
  }
}
