/** Rules 8 and 11 of the peephole pass as code rewritings: a comparison and the branch on its result
    become one branch on the operands. The pass asks whether the result is dead behind the branch; it
    must also be dead where the branch goes. */
module BranchFusion {
  import opened Words
  import opened Bytecode
  import opened Layout
  import opened Vm
  import opened JumpTargets
  import opened ContractVm
  import opened ContractSteps
  import opened DeadCode
  import opened DeadRegisters
  import opened FusedBranches
  import JumpRules

  // ---- where a register is dead ---------------------------------------------------------------------

  /** A set of places at which one register is dead. */
  type Places = int -> bool

  /** Nothing reads the register at `ip`, and unless it is written there it is dead behind. */
  predicate DeadFlow(code: seq<Word>, reg: u8, dead: Places, ip: nat)
    requires ip < |code|
  {
    var w := code[ip];
    dead(ip) ==>
      !InstReadsReg(w, reg) &&
      ((WritesA(w.op) && w.a == reg) ||
       ((FallsThrough(code, ip) ==> dead(ip + Slots(w.op))) &&
        (IsBranch(w.op) ==> dead(ip + 1 + BranchOffset(w)))))
  }

  /** The liveness equations of one register, over all paths. */
  ghost predicate DeadPlaces(code: seq<Word>, reg: u8, dead: Places) {
    forall ip {:trigger DeadFlow(code, reg, dead, ip)} ::
      0 <= ip < |code| && Boundary(code, ip) ==> DeadFlow(code, reg, dead, ip)
  }

  function PlacesLink(reg: u8, dead: Places): Linkage {
    (ip: int, l: u8, r: u8) => l == r && (r != reg || !dead(ip))
  }

  lemma PlacesPair(c: Chunk, reg: u8, dead: Places, ip: nat)
    requires WellFormed(c.code) && DeadPlaces(c.code, reg, dead) && Boundary(c.code, ip) && ip < |c.code|
    ensures PairAt(c, c, PlacesLink(reg, dead), ip)
  {
    assert GoodAt(c.code, ip) && DeadFlow(c.code, reg, dead, ip);
    ScansAt(c.code, 0, ip);
    var k, w := PlacesLink(reg, dead), c.code[ip];
    if IsBranch(w.op) {
      assert FlowLinked(k, ip, ip + 1 + BranchOffset(w), w);
    }
    assert UsesLinked(k, ip, w);
    assert FallsThrough(c.code, ip) ==> FlowLinked(k, ip, ip + Slots(w.op), w);
    SamePair(c, c, k, ip);
  }

  /** The places that the pass's own scan finds dead may be added. */
  lemma ScannedPlaces(code: seq<Word>, marks: seq<bool>, reg: u8, dead: Places)
    requires |marks| == |code| + 1 && DeadPlaces(code, reg, dead)
    ensures DeadPlaces(code, reg, (i: int) => dead(i) || (i >= 0 && DeadAfter(code, marks, i, reg)))
  {
    var more := (i: int) => dead(i) || (i >= 0 && DeadAfter(code, marks, i, reg));
    forall ip | 0 <= ip < |code| && Boundary(code, ip) ensures DeadFlow(code, reg, more, ip) {
      assert DeadFlow(code, reg, dead, ip);
    }
  }

  // ---- one place where two programs differ ----------------------------------------------------------

  /** The instructions at `ip` and `ip + 1` are one-slot, and only `ip` leads to `ip + 1`. */
  ghost predicate PairSite(code: seq<Word>, marks: seq<bool>, ip: nat) {
    && WellFormed(code) && Covers(code, marks) && Boundary(code, ip) && ip + 1 < |code| && !marks[ip + 1]
    && Slots(code[ip].op) == 1 && Slots(code[ip + 1].op) == 1
  }

  ghost predicate PairsElsewhere(c: Chunk, d: Chunk, k: Linkage, ip: nat) {
    Recoded(c, d) &&
    forall i {:trigger PairAt(c, d, k, i)} ::
      0 <= i < |c.code| && Boundary(c.code, i) && i != ip && i != ip + 1 ==> PairAt(c, d, k, i)
  }

  /** From `ip` the original takes two steps, neither of which fails, to where the rewritten program
      comes in one or two. */
  ghost predicate SiteMatches(c: Chunk, d: Chunk, e: World, k: Linkage, s: Config, t: Config) {
    && CStep(c, e, s).Next? && CRun(c, e, s, 2).Next?
    && CRun(c, e, s, 2).config.frames == s.frames
    && CStep(d, e, t).Next?
    && (RelatedResult(c, k, CRun(c, e, s, 2), CStep(d, e, t)) ||
        RelatedResult(c, k, CRun(c, e, s, 2), CRun(d, e, t, 2)))
  }

  ghost predicate SiteAlways(c: Chunk, d: Chunk, e: World, k: Linkage, ip: nat) {
    forall s: Config, t: Config :: Related(c, k, s, t) && s.ip == ip ==> SiteMatches(c, d, e, k, s, t)
  }

  /** Control is not, and will not return, between the two instructions. */
  ghost predicate Outside(ip: nat, s: Config) {
    s.ip != ip + 1 && forall i :: 0 <= i < |s.frames| ==> s.frames[i].returnIp != ip + 1
  }

  /** Nothing else leads between them. */
  lemma NotBetween(code: seq<Word>, marks: seq<bool>, ip: nat, at: nat, i: int)
    requires PairSite(code, marks, ip) && Boundary(code, at) && at < |code| && at != ip && 0 <= i <= |code|
    requires EntersAt(code, at, i) || i == at + Slots(code[at].op)
    ensures i != ip + 1
  {
    if EntersAt(code, at, i) {
      assert IsTarget(code, i);
    } else if at < ip {
      NoBoundaryInside(code, 0, at, ip);
    } else {
      NoBoundaryInside(code, 0, ip, at);
    }
  }

  lemma StaysOutside(c: Chunk, e: World, marks: seq<bool>, ip: nat, s: Config)
    requires PairSite(c.code, marks, ip) && TerminatorsStop(e.host) && Outside(ip, s)
    requires 0 <= s.ip < |c.code| && Boundary(c.code, s.ip) && s.ip != ip && CStep(c, e, s).Next?
    ensures Outside(ip, CStep(c, e, s).config)
  {
    hide CStep;
    hide Perform;
    hide WellFormed;
    hide Covers;
    hide IsTarget;
    var w := c.code[s.ip];
    TargetsInside(c.code, marks, ip, s.ip);
    if IsReturn(w.op) {
      ReturnStep(c, e, s);
    } else if IsCall(w.op) {
      CallStep(c, e, s);
      NotBetween(c.code, marks, ip, s.ip, Payload(c.code[s.ip + 1]));
      NotBetween(c.code, marks, ip, s.ip, s.ip + 2);
    } else {
      PlainMoves(c, e, s);
      StepPerforms(c, e, s);
      PlainStep(c, e, s, w, PayloadAt(c.code, s.ip + 1), s.frames);
      NotBetween(c.code, marks, ip, s.ip, CStep(c, e, s).config.ip);
    }
  }

  lemma TargetsInside(code: seq<Word>, marks: seq<bool>, ip: nat, at: nat)
    requires PairSite(code, marks, ip) && Boundary(code, at) && at < |code|
    ensures at + Slots(code[at].op) <= |code|
    ensures IsBranch(code[at].op) ==>
              0 <= at + 1 + BranchOffset(code[at]) <= |code| && EntersAt(code, at, at + 1 + BranchOffset(code[at]))
    ensures IsCall(code[at].op) ==>
              Payload(code[at + 1]) <= |code| && EntersAt(code, at, Payload(code[at + 1]))
  {
    assert GoodAt(code, at);
  }

  /** After the two steps at the site control is outside again. */
  lemma LeavesSite(c: Chunk, e: World, marks: seq<bool>, ip: nat, s: Config)
    requires PairSite(c.code, marks, ip) && s.ip == ip && Outside(ip, s)
    requires !IsBranch(c.code[ip].op) && IsBoolJump(c.code[ip + 1].op)
    requires IsCompute(c.code[ip].op)
    requires CStep(c, e, s).Next? && CRun(c, e, s, 2).Next? && CRun(c, e, s, 2).config.frames == s.frames
    ensures Outside(ip, CRun(c, e, s, 2).config)
  {
    hide Perform;
    hide WellFormed;
    hide Covers;
    MeetsNext(c.code, 0, ip);
    TargetsInside(c.code, marks, ip, ip + 1);
    ComputeMoves(c, e, s);
    var x := CStep(c, e, s).config;
    BranchMoves(c, e, x);
    assert CRun(c, e, s, 2) == CRun(c, e, x, 1);
    OneRun(c, e, x);
    TargetUnmarked(c.code, marks, ip);
  }

  lemma TargetUnmarked(code: seq<Word>, marks: seq<bool>, ip: nat)
    requires PairSite(code, marks, ip) && Boundary(code, ip + 1) && IsBranch(code[ip + 1].op)
    requires 0 <= ip + 2 + BranchOffset(code[ip + 1]) <= |code|
    ensures ip + 2 + BranchOffset(code[ip + 1]) != ip + 1
  {
    assert EntersAt(code, ip + 1, ip + 2 + BranchOffset(code[ip + 1]));
    assert IsTarget(code, ip + 2 + BranchOffset(code[ip + 1]));
  }

  lemma ComputeMoves(c: Chunk, e: World, s: Config)
    requires 0 <= s.ip < |c.code| && IsCompute(c.code[s.ip].op) && CStep(c, e, s).Next?
    ensures CStep(c, e, s).config.ip == s.ip + 1
  {
    hide Compute;
  }

  lemma BranchMoves(c: Chunk, e: World, s: Config)
    requires 0 <= s.ip < |c.code| && IsBranch(c.code[s.ip].op)
    ensures var w := c.code[s.ip];
            CStep(c, e, s) ==
            Next(s.(ip := s.ip + 1 + if Taken(w, s.regs[w.a], s.regs[w.b]) then BranchOffset(w) else 0))
  {
  }

  // ---- whole runs -----------------------------------------------------------------------------------

  /** One or two steps of the original against one or two of the rewritten program. */
  ghost predicate Advance(c: Chunk, d: Chunk, e: World, k: Linkage, ip: nat, s: Config, t: Config, n: nat, m: nat) {
    && 1 <= n <= 2 && 1 <= m <= 2
    && (n == 2 ==> CRun(c, e, s, 2).Next?) && (m == 2 ==> CStep(d, e, t).Next?)
    && RelatedResult(c, k, CRun(c, e, s, n), CRun(d, e, t, m))
    && (CRun(c, e, s, n).Next? ==> Outside(ip, CRun(c, e, s, n).config))
  }

  ghost predicate FusedSite(c: Chunk, d: Chunk, e: World, marks: seq<bool>, k: Linkage, ip: nat) {
    && PairSite(c.code, marks, ip) && IsCompute(c.code[ip].op) && IsBoolJump(c.code[ip + 1].op)
    && PairsElsewhere(c, d, k, ip) && SiteAlways(c, d, e, k, ip) && TerminatorsStop(e.host)
  }

  lemma Advances(c: Chunk, d: Chunk, e: World, marks: seq<bool>, k: Linkage, ip: nat, s: Config, t: Config)
      returns (n: nat, m: nat)
    requires FusedSite(c, d, e, marks, k, ip) && Related(c, k, s, t) && Outside(ip, s)
    ensures Advance(c, d, e, k, ip, s, t, n, m)
  {
    hide CStep;
    hide PairAt;
    RelatedIp(c, k, s, t);
    if s.ip == ip {
      assert SiteMatches(c, d, e, k, s, t);
      LeavesSite(c, e, marks, ip, s);
      n := 2;
      OneRun(d, e, t);
      m := if RelatedResult(c, k, CRun(c, e, s, 2), CStep(d, e, t)) then 1 else 2;
    } else {
      n := 1;
      OneRun(c, e, s);
      m := PairSimulates(c, d, e, k, s, t);
      if CStep(c, e, s).Next? {
        InsideCode(c, e, s);
        StaysOutside(c, e, marks, ip, s);
      }
    }
  }

  lemma InsideCode(c: Chunk, e: World, s: Config)
    requires CStep(c, e, s).Next?
    ensures 0 <= s.ip < |c.code|
  {
  }

  lemma {:induction false} OriginalEnds(c: Chunk, d: Chunk, e: World, marks: seq<bool>, k: Linkage, ip: nat,
                                        s: Config, t: Config, i: nat)
      returns (j: nat)
    requires FusedSite(c, d, e, marks, k, ip) && Related(c, k, s, t) && Outside(ip, s)
    requires !CRun(c, e, s, i).Next?
    ensures CRun(d, e, t, j) == CRun(c, e, s, i)
    decreases i
  {
    hide CStep;
    hide FusedSite;
    hide Related;
    hide Outside;
    var n, m := Advances(c, d, e, marks, k, ip, s, t);
    j := m;
    if CRun(c, e, s, n).Next? {
      if i <= n { CRunPrefix(c, e, s, i, n); }
      CRunCompose(c, e, s, n, i - n);
      var x, y := CRun(c, e, s, n).config, CRun(d, e, t, m).config;
      var rest := OriginalEnds(c, d, e, marks, k, ip, x, y, i - n);
      CRunCompose(d, e, t, m, rest);
      j := m + rest;
    } else {
      CRunStable(c, e, s, if i < n then i else n, if i < n then n else i);
    }
  }

  lemma {:induction false} RewrittenEnds(c: Chunk, d: Chunk, e: World, marks: seq<bool>, k: Linkage, ip: nat,
                                         s: Config, t: Config, j: nat)
      returns (i: nat)
    requires FusedSite(c, d, e, marks, k, ip) && Related(c, k, s, t) && Outside(ip, s)
    requires !CRun(d, e, t, j).Next?
    ensures CRun(d, e, t, j) == CRun(c, e, s, i)
    decreases j
  {
    hide CStep;
    hide FusedSite;
    hide Related;
    hide Outside;
    var n, m := Advances(c, d, e, marks, k, ip, s, t);
    i := n;
    if CRun(c, e, s, n).Next? {
      if j <= m { CRunPrefix(d, e, t, j, m); }
      CRunCompose(d, e, t, m, j - m);
      var x, y := CRun(c, e, s, n).config, CRun(d, e, t, m).config;
      var rest := RewrittenEnds(c, d, e, marks, k, ip, x, y, j - m);
      CRunCompose(c, e, s, n, rest);
      i := n + rest;
    } else {
      CRunStable(d, e, t, if j < m then j else m, if j < m then m else j);
    }
  }

  lemma FusedBehavesAlike(c: Chunk, d: Chunk, e: World, marks: seq<bool>, k: Linkage, ip: nat, s: Config)
    requires FusedSite(c, d, e, marks, k, ip) && Starts(c, s) && Enters(k, 0)
    ensures CSame(c, s, d, s, e)
  {
    hide CStep;
    hide FusedSite;
    StartsRelated(c, k, s);
    forall o: Result ensures CEndsAlike(c, s, d, s, e, o) {
      if CEnds(c, e, s, o) {
        var n: nat :| CRun(c, e, s, n) == o;
        var m := OriginalEnds(c, d, e, marks, k, ip, s, s, n);
      }
      if CEnds(d, e, s, o) {
        var m: nat :| CRun(d, e, s, m) == o;
        var n := RewrittenEnds(c, d, e, marks, k, ip, s, s, m);
        assert CRun(c, e, s, n) == o;
      }
    }
  }

  // ---- the rules ------------------------------------------------------------------------------------

  /** The branch at `ip + 1` goes this far beyond `ip + 2`, counted from its target. */
  function Reach(code: seq<Word>, ip: nat): int
    requires ip + 1 < |code|
  {
    GetJumpTarget(ip + 1, code[ip + 1]) - ip - 2
  }

  predicate IsZeroTest(w: Word) { (w.op == OP_EQ_IMM || w.op == OP_NEQ_IMM) && GetsC(w) == 0 }

  predicate Rule8Applies(code: seq<Word>, marks: seq<bool>, ip: nat)
    requires |marks| == |code| + 1
  {
    ip + 1 < |code| && !marks[ip + 1] && IsZeroTest(code[ip]) && IsBoolJump(code[ip + 1].op) &&
    code[ip + 1].a == code[ip].a && FitsImm16(Reach(code, ip))
  }

  /** The branch on the operand of the test. */
  function ZeroFused(code: seq<Word>, ip: nat): Word
    requires ip + 1 < |code|
  {
    EncodeAsBx(ZeroFusedOp(code[ip].op == OP_EQ_IMM, code[ip + 1].op == OP_JUMP_IF_TRUE), code[ip].b,
               Reach(code, ip))
  }

  /** The test goes if its result is dead behind the branch. */
  function Rule8(code: seq<Word>, marks: seq<bool>, ip: nat): (r: seq<Word>)
    requires |marks| == |code| + 1 && ip + 1 < |code|
    ensures |r| == |code|
  {
    var q := code[ip + 1 := ZeroFused(code, ip)];
    if DeadAfter(q, marks, ip + 2, code[ip].a) then q[ip := NOP_WORD] else q
  }

  predicate Rule11Applies(code: seq<Word>, marks: seq<bool>, ip: nat)
    requires |marks| == |code| + 1
  {
    ip + 1 < |code| && !marks[ip + 1] && (IsRegCompare(code[ip].op) || IsImmCompare(code[ip].op)) &&
    IsBoolJump(code[ip + 1].op) && code[ip + 1].a == code[ip].a &&
    DeadAfter(code, marks, ip + 2, code[ip].a) && FitsImm8(Reach(code, ip) + 1)
  }

  function Rule11(code: seq<Word>, ip: nat): (r: seq<Word>)
    requires ip + 1 < |code|
    ensures |r| == |code|
  {
    code[ip := FusedWord(code[ip], code[ip + 1].op == OP_JUMP_IF_TRUE, (Reach(code, ip) + 1) % 0x100)]
        [ip + 1 := NOP_WORD]
  }

  method FuseZeroTest(code: array<Word>, count: nat, isTarget: array<bool>, ip: nat) returns (changed: bool)
    requires ip < count <= code.Length && count < isTarget.Length
    modifies code
    ensures changed == Rule8Applies(old(code[..count]), isTarget[..count + 1], ip)
    ensures code[..count] == if changed then Rule8(old(code[..count]), isTarget[..count + 1], ip)
                             else old(code[..count])
  {
    changed := false;
    var inst := code[ip];
    if (inst.op == OP_EQ_IMM || inst.op == OP_NEQ_IMM) && ip + 1 < count && !isTarget[ip + 1] && GetsC(inst) == 0 {
      var next := code[ip + 1];
      if IsBoolJump(next.op) && next.a == inst.a {
        var diff := GetJumpTarget(ip + 1, next) - (ip + 1) - 1;
        if -0x8000 <= diff <= 0x7FFF {
          var fused := ZeroFusedOp(inst.op == OP_EQ_IMM, next.op == OP_JUMP_IF_TRUE);
          code[ip + 1] := EncodeAsBx(fused, inst.b, diff);
          var dead := IsRegDeadAfter(code, count, ip + 2, inst.a, isTarget);
          if dead { code[ip] := NOP_WORD; }
          changed := true;
        }
      }
    }
  }

  method FuseBranch(code: array<Word>, count: nat, isTarget: array<bool>, ip: nat) returns (changed: bool)
    requires ip < count <= code.Length && count < isTarget.Length
    modifies code
    ensures changed == Rule11Applies(old(code[..count]), isTarget[..count + 1], ip)
    ensures code[..count] == if changed then Rule11(old(code[..count]), ip) else old(code[..count])
  {
    changed := false;
    var inst := code[ip];
    if Slots(inst.op) == 1 && ip + 1 < count && !isTarget[ip + 1] {
      var next := code[ip + 1];
      if IsBoolJump(next.op) && next.a == inst.a {
        var dead := IsRegDeadAfter(code, count, ip + 2, inst.a, isTarget);
        if dead {
          var fused := FuseCmpJump(inst.op, next.op == OP_JUMP_IF_TRUE);
          if fused != OP_NOP {
            var diff := GetJumpTarget(ip + 1, next) - ip - 1;
            if -0x80 <= diff <= 0x7F {
              code[ip] := Word(fused, inst.b, inst.c, diff % 0x100);
              code[ip + 1] := NOP_WORD;
              changed := true;
            }
          }
        }
      }
    }
  }

  // ---- the rules keep behaviour ---------------------------------------------------------------------

  /** Where the branch at `ip + 1` goes. */
  function GoesTo(code: seq<Word>, ip: nat): int
    requires ip + 1 < |code|
  {
    ip + 2 + BranchOffset(code[ip + 1])
  }

  /** The test is kept in front of the branch on its operand: it leaves the operand alone, or the branch
      reads its result as it reads the operand, or goes nowhere else anyway. */
  predicate KeptRight(code: seq<Word>, ip: nat)
    requires ip + 1 < |code|
  {
    code[ip].b != code[ip].a || code[ip].op == OP_NEQ_IMM || Reach(code, ip) == 0
  }

  /** The fused branch decides as the comparison, or goes nowhere else anyway. */
  predicate FusedRight(code: seq<Word>, ip: nat)
    requires ip + 1 < |code|
  {
    !((code[ip].op == OP_EQ_IMM || code[ip].op == OP_NEQ_IMM) && GetsC(code[ip]) < 0) || Reach(code, ip) == 0
  }

  predicate Removes(code: seq<Word>, marks: seq<bool>, ip: nat)
    requires |marks| == |code| + 1 && ip + 1 < |code|
  {
    Rule8(code, marks, ip)[ip].op == OP_NOP
  }

  /** What the two rewritings need beyond what the pass checks: a removed result is dead at the branch
      target too, and a fused or kept comparison decides as before. */
  ghost predicate Rule8Safe(code: seq<Word>, marks: seq<bool>, ip: nat, dead: Places)
    requires |marks| == |code| + 1 && ip + 1 < |code|
  {
    if Removes(code, marks, ip) then DeadPlaces(code, code[ip].a, dead) && dead(GoesTo(code, ip))
    else KeptRight(code, ip)
  }

  ghost predicate Rule11Safe(code: seq<Word>, ip: nat, dead: Places)
    requires ip + 1 < |code|
  {
    DeadPlaces(code, code[ip].a, dead) && dead(GoesTo(code, ip)) && FusedRight(code, ip)
  }

  /** The scan looks at what lies ahead only. */
  lemma {:induction false} DeadAhead(p: seq<Word>, q: seq<Word>, marks: seq<bool>, i: nat, reg: u8)
    requires |marks| == |p| + 1 && |q| == |p| && (i <= |p| ==> p[i..] == q[i..])
    ensures DeadAfter(p, marks, i, reg) == DeadAfter(q, marks, i, reg)
    decreases |p| - i
  {
    if i < |p| {
      assert p[i] == p[i..][0] == q[i..][0] == q[i];
      if i + 1 < |p| { assert p[i + 1] == p[i..][1] == q[i..][1] == q[i + 1]; }
      assert forall n: nat :: i + n <= |p| ==> p[i + n..] == p[i..][n..] && q[i + n..] == q[i..][n..];
      DeadAhead(p, q, marks, i + 1, reg);
      DeadAhead(p, q, marks, i + Slots(p[i].op), reg);
    }
  }

  /** The comparison stores 0 or 1, whatever the operands hold. */
  lemma ComparisonStep(c: Chunk, e: World, s: Config)
    requires 0 <= s.ip < |c.code| && (IsRegCompare(c.code[s.ip].op) || IsImmCompare(c.code[s.ip].op))
    ensures var w := c.code[s.ip];
            CompareValue(e.host, w, s.regs[w.b], s.regs[w.c]).Some? &&
            CStep(c, e, s) ==
            Next(s.(ip := s.ip + 1,
                    regs := s.regs[w.a := CompareValue(e.host, w, s.regs[w.b], s.regs[w.c]).value]))
  {
    hide UnaryOp;
  }

  /** The two steps of the original: the result is stored, and tested. */
  lemma TestedSteps(c: Chunk, e: World, s: Config)
    requires 0 <= s.ip && s.ip + 1 < |c.code| && (IsRegCompare(c.code[s.ip].op) || IsImmCompare(c.code[s.ip].op))
    requires IsBoolJump(c.code[s.ip + 1].op) && c.code[s.ip + 1].a == c.code[s.ip].a
    ensures var w, next := c.code[s.ip], c.code[s.ip + 1];
            var value := CompareValue(e.host, w, s.regs[w.b], s.regs[w.c]);
            value.Some? &&
            var goes := (next.op == OP_JUMP_IF_TRUE) == (value.value != 0);
            CStep(c, e, s) == Next(s.(ip := s.ip + 1, regs := s.regs[w.a := value.value])) &&
            CRun(c, e, s, 2) ==
            Next(s.(ip := if goes then GoesTo(c.code, s.ip) else s.ip + 2, regs := s.regs[w.a := value.value]))
  {
    hide CStep;
    hide CompareValue;
    hide BranchOffset;
    ComparisonStep(c, e, s);
    var x := CStep(c, e, s).config;
    BranchMoves(c, e, x);
    OneRun(c, e, x);
    assert CRun(c, e, s, 2) == CRun(c, e, x, 1);
  }

  /** The branch on the operand. */
  lemma FusedStep(d: Chunk, e: World, t: Config, op: u8, b: u8, offset: int)
    requires 0 <= t.ip < |d.code| && d.code[t.ip] == EncodeAsBx(op, b, offset) && IsBoolJump(op) && FitsImm16(offset)
    ensures CStep(d, e, t) ==
            Next(t.(ip := t.ip + 1 + if (op == OP_JUMP_IF_TRUE) == (t.regs[b] != 0) then offset else 0))
  {
    hide CStep;
    FieldBx(Word(op, b, 0, 0), offset);
    BranchMoves(d, e, t);
  }

  lemma NopMoves(c: Chunk, e: World, s: Config)
    requires 0 <= s.ip < |c.code| && c.code[s.ip].op == OP_NOP
    ensures CStep(c, e, s) == Next(s.(ip := s.ip + 1))
  {
  }

  lemma TwoSteps(c: Chunk, e: World, s: Config)
    requires CStep(c, e, s).Next?
    ensures CRun(c, e, s, 2) == CStep(c, e, CStep(c, e, s).config)
  {
    hide CStep;
    OneRun(c, e, CStep(c, e, s).config);
  }

  /** The zero test and its replacement decide alike. */
  lemma ZeroDecides(h: Host, w: Word, jumpOnTrue: bool, x: u64, y: u64)
    requires IsZeroTest(w)
    ensures CompareValue(h, w, x, y) == Some(Bool((w.op == OP_EQ_IMM) == (x == 0)))
    ensures ((ZeroFusedOp(w.op == OP_EQ_IMM, jumpOnTrue) == OP_JUMP_IF_TRUE) == (x != 0)) ==
            (jumpOnTrue == (Bool((w.op == OP_EQ_IMM) == (x == 0)) != 0))
    ensures w.op == OP_NEQ_IMM ==> (x != 0) == (Bool(x != 0) != 0)
  {
  }

  /** Registers that are linked before the site are linked behind it, the result where it is not dead. */
  lemma LinkedBehind(reg: u8, dead: Places, ip: int, to: int, x: Registers, y: Registers, value: u64)
    requires Linked(PlacesLink(reg, dead), ip, x, y)
    ensures dead(to) ==> Linked(PlacesLink(reg, dead), to, x[reg := value], y)
    ensures Linked(PlacesLink(reg, dead), to, x[reg := value], y[reg := value])
  {
    forall l: u8, r: u8 | PlacesLink(reg, dead)(to, l, r) && r != reg ensures y[l] == x[r] {
      assert PlacesLink(reg, dead)(ip, l, r);
    }
  }

  lemma OperandLinked(code: seq<Word>, reg: u8, dead: Places, ip: nat, x: Registers, y: Registers, r: u8)
    requires ip < |code| && DeadFlow(code, reg, dead, ip) && InstReadsReg(code[ip], r)
    requires Linked(PlacesLink(reg, dead), ip, x, y)
    ensures y[r] == x[r]
  {
    assert PlacesLink(reg, dead)(ip, r, r);
  }

  /** Related but for the registers and the place. */
  lemma RelatedBehind(c: Chunk, k: Linkage, s: Config, t: Config, to: nat, x: Registers, y: Registers)
    requires Related(c, k, s, t) && to <= |c.code| && Boundary(c.code, to) && Linked(k, to, x, y)
    ensures Related(c, k, s.(ip := to, regs := x), t.(ip := to, regs := y))
  {
  }

  /** Behind the site: the fall-through and the branch target. */
  lemma SiteEnds(code: seq<Word>, marks: seq<bool>, ip: nat)
    requires PairSite(code, marks, ip) && IsBoolJump(code[ip + 1].op)
    ensures Boundary(code, ip + 1) && Boundary(code, ip + 2) && ip + 2 <= |code|
    ensures 0 <= GoesTo(code, ip) <= |code| && Boundary(code, GoesTo(code, ip))
    ensures GetJumpTarget(ip + 1, code[ip + 1]) == GoesTo(code, ip) && Reach(code, ip) == BranchOffset(code[ip + 1])
  {
    MeetsNext(code, 0, ip);
    MeetsNext(code, 0, ip + 1);
    assert GoodAt(code, ip + 1);
    ScansAt(code, 0, ip + 1);
  }

  /** What the rewritten program has come to when the original is behind the site: control at the same
      place, and the result stored or not. */
  ghost predicate ComesBehind(d: Chunk, e: World, t: Config, to: int, stored: bool, reg: u8, value: u64) {
    && CStep(d, e, t).Next?
    && var y := t.(ip := to, regs := if stored then t.regs[reg := value] else t.regs);
       CStep(d, e, t) == Next(y) || CRun(d, e, t, 2) == Next(y)
  }

  lemma SiteFromEnds(c: Chunk, d: Chunk, e: World, marks: seq<bool>, dead: Places, ip: nat, s: Config, t: Config,
                     stored: bool)
    requires PairSite(c.code, marks, ip) && Related(c, PlacesLink(c.code[ip].a, dead), s, t) && s.ip == ip
    requires IsRegCompare(c.code[ip].op) || IsImmCompare(c.code[ip].op)
    requires IsBoolJump(c.code[ip + 1].op) && c.code[ip + 1].a == c.code[ip].a
    requires stored || (dead(ip + 2) && dead(GoesTo(c.code, ip)))
    requires var w := c.code[ip];
             var value := CompareValue(e.host, w, s.regs[w.b], s.regs[w.c]);
             value.Some? &&
             var goes := (c.code[ip + 1].op == OP_JUMP_IF_TRUE) == (value.value != 0);
             ComesBehind(d, e, t, if goes then GoesTo(c.code, ip) else ip + 2, stored, w.a, value.value)
    ensures SiteMatches(c, d, e, PlacesLink(c.code[ip].a, dead), s, t)
  {
    hide CStep;
    hide CRun;
    hide CompareValue;
    hide Related;
    hide PairSite;
    hide GoesTo;
    PairInside(c.code, marks, ip);
    var w, k := c.code[ip], PlacesLink(c.code[ip].a, dead);
    RelatedIp(c, k, s, t);
    TestedSteps(c, e, s);
    SiteEnds(c.code, marks, ip);
    var x := CRun(c, e, s, 2).config;
    RelatedLinked(c, k, s, t);
    LinkedBehind(w.a, dead, ip, x.ip, s.regs, t.regs, x.regs[w.a]);
    RelatedBehind(c, k, s, t, x.ip, x.regs, if stored then t.regs[w.a := x.regs[w.a]] else t.regs);
  }

  lemma PairInside(code: seq<Word>, marks: seq<bool>, ip: nat)
    requires PairSite(code, marks, ip)
    ensures ip + 1 < |code| && |marks| == |code| + 1
  {
  }

  lemma RelatedLinked(c: Chunk, k: Linkage, s: Config, t: Config)
    requires Related(c, k, s, t)
    ensures Linked(k, s.ip, s.regs, t.regs)
  {
  }

  /** Rule 8 in the rewritten program: the test, if it is kept, then the branch on its operand. */
  lemma ZeroFusedRuns(c: Chunk, d: Chunk, e: World, marks: seq<bool>, ip: nat, s: Config, t: Config)
    requires PairSite(c.code, marks, ip) && Rule8Applies(c.code, marks, ip)
    requires d == c.(code := Rule8(c.code, marks, ip))
    requires t.ip == ip && t.regs[c.code[ip].b] == s.regs[c.code[ip].b]
    requires d.code[ip] != NOP_WORD ==> KeptRight(c.code, ip)
    ensures var w := c.code[ip];
            var value := CompareValue(e.host, w, s.regs[w.b], s.regs[w.c]);
            value.Some? &&
            var goes := (c.code[ip + 1].op == OP_JUMP_IF_TRUE) == (value.value != 0);
            ComesBehind(d, e, t, if goes then GoesTo(c.code, ip) else ip + 2, d.code[ip] != NOP_WORD, w.a,
                        value.value)
  {
    hide CStep;
    hide CompareValue;
    hide BranchOffset;
    hide DeadAfter;
    var w, jumpOnTrue := c.code[ip], c.code[ip + 1].op == OP_JUMP_IF_TRUE;
    SiteEnds(c.code, marks, ip);
    var x := s.regs[w.b];
    ZeroDecides(e.host, w, jumpOnTrue, x, s.regs[w.c]);
    ZeroDecides(e.host, w, jumpOnTrue, x, t.regs[w.c]);
    var fused := ZeroFusedOp(w.op == OP_EQ_IMM, jumpOnTrue);
    assert d.code[ip + 1] == EncodeAsBx(fused, w.b, Reach(c.code, ip));
    if d.code[ip] == NOP_WORD {
      NopMoves(d, e, t);
    } else {
      assert d.code[ip] == w;
      ComparisonStep(d, e, t);
    }
    TwoSteps(d, e, t);
    FusedStep(d, e, CStep(d, e, t).config, fused, w.b, Reach(c.code, ip));
  }

  lemma ComparisonHasValue(h: Host, w: Word, x: u64, y: u64)
    requires IsRegCompare(w.op) || IsImmCompare(w.op)
    ensures CompareValue(h, w, x, y).Some?
  {
  }

  /** Rule 11: the fused branch, and a NOP if it is not taken. */
  lemma BranchFusedRuns(c: Chunk, d: Chunk, e: World, marks: seq<bool>, ip: nat, s: Config, t: Config)
    requires PairSite(c.code, marks, ip) && Rule11Applies(c.code, marks, ip)
    requires d == c.(code := Rule11(c.code, ip))
    requires t.ip == ip && t.regs[c.code[ip].b] == s.regs[c.code[ip].b]
    requires IsRegCompare(c.code[ip].op) ==> t.regs[c.code[ip].c] == s.regs[c.code[ip].c]
    requires FusedRight(c.code, ip)
    ensures var w := c.code[ip];
            var value := CompareValue(e.host, w, s.regs[w.b], s.regs[w.c]);
            value.Some? &&
            var goes := (c.code[ip + 1].op == OP_JUMP_IF_TRUE) == (value.value != 0);
            ComesBehind(d, e, t, if goes then GoesTo(c.code, ip) else ip + 2, false, w.a, value.value)
  {
    hide CStep;
    hide CompareValue;
    hide BranchOffset;
    hide DeadAfter;
    hide Taken;
    var w, jumpOnTrue := c.code[ip], c.code[ip + 1].op == OP_JUMP_IF_TRUE;
    SiteEnds(c.code, marks, ip);
    var offset := (Reach(c.code, ip) + 1) % 0x100;
    var v := FusedWord(w, jumpOnTrue, offset);
    ComparisonHasValue(e.host, w, s.regs[w.b], s.regs[w.c]);
    if Reach(c.code, ip) != 0 { FusionRight(e.host, w, jumpOnTrue, offset, s.regs[w.b], s.regs[w.c]); }
    FusedFields(w, jumpOnTrue, offset, Reach(c.code, ip) + 1, t.regs, s.regs);
    assert d.code[ip] == v && d.code[ip + 1] == NOP_WORD;
    BranchMoves(d, e, t);
    TwoSteps(d, e, t);
    if !Taken(v, t.regs[v.a], t.regs[v.b]) {
      NopMoves(d, e, CStep(d, e, t).config);
    }
  }

  lemma FusedFields(w: Word, jumpOnTrue: bool, offset: u8, reach: int, x: Registers, y: Registers)
    requires IsRegCompare(w.op) || IsImmCompare(w.op)
    requires FitsImm8(reach) && offset == reach % 0x100
    requires x[w.b] == y[w.b] && (IsRegCompare(w.op) ==> x[w.c] == y[w.c])
    ensures var v := FusedWord(w, jumpOnTrue, offset);
            IsBranch(v.op) && BranchOffset(v) == reach && v.a == w.b &&
            Taken(v, x[v.a], x[v.b]) == Taken(v, y[w.b], y[w.c])
  {
    var v := FusedWord(w, jumpOnTrue, offset);
    FieldC(v, reach);
    assert IsImmCompare(w.op) ==> IsImmJump(v.op);
    assert IsRegCompare(w.op) ==> IsRegJump(v.op);
  }

  /** Away from the site nothing has changed. */
  lemma SameAway(c: Chunk, d: Chunk, marks: seq<bool>, reg: u8, dead: Places, ip: nat)
    requires PairSite(c.code, marks, ip) && DeadPlaces(c.code, reg, dead) && Recoded(c, d)
    requires forall i :: 0 <= i < |c.code| && i != ip && i != ip + 1 ==> d.code[i] == c.code[i]
    ensures PairsElsewhere(c, d, PlacesLink(reg, dead), ip)
  {
    hide PairAt;
    hide DeadPlaces;
    var k := PlacesLink(reg, dead);
    SlotAfter(c.code, marks, ip);
    forall i | 0 <= i < |c.code| && Boundary(c.code, i) && i != ip && i != ip + 1 ensures PairAt(c, d, k, i) {
      PlacesPair(c, reg, dead, i);
      if Slots(c.code[i].op) == 2 {
        if i < ip { NoBoundaryInside(c.code, 0, i, ip); }
        ScansAt(c.code, 0, i);
      }
      PairKept(c, d, k, i);
    }
  }

  lemma SlotAfter(code: seq<Word>, marks: seq<bool>, ip: nat)
    requires PairSite(code, marks, ip)
    ensures Boundary(code, ip + 1) && Scans(code, 0) && WellFormed(code)
  {
    MeetsNext(code, 0, ip);
  }

  /** Removed or not, the zero test and its branch can be fused without anybody noticing, if the result is
      dead at the branch target too. */
  lemma Rule8PreservesBehaviour(c: Chunk, e: World, marks: seq<bool>, ip: nat, dead: Places, s: Config)
    requires PairSite(c.code, marks, ip) && Rule8Applies(c.code, marks, ip)
    requires Rule8Safe(c.code, marks, ip, dead) && TerminatorsStop(e.host) && Starts(c, s)
    ensures CSame(c, s, c.(code := Rule8(c.code, marks, ip)), s, e)
  {
    hide PairSite;
    hide DeadPlaces;
    hide CStep;
    hide ComesBehind;
    hide DeadAfter;
    hide SiteMatches;
    hide CompareValue;
    PairInside(c.code, marks, ip);
    var d, reg := c.(code := Rule8(c.code, marks, ip)), c.code[ip].a;
    var places := Rule8Places(c.code, marks, ip, dead);
    var k := PlacesLink(reg, places);
    forall u: Config, v: Config | Related(c, k, u, v) && u.ip == ip ensures SiteMatches(c, d, e, k, u, v) {
      RelatedLinked(c, k, u, v);
      assert InstReadsReg(c.code[ip], c.code[ip].b);
      SiteFlow(c.code, marks, ip, reg, places);
      OperandLinked(c.code, reg, places, ip, u.regs, v.regs, c.code[ip].b);
      RelatedIp(c, k, u, v);
      ZeroFusedRuns(c, d, e, marks, ip, u, v);
      SiteFromEnds(c, d, e, marks, places, ip, u, v, d.code[ip] != NOP_WORD);
    }
    SameAway(c, d, marks, reg, places, ip);
    FusedBehavesAlike(c, d, e, marks, k, ip, s);
  }

  lemma SiteFlow(code: seq<Word>, marks: seq<bool>, ip: nat, reg: u8, dead: Places)
    requires PairSite(code, marks, ip) && DeadPlaces(code, reg, dead)
    ensures DeadFlow(code, reg, dead, ip)
  {
  }

  /** The places with which rule 8 is proved: none if the test is kept. */
  lemma Rule8Places(code: seq<Word>, marks: seq<bool>, ip: nat, dead: Places) returns (places: Places)
    requires PairSite(code, marks, ip) && Rule8Applies(code, marks, ip) && Rule8Safe(code, marks, ip, dead)
    ensures DeadPlaces(code, code[ip].a, places)
    ensures Rule8(code, marks, ip)[ip] == NOP_WORD ==> places(ip + 2) && places(GoesTo(code, ip))
    ensures Rule8(code, marks, ip)[ip] != NOP_WORD ==> KeptRight(code, ip)
  {
    var reg, q := code[ip].a, code[ip + 1 := ZeroFused(code, ip)];
    if Rule8(code, marks, ip)[ip] == NOP_WORD {
      assert ip + 2 <= |code| ==> code[ip + 2..] == q[ip + 2..];
      DeadAhead(code, q, marks, ip + 2, reg);
      ScannedPlaces(code, marks, reg, dead);
      places := (i: int) => dead(i) || (i >= 0 && DeadAfter(code, marks, i, reg));
    } else {
      places := (i: int) => false;
      assert forall i {:trigger DeadFlow(code, reg, places, i)} :: 0 <= i < |code| ==> DeadFlow(code, reg, places, i);
    }
  }

  lemma Rule11PreservesBehaviour(c: Chunk, e: World, marks: seq<bool>, ip: nat, dead: Places, s: Config)
    requires PairSite(c.code, marks, ip) && Rule11Applies(c.code, marks, ip)
    requires Rule11Safe(c.code, ip, dead) && TerminatorsStop(e.host) && Starts(c, s)
    ensures CSame(c, s, c.(code := Rule11(c.code, ip)), s, e)
  {
    hide PairSite;
    hide DeadPlaces;
    hide CStep;
    hide ComesBehind;
    hide DeadAfter;
    hide SiteMatches;
    hide CompareValue;
    PairInside(c.code, marks, ip);
    var d, reg := c.(code := Rule11(c.code, ip)), c.code[ip].a;
    ScannedPlaces(c.code, marks, reg, dead);
    var places := (i: int) => dead(i) || (i >= 0 && DeadAfter(c.code, marks, i, reg));
    var k := PlacesLink(reg, places);
    forall u: Config, v: Config | Related(c, k, u, v) && u.ip == ip ensures SiteMatches(c, d, e, k, u, v) {
      RelatedLinked(c, k, u, v);
      ComparisonReads(c.code[ip]);
      SiteFlow(c.code, marks, ip, reg, places);
      OperandLinked(c.code, reg, places, ip, u.regs, v.regs, c.code[ip].b);
      if IsRegCompare(c.code[ip].op) {
        OperandLinked(c.code, reg, places, ip, u.regs, v.regs, c.code[ip].c);
      }
      RelatedIp(c, k, u, v);
      BranchFusedRuns(c, d, e, marks, ip, u, v);
      SiteFromEnds(c, d, e, marks, places, ip, u, v, false);
    }
    SameAway(c, d, marks, reg, places, ip);
    FusedBehavesAlike(c, d, e, marks, k, ip, s);
  }

  lemma ComparisonReads(w: Word)
    requires IsRegCompare(w.op) || IsImmCompare(w.op)
    ensures InstReadsReg(w, w.b) && (IsRegCompare(w.op) ==> InstReadsReg(w, w.c)) && IsCompute(w.op)
  {
  }

  // ---- the rewritten code ---------------------------------------------------------------------------

  /** Both rules keep the code well formed, and the marks collected before cover it. */
  lemma Rule8Sound(code: seq<Word>, marks: seq<bool>, ip: nat)
    requires PairSite(code, marks, ip) && Rule8Applies(code, marks, ip)
    ensures JumpRules.Sound(code, Rule8(code, marks, ip), marks)
  {
    hide BranchOffset;
    hide DeadAfter;
    SiteEnds(code, marks, ip);
    var v := ZeroFused(code, ip);
    FieldBx(Word(v.op, code[ip].b, 0, 0), Reach(code, ip));
    JumpRules.BoolOffset(v);
    var q := code[ip + 1 := v];
    JumpRules.ReplaceSound(code, marks, ip + 1, v, ip + 1);
    if Rule8(code, marks, ip) != q {
      JumpRules.ReplaceSound(q, marks, ip, NOP_WORD, ip);
    }
  }

  lemma Rule11Sound(code: seq<Word>, marks: seq<bool>, ip: nat)
    requires PairSite(code, marks, ip) && Rule11Applies(code, marks, ip)
    ensures JumpRules.Sound(code, Rule11(code, ip), marks)
  {
    hide BranchOffset;
    hide DeadAfter;
    SiteEnds(code, marks, ip);
    var offset := (Reach(code, ip) + 1) % 0x100;
    var v := FusedWord(code[ip], code[ip + 1].op == OP_JUMP_IF_TRUE, offset);
    var regs: Registers := seq(REG_WINDOW, _ => 0);
    FusedFields(code[ip], code[ip + 1].op == OP_JUMP_IF_TRUE, offset, Reach(code, ip) + 1, regs, regs);
    var q := code[ip := v];
    JumpRules.ReplaceSound(code, marks, ip, v, ip + 1);
    JumpRules.ReplaceSound(q, marks, ip + 1, NOP_WORD, ip + 1);
  }

  // ---- what exactly the rules change at the site ----------------------------------------------------

  /** Where the rewritten program is once it has left the site. */
  function Behind(d: Chunk, e: World, ip: nat, s: Config): Result {
    if CStep(d, e, s).Next? && CStep(d, e, s).config.ip == ip + 1 then CRun(d, e, s, 2) else CStep(d, e, s)
  }

  /** From the same configuration both programs leave the site for the same place, and nothing but the
      result register differs. */
  predicate LeavesAlike(c: Chunk, d: Chunk, e: World, ip: nat, s: Config)
    requires ip < |c.code|
  {
    var x, y := CRun(c, e, s, 2), Behind(d, e, ip, s);
    x.Next? && y.Next? &&
    x.config == y.config.(regs := y.config.regs[c.code[ip].a := x.config.regs[c.code[ip].a]])
  }

  /** The kept equality test that overwrites its operand turns the branch round; everything else is right. */
  lemma KeptDecides(h: Host, w: Word, jumpOnTrue: bool, x: u64, y: u64)
    requires IsZeroTest(w)
    ensures var value := Bool((w.op == OP_EQ_IMM) == (x == 0));
            CompareValue(h, w, x, y) == Some(value) &&
            var before, after := jumpOnTrue, ZeroFusedOp(w.op == OP_EQ_IMM, jumpOnTrue) == OP_JUMP_IF_TRUE;
            (before == (value != 0)) == (after == (value != 0)) <==> w.op == OP_NEQ_IMM
  {
  }

  /** Rule 8: from no configuration do the programs part if the test is removed or kept rightly, and from
      every one otherwise. */
  lemma Rule8Leaves(c: Chunk, e: World, marks: seq<bool>, ip: nat, s: Config)
    requires PairSite(c.code, marks, ip) && Rule8Applies(c.code, marks, ip) && s.ip == ip
    ensures ip + 1 < |c.code| && |marks| == |c.code| + 1
    ensures LeavesAlike(c, c.(code := Rule8(c.code, marks, ip)), e, ip, s) <==>
            Removes(c.code, marks, ip) || KeptRight(c.code, ip)
  {
    hide CStep;
    hide CompareValue;
    hide BranchOffset;
    hide DeadAfter;
    var d, w, jumpOnTrue := c.(code := Rule8(c.code, marks, ip)), c.code[ip], c.code[ip + 1].op == OP_JUMP_IF_TRUE;
    SiteEnds(c.code, marks, ip);
    TestedSteps(c, e, s);
    ZeroDecides(e.host, w, jumpOnTrue, s.regs[w.b], s.regs[w.c]);
    KeptDecides(e.host, w, jumpOnTrue, s.regs[w.b], s.regs[w.c]);
    var fused := ZeroFusedOp(w.op == OP_EQ_IMM, jumpOnTrue);
    assert d.code[ip + 1] == EncodeAsBx(fused, w.b, Reach(c.code, ip));
    if d.code[ip] == NOP_WORD {
      NopMoves(d, e, s);
    } else {
      assert d.code[ip] == w;
      ComparisonStep(d, e, s);
    }
    TwoSteps(d, e, s);
    FusedStep(d, e, CStep(d, e, s).config, fused, w.b, Reach(c.code, ip));
  }

  /** Rule 11: the programs part exactly where the fused branch decides differently and goes elsewhere. */
  lemma Rule11LeavesAt(c: Chunk, e: World, marks: seq<bool>, ip: nat, s: Config)
    requires PairSite(c.code, marks, ip) && Rule11Applies(c.code, marks, ip) && s.ip == ip
    ensures var w, offset := c.code[ip], (Reach(c.code, ip) + 1) % 0x100;
            LeavesAlike(c, c.(code := Rule11(c.code, ip)), e, ip, s) <==>
            (Reach(c.code, ip) == 0 ||
             FusionAgrees(e.host, w, c.code[ip + 1].op == OP_JUMP_IF_TRUE, offset, s.regs[w.b], s.regs[w.c]))
  {
    hide CStep;
    hide CompareValue;
    hide BranchOffset;
    hide DeadAfter;
    hide Taken;
    var d, w, jumpOnTrue := c.(code := Rule11(c.code, ip)), c.code[ip], c.code[ip + 1].op == OP_JUMP_IF_TRUE;
    SiteEnds(c.code, marks, ip);
    TargetUnmarked(c.code, marks, ip);
    TestedSteps(c, e, s);
    var offset := (Reach(c.code, ip) + 1) % 0x100;
    var v := FusedWord(w, jumpOnTrue, offset);
    FusedFields(w, jumpOnTrue, offset, Reach(c.code, ip) + 1, s.regs, s.regs);
    assert d.code[ip] == v && d.code[ip + 1] == NOP_WORD;
    BranchMoves(d, e, s);
    if !Taken(v, s.regs[v.a], s.regs[v.b]) {
      TwoSteps(d, e, s);
      NopMoves(d, e, CStep(d, e, s).config);
    }
  }

  /** From every configuration alike exactly if the comparison is fused rightly. */
  lemma Rule11Leaves(c: Chunk, e: World, marks: seq<bool>, ip: nat)
    requires PairSite(c.code, marks, ip) && Rule11Applies(c.code, marks, ip)
    ensures ip + 1 < |c.code|
    ensures (forall s: Config {:trigger LeavesAlike(c, c.(code := Rule11(c.code, ip)), e, ip, s)} ::
               s.ip == ip ==> LeavesAlike(c, c.(code := Rule11(c.code, ip)), e, ip, s)) <==>
            FusedRight(c.code, ip)
  {
    hide LeavesAlike;
    hide PairSite;
    hide DeadAfter;
    hide FusionAgrees;
    var d, w, jumpOnTrue := c.(code := Rule11(c.code, ip)), c.code[ip], c.code[ip + 1].op == OP_JUMP_IF_TRUE;
    var offset := (Reach(c.code, ip) + 1) % 0x100;
    if (w.op == OP_EQ_IMM || w.op == OP_NEQ_IMM) && GetsC(w) < 0 {
      var s := Config(ip, seq(REG_WINDOW, _ => w.c as u64), [], [], []);
      Rule11LeavesAt(c, e, marks, ip, s);
      ByteDecidesWrong(e.host, w, jumpOnTrue, offset);
      assert LeavesAlike(c, d, e, ip, s) <==> Reach(c.code, ip) == 0;
      if Reach(c.code, ip) == 0 {
        forall t: Config | t.ip == ip ensures LeavesAlike(c, d, e, ip, t) { Rule11LeavesAt(c, e, marks, ip, t); }
      }
    } else {
      forall t: Config | t.ip == ip ensures LeavesAlike(c, d, e, ip, t) {
        Rule11LeavesAt(c, e, marks, ip, t);
        FusionRight(e.host, w, jumpOnTrue, offset, t.regs[w.b], t.regs[w.c]);
      }
    }
  }

  lemma ByteDecidesWrong(h: Host, w: Word, jumpOnTrue: bool, offset: u8)
    requires (w.op == OP_EQ_IMM || w.op == OP_NEQ_IMM) && GetsC(w) < 0
    ensures !FusionAgrees(h, w, jumpOnTrue, offset, w.c, w.c)
  {
    assert Wrap(GetsC(w)) != w.c;
  }
}
