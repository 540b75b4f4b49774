/** `AcuOpt_EliminateDeadCode`: the in-place pass, and why no run ever comes to what it overwrites. */
module DeadCode {
  import opened Words
  import opened Bytecode
  import opened Layout
  import opened Vm
  import opened JumpTargets

  /** A system call at `ip` that ends the program. */
  predicate ExitsAt(code: seq<Word>, ip: nat)
    requires ip < |code|
  {
    IsSyscall(code[ip].op) && ip + 1 < |code| && EndsProgram(Payload(code[ip + 1]))
  }

  /** `AcuOpt_IsInstructionTerminator`. */
  predicate StopsAt(code: seq<Word>, ip: nat)
    requires ip < |code|
  {
    IsTerminator(code[ip].op) || ExitsAt(code, ip)
  }

  /** The pass meets slot `i` with its `unreachable` flag down, when it stands at `from` with the
      given flag. */
  predicate LiveFrom(code: seq<Word>, marks: seq<bool>, from: nat, unreachable: bool, i: int)
    requires |marks| == |code| + 1
    decreases |code| - from
  {
    from < |code| && from <= i &&
    var dead := unreachable && !marks[from];
    if i == from then !dead
    else LiveFrom(code, marks, from + Slots(code[from].op), dead || StopsAt(code, from), i)
  }

  /** A dead single-slot word: a NOP is not written again. */
  function Blank(w: Word): Word { if w.op == OP_NOP then w else NOP_WORD }

  /** The slots of the instruction at `i` after the pass. */
  function Sweep(code: seq<Word>, i: nat, dead: bool): (r: seq<Word>)
    requires i < |code| && i + Slots(code[i].op) <= |code|
    ensures |r| == Slots(code[i].op)
  {
    if !dead then code[i..i + Slots(code[i].op)]
    else if Slots(code[i].op) == 2 then [NOP_WORD, NOP_WORD]
    else [Blank(code[i])]
  }

  /** What the pass leaves in the slots from `from` on. */
  function PrunedFrom(code: seq<Word>, marks: seq<bool>, from: nat, unreachable: bool): (r: seq<Word>)
    requires |marks| == |code| + 1 && Scans(code, from)
    ensures |r| == |code| - from
    decreases |code| - from
  {
    if from >= |code| then []
    else
      var dead := unreachable && !marks[from];
      Sweep(code, from, dead) +
      PrunedFrom(code, marks, from + Slots(code[from].op), dead || StopsAt(code, from))
  }

  function Pruned(code: seq<Word>, marks: seq<bool>): (r: seq<Word>)
    requires |marks| == |code| + 1 && Scans(code, 0)
    ensures |r| == |code|
  {
    PrunedFrom(code, marks, 0, false)
  }

  predicate Live(code: seq<Word>, marks: seq<bool>, i: int)
    requires |marks| == |code| + 1
  {
    LiveFrom(code, marks, 0, false, i)
  }

  // ---- what survives --------------------------------------------------------------------------------

  lemma {:induction false} PrunedAtFrom(code: seq<Word>, marks: seq<bool>, from: nat, u: bool, i: nat)
    requires |marks| == |code| + 1 && Scans(code, from) && Meets(code, from, i) && i < |code|
    ensures i + Slots(code[i].op) <= |code|
    ensures PrunedFrom(code, marks, from, u)[i - from..i - from + Slots(code[i].op)] ==
            Sweep(code, i, !LiveFrom(code, marks, from, u, i))
    decreases |code| - from
  {
    hide Sweep;
    if from < i {
      var slots := Slots(code[from].op);
      MeetsOrder(code, from + slots, i);
      var dead := u && !marks[from];
      var v := dead || StopsAt(code, from);
      PrunedAtFrom(code, marks, from + slots, v, i);
      var rest := PrunedFrom(code, marks, from + slots, v);
      SliceAfter(Sweep(code, from, dead), rest, i - (from + slots), i - (from + slots) + Slots(code[i].op));
    }
  }

  lemma SliceAfter(s: seq<Word>, rest: seq<Word>, lo: nat, hi: nat)
    requires lo <= hi <= |rest|
    ensures (s + rest)[|s| + lo..|s| + hi] == rest[lo..hi]
  {
  }

  /** A live instruction keeps all its slots, a dead one becomes NOPs. */
  lemma PrunedAt(code: seq<Word>, marks: seq<bool>, i: nat)
    requires |marks| == |code| + 1 && Scans(code, 0) && Boundary(code, i) && i < |code|
    ensures i + Slots(code[i].op) <= |code|
    ensures Pruned(code, marks)[i..i + Slots(code[i].op)] == Sweep(code, i, !Live(code, marks, i))
    ensures Pruned(code, marks)[i] == if Live(code, marks, i) then code[i] else Blank(code[i])
    ensures Slots(code[i].op) == 2 ==>
              Pruned(code, marks)[i + 1] == if Live(code, marks, i) then code[i + 1] else NOP_WORD
  {
    hide PrunedFrom;
    hide LiveFrom;
    hide Scans;
    hide Meets;
    PrunedAtFrom(code, marks, 0, false, i);
    var sweep := Sweep(code, i, !Live(code, marks, i));
    assert Pruned(code, marks)[i..i + Slots(code[i].op)] == sweep;
    assert Pruned(code, marks)[i] == sweep[0];
    assert Slots(code[i].op) == 2 ==> Pruned(code, marks)[i + 1] == sweep[1];
  }

  lemma {:induction false} MarkedIsLive(code: seq<Word>, marks: seq<bool>, from: nat, u: bool, i: nat)
    requires |marks| == |code| + 1 && Meets(code, from, i) && i < |code| && marks[i]
    ensures LiveFrom(code, marks, from, u, i)
    decreases |code| - from
  {
    if from < i {
      MarkedIsLive(code, marks, from + Slots(code[from].op), (u && !marks[from]) || StopsAt(code, from), i);
    }
  }

  /** Control that leaves a live instruction by falling through finds a live one. */
  lemma {:induction false} FallThroughLive(code: seq<Word>, marks: seq<bool>, from: nat, u: bool, i: nat)
    requires |marks| == |code| + 1 && Meets(code, from, i) && i < |code|
    requires LiveFrom(code, marks, from, u, i) && !StopsAt(code, i)
    requires i + Slots(code[i].op) < |code|
    ensures LiveFrom(code, marks, from, u, i + Slots(code[i].op))
    decreases |code| - from
  {
    if from < i {
      FallThroughLive(code, marks, from + Slots(code[from].op),
                      (u && !marks[from]) || StopsAt(code, from), i);
    }
  }

  // ---- no run comes to a dead instruction -----------------------------------------------------------

  /** An address at which control may legitimately be. */
  ghost predicate LiveAddress(code: seq<Word>, marks: seq<bool>, i: int) {
    0 <= i <= |code| && Boundary(code, i) && |marks| == |code| + 1 &&
    (i < |code| ==> Live(code, marks, i))
  }

  ghost predicate LiveState(code: seq<Word>, marks: seq<bool>, s: State) {
    LiveAddress(code, marks, s.ip) &&
    forall k :: 0 <= k < |s.frames| ==> LiveAddress(code, marks, s.frames[k].returnIp)
  }

  function PrunedChunk(c: Chunk, marks: seq<bool>): Chunk
    requires |marks| == |c.code| + 1 && Scans(c.code, 0)
  {
    c.(code := Pruned(c.code, marks))
  }

  lemma TargetAddress(code: seq<Word>, marks: seq<bool>, ip: nat, i: nat)
    requires Covers(code, marks) && Boundary(code, ip) && ip < |code| && EntersAt(code, ip, i)
    requires i <= |code| && Boundary(code, i)
    ensures LiveAddress(code, marks, i)
  {
    assert IsTarget(code, i);
    if i < |code| {
      MarkedIsLive(code, marks, 0, false, i);
    }
  }

  lemma NextAddress(code: seq<Word>, marks: seq<bool>, ip: nat)
    requires Scans(code, 0) && LiveAddress(code, marks, ip) && ip < |code| && !StopsAt(code, ip)
    ensures LiveAddress(code, marks, ip + Slots(code[ip].op))
  {
    ScansAt(code, 0, ip);
    MeetsNext(code, 0, ip);
    if ip + Slots(code[ip].op) < |code| {
      FallThroughLive(code, marks, 0, false, ip);
    }
  }

  /** A step from a live state is the same in the pruned code and leads to a live state. */
  lemma LiveStep(c: Chunk, h: Host, marks: seq<bool>, s: State)
    requires WellFormed(c.code) && Covers(c.code, marks) && TerminatorsStop(h)
    requires LiveState(c.code, marks, s)
    ensures Step(PrunedChunk(c, marks), h, s) == Step(c, h, s)
    ensures Step(c, h, s).Go? ==> LiveState(c.code, marks, Step(c, h, s).next)
  {
    hide Execute;
    hide Pruned;
    hide Live;
    if s.ip < |c.code| {
      PrunedAt(c.code, marks, s.ip);
      StepReadsInstruction(c, PrunedChunk(c, marks), h, s);
    }
    if Step(c, h, s).Go? {
      StepMovesControl(c, h, s);
      StaysLive(c.code, h, marks, s, Step(c, h, s).next);
    }
  }

  lemma StaysLive(code: seq<Word>, h: Host, marks: seq<bool>, s: State, t: State)
    requires WellFormed(code) && Covers(code, marks) && TerminatorsStop(h)
    requires LiveState(code, marks, s) && 0 <= s.ip < |code| && ControlMoves(code, s, t)
    requires IsSyscall(code[s.ip].op) && s.ip + 1 < |code| ==>
               t.trace != [] && h.reply(t.trace).status == 0 &&
               t.trace[|t.trace| - 1].id == Payload(code[s.ip + 1])
    ensures LiveState(code, marks, t)
  {
    hide LiveAddress;
    assert LiveAddress(code, marks, s.ip);
    BoundaryInside(code, marks, s.ip);
    var w := code[s.ip];
    assert GoodAt(code, s.ip);
    if StopsAt(code, s.ip) {
      assert IsSyscall(w.op) ==> EndsInTerminator(t.trace);
    } else {
      NextAddress(code, marks, s.ip);
    }
    if IsBranch(w.op) {
      TargetAddress(code, marks, s.ip, s.ip + 1 + BranchOffset(w));
    } else if IsCall(w.op) {
      TargetAddress(code, marks, s.ip, Payload(code[s.ip + 1]));
    } else if w.op == OP_RET || w.op == OP_RET_VOID {
      assert LiveAddress(code, marks, s.frames[|s.frames| - 1].returnIp);
    }
  }

  lemma BoundaryInside(code: seq<Word>, marks: seq<bool>, i: int)
    requires LiveAddress(code, marks, i)
    ensures 0 <= i <= |code| && Boundary(code, i)
  {
  }

  /** Dead-code elimination changes no run at all: step by step the same states, and the ip and
      every saved return address only ever point to instructions the pass keeps. */
  lemma {:induction false} DeadCodeIsNeverReached(c: Chunk, h: Host, marks: seq<bool>, s: State, n: nat)
    requires WellFormed(c.code) && Covers(c.code, marks) && TerminatorsStop(h)
    requires LiveState(c.code, marks, s)
    ensures Run(PrunedChunk(c, marks), h, s, n) == Run(c, h, s, n)
    ensures Run(c, h, s, n).Go? ==> LiveState(c.code, marks, Run(c, h, s, n).next)
    decreases n
  {
    hide Step;
    hide LiveState;
    if n > 0 {
      LiveStep(c, h, marks, s);
      if Step(c, h, s).Go? {
        DeadCodeIsNeverReached(c, h, marks, Step(c, h, s).next, n - 1);
      }
    }
  }

  lemma InitialStateIsLive(c: Chunk, marks: seq<bool>, s: State)
    requires |marks| == |c.code| + 1 && IsInitial(c, s)
    ensures LiveState(c.code, marks, s)
  {
  }

  // ---- the pruned code is well formed ---------------------------------------------------------------

  lemma {:induction false} BoundaryStays(code: seq<Word>, marks: seq<bool>, from: nat, i: nat)
    requires |marks| == |code| + 1 && Scans(code, 0) && Boundary(code, from) && Meets(code, from, i)
    ensures Meets(Pruned(code, marks), from, i)
    decreases |code| - from
  {
    if from < i {
      var q, next := Pruned(code, marks), from + Slots(code[from].op);
      ScansAt(code, 0, from);
      PrunedAt(code, marks, from);
      MeetsNext(code, 0, from);
      MeetsOrder(code, next, i);
      BoundaryStays(code, marks, next, i);
      assert next == from + 2 ==> q[from + 1] == NOP_WORD || q[from] == code[from];
    }
  }

  /** A boundary of the pruned code is a live boundary of the code, or a NOP the pass put there. */
  lemma {:induction false} BoundaryFrom(code: seq<Word>, marks: seq<bool>, from: nat, i: nat)
    requires |marks| == |code| + 1 && Scans(code, 0) && Boundary(code, from) && from <= |code|
    requires Meets(Pruned(code, marks), from, i) && i < |code|
    ensures Pruned(code, marks)[i].op == OP_NOP || (Boundary(code, i) && Live(code, marks, i))
    decreases |code| - from
  {
    var q := Pruned(code, marks);
    if from < |code| {
      var next := from + Slots(code[from].op);
      PrunedAt(code, marks, from);
      MeetsNext(code, 0, from);
      ScansAt(code, 0, next);
      assert q[from] == if Live(code, marks, from) then code[from] else Blank(code[from]);
      if Live(code, marks, from) {
        if i > from { BoundaryFrom(code, marks, next, i); }
      } else if i >= next {
        assert next == from + 2 ==> q[from + 1] == NOP_WORD;
        BoundaryFrom(code, marks, next, i);
      }
    }
  }

  lemma {:induction false} PrunedScans(code: seq<Word>, marks: seq<bool>, from: nat)
    requires |marks| == |code| + 1 && Scans(code, 0) && Boundary(code, from) && from <= |code|
    ensures Scans(Pruned(code, marks), from)
    decreases |code| - from
  {
    var q := Pruned(code, marks);
    if from < |code| {
      ScansAt(code, 0, from);
      PrunedAt(code, marks, from);
      MeetsNext(code, 0, from);
      PrunedScans(code, marks, from + Slots(code[from].op));
      assert q[from] == if Live(code, marks, from) then code[from] else Blank(code[from]);
      assert Slots(code[from].op) == 2 && q[from].op == OP_NOP ==> q[from + 1] == NOP_WORD;
    }
  }

  /** The pruned code has the shape of generated code again, and the marks still cover it. */
  lemma PrunedWellFormed(code: seq<Word>, marks: seq<bool>)
    requires WellFormed(code) && Covers(code, marks)
    ensures WellFormed(Pruned(code, marks)) && Covers(Pruned(code, marks), marks)
  {
    hide Pruned;
    hide Boundary;
    hide GoodAt;
    var q := Pruned(code, marks);
    PrunedScans(code, marks, 0);
    PrunedKeepsBoundaries(code, marks);
    forall i | 0 <= i < |q| && Boundary(q, i) ensures GoodAt(q, i) {
      PrunedOrigin(code, marks, i);
      if q[i].op == OP_NOP {
        NopGoodAt(q, i);
      } else {
        CopyGoodAt(code, q, i);
      }
    }
    PrunedCovers(code, marks);
  }

  lemma PrunedCovers(code: seq<Word>, marks: seq<bool>)
    requires WellFormed(code) && Covers(code, marks)
    ensures Covers(Pruned(code, marks), marks)
  {
    hide Pruned;
    hide Boundary;
    hide GoodAt;
    var q := Pruned(code, marks);
    forall i | 0 <= i <= |q| && IsTarget(q, i) ensures marks[i] {
      if i != 0 {
        var ip :| 0 <= ip < |q| && Boundary(q, ip) && EntersAt(q, ip, i);
        PrunedOrigin(code, marks, ip);
        assert EntersAt(code, ip, i);
      }
      assert IsTarget(code, i);
    }
  }

  lemma NopGoodAt(code: seq<Word>, i: nat)
    requires i < |code| && code[i].op == OP_NOP
    ensures GoodAt(code, i)
  {
    hide Boundary;
    hide BranchOffset;
    hide Payload;
  }

  lemma PrunedKeepsBoundaries(code: seq<Word>, marks: seq<bool>)
    requires |marks| == |code| + 1 && Scans(code, 0)
    ensures KeepsBoundaries(code, Pruned(code, marks))
  {
    forall i | 0 <= i <= |code| && Boundary(code, i) ensures Boundary(Pruned(code, marks), i) {
      BoundaryStays(code, marks, 0, i);
    }
  }

  /** What the pruned code holds at its boundaries. */
  lemma PrunedOrigin(code: seq<Word>, marks: seq<bool>, i: nat)
    requires |marks| == |code| + 1 && Scans(code, 0)
    requires Boundary(Pruned(code, marks), i) && i < |code|
    ensures Pruned(code, marks)[i].op == OP_NOP ||
            (Boundary(code, i) && i + Slots(code[i].op) <= |code| &&
             Pruned(code, marks)[i] == code[i] &&
             (Slots(code[i].op) == 2 ==> Pruned(code, marks)[i + 1] == code[i + 1]))
  {
    hide Pruned;
    hide Live;
    BoundaryFrom(code, marks, 0, i);
    if Pruned(code, marks)[i].op != OP_NOP {
      PrunedAt(code, marks, i);
    }
  }

  // ---- the pass -------------------------------------------------------------------------------------

  /** Overwrites the instruction at `ip`; tells whether that changed anything. */
  method Overwrite(code: array<Word>, count: nat, ip: nat, ghost was: seq<Word>) returns (changed: bool)
    requires ip < count <= code.Length && count == |was| && code[ip..count] == was[ip..]
    requires ip + Slots(was[ip].op) <= count
    modifies code
    ensures code[..ip + Slots(was[ip].op)] == old(code[..ip]) + Sweep(was, ip, true)
    ensures code[ip + Slots(was[ip].op)..count] == was[ip + Slots(was[ip].op)..]
    ensures changed == (Sweep(was, ip, true) != Sweep(was, ip, false))
  {
    changed := false;
    assert code[ip..count][0] == was[ip];
    var slots := Slots(code[ip].op);
    assert slots > 1 ==> code[ip..count][1] == was[ip + 1];
    if code[ip].op != OP_NOP {
      code[ip] := NOP_WORD;
      changed := true;
      assert Sweep(was, ip, true)[0] != Sweep(was, ip, false)[0];
    }
    if slots > 1 && ip + 1 < count && code[ip + 1] != NOP_WORD {
      code[ip + 1] := NOP_WORD;
      changed := true;
    }
    assert code[ip + slots..count] == was[ip..][slots..];
  }

  method EliminateDeadCode(code: array<Word>, count: nat, isTarget: array<bool>) returns (changed: bool)
    requires count <= code.Length && count < isTarget.Length && Scans(code[..count], 0)
    modifies code
    ensures code[..count] == Pruned(old(code[..count]), old(isTarget[..count + 1]))
    ensures changed == (code[..count] != old(code[..count]))
  {
    hide PrunedFrom;
    hide Sweep;
    hide StopsAt;
    ghost var was, marks := code[..count], isTarget[..count + 1];
    changed := false;
    var unreachable := false;
    var ip := 0;
    while ip < count
      invariant 0 <= ip <= count && Boundary(was, ip) && Scans(was, ip)
      invariant code[ip..count] == was[ip..] && isTarget[..count + 1] == marks
      invariant code[..ip] + PrunedFrom(was, marks, ip, unreachable) == Pruned(was, marks)
      invariant changed == (code[..ip] != was[..ip])
      decreases count - ip
    {
      assert isTarget[ip] == marks[ip];
      ghost var before, flag := code[..ip], unreachable;
      if isTarget[ip] { unreachable := false; }
      assert code[ip] == code[ip..count][0] == was[ip..][0];
      ghost var dead := unreachable;
      var slots := Slots(code[ip].op);
      MeetsNext(was, 0, ip);
      StopsSame(code[..count], was, ip);
      PrunedStep(was, marks, ip, flag, before);
      if unreachable {
        var overwritten := Overwrite(code, count, ip, was);
        changed := changed || overwritten;
      } else {
        if StopsAt(code[..count], ip) { unreachable := true; }
        KeptStep(code[..count], was, ip);
      }
      assert code[..ip + slots] == before + Sweep(was, ip, dead);
      Differs(before, Sweep(was, ip, dead), was, ip);
      ip := ip + slots;
    }
  }

  lemma StopsSame(p: seq<Word>, was: seq<Word>, ip: nat)
    requires |p| == |was| && ip < |p| && p[ip..] == was[ip..]
    ensures StopsAt(p, ip) == StopsAt(was, ip)
  {
    hide Payload;
    assert p[ip] == p[ip..][0] == was[ip..][0];
    assert ip + 1 < |p| ==> p[ip + 1] == p[ip..][1] == was[ip..][1];
  }

  lemma PrunedStep(was: seq<Word>, marks: seq<bool>, ip: nat, u: bool, done: seq<Word>)
    requires |marks| == |was| + 1 && Scans(was, ip) && ip < |was|
    ensures var dead := u && !marks[ip];
            var next := ip + Slots(was[ip].op);
            next <= |was| && Scans(was, next) &&
            done + PrunedFrom(was, marks, ip, u) ==
            (done + Sweep(was, ip, dead)) + PrunedFrom(was, marks, next, dead || StopsAt(was, ip))
  {
  }

  lemma KeptStep(p: seq<Word>, was: seq<Word>, ip: nat)
    requires |p| == |was| && ip < |p| && p[ip..] == was[ip..] && ip + Slots(was[ip].op) <= |p|
    ensures var next := ip + Slots(was[ip].op);
            p[..next] == p[..ip] + Sweep(was, ip, false) && p[next..] == was[next..]
  {
    var next := ip + Slots(was[ip].op);
    assert p[ip..next] == p[ip..][..next - ip] == was[ip..][..next - ip] == was[ip..next];
    assert p[next..] == p[ip..][next - ip..] == was[ip..][next - ip..] == was[next..];
  }

  lemma Differs(before: seq<Word>, swept: seq<Word>, was: seq<Word>, ip: nat)
    requires |before| == ip < |was| && ip + Slots(was[ip].op) <= |was| && |swept| == Slots(was[ip].op)
    ensures before + swept != was[..ip + Slots(was[ip].op)] <==>
            before != was[..ip] || swept != Sweep(was, ip, false)
  {
    var whole := was[..ip + Slots(was[ip].op)];
    assert whole[..ip] == was[..ip] && whole[ip..] == Sweep(was, ip, false);
    assert (before + swept)[..ip] == before && (before + swept)[ip..] == swept;
  }
}
