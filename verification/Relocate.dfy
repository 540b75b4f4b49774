/** NOP stripping with relocation: the in-place pass, the code it produces, and a simulation
    between the original and the stripped program. */
module Relocate {
  import opened Words
  import opened Bytecode
  import opened Layout
  import opened Vm
  import opened Behaviour

  // ---- the address map ------------------------------------------------------------------------------

  /** The new index of slot `i`, counted from the boundary `ip` that moves to `at`. */
  function RemapFrom(code: seq<Word>, ip: nat, at: nat, i: nat): nat
    decreases |code| - ip
  {
    if ip >= |code| then at
    else if code[ip].op == OP_NOP then if i <= ip then at else RemapFrom(code, ip + 1, at, i)
    else
      var slots := Slots(code[ip].op);
      if i < ip + slots then (if i < ip then at else at + (i - ip))
      else RemapFrom(code, ip + slots, at + slots, i)
  }

  function Remap(code: seq<Word>, i: nat): nat { RemapFrom(code, 0, 0, i) }

  /** From any boundary the map continues as if it had started there. */
  lemma {:induction false} RemapContinues(code: seq<Word>, from: nat, at: nat, ip: nat, i: nat)
    requires Scans(code, from) && Meets(code, from, ip) && ip <= i <= |code|
    ensures RemapFrom(code, from, at, i) == RemapFrom(code, ip, RemapFrom(code, from, at, ip), i)
    decreases |code| - from
  {
    if from < ip {
      ScansAt(code, from, ip);
      var slots := Slots(code[from].op);
      MeetsOrder(code, from + slots, ip);
      RemapContinues(code, from + slots, if code[from].op == OP_NOP then at else at + slots, ip, i);
    }
  }

  lemma RemapStep(code: seq<Word>, ip: nat)
    requires Scans(code, 0) && Boundary(code, ip) && ip < |code|
    ensures code[ip].op == OP_NOP ==> Remap(code, ip + 1) == Remap(code, ip)
    ensures code[ip].op != OP_NOP ==>
              Remap(code, ip + Slots(code[ip].op)) == Remap(code, ip) + Slots(code[ip].op)
    ensures ip + 1 < ip + Slots(code[ip].op) ==> Remap(code, ip + 1) == Remap(code, ip) + 1
    ensures ip + Slots(code[ip].op) <= |code|
  {
    ScansAt(code, 0, ip);
    RemapContinues(code, 0, 0, ip, ip + 1);
    RemapContinues(code, 0, 0, ip, ip + Slots(code[ip].op));
  }

  /** The map is monotone and never stretches a distance. */
  lemma {:induction false} RemapShrinks(code: seq<Word>, from: nat, at: nat, i: nat)
    requires Scans(code, from) && from <= i <= |code|
    ensures at <= RemapFrom(code, from, at, i) <= at + (i - from)
    decreases |code| - from
  {
    if from < |code| && from + Slots(code[from].op) <= i {
      var slots := Slots(code[from].op);
      RemapShrinks(code, from + slots, if code[from].op == OP_NOP then at else at + slots, i);
    }
  }

  lemma RemapBetween(code: seq<Word>, i: nat, j: nat)
    requires Scans(code, 0) && Boundary(code, i) && i <= j <= |code|
    ensures 0 <= Remap(code, j) - Remap(code, i) <= j - i
  {
    ScansAt(code, 0, i);
    RemapContinues(code, 0, 0, i, j);
    RemapShrinks(code, i, Remap(code, i), j);
  }

  // ---- the stripped code ----------------------------------------------------------------------------

  function NewTarget(code: seq<Word>, target: nat): nat {
    if target <= |code| then Remap(code, target) else Remap(code, |code|)
  }

  function NewOffset(code: seq<Word>, ip: nat): int
    requires ip < |code|
  {
    NewTarget(code, GetJumpTarget(ip, code[ip])) - Remap(code, ip) - 1
  }

  /** The instruction at `ip`, with its branch offset or call target moved. */
  function Relocated(code: seq<Word>, ip: nat): (r: seq<Word>)
    requires ip < |code| && ip + Slots(code[ip].op) <= |code|
    ensures |r| == Slots(code[ip].op)
  {
    var w := code[ip];
    if Slots(w.op) == 2 then [w, NewPayload(code, w.op, code[ip + 1])]
    else if IsBranch(w.op) then [SetBranchOffset(w, NewOffset(code, ip))]
    else [w]
  }

  function NewPayload(code: seq<Word>, op: u8, payload: Word): Word {
    if IsCall(op) && Payload(payload) <= |code| && Remap(code, Payload(payload)) < 0x1_0000_0000
    then FromPayload(Remap(code, Payload(payload))) else payload
  }

  function StripFrom(code: seq<Word>, ip: nat): seq<Word>
    requires Scans(code, ip)
    decreases |code| - ip
  {
    if ip == |code| then []
    else
      var rest := StripFrom(code, ip + Slots(code[ip].op));
      if code[ip].op == OP_NOP then rest else Relocated(code, ip) + rest
  }

  function Stripped(code: seq<Word>): seq<Word>
    requires Scans(code, 0)
  {
    StripFrom(code, 0)
  }

  lemma {:induction false} StripLength(code: seq<Word>, ip: nat, at: nat)
    requires Scans(code, ip)
    ensures at + |StripFrom(code, ip)| == RemapFrom(code, ip, at, |code|)
    decreases |code| - ip
  {
    if ip < |code| {
      var slots := Slots(code[ip].op);
      StripLength(code, ip + slots, if code[ip].op == OP_NOP then at else at + slots);
    }
  }

  /** `part` occurs in `whole` at `k`. */
  ghost predicate OccursAt(whole: seq<Word>, k: int, part: seq<Word>) {
    0 <= k && k + |part| <= |whole| && forall i :: 0 <= i < |part| ==> whole[k + i] == part[i]
  }

  lemma OccursAfter(prefix: seq<Word>, rest: seq<Word>, k: int, part: seq<Word>)
    requires OccursAt(rest, k, part)
    ensures OccursAt(prefix + rest, |prefix| + k, part)
  {
  }

  /** A kept instruction is found, relocated, at its new address. */
  lemma {:induction false} StrippedFrom(code: seq<Word>, from: nat, at: nat, ip: nat)
    requires Scans(code, from) && Meets(code, from, ip) && ip < |code| && code[ip].op != OP_NOP
    requires ip + Slots(code[ip].op) <= |code|
    ensures OccursAt(StripFrom(code, from), RemapFrom(code, from, at, ip) - at, Relocated(code, ip))
    decreases |code| - from
  {
    hide Relocated;
    var slots := Slots(code[from].op);
    if from < ip {
      MeetsOrder(code, from + slots, ip);
      var rest := StripFrom(code, from + slots);
      if code[from].op == OP_NOP {
        StrippedFrom(code, from + slots, at, ip);
      } else {
        StrippedFrom(code, from + slots, at + slots, ip);
        var k := RemapFrom(code, from + slots, at + slots, ip) - (at + slots);
        OccursAfter(Relocated(code, from), rest, k, Relocated(code, ip));
      }
    } else {
      StrippedHere(code, ip);
    }
  }

  lemma StrippedHere(code: seq<Word>, ip: nat)
    requires Scans(code, ip) && ip < |code| && code[ip].op != OP_NOP
    ensures ip + Slots(code[ip].op) <= |code| && OccursAt(StripFrom(code, ip), 0, Relocated(code, ip))
  {
    hide Relocated;
    assert StripFrom(code, ip) == Relocated(code, ip) + StripFrom(code, ip + Slots(code[ip].op));
  }

  lemma StrippedAt(code: seq<Word>, ip: nat)
    requires Scans(code, 0) && Boundary(code, ip) && ip < |code| && code[ip].op != OP_NOP
    ensures ip + Slots(code[ip].op) <= |code|
    ensures OccursAt(Stripped(code), Remap(code, ip), Relocated(code, ip))
  {
    hide Relocated;
    ScansAt(code, 0, ip);
    StrippedFrom(code, 0, 0, ip);
  }

  /** Relocated offsets lie between 0 (or -1 for a backward branch) and the old offset, so they
      still fit their field. */
  lemma OffsetShrinks(code: seq<Word>, ip: nat)
    requires WellFormed(code) && ip < |code| && Boundary(code, ip) && IsBranch(code[ip].op)
    ensures var old_, new_ := BranchOffset(code[ip]), NewOffset(code, ip);
            (if old_ >= 0 then 0 <= new_ <= old_ else old_ <= new_ <= -1) &&
            FitsBranch(code[ip].op, new_)
  {
    assert GoodAt(code, ip);
    var target := ip + 1 + BranchOffset(code[ip]);
    BranchOffsetFits(code[ip]);
    RemapStep(code, ip);
    if target > ip {
      MeetsNext(code, 0, ip);
      RemapBetween(code, ip + 1, target);
    } else {
      RemapBetween(code, target, ip);
    }
  }

  // ---- simulation -----------------------------------------------------------------------------------

  ghost predicate RelatedFrame(code: seq<Word>, f: Frame, g: Frame) {
    0 <= f.returnIp <= |code| && Boundary(code, f.returnIp) &&
    g == f.(returnIp := Remap(code, f.returnIp))
  }

  /** The stripped program is in the same state, its ip and saved return addresses moved. */
  ghost predicate Related(code: seq<Word>, s: State, t: State) {
    && s.HasWindow() && 0 <= s.ip <= |code| && Boundary(code, s.ip) && t.ip == Remap(code, s.ip)
    && t.base == s.base && t.stack == s.stack && t.globals == s.globals && t.trace == s.trace
    && |t.frames| == |s.frames|
    && (forall i :: 0 <= i < |s.frames| ==> RelatedFrame(code, s.frames[i], t.frames[i]))
  }

  ghost predicate RelatedOutcome(code: seq<Word>, o: Outcome, p: Outcome) {
    match o
    case Go(s) => p.Go? && Related(code, s, p.next)
    case _ => p == o
  }

  function StrippedChunk(c: Chunk): Chunk
    requires Scans(c.code, 0)
  {
    c.(code := Stripped(c.code))
  }

  lemma NopStutters(c: Chunk, h: Host, s: State, t: State)
    requires WellFormed(c.code) && Related(c.code, s, t) && s.ip < |c.code|
    requires c.code[s.ip].op == OP_NOP
    ensures Step(c, h, s) == Go(s.Goto(s.ip + 1)) && Related(c.code, s.Goto(s.ip + 1), t)
  {
    RemapStep(c.code, s.ip);
    MeetsNext(c.code, 0, s.ip);
  }

  /** Every other instruction makes the same step in both programs. */
  lemma StepSimulates(c: Chunk, h: Host, s: State, t: State)
    requires WellFormed(c.code) && Related(c.code, s, t)
    requires s.ip < |c.code| ==> c.code[s.ip].op != OP_NOP
    ensures RelatedOutcome(c.code, Step(c, h, s), Step(StrippedChunk(c), h, t))
  {
    var code, d := c.code, StrippedChunk(c);
    StripLength(code, 0, 0);
    if s.ip == |code| {
      assert t.ip == |d.code|;
    } else {
      RemapStep(code, s.ip);
      MeetsNext(code, 0, s.ip);
      RemapBetween(code, s.ip + Slots(code[s.ip].op), |code|);
      StrippedAt(code, s.ip);
      assert GoodAt(code, s.ip);
      assert d.code[t.ip + 0] == Relocated(code, s.ip)[0];
      if IsBranch(code[s.ip].op) {
        BranchSimulates(c, h, s, t, d);
      } else if Slots(code[s.ip].op) == 2 {
        assert d.code[t.ip + 1] == Relocated(code, s.ip)[1];
        WideSimulates(c, h, s, t, d);
      } else {
        NarrowSimulates(c, h, s, t, d);
      }
    }
  }

  lemma BranchSimulates(c: Chunk, h: Host, s: State, t: State, d: Chunk)
    requires WellFormed(c.code) && Related(c.code, s, t) && s.ip < |c.code|
    requires IsBranch(c.code[s.ip].op) && GoodAt(c.code, s.ip) && t.ip < |d.code|
    requires Boundary(c.code, s.ip + 1) && Remap(c.code, s.ip + 1) == t.ip + 1
    requires d.code[t.ip] == Relocated(c.code, s.ip)[0]
    ensures RelatedOutcome(c.code, Step(c, h, s), Step(d, h, t))
  {
    hide Taken;
    hide Step;
    var w, v, i := c.code[s.ip], d.code[t.ip], NewOffset(c.code, s.ip);
    assert v == SetBranchOffset(w, i);
    OffsetShrinks(c.code, s.ip);
    SetBranchOffsetReads(w, i);
    TakenSame(w, i, s);
    BranchStep(c, h, s);
    BranchStep(d, h, t);
  }

  lemma CallSimulates(code: seq<Word>, s: State, t: State, w: Word, target: nat)
    requires Related(code, s, t) && target <= |code| && Boundary(code, target)
    requires s.ip + 2 <= |code| && Boundary(code, s.ip + 2) && Remap(code, s.ip + 2) == t.ip + 2
    ensures RelatedOutcome(code, StepTailCall(s, w, target), StepTailCall(t, w, Remap(code, target)))
    ensures RelatedOutcome(code, StepCall(s, w, target), StepCall(t, w, Remap(code, target)))
  {
  }

  lemma SyscallSimulates(code: seq<Word>, h: Host, s: State, t: State, w: Word, id: u32)
    requires Related(code, s, t)
    requires s.ip + 2 <= |code| && Boundary(code, s.ip + 2) && Remap(code, s.ip + 2) == t.ip + 2
    ensures RelatedOutcome(code, StepSyscall(h, s, w, id), StepSyscall(h, t, w, id))
  {
  }

  lemma WideSimulates(c: Chunk, h: Host, s: State, t: State, d: Chunk)
    requires WellFormed(c.code) && Related(c.code, s, t) && s.ip < |c.code|
    requires Slots(c.code[s.ip].op) == 2 && GoodAt(c.code, s.ip) && t.ip + 1 < |d.code|
    requires Boundary(c.code, s.ip + 2) && Remap(c.code, s.ip + 2) == t.ip + 2
    requires d.code[t.ip] == c.code[s.ip]
    requires d.code[t.ip + 1] == NewPayload(c.code, c.code[s.ip].op, c.code[s.ip + 1])
    ensures RelatedOutcome(c.code, Step(c, h, s), Step(d, h, t))
  {
    hide Step;
    hide RelatedOutcome;
    hide StepCall;
    hide StepTailCall;
    hide StepSyscall;
    var w, target := c.code[s.ip], Payload(c.code[s.ip + 1]);
    WideStep(c, h, s);
    WideStep(d, h, t);
    if IsCall(w.op) {
      RemapShrinks(c.code, 0, 0, target);
      PayloadRoundTrip(Remap(c.code, target), w);
      CallSimulates(c.code, s, t, w, target);
    } else {
      SyscallSimulates(c.code, h, s, t, w, target);
    }
  }

  lemma SameConstants(c: Chunk, h: Host, globals: seq<u64>, w: Word, x: u64, y: u64, d: Chunk)
    requires IsCompute(w.op) && d.constants == c.constants
    ensures Compute(d, h, globals, w, x, y) == Compute(c, h, globals, w, x, y)
  {
    hide BinaryOp;
    hide ImmediateOp;
    hide UnaryOp;
  }

  lemma NarrowSimulates(c: Chunk, h: Host, s: State, t: State, d: Chunk)
    requires Related(c.code, s, t) && s.ip < |c.code| && t.ip < |d.code|
    requires !IsBranch(c.code[s.ip].op) && Slots(c.code[s.ip].op) == 1 && d.code[t.ip] == c.code[s.ip]
    requires Boundary(c.code, s.ip + 1) && Remap(c.code, s.ip + 1) == t.ip + 1
    requires d.constants == c.constants
    ensures RelatedOutcome(c.code, Step(c, h, s), Step(d, h, t))
  {
    hide Compute;
    var w, op := c.code[s.ip], c.code[s.ip].op;
    if IsCompute(op) && s.HasWindow() { SameConstants(c, h, s.globals, w, s.Reg(w.b), s.Reg(w.c), d); }
    if (op == OP_RET || op == OP_RET_VOID) && s.frames != [] {
      var i := |s.frames| - 1;
      assert RelatedFrame(c.code, s.frames[i], t.frames[i]);
    }
  }

  /** n steps of the original program are at most n steps of the stripped one. */
  lemma {:induction false} StrippedFollows(c: Chunk, h: Host, s: State, t: State, n: nat) returns (m: nat)
    requires WellFormed(c.code) && Related(c.code, s, t)
    ensures m <= n && RelatedOutcome(c.code, Run(c, h, s, n), Run(StrippedChunk(c), h, t, m))
    decreases n
  {
    hide Step;
    hide Stripped;
    if n == 0 { return 0; }
    if s.ip < |c.code| && c.code[s.ip].op == OP_NOP {
      NopStutters(c, h, s, t);
      m := StrippedFollows(c, h, s.Goto(s.ip + 1), t, n - 1);
    } else {
      StepSimulates(c, h, s, t);
      if Step(c, h, s).Go? {
        var k := StrippedFollows(c, h, Step(c, h, s).next, Step(StrippedChunk(c), h, t).next, n - 1);
        m := k + 1;
      } else {
        m := 1;
      }
    }
  }

  /** From a related pair the original program reaches, over NOPs only, a state related to the same
      stripped state that stands at a kept instruction or at the end. */
  lemma {:induction false} SkipNops(c: Chunk, h: Host, s: State, t: State) returns (k: nat, u: State)
    requires WellFormed(c.code) && Related(c.code, s, t)
    ensures Run(c, h, s, k) == Go(u) && Related(c.code, u, t)
    ensures u.ip < |c.code| ==> c.code[u.ip].op != OP_NOP
    decreases |c.code| - s.ip
  {
    if s.ip < |c.code| && c.code[s.ip].op == OP_NOP {
      NopStutters(c, h, s, t);
      k, u := SkipNops(c, h, s.Goto(s.ip + 1), t);
      k := k + 1;
    } else {
      k, u := 0, s;
    }
  }

  /** m steps of the stripped program are matched by at least m steps of the original. */
  lemma {:induction false} OriginalFollows(c: Chunk, h: Host, s: State, t: State, m: nat) returns (n: nat)
    requires WellFormed(c.code) && Related(c.code, s, t)
    ensures m <= n && RelatedOutcome(c.code, Run(c, h, s, n), Run(StrippedChunk(c), h, t, m))
    decreases m
  {
    hide Step;
    hide Stripped;
    if m == 0 { return 0; }
    var k, u := SkipNops(c, h, s, t);
    StepSimulates(c, h, u, t);
    if Step(c, h, u).Go? {
      n := OriginalFollows(c, h, Step(c, h, u).next, Step(StrippedChunk(c), h, t).next, m - 1);
    } else {
      n := m - 1;
    }
    RunCompose(c, h, s, k, n + 1);
    n := k + n + 1;
  }

  /** Stripping NOPs preserves behaviour from any pair of related states, in particular from the
      initial state. */
  lemma StrippingPreservesBehaviour(c: Chunk, h: Host, s: State, t: State)
    requires WellFormed(c.code) && Related(c.code, s, t)
    ensures SameBehaviour(c, s, StrippedChunk(c), t, h)
  {
    var d := StrippedChunk(c);
    forall o: Outcome ensures EndsAlike(c, s, d, t, h, o) {
      if Ends(c, h, s, o) {
        var n: nat :| Run(c, h, s, n) == o;
        var m := StrippedFollows(c, h, s, t, n);
        assert Run(d, h, t, m) == o;
      }
      if Ends(d, h, t, o) {
        var m: nat :| Run(d, h, t, m) == o;
        var n := OriginalFollows(c, h, s, t, m);
        assert Run(c, h, s, n) == o;
      }
    }
  }

  lemma InitialStatesRelated(c: Chunk, s: State)
    requires WellFormed(c.code) && IsInitial(c, s)
    ensures Related(c.code, s, s) && IsInitial(StrippedChunk(c), s)
  {
    RemapShrinks(c.code, 0, 0, 0);
  }
}
