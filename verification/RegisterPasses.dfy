/** The register passes in the order in which the optimiser runs them, on the contract machine: marks,
    dead stores, and one sweep that forwards definitions (rule 4) and propagates copies (rule 9) with the
    marks collected before. */
module RegisterPasses {
  import opened Words
  import opened Bytecode
  import opened Layout
  import opened Vm
  import opened JumpTargets
  import opened ContractVm
  import Validator
  import DeadStores
  import ForwardMove
  import CopyPropagation

  ghost predicate Keeps(c: Chunk, q: seq<Word>, e: World, s: Config) { CSame(c, s, c.(code := q), s, e) }

  /** Whatever chunk the code belongs to and whatever world it runs in, replacing `p` by `q` cannot be
      noticed. */
  ghost predicate Preserves(p: seq<Word>, q: seq<Word>) {
    forall c: Chunk, e: World, s: Config ::
      c.code == p && TerminatorsStop(e.host) && Starts(c, s) ==> Keeps(c, q, e, s)
  }

  /** The same for validated chunks; dropping a random number must not be an issue. */
  ghost predicate PreservesValid(p: seq<Word>, q: seq<Word>) {
    forall c: Chunk, e: World, s: Config ::
      c.code == p && Validator.ValidChunk(c) && TerminatorsStop(e.host) && Starts(c, s) ==> Keeps(c, q, e, s)
  }

  predicate DrawsAt(code: seq<Word>, i: nat)
    requires i < |code|
  {
    code[i].op == OP_SYSCALL && i + 1 < |code| && Payload(code[i + 1]) == RANDOM_U64
  }

  /** No random number is drawn for its value. */
  ghost predicate NoDraws(code: seq<Word>) {
    forall i {:trigger DrawsAt(code, i)} :: 0 <= i < |code| && Boundary(code, i) ==> !DrawsAt(code, i)
  }

  lemma PreservesRefl(p: seq<Word>)
    ensures Preserves(p, p)
  {
  }

  lemma KeepsTrans(c: Chunk, q: seq<Word>, r: seq<Word>, e: World, s: Config)
    requires Keeps(c, q, e, s) && Keeps(c.(code := q), r, e, s)
    ensures Keeps(c, r, e, s)
  {
    CSameTrans(c, s, c.(code := q), s, c.(code := r), s, e);
  }

  lemma PreservesTrans(p: seq<Word>, q: seq<Word>, r: seq<Word>)
    requires Preserves(p, q) && Preserves(q, r)
    ensures Preserves(p, r)
  {
    hide Keeps;
    forall c: Chunk, e: World, s: Config | c.code == p && TerminatorsStop(e.host) && Starts(c, s)
      ensures Keeps(c, r, e, s)
    {
      assert Keeps(c, q, e, s) && Keeps(c.(code := q), r, e, s);
      KeepsTrans(c, q, r, e, s);
    }
  }

  lemma PreservesAfter(p: seq<Word>, q: seq<Word>, r: seq<Word>)
    requires PreservesValid(p, q) && Preserves(q, r)
    ensures PreservesValid(p, r)
  {
    hide Keeps;
    hide Validator.ValidChunk;
    forall c: Chunk, e: World, s: Config |
      c.code == p && Validator.ValidChunk(c) && TerminatorsStop(e.host) && Starts(c, s)
      ensures Keeps(c, r, e, s)
    {
      assert Keeps(c, q, e, s) && Keeps(c.(code := q), r, e, s);
      KeepsTrans(c, q, r, e, s);
    }
  }

  lemma PreservesAlsoValid(p: seq<Word>, q: seq<Word>)
    requires Preserves(p, q)
    ensures PreservesValid(p, q)
  {
  }

  lemma SweptPreserves(p: seq<Word>, marks: seq<bool>)
    requires WellFormed(p) && NoDraws(p) && |marks| == |p| + 1
    ensures PreservesValid(p, DeadStores.Swept(p, marks))
  {
    hide DeadStores.Swept;
    forall c: Chunk, e: World, s: Config |
      c.code == p && Validator.ValidChunk(c) && TerminatorsStop(e.host) && Starts(c, s)
      ensures Keeps(c, DeadStores.Swept(p, marks), e, s)
    {
      forall ip | 0 <= ip < |c.code| && Boundary(c.code, ip) ensures DeadStores.NoRandomDropped(c.code, marks, ip) {
        assert !DrawsAt(p, ip);
      }
      DeadStores.DeadStoresPreserveBehaviour(c, e, marks, s);
    }
  }

  lemma ForwardedPreserves(p: seq<Word>, marks: seq<bool>, ip: nat, at: nat)
    requires WellFormed(p) && Covers(p, marks) && ForwardMove.Site(p, marks, ip, at)
    ensures Preserves(p, ForwardMove.ForwardedCode(p, ip, at))
  {
    forall c: Chunk, e: World, s: Config | c.code == p && TerminatorsStop(e.host) && Starts(c, s)
      ensures Keeps(c, ForwardMove.ForwardedCode(p, ip, at), e, s)
    {
      ForwardMove.ForwardingPreservesBehaviour(c, e, marks, ip, at, s);
    }
  }

  lemma CopiedPreserves(p: seq<Word>, marks: seq<bool>, ip: nat)
    requires WellFormed(p) && Covers(p, marks) && Boundary(p, ip) && ip < |p|
    requires p[ip].op == OP_MOVE && Scans(p, ip + 1)
    ensures Preserves(p, CopyPropagation.Rule9(p, marks, ip))
  {
    forall c: Chunk, e: World, s: Config | c.code == p && TerminatorsStop(e.host) && Starts(c, s)
      ensures Keeps(c, CopyPropagation.Rule9(p, marks, ip), e, s)
    {
      CopyPropagation.Rule9PreservesBehaviour(c, e, marks, ip, s);
    }
  }

  /** Code on which the sweep may go on: it still does what `was` did, and the marks still hold. */
  ghost predicate Holds(was: seq<Word>, code: seq<Word>, marks: seq<bool>) {
    |code| == |was| && WellFormed(code) && Covers(code, marks) && Preserves(was, code)
  }

  /** Rules 4 and 9 at one instruction. */
  method VisitRegisters(code: array<Word>, count: nat, isTarget: array<bool>, ip: nat, ghost was: seq<Word>)
      returns (changed: bool)
    requires ip < count <= code.Length && count < isTarget.Length
    requires Holds(was, code[..count], isTarget[..count + 1]) && Boundary(code[..count], ip)
    modifies code
    ensures Holds(was, code[..count], isTarget[..count + 1])
    ensures KeepsBoundaries(old(code[..count]), code[..count])
    ensures !changed ==> code[..count] == old(code[..count])
  {
    hide Preserves;
    hide WellFormed;
    hide Covers;
    hide CopyPropagation.Rule9;
    hide ForwardMove.Site;
    hide ForwardMove.HasSite;
    hide Boundary;
    hide Scans;
    ghost var p, marks := code[..count], isTarget[..count + 1];
    var op := code[ip].op;
    changed := false;
    WellFormedScans(p, ip);
    if WritesA(op) {
      ghost var at;
      changed, at := ForwardMove.TryForwardDefToMove(code, count, ip, isTarget);
      if changed { Forwarded(was, p, marks, ip, at); }
    }
    ghost var q := code[..count];
    assert KeepsBoundaries(p, q) && q[ip].op == op;
    if op == OP_MOVE {
      WellFormedScans(q, ip);
      var copied := CopyPropagation.PropagateCopy(code, count, isTarget, ip);
      CopiedHolds(was, q, marks, ip);
      changed := changed || copied;
    }
  }

  lemma WellFormedScans(p: seq<Word>, ip: nat)
    requires WellFormed(p) && Boundary(p, ip) && ip < |p|
    ensures Scans(p, 0) && (Slots(p[ip].op) == 1 ==> Scans(p, ip + 1)) && KeepsBoundaries(p, p)
  {
    MeetsNext(p, 0, ip);
    ScansAt(p, 0, ip + Slots(p[ip].op));
  }

  lemma Forwarded(was: seq<Word>, p: seq<Word>, marks: seq<bool>, ip: nat, at: nat)
    requires Holds(was, p, marks) && ForwardMove.Site(p, marks, ip, at)
    ensures ip < at < |p| && Holds(was, ForwardMove.ForwardedCode(p, ip, at), marks)
    ensures KeepsBoundaries(p, ForwardMove.ForwardedCode(p, ip, at))
    ensures ForwardMove.ForwardedCode(p, ip, at)[ip].op == p[ip].op
  {
    hide Preserves;
    ForwardMove.ForwardedSound(p, marks, ip, at);
    ForwardedPreserves(p, marks, ip, at);
    PreservesTrans(was, p, ForwardMove.ForwardedCode(p, ip, at));
  }

  lemma CopiedHolds(was: seq<Word>, p: seq<Word>, marks: seq<bool>, ip: nat)
    requires Holds(was, p, marks) && Boundary(p, ip) && ip < |p| && p[ip].op == OP_MOVE && Scans(p, ip + 1)
    ensures Holds(was, CopyPropagation.Rule9(p, marks, ip), marks)
    ensures KeepsBoundaries(p, CopyPropagation.Rule9(p, marks, ip))
  {
    hide Preserves;
    CopyPropagation.Rule9Sound(p, marks, ip);
    CopiedPreserves(p, marks, ip);
    PreservesTrans(was, p, CopyPropagation.Rule9(p, marks, ip));
  }

  /** The sweep over the whole code. */
  method SweepRegisters(code: array<Word>, count: nat, isTarget: array<bool>) returns (changed: bool)
    requires count <= code.Length && count < isTarget.Length
    requires WellFormed(code[..count]) && Covers(code[..count], isTarget[..count + 1])
    modifies code
    ensures Holds(old(code[..count]), code[..count], isTarget[..count + 1])
    ensures !changed ==> code[..count] == old(code[..count])
  {
    hide Preserves;
    hide WellFormed;
    hide Covers;
    hide Boundary;
    ghost var was := code[..count];
    changed := false;
    var ip := 0;
    PreservesRefl(was);
    AtZero(was);
    while ip < count
      invariant 0 <= ip <= count && Holds(was, code[..count], isTarget[..count + 1])
      invariant Boundary(code[..count], ip)
      invariant !changed ==> code[..count] == was
      decreases count - ip
    {
      ghost var p := code[..count];
      var slots := Slots(code[ip].op);
      Advances(p, ip);
      var visited := VisitRegisters(code, count, isTarget, ip, was);
      changed := changed || visited;
      ip := ip + slots;
    }
  }

  lemma AtZero(p: seq<Word>)
    ensures Boundary(p, 0)
  {
  }

  lemma Advances(p: seq<Word>, ip: nat)
    requires WellFormed(p) && Boundary(p, ip) && ip < |p|
    ensures ip + Slots(p[ip].op) <= |p| && Boundary(p, ip + Slots(p[ip].op))
  {
    MeetsNext(p, 0, ip);
    assert GoodAt(p, ip);
  }

  /** One round of the register passes over a validated chunk cannot be noticed. */
  method RegisterRound(code: array<Word>, count: nat, isTarget: array<bool>, bbIps: array<nat>)
      returns (changed: bool)
    requires count <= code.Length && count < isTarget.Length && count < bbIps.Length
    requires WellFormed(code[..count]) && NoDraws(code[..count])
    requires (isTarget as object) != code && (bbIps as object) != code && (bbIps as object) != isTarget
    modifies code, isTarget, bbIps
    ensures WellFormed(code[..count]) && PreservesValid(old(code[..count]), code[..count])
    ensures !changed ==> code[..count] == old(code[..count])
  {
    hide Preserves;
    hide PreservesValid;
    hide DeadStores.Swept;
    ghost var was := code[..count];
    PreservesRefl(was);
    changed := false;
    if count == 0 {
      PreservesAlsoValid(was, was);
      return;
    }
    CollectJumpTargets(code, count, isTarget);
    ghost var marks := isTarget[..count + 1];
    CollectedCover(was, marks);
    changed := DeadStores.EliminateDeadStores(code, count, isTarget, bbIps);
    assert isTarget[..count + 1] == marks;
    SweptPreserves(was, marks);
    DeadStores.SweptSound(was, marks);
    ghost var swept := code[..count];
    var moved := SweepRegisters(code, count, isTarget);
    PreservesAfter(was, swept, code[..count]);
    changed := changed || moved;
  }

  lemma CollectedCover(code: seq<Word>, marks: seq<bool>)
    requires |marks| == |code| + 1
    requires forall i :: 0 <= i <= |code| ==> marks[i] == IsTarget(code, i)
    ensures Covers(code, marks)
  {
  }
}
