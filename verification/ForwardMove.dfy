/** `AcuOpt_TryForwardDefToMove`: a definition of a temporary that is later only moved to its final
    register writes the final register at once, and the MOVE goes away. */
module ForwardMove {
  import opened Words
  import opened Bytecode
  import opened Layout
  import opened Vm
  import opened JumpTargets
  import opened ContractVm
  import opened DeadCode
  import Derived
  import opened DeadRegisters

  /** Between definition and MOVE: control only passes, and the temporary is left alone. */
  predicate Quiet(code: seq<Word>, marks: seq<bool>, i: nat, tmp: u8)
    requires |marks| == |code| + 1 && i < |code|
  {
    var w := code[i];
    !marks[i] &&
    (w.op == OP_NOP || (SelfMove(w) && w.b == tmp) ||
     (!InstReadsReg(w, tmp) && !(WritesA(w.op) && w.a == tmp) && !StopsAt(code, i) && !IsCondBranch(w.op)))
  }

  /** The final register is neither read nor written at `i`. */
  predicate Untouched(w: Word, final: u8) {
    w.op == OP_NOP || (!InstReadsReg(w, final) && !(WritesA(w.op) && w.a == final))
  }

  ghost predicate QuietBetween(code: seq<Word>, marks: seq<bool>, from: nat, to: nat, tmp: u8)
    requires |marks| == |code| + 1
  {
    forall i :: from <= i < to && i < |code| && Boundary(code, i) ==> Quiet(code, marks, i, tmp)
  }

  ghost predicate UntouchedBetween(code: seq<Word>, from: nat, to: nat, final: u8) {
    forall i :: from <= i < to && i < |code| && Boundary(code, i) ==> Untouched(code[i], final)
  }

  /** Everything the pass has checked before it rewrites the definition at `ip` and the MOVE at `at`. */
  ghost predicate Site(code: seq<Word>, marks: seq<bool>, ip: nat, at: nat)
    requires |marks| == |code| + 1
  {
    && ip < |code| && Boundary(code, ip) && WritesA(code[ip].op)
    && ip + Slots(code[ip].op) <= at < |code| && Boundary(code, at) && !marks[at]
    && code[at].op == OP_MOVE && code[at].b == code[ip].a && code[at].a != code[ip].a
    && QuietBetween(code, marks, ip + Slots(code[ip].op), at, code[ip].a)
    && UntouchedBetween(code, ip + Slots(code[ip].op), at, code[at].a)
    && DeadAfter(code, marks, at + 1, code[ip].a)
    && !(IsCall(code[ip].op) && code[ip].b <= code[at].a < code[ip].b + code[ip].c)
  }

  ghost predicate HasSite(code: seq<Word>, marks: seq<bool>, ip: nat)
    requires |marks| == |code| + 1
  {
    exists at: nat :: Site(code, marks, ip, at)
  }

  function ForwardedCode(code: seq<Word>, ip: nat, at: nat): (r: seq<Word>)
    requires ip < at < |code|
    ensures |r| == |code|
  {
    code[ip := code[ip].(a := code[at].a)][at := NOP_WORD]
  }

  // ---- the linkage ----------------------------------------------------------------------------------

  /** Between definition and MOVE the new program's final register holds the old one's temporary;
      elsewhere registers hold their own values, except the temporary where it is dead. */
  function ForwardLink(code: seq<Word>, marks: seq<bool>, ip: nat, at: nat): Linkage
    requires |marks| == |code| + 1 && ip < at < |code|
  {
    var tmp, final := code[ip].a, code[at].a;
    (i: int, l: u8, r: u8) =>
      if ip < i <= at then (l == final && r == tmp) || (l == r && r != tmp && r != final)
      else l == r && (r != tmp || i < 0 || !DeadAfter(code, marks, i, tmp))
  }

  /** Nothing branches or calls into the stretch. */
  lemma NotEntered(code: seq<Word>, marks: seq<bool>, ip: nat, at: nat, from: nat, target: int)
    requires WellFormed(code) && Covers(code, marks) && Site(code, marks, ip, at)
    requires Boundary(code, from) && from < |code| && EntersAt(code, from, target) && 0 <= target <= |code|
    ensures !(ip < target <= at)
  {
    assert GoodAt(code, from);
    assert IsTarget(code, target);
    StretchUnmarked(code, marks, ip, at, target);
  }

  lemma StretchUnmarked(code: seq<Word>, marks: seq<bool>, ip: nat, at: nat, i: nat)
    requires |marks| == |code| + 1 && Site(code, marks, ip, at) && Boundary(code, i)
    ensures ip < i <= at ==> !marks[i]
  {
    NotInside(code, ip, i);
    assert ip < i < at ==> Quiet(code, marks, i, code[ip].a);
  }

  lemma DefinitionPair(c: Chunk, d: Chunk, marks: seq<bool>, ip: nat, at: nat)
    requires WellFormed(c.code) && Covers(c.code, marks) && Site(c.code, marks, ip, at)
    requires d == c.(code := ForwardedCode(c.code, ip, at))
    ensures PairAt(c, d, ForwardLink(c.code, marks, ip, at), ip)
  {
    var code, k := c.code, ForwardLink(c.code, marks, ip, at);
    var w, v := code[ip], d.code[ip];
    var next := ip + Slots(w.op);
    assert GoodAt(code, ip);
    assert UsesLinked(k, ip, w);
    if Slots(w.op) == 2 {
      NotInside(code, ip, at);
      assert d.code[ip + 1] == code[ip + 1];
      if w.b + w.c <= REG_WINDOW {
        forall i | 0 <= i < w.c ensures ArgumentLinked(k, ip, w, v, i) {
          assert InstReadsReg(w, w.b + i);
        }
      }
      if IsCall(w.op) {
        NotEntered(code, marks, ip, at, ip, Payload(code[ip + 1]));
      }
      assert Returns(k, ip, next, w, v);
    } else {
      ReadsItsOperands(w);
      assert Defines(k, ip, next, w, v);
    }
  }

  lemma NotInside(code: seq<Word>, ip: nat, i: nat)
    requires Boundary(code, ip) && ip < |code| && Boundary(code, i)
    ensures i <= ip || i >= ip + Slots(code[ip].op)
  {
    if i > ip { NoBoundaryInside(code, 0, ip, i); }
  }

  lemma MovePair(c: Chunk, d: Chunk, marks: seq<bool>, ip: nat, at: nat)
    requires |marks| == |c.code| + 1 && Site(c.code, marks, ip, at)
    requires d == c.(code := ForwardedCode(c.code, ip, at))
    ensures PairAt(c, d, ForwardLink(c.code, marks, ip, at), at)
  {
    var w, k := c.code[at], ForwardLink(c.code, marks, ip, at);
    assert Forwards(k, at, at + 1, w);
    assert DroppedAt(c, d, k, at);
  }

  lemma QuietPair(c: Chunk, d: Chunk, marks: seq<bool>, ip: nat, at: nat, i: nat)
    requires WellFormed(c.code) && Covers(c.code, marks) && Site(c.code, marks, ip, at)
    requires d == c.(code := ForwardedCode(c.code, ip, at))
    requires Boundary(c.code, i) && ip < i < at
    ensures PairAt(c, d, ForwardLink(c.code, marks, ip, at), i)
  {
    var code, k := c.code, ForwardLink(c.code, marks, ip, at);
    var w := code[i];
    var next := i + Slots(w.op);
    assert GoodAt(code, i);
    NotInside(code, ip, i);
    NotInside(code, i, at);
    assert Quiet(code, marks, i, code[ip].a) && Untouched(w, code[at].a);
    assert d.code[i] == w && (Slots(w.op) == 2 ==> d.code[i + 1] == code[i + 1]);
    if w.op == OP_NOP || (SelfMove(w) && w.b == code[ip].a) {
      assert Passes(k, i, next);
    } else {
      QuietInstruction(c, d, marks, ip, at, i);
    }
  }

  lemma QuietInstruction(c: Chunk, d: Chunk, marks: seq<bool>, ip: nat, at: nat, i: nat)
    requires WellFormed(c.code) && Covers(c.code, marks) && Site(c.code, marks, ip, at)
    requires d == c.(code := d.code) && |d.code| == |c.code| && Boundary(c.code, i) && ip < i < at
    requires var w := c.code[i];
             && i + Slots(w.op) <= at && w.op != OP_NOP && d.code[i] == w
             && (Slots(w.op) == 2 ==> d.code[i + 1] == c.code[i + 1])
             && !InstReadsReg(w, c.code[ip].a) && !(WritesA(w.op) && w.a == c.code[ip].a)
             && !InstReadsReg(w, c.code[at].a) && !(WritesA(w.op) && w.a == c.code[at].a)
             && !StopsAt(c.code, i) && !IsCondBranch(w.op)
    ensures PairAt(c, d, ForwardLink(c.code, marks, ip, at), i)
  {
    var code, k := c.code, ForwardLink(c.code, marks, ip, at);
    var w := code[i];
    var next := i + Slots(w.op);
    ScansAt(code, 0, i);
    if Slots(w.op) == 2 {
      if w.b + w.c <= REG_WINDOW {
        forall j | 0 <= j < w.c ensures ArgumentLinked(k, i, w, w, j) {
          assert InstReadsReg(w, w.b + j);
        }
      }
      if IsCall(w.op) {
        assert GoodAt(code, i);
        NotEntered(code, marks, ip, at, i, Payload(code[i + 1]));
      }
      assert Returns(k, i, next, w, w);
    } else {
      ReadsItsOperands(w);
      assert IsCompute(w.op) ==> Defines(k, i, next, w, w);
    }
  }

  /** Away from the stretch nothing changes, and control does not fall into it. */
  lemma OutsidePair(c: Chunk, d: Chunk, marks: seq<bool>, ip: nat, at: nat, i: nat)
    requires WellFormed(c.code) && Covers(c.code, marks) && Site(c.code, marks, ip, at)
    requires d == c.(code := ForwardedCode(c.code, ip, at))
    requires Boundary(c.code, i) && i < |c.code| && !(ip <= i <= at)
    ensures PairAt(c, d, ForwardLink(c.code, marks, ip, at), i)
  {
    var code, k := c.code, ForwardLink(c.code, marks, ip, at);
    var w := code[i];
    var next := i + Slots(w.op);
    assert GoodAt(code, i);
    ScansAt(code, 0, i);
    NotInside(code, i, ip);
    NotInside(code, i, at);
    if IsBranch(w.op) {
      NotEntered(code, marks, ip, at, i, i + 1 + BranchOffset(w));
      assert FlowLinked(k, i, i + 1 + BranchOffset(w), w);
    } else if IsCall(w.op) {
      NotEntered(code, marks, ip, at, i, Payload(code[i + 1]));
    }
    assert UsesLinked(k, i, w);
    assert FallsThrough(code, i) ==> FlowLinked(k, i, next, w);
    SamePair(c, d, k, i);
  }

  /** Forwarding a definition to its MOVE preserves every run from the start of the program. */
  lemma ForwardingPreservesBehaviour(c: Chunk, e: World, marks: seq<bool>, ip: nat, at: nat, s: Config)
    requires WellFormed(c.code) && Covers(c.code, marks) && Site(c.code, marks, ip, at)
    requires TerminatorsStop(e.host) && Starts(c, s)
    ensures CSame(c, s, c.(code := ForwardedCode(c.code, ip, at)), s, e)
  {
    hide Compatible;
    var k := ForwardLink(c.code, marks, ip, at);
    ForwardedCompatible(c, marks, ip, at);
    StartsRelated(c, k, s);
    CompatibleCodeBehavesAlike(c, c.(code := ForwardedCode(c.code, ip, at)), e, k, s, s);
  }

  lemma ForwardedCompatible(c: Chunk, marks: seq<bool>, ip: nat, at: nat)
    requires WellFormed(c.code) && Covers(c.code, marks) && Site(c.code, marks, ip, at)
    ensures Compatible(c, c.(code := ForwardedCode(c.code, ip, at)), ForwardLink(c.code, marks, ip, at))
  {
    var k := ForwardLink(c.code, marks, ip, at);
    var d := c.(code := ForwardedCode(c.code, ip, at));
    forall i | 0 <= i < |c.code| && Boundary(c.code, i) ensures PairAt(c, d, k, i) {
      if i == ip {
        DefinitionPair(c, d, marks, ip, at);
      } else if i == at {
        MovePair(c, d, marks, ip, at);
      } else if ip < i < at {
        QuietPair(c, d, marks, ip, at, i);
      } else {
        OutsidePair(c, d, marks, ip, at, i);
      }
    }
  }

  /** The forwarded code is well formed, and the marks collected before cover it. */
  lemma ForwardedSound(code: seq<Word>, marks: seq<bool>, ip: nat, at: nat)
    requires WellFormed(code) && Covers(code, marks) && Site(code, marks, ip, at)
    ensures WellFormed(ForwardedCode(code, ip, at)) && Covers(ForwardedCode(code, ip, at), marks)
    ensures KeepsBoundaries(code, ForwardedCode(code, ip, at))
  {
    hide BranchOffset;
    hide DeadAfter;
    var q := ForwardedCode(code, ip, at);
    forall k | 0 <= k < |code| && Boundary(code, k) ensures Derived.DerivedAt(code, q, k) {
      ScansAt(code, 0, k);
      NotInside(code, k, ip);
      NotInside(code, k, at);
    }
    Derived.DerivedSound(code, q, marks);
  }

  // ---- the pass -------------------------------------------------------------------------------------

  /** The inner scan: whether some instruction between definition and MOVE reads or writes `final`. */
  method FindConflict(code: array<Word>, count: nat, from: nat, to: nat, final: u8, ghost was: seq<Word>)
      returns (conflict: bool)
    requires from <= to < count <= code.Length && was == code[..count] && Scans(was, 0)
    requires Boundary(was, from) && Boundary(was, to)
    ensures !conflict <==> UntouchedBetween(was, from, to, final)
  {
    var mid := from;
    while mid < to
      invariant from <= mid <= to && Boundary(was, mid)
      invariant UntouchedBetween(was, from, mid, final)
    {
      var inst := code[mid];
      MeetsNext(was, 0, mid);
      NotInside(was, mid, to);
      forall i | mid < i < mid + Slots(inst.op) ensures !Boundary(was, i) {
        if Boundary(was, i) { NotInside(was, mid, i); }
      }
      if inst.op == OP_NOP {
        mid := mid + 1;
        continue;
      }
      if InstReadsReg(inst, final) || (WritesA(inst.op) && inst.a == final) {
        assert !Untouched(was[mid], final);
        return true;
      }
      mid := mid + Slots(inst.op);
    }
    return false;
  }

  /** The first place that is not quiet is the only one where a MOVE could be forwarded to. */
  lemma OnlySite(code: seq<Word>, marks: seq<bool>, ip: nat, scan: nat)
    requires |marks| == |code| + 1 && ip < |code| && Boundary(code, scan) && ip + Slots(code[ip].op) <= scan
    requires QuietBetween(code, marks, ip + Slots(code[ip].op), scan, code[ip].a)
    requires scan < |code| ==> !Quiet(code, marks, scan, code[ip].a) && !Site(code, marks, ip, scan)
    ensures !HasSite(code, marks, ip)
  {
    forall at: nat ensures !Site(code, marks, ip, at) {
      assert scan < |code| ==> !Quiet(code, marks, scan, code[ip].a);
    }
  }

  /** Looks for a MOVE to forward the definition at `ip` to, and rewrites both exactly if there is one. */
  method TryForwardDefToMove(code: array<Word>, count: nat, ip: nat, isTarget: array<bool>)
      returns (forwarded: bool, ghost at: nat)
    requires ip < count <= code.Length && count < isTarget.Length
    requires Scans(code[..count], 0) && Boundary(code[..count], ip)
    modifies code
    ensures forwarded <==> HasSite(old(code[..count]), old(isTarget[..count + 1]), ip)
    ensures !forwarded ==> code[..count] == old(code[..count])
    ensures forwarded ==> Site(old(code[..count]), old(isTarget[..count + 1]), ip, at) &&
                          code[..count] == ForwardedCode(old(code[..count]), ip, at)
  {
    ghost var was, marks := code[..count], isTarget[..count + 1];
    forwarded, at := false, 0;
    var inst := code[ip];
    if !WritesA(inst.op) { return; }
    var tmp := inst.a;
    var from := ip + Slots(inst.op);
    MeetsNext(was, 0, ip);
    var scan := from;
    while scan < count
      invariant from <= scan && code[..count] == was && Boundary(was, scan)
      invariant QuietBetween(was, marks, from, scan, tmp)
      decreases count - scan
    {
      var scanInst := code[scan];
      MeetsNext(was, 0, scan);
      if isTarget[scan] { break; }
      if scanInst.op == OP_NOP {
        scan := scan + 1;
        continue;
      }
      if scanInst.op == OP_MOVE && scanInst.b == tmp {
        var final := scanInst.a;
        if final == tmp {
          scan := scan + 1;
          continue;
        }
        if IsCall(inst.op) && inst.b <= final < inst.b + inst.c { break; }
        var conflict := FindConflict(code, count, from, scan, final, was);
        if conflict { break; }
        var dead := IsRegDeadAfter(code, count, scan + 1, tmp, isTarget);
        if !dead { break; }
        assert Site(was, marks, ip, scan);
        code[ip] := inst.(a := final);
        code[scan] := NOP_WORD;
        return true, scan;
      }
      if InstReadsReg(scanInst, tmp) { break; }
      if WritesA(scanInst.op) && scanInst.a == tmp { break; }
      if IsTerminator(scanInst.op) || IsCondBranch(scanInst.op) || StopsAt(code[..count], scan) { break; }
      forall i | scan < i < scan + Slots(scanInst.op) ensures !Boundary(was, i) {
        if Boundary(was, i) { NotInside(was, scan, i); }
      }
      scan := scan + Slots(scanInst.op);
    }
    OnlySite(was, marks, ip, scan);
  }
}
