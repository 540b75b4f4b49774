/** Rule 9 of `AcuOpt_PeepholePass`: behind a MOVE the source is read instead of the copy, as far as
    both hold the same value; a MOVE whose copy is dead afterwards goes away. */
module CopyPropagation {
  import opened Words
  import opened Bytecode
  import opened Layout
  import opened Vm
  import opened JumpTargets
  import opened ContractVm
  import opened DeadCode
  import Derived
  import opened DeadRegisters

  /** `AcuOpt_SubstituteReadReg`: an argument range is rewritten only if it is a single register. */
  function Substitute(w: Word, dst: u8, src: u8): Word {
    if ReadsRange(w.op) then if w.c == 1 && w.b == dst then w.(b := src) else w
    else w.(a := if ReadsA(w.op) && w.a == dst then src else w.a,
            b := if ReadsB(w.op) && w.b == dst then src else w.b,
            c := if ReadsC(w.op) && w.c == dst then src else w.c)
  }

  /** The scan ends behind the instruction at `i`. */
  predicate ScanStops(code: seq<Word>, i: nat, dst: u8, src: u8)
    requires i < |code|
  {
    var w := code[i];
    w.op != OP_NOP &&
    ((WritesA(w.op) && (w.a == src || w.a == dst)) || StopsAt(code, i) || IsCondBranch(w.op))
  }

  /** The scan that starts at `from` visits slot `i`. */
  predicate Visited(code: seq<Word>, marks: seq<bool>, from: nat, dst: u8, src: u8, i: int)
    requires |marks| == |code| + 1
    decreases |code| - from
  {
    from < |code| && from <= i && !marks[from] &&
    (i == from ||
     (!ScanStops(code, from, dst, src) && Visited(code, marks, from + Slots(code[from].op), dst, src, i)))
  }

  /** The slots from `from` on after the scan. */
  function CopiedFrom(code: seq<Word>, marks: seq<bool>, from: nat, dst: u8, src: u8): (r: seq<Word>)
    requires |marks| == |code| + 1 && Scans(code, from)
    ensures |r| == |code| - from
    decreases |code| - from
  {
    if from >= |code| || marks[from] then code[from..]
    else
      var next := from + Slots(code[from].op);
      [Substitute(code[from], dst, src)] + code[from + 1..next] +
      if ScanStops(code, from, dst, src) then code[next..] else CopiedFrom(code, marks, next, dst, src)
  }

  function Copied(code: seq<Word>, marks: seq<bool>, ip: nat): (r: seq<Word>)
    requires |marks| == |code| + 1 && ip < |code| && Scans(code, ip + 1)
    ensures |r| == |code|
  {
    code[..ip + 1] + CopiedFrom(code, marks, ip + 1, code[ip].a, code[ip].b)
  }

  /** What rule 9 makes of the code when it stands at the MOVE at `ip`. */
  function Rule9(code: seq<Word>, marks: seq<bool>, ip: nat): (r: seq<Word>)
    requires |marks| == |code| + 1 && ip < |code| && Scans(code, ip + 1)
    ensures |r| == |code|
  {
    if code[ip].a == code[ip].b then code[ip := NOP_WORD]
    else
      var q := Copied(code, marks, ip);
      if DeadAfter(q, marks, ip + 1, code[ip].a) then q[ip := NOP_WORD] else q
  }

  // ---- what the scan leaves at a boundary -----------------------------------------------------------

  /** What the scan makes of the instruction at which it stands, and of the rest. */
  lemma CopiedHead(code: seq<Word>, marks: seq<bool>, from: nat, dst: u8, src: u8)
    requires |marks| == |code| + 1 && Scans(code, from) && from < |code| && !marks[from]
    ensures var q, next := CopiedFrom(code, marks, from, dst, src), from + Slots(code[from].op);
            next <= |code| && q[0] == Substitute(code[from], dst, src) &&
            (next == from + 2 ==> q[1] == code[from + 1]) &&
            q[next - from..] ==
            if ScanStops(code, from, dst, src) then code[next..] else CopiedFrom(code, marks, next, dst, src)
  {
    hide Substitute;
    hide ScanStops;
    var next := from + Slots(code[from].op);
    var head := [Substitute(code[from], dst, src)] + code[from + 1..next];
    var tail := if ScanStops(code, from, dst, src) then code[next..] else CopiedFrom(code, marks, next, dst, src);
    assert CopiedFrom(code, marks, from, dst, src) == head + tail;
  }

  lemma {:induction false} CopiedAtFrom(code: seq<Word>, marks: seq<bool>, from: nat, dst: u8, src: u8, i: nat)
    requires |marks| == |code| + 1 && Scans(code, from) && Meets(code, from, i) && i < |code|
    ensures CopiedFrom(code, marks, from, dst, src)[i - from] ==
            if Visited(code, marks, from, dst, src, i) then Substitute(code[i], dst, src) else code[i]
    ensures Slots(code[i].op) == 2 && i + 1 < |code| ==>
              CopiedFrom(code, marks, from, dst, src)[i + 1 - from] == code[i + 1]
    decreases |code| - from
  {
    hide Substitute;
    hide ScanStops;
    if !marks[from] {
      CopiedHead(code, marks, from, dst, src);
      if from < i {
        var next := from + Slots(code[from].op);
        var q := CopiedFrom(code, marks, from, dst, src);
        MeetsOrder(code, next, i);
        CopiedAtFrom(code, marks, next, dst, src, i);
        assert q[i - from] == q[next - from..][i - next];
        assert i + 1 < |code| ==> q[i + 1 - from] == q[next - from..][i + 1 - next];
      }
    }
  }

  lemma CopiedAt(code: seq<Word>, marks: seq<bool>, ip: nat, i: nat)
    requires |marks| == |code| + 1 && Scans(code, 0) && Boundary(code, ip) && ip < |code|
    requires Slots(code[ip].op) == 1 && Boundary(code, i) && i < |code| && Scans(code, ip + 1)
    ensures Copied(code, marks, ip)[i] ==
            if Visited(code, marks, ip + 1, code[ip].a, code[ip].b, i)
            then Substitute(code[i], code[ip].a, code[ip].b) else code[i]
    ensures Slots(code[i].op) == 2 && i + 1 < |code| ==> Copied(code, marks, ip)[i + 1] == code[i + 1]
  {
    hide Substitute;
    hide CopiedFrom;
    hide ScanStops;
    if i > ip {
      NoBoundaryInside(code, 0, ip, i);
      CopiedAtFrom(code, marks, ip + 1, code[ip].a, code[ip].b, i);
    } else {
      NotPayload(code, i, ip);
    }
  }

  lemma NotPayload(code: seq<Word>, i: nat, ip: nat)
    requires Boundary(code, i) && Boundary(code, ip) && i < |code| && i <= ip
    ensures i < ip ==> i + Slots(code[i].op) <= ip
  {
    if i < ip { NoBoundaryInside(code, 0, i, ip); }
  }

  // ---- how the scan moves ---------------------------------------------------------------------------

  lemma {:induction false} VisitedUnmarked(code: seq<Word>, marks: seq<bool>, from: nat, dst: u8, src: u8, i: nat)
    requires |marks| == |code| + 1 && Visited(code, marks, from, dst, src, i)
    ensures i < |code| && !marks[i]
    decreases |code| - from
  {
    if from < i {
      VisitedUnmarked(code, marks, from + Slots(code[from].op), dst, src, i);
    }
  }

  /** The scan comes to an instruction only over the one before it. */
  lemma {:induction false} VisitedBefore(code: seq<Word>, marks: seq<bool>, from: nat, dst: u8, src: u8, i: nat)
    requires |marks| == |code| + 1 && i < |code| && Meets(code, from, i)
    requires Visited(code, marks, from, dst, src, i + Slots(code[i].op))
    ensures Visited(code, marks, from, dst, src, i) && !ScanStops(code, i, dst, src)
    decreases |code| - from
  {
    if from < i {
      MeetsOrder(code, from + Slots(code[from].op), i);
      VisitedBefore(code, marks, from + Slots(code[from].op), dst, src, i);
    }
  }

  // ---- the linkage ----------------------------------------------------------------------------------

  /** Registers hold their own values; where the scan has been, the source also holds the copy's. */
  function CopyLink(code: seq<Word>, marks: seq<bool>, ip: nat): Linkage
    requires |marks| == |code| + 1 && ip < |code|
  {
    var dst, src := code[ip].a, code[ip].b;
    (i: int, l: u8, r: u8) => l == r || (l == src && r == dst && Visited(code, marks, ip + 1, dst, src, i))
  }

  lemma TargetNotVisited(code: seq<Word>, marks: seq<bool>, ip: nat, from: nat, target: nat)
    requires WellFormed(code) && Covers(code, marks) && ip < |code|
    requires Boundary(code, from) && from < |code| && EntersAt(code, from, target) && target <= |code|
    ensures Diagonal(CopyLink(code, marks, ip), target)
  {
    assert IsTarget(code, target);
    var dst, src := code[ip].a, code[ip].b;
    if Visited(code, marks, ip + 1, dst, src, target) {
      VisitedUnmarked(code, marks, ip + 1, dst, src, target);
    }
  }

  lemma BranchTargetNotVisited(code: seq<Word>, marks: seq<bool>, ip: nat, from: nat)
    requires WellFormed(code) && Covers(code, marks) && ip < |code|
    requires Boundary(code, from) && from < |code|
    ensures IsBranch(code[from].op) ==> Diagonal(CopyLink(code, marks, ip), from + 1 + BranchOffset(code[from]))
    ensures IsCall(code[from].op) ==>
              from + 1 < |code| && Diagonal(CopyLink(code, marks, ip), Payload(code[from + 1]))
  {
    assert GoodAt(code, from);
    if IsBranch(code[from].op) {
      TargetNotVisited(code, marks, ip, from, from + 1 + BranchOffset(code[from]));
    } else if IsCall(code[from].op) {
      TargetNotVisited(code, marks, ip, from, Payload(code[from + 1]));
    }
  }

  /** A read of the copy, replaced or not, finds its value. */
  lemma SubstituteReads(code: seq<Word>, marks: seq<bool>, ip: nat, i: nat)
    requires |marks| == |code| + 1 && ip < |code| && i < |code| && Slots(code[i].op) == 1
    requires Visited(code, marks, ip + 1, code[ip].a, code[ip].b, i)
    ensures SameOperation(CopyLink(code, marks, ip), i, code[i], Substitute(code[i], code[ip].a, code[ip].b))
  {
    hide Visited;
  }

  lemma SubstituteKeeps(w: Word, dst: u8, src: u8)
    ensures Substitute(w, dst, src).op == w.op
    ensures WritesA(w.op) ==> Substitute(w, dst, src).a == w.a
    ensures IsBranch(w.op) ==> BranchOffset(Substitute(w, dst, src)) == BranchOffset(w)
    ensures w.op == OP_NOP ==> Substitute(w, dst, src) == w
  {
  }

  lemma VisitedPair(c: Chunk, d: Chunk, marks: seq<bool>, ip: nat, i: nat)
    requires WellFormed(c.code) && Covers(c.code, marks) && Boundary(c.code, ip) && ip < |c.code|
    requires c.code[ip].op == OP_MOVE && c.code[ip].a != c.code[ip].b
    requires |d.code| == |c.code| && Boundary(c.code, i) && i < |c.code|
    requires Visited(c.code, marks, ip + 1, c.code[ip].a, c.code[ip].b, i)
    requires d.code[i] == Substitute(c.code[i], c.code[ip].a, c.code[ip].b)
    requires Slots(c.code[i].op) == 2 && i + 1 < |c.code| ==> d.code[i + 1] == c.code[i + 1]
    ensures PairAt(c, d, CopyLink(c.code, marks, ip), i)
  {
    hide Substitute;
    var code, k := c.code, CopyLink(c.code, marks, ip);
    var w, v, dst, src := code[i], d.code[i], code[ip].a, code[ip].b;
    var next := i + Slots(w.op);
    assert GoodAt(code, i);
    ScansAt(code, 0, i);
    SubstituteKeeps(w, dst, src);
    BranchTargetNotVisited(code, marks, ip, i);
    if Visited(code, marks, ip + 1, dst, src, next) {
      NextVisited(code, marks, ip, i);
    }
    if Slots(w.op) == 2 {
      VisitedWide(c, d, marks, ip, i);
    } else {
      SubstituteReads(code, marks, ip, i);
    }
  }

  lemma NextVisited(code: seq<Word>, marks: seq<bool>, ip: nat, i: nat)
    requires |marks| == |code| + 1 && Boundary(code, ip) && Boundary(code, i) && i < |code| && ip < |code|
    requires Slots(code[ip].op) == 1
    requires Visited(code, marks, ip + 1, code[ip].a, code[ip].b, i + Slots(code[i].op))
    ensures i == ip ||
            (Visited(code, marks, ip + 1, code[ip].a, code[ip].b, i) &&
             !ScanStops(code, i, code[ip].a, code[ip].b))
  {
    if i > ip {
      NoBoundaryInside(code, 0, ip, i);
      VisitedBefore(code, marks, ip + 1, code[ip].a, code[ip].b, i);
    } else {
      NotPayload(code, i, ip);
    }
  }

  lemma VisitedWide(c: Chunk, d: Chunk, marks: seq<bool>, ip: nat, i: nat)
    requires |marks| == |c.code| + 1 && ip < |c.code| == |d.code| && i + 2 <= |c.code|
    requires c.code[ip].a != c.code[ip].b && Slots(c.code[i].op) == 2
    requires Visited(c.code, marks, ip + 1, c.code[ip].a, c.code[ip].b, i)
    requires Visited(c.code, marks, ip + 1, c.code[ip].a, c.code[ip].b, i + 2) ==>
               !ScanStops(c.code, i, c.code[ip].a, c.code[ip].b)
    requires IsCall(c.code[i].op) ==> Diagonal(CopyLink(c.code, marks, ip), Payload(c.code[i + 1]))
    requires d.code[i] == Substitute(c.code[i], c.code[ip].a, c.code[ip].b) && d.code[i + 1] == c.code[i + 1]
    ensures WideAt(c, d, CopyLink(c.code, marks, ip), i)
  {
    hide Visited;
    var k := CopyLink(c.code, marks, ip);
    var w, v := c.code[i], d.code[i];
    if w.b + w.c <= REG_WINDOW {
      forall j | 0 <= j < w.c ensures ArgumentLinked(k, i, w, v, j) {
      }
      assert w.op != OP_TAILCALL ==> Returns(k, i, i + 2, w, v);
    }
  }

  lemma CopyPair(c: Chunk, marks: seq<bool>, ip: nat, i: nat)
    requires WellFormed(c.code) && Covers(c.code, marks) && Boundary(c.code, ip) && ip < |c.code|
    requires c.code[ip].op == OP_MOVE && c.code[ip].a != c.code[ip].b && Scans(c.code, ip + 1)
    requires Boundary(c.code, i) && i < |c.code|
    ensures PairAt(c, c.(code := Copied(c.code, marks, ip)), CopyLink(c.code, marks, ip), i)
  {
    var code, d, k := c.code, c.(code := Copied(c.code, marks, ip)), CopyLink(c.code, marks, ip);
    var w, dst, src := code[i], code[ip].a, code[ip].b;
    var next := i + Slots(w.op);
    hide Copied;
    assert GoodAt(code, i);
    ScansAt(code, 0, i);
    CopiedAt(code, marks, ip, i);
    if Visited(code, marks, ip + 1, dst, src, i) {
      VisitedPair(c, d, marks, ip, i);
    } else if i == ip {
      assert Defines(k, ip, next, w, w);
    } else {
      UnvisitedPair(c, d, marks, ip, i);
    }
  }

  lemma UnvisitedPair(c: Chunk, d: Chunk, marks: seq<bool>, ip: nat, i: nat)
    requires WellFormed(c.code) && Covers(c.code, marks) && Boundary(c.code, ip) && ip < |c.code|
    requires c.code[ip].op == OP_MOVE && Boundary(c.code, i) && i < |c.code| && i != ip
    requires !Visited(c.code, marks, ip + 1, c.code[ip].a, c.code[ip].b, i)
    requires |d.code| == |c.code| && d.code[i] == c.code[i]
    requires Slots(c.code[i].op) == 2 && i + 1 < |c.code| ==> d.code[i + 1] == c.code[i + 1]
    ensures PairAt(c, d, CopyLink(c.code, marks, ip), i)
  {
    hide PairAt;
    hide IsTarget;
    var code, k := c.code, CopyLink(c.code, marks, ip);
    assert GoodAt(code, i);
    ScansAt(code, 0, i);
    if Visited(code, marks, ip + 1, code[ip].a, code[ip].b, i + Slots(code[i].op)) {
      NextVisited(code, marks, ip, i);
    }
    BranchTargetNotVisited(code, marks, ip, i);
    hide Visited;
    SamePair(c, d, k, i);
  }

  /** Reading the source instead of the copy preserves every run. */
  lemma CopyingPreservesBehaviour(c: Chunk, e: World, marks: seq<bool>, ip: nat, s: Config)
    requires WellFormed(c.code) && Covers(c.code, marks) && Boundary(c.code, ip) && ip < |c.code|
    requires c.code[ip].op == OP_MOVE && c.code[ip].a != c.code[ip].b && Scans(c.code, ip + 1)
    requires TerminatorsStop(e.host) && Starts(c, s)
    ensures CSame(c, s, c.(code := Copied(c.code, marks, ip)), s, e)
  {
    hide Compatible;
    var k := CopyLink(c.code, marks, ip);
    CopiedCompatible(c, marks, ip);
    StartsRelated(c, k, s);
    CompatibleCodeBehavesAlike(c, c.(code := Copied(c.code, marks, ip)), e, k, s, s);
  }

  lemma CopiedCompatible(c: Chunk, marks: seq<bool>, ip: nat)
    requires WellFormed(c.code) && Covers(c.code, marks) && Boundary(c.code, ip) && ip < |c.code|
    requires c.code[ip].op == OP_MOVE && c.code[ip].a != c.code[ip].b && Scans(c.code, ip + 1)
    ensures Compatible(c, c.(code := Copied(c.code, marks, ip)), CopyLink(c.code, marks, ip))
  {
    var k, d := CopyLink(c.code, marks, ip), c.(code := Copied(c.code, marks, ip));
    forall i | 0 <= i < |c.code| && Boundary(c.code, i) ensures PairAt(c, d, k, i) {
      CopyPair(c, marks, ip, i);
    }
  }

  // ---- removing the MOVE ----------------------------------------------------------------------------

  function Identity(): Linkage { (i: int, l: u8, r: u8) => l == r }

  /** A MOVE of a register to itself does nothing. */
  lemma SelfMoveRemoved(c: Chunk, e: World, ip: nat, s: Config)
    requires WellFormed(c.code) && Boundary(c.code, ip) && ip < |c.code| && SelfMove(c.code[ip])
    requires TerminatorsStop(e.host) && Starts(c, s)
    ensures CSame(c, s, c.(code := c.code[ip := NOP_WORD]), s, e)
  {
    hide Compatible;
    SelfMoveCompatible(c, ip);
    StartsRelated(c, Identity(), s);
    CompatibleCodeBehavesAlike(c, c.(code := c.code[ip := NOP_WORD]), e, Identity(), s, s);
  }

  lemma SelfMoveCompatible(c: Chunk, ip: nat)
    requires WellFormed(c.code) && Boundary(c.code, ip) && ip < |c.code| && SelfMove(c.code[ip])
    ensures Compatible(c, c.(code := c.code[ip := NOP_WORD]), Identity())
  {
    var k, d := Identity(), c.(code := c.code[ip := NOP_WORD]);
    forall i | 0 <= i < |c.code| && Boundary(c.code, i) ensures PairAt(c, d, k, i) {
      assert GoodAt(c.code, i);
      ScansAt(c.code, 0, i);
      if i == ip {
        assert Forwards(k, ip, ip + 1, c.code[ip]);
        assert DroppedAt(c, d, k, ip);
      } else {
        if i < ip { NotPayload(c.code, i, ip); }
        SamePair(c, d, k, i);
      }
    }
  }

  /** A computation that cannot fail, whose register is dead behind it, can go. */
  lemma DeadDefinitionRemoved(c: Chunk, e: World, marks: seq<bool>, ip: nat, s: Config)
    requires WellFormed(c.code) && |marks| == |c.code| + 1 && Boundary(c.code, ip) && ip < |c.code|
    requires NeverFails(c, c.code[ip]) && DeadAfter(c.code, marks, ip + 1, c.code[ip].a)
    requires TerminatorsStop(e.host) && Starts(c, s)
    ensures CSame(c, s, c.(code := c.code[ip := NOP_WORD]), s, e)
  {
    hide Compatible;
    var k := DeadLink(c.code, marks, c.code[ip].a);
    RemovedCompatible(c, marks, ip);
    StartsRelated(c, k, s);
    CompatibleCodeBehavesAlike(c, c.(code := c.code[ip := NOP_WORD]), e, k, s, s);
  }

  lemma RemovedCompatible(c: Chunk, marks: seq<bool>, ip: nat)
    requires WellFormed(c.code) && |marks| == |c.code| + 1 && Boundary(c.code, ip) && ip < |c.code|
    requires NeverFails(c, c.code[ip]) && DeadAfter(c.code, marks, ip + 1, c.code[ip].a)
    ensures Compatible(c, c.(code := c.code[ip := NOP_WORD]), DeadLink(c.code, marks, c.code[ip].a))
  {
    var reg := c.code[ip].a;
    var k, d := DeadLink(c.code, marks, reg), c.(code := c.code[ip := NOP_WORD]);
    forall i | 0 <= i < |c.code| && Boundary(c.code, i) ensures PairAt(c, d, k, i) {
      if i == ip {
        assert Drops(k, ip, ip + 1, reg);
        assert DroppedAt(c, d, k, ip);
      } else {
        if i < ip { NotPayload(c.code, i, ip); }
        DeadLinkPair(c, marks, reg, i);
        PairKept(c, d, k, i);
      }
    }
  }

  lemma CopiedShape(code: seq<Word>, marks: seq<bool>, ip: nat)
    requires WellFormed(code) && |marks| == |code| + 1 && Boundary(code, ip) && ip < |code|
    requires Slots(code[ip].op) == 1 && Scans(code, ip + 1)
    ensures SameShape(code, Copied(code, marks, ip)) && Copied(code, marks, ip)[ip] == code[ip]
  {
    hide Copied;
    hide BranchOffset;
    hide Substitute;
    var q := Copied(code, marks, ip);
    forall i | 0 <= i < |code| && Boundary(code, i) ensures ShapeAt(code, q, i) {
      CopiedAt(code, marks, ip, i);
      SubstituteKeeps(code[i], code[ip].a, code[ip].b);
    }
    CopiedAt(code, marks, ip, ip);
  }

  /** Rule 9 as a whole preserves every run from the start of the program. */
  lemma Rule9PreservesBehaviour(c: Chunk, e: World, marks: seq<bool>, ip: nat, s: Config)
    requires WellFormed(c.code) && Covers(c.code, marks) && Boundary(c.code, ip) && ip < |c.code|
    requires c.code[ip].op == OP_MOVE && Scans(c.code, ip + 1)
    requires TerminatorsStop(e.host) && Starts(c, s)
    ensures CSame(c, s, c.(code := Rule9(c.code, marks, ip)), s, e)
  {
    if c.code[ip].a == c.code[ip].b {
      SelfMoveRemoved(c, e, ip, s);
    } else {
      hide Copied;
      hide CSame;
      CopyingPreservesBehaviour(c, e, marks, ip, s);
      var q := Copied(c.code, marks, ip);
      if DeadAfter(q, marks, ip + 1, c.code[ip].a) {
        var d := c.(code := q);
        CopiedShape(c.code, marks, ip);
        SameShapeWellFormed(c.code, q);
        DeadDefinitionRemoved(d, e, marks, ip, s);
        CSameTrans(c, s, d, s, c.(code := q[ip := NOP_WORD]), s, e);
      }
    }
  }

  /** The code after rule 9 is well formed, and the marks collected before cover it. */
  lemma Rule9Sound(code: seq<Word>, marks: seq<bool>, ip: nat)
    requires WellFormed(code) && Covers(code, marks) && Boundary(code, ip) && ip < |code|
    requires code[ip].op == OP_MOVE && Scans(code, ip + 1)
    ensures WellFormed(Rule9(code, marks, ip)) && Covers(Rule9(code, marks, ip), marks)
    ensures KeepsBoundaries(code, Rule9(code, marks, ip))
  {
    hide Copied;
    hide BranchOffset;
    hide DeadAfter;
    hide Substitute;
    var q := Rule9(code, marks, ip);
    CopiedShape(code, marks, ip);
    forall k | 0 <= k < |code| && Boundary(code, k) ensures Derived.DerivedAt(code, q, k) {
      ScansAt(code, 0, k);
      if k < ip { NotPayload(code, k, ip); }
      assert ShapeAt(code, Copied(code, marks, ip), k);
    }
    Derived.DerivedSound(code, q, marks);
  }

  // ---- the pass -------------------------------------------------------------------------------------

  /** Rule 9 on the array, at the MOVE at `ip`. */
  method PropagateCopy(code: array<Word>, count: nat, isTarget: array<bool>, ip: nat) returns (changed: bool)
    requires ip < count <= code.Length && count < isTarget.Length && code[ip].op == OP_MOVE
    requires Scans(code[..count], 0) && Boundary(code[..count], ip) && Scans(code[..count], ip + 1)
    modifies code
    ensures code[..count] == Rule9(old(code[..count]), old(isTarget[..count + 1]), ip)
    ensures !changed ==> code[..count] == old(code[..count])
  {
    ghost var was, marks := code[..count], isTarget[..count + 1];
    var dst, src := code[ip].a, code[ip].b;
    if dst == src {
      code[ip] := NOP_WORD;
      return true;
    }
    changed := CopyScan(code, count, isTarget, ip, dst, src);
    ghost var copied := code[..count];
    assert copied == Copied(was, marks, ip);
    var dead := IsRegDeadAfter(code, count, ip + 1, dst, isTarget);
    if dead {
      code[ip] := NOP_WORD;
      changed := true;
    }
  }

  method CopyScan(code: array<Word>, count: nat, isTarget: array<bool>, ip: nat, dst: u8, src: u8)
      returns (anyReplaced: bool)
    requires ip < count <= code.Length && count < isTarget.Length && code[ip].op == OP_MOVE
    requires Scans(code[..count], ip + 1) && dst == code[ip].a && src == code[ip].b
    modifies code
    ensures code[..count] == Copied(old(code[..count]), isTarget[..count + 1], ip)
    ensures !anyReplaced ==> code[..count] == old(code[..count])
  {
    hide ScanStops;
    hide Substitute;
    hide CopiedSoFar;
    hide Copied;
    ghost var was, marks := code[..count], isTarget[..count + 1];
    anyReplaced := false;
    var scan := ip + 1;
    CopyBegins(was, marks, ip);
    while scan < count
      invariant ip < scan <= count && CopiedSoFar(code[..count], was, marks, ip, scan)
      invariant !anyReplaced ==> code[..count] == was
      decreases count - scan
    {
      ghost var before := code[..count];
      assert isTarget[scan] == marks[scan];
      if isTarget[scan] { break; }
      var next := scan + Slots(code[scan].op);
      var substituted := Substitute(code[scan], dst, src);
      CopyAdvances(before, was, marks, ip, scan);
      if substituted != code[scan] {
        anyReplaced := true;
      }
      var stops := ScanStops(code[..count], scan, dst, src);
      code[scan] := substituted;
      assert code[..count] == before[scan := substituted];
      scan := next;
      if stops { return; }
    }
    CopyEnds(code[..count], was, marks, ip, scan);
  }

  /** The scan has come to `scan` and has done what it should before it. */
  ghost predicate CopiedSoFar(p: seq<Word>, was: seq<Word>, marks: seq<bool>, ip: nat, scan: nat) {
    |p| == |was| && |marks| == |was| + 1 && ip < |was| && scan <= |was| && Scans(was, ip + 1) && Scans(was, scan) &&
    p[scan..] == was[scan..] &&
    p[..scan] + CopiedFrom(was, marks, scan, was[ip].a, was[ip].b) == Copied(was, marks, ip)
  }

  lemma CopyBegins(was: seq<Word>, marks: seq<bool>, ip: nat)
    requires |marks| == |was| + 1 && ip < |was| && Scans(was, ip + 1)
    ensures CopiedSoFar(was, was, marks, ip, ip + 1)
  {
  }

  lemma CopyEnds(p: seq<Word>, was: seq<Word>, marks: seq<bool>, ip: nat, scan: nat)
    requires CopiedSoFar(p, was, marks, ip, scan) && (scan == |was| || marks[scan])
    ensures p == Copied(was, marks, ip)
  {
    assert p == p[..scan] + p[scan..];
  }

  lemma CopyAdvances(p: seq<Word>, was: seq<Word>, marks: seq<bool>, ip: nat, scan: nat)
    requires CopiedSoFar(p, was, marks, ip, scan) && scan < |was| && !marks[scan]
    ensures var dst, src := was[ip].a, was[ip].b;
            var next, q := scan + Slots(p[scan].op), p[scan := Substitute(p[scan], dst, src)];
            next <= |was| &&
            if ScanStops(p, scan, dst, src) then q == Copied(was, marks, ip)
            else CopiedSoFar(q, was, marks, ip, next)
  {
    hide ScanStops;
    hide Substitute;
    hide Copied;
    hide CopiedFrom;
    hide Scans;
    var dst, src := was[ip].a, was[ip].b;
    assert p[scan] == p[scan..][0] == was[scan..][0];
    var next, v := scan + Slots(p[scan].op), Substitute(p[scan], dst, src);
    StopsCopied(p, was, scan, dst, src);
    CopiedStep(was, marks, scan, dst, src, p[..scan]);
    WordReplaced(p, was, scan, next, v);
    var q := p[scan := v];
    if ScanStops(was, scan, dst, src) {
      assert q == q[..next] + q[next..];
    } else {
      assert q[..next] + CopiedFrom(was, marks, next, dst, src) == Copied(was, marks, ip);
    }
  }

  lemma WordReplaced(p: seq<Word>, was: seq<Word>, i: nat, next: nat, v: Word)
    requires |p| == |was| && i < next <= |p| && p[i..] == was[i..]
    ensures p[i := v][..next] == p[..i] + ([v] + was[i + 1..next])
    ensures p[i := v][next..] == was[next..]
  {
    assert forall k :: i <= k < |p| ==> p[k] == p[i..][k - i] == was[i..][k - i] == was[k];
  }

  lemma StopsCopied(p: seq<Word>, was: seq<Word>, ip: nat, dst: u8, src: u8)
    requires |p| == |was| && ip < |p| && p[ip..] == was[ip..]
    ensures ScanStops(p, ip, dst, src) == ScanStops(was, ip, dst, src)
  {
    StopsSame(p, was, ip);
    assert p[ip] == p[ip..][0] == was[ip..][0];
  }

  lemma CopiedStep(was: seq<Word>, marks: seq<bool>, from: nat, dst: u8, src: u8, done: seq<Word>)
    requires |marks| == |was| + 1 && Scans(was, from) && from < |was| && !marks[from]
    ensures var next := from + Slots(was[from].op);
            next <= |was| && Scans(was, next) &&
            done + CopiedFrom(was, marks, from, dst, src) ==
            done + ([Substitute(was[from], dst, src)] + was[from + 1..next]) +
            if ScanStops(was, from, dst, src) then was[next..] else CopiedFrom(was, marks, next, dst, src)
  {
    hide ScanStops;
    hide Substitute;
  }
}