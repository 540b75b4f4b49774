/** Rewritings that respect a linkage keep the discipline under which the machine does what the opcode table
    says, if no register that is looked at behind a call comes to lie in the callee's window. */
module DisciplineKept {
  import opened Words
  import opened Bytecode
  import opened Layout
  import opened Vm
  import opened ContractVm
  import opened TableContract
  import Derived
  import DeadCode

  // ---- what the rewritten program may look at -------------------------------------------------------

  /** Register `l` of the rewritten program holds one that may be looked at in the original. */
  ghost predicate HoldsOne(k: Linkage, facts: Facts, ip: int, l: u8) { exists r: u8 :: k(ip, l, r) && facts(ip, r) }

  /** The slot of the instruction to which a slot belongs. */
  function Anchor(code: seq<Word>, ip: int): int { if ip > 0 && !Boundary(code, ip) then ip - 1 else ip }

  ghost function LinkedFacts(code: seq<Word>, k: Linkage, facts: Facts): Facts {
    (ip: int, l: u8) => HoldsOne(k, facts, Anchor(code, ip), l)
  }

  function AnchoredWants(code: seq<Word>, wants: Wants): Wants { (ip: int) => wants(Anchor(code, ip)) }

  /** Behind a call, what is looked at lies below the callee's window in the rewritten program, too. */
  ghost predicate StaysBelow(k: Linkage, facts: Facts, next: int, w: Word, v: Word) {
    forall l: u8, r: u8 :: k(next, l, r) && facts(next, r) && ReturnRegister(w) != Some(r) ==> l < v.b
  }

  ghost predicate WindowKeptAt(c: Chunk, d: Chunk, k: Linkage, facts: Facts, ip: nat)
    requires ip < |c.code| == |d.code|
  {
    d.code[ip].op == OP_CALL || d.code[ip].op == OP_CALL_VOID ==>
      StaysBelow(k, facts, ip + 2, c.code[ip], d.code[ip])
  }

  ghost predicate WindowsKept(c: Chunk, d: Chunk, k: Linkage, facts: Facts) {
    |d.code| == |c.code| &&
    forall ip {:trigger WindowKeptAt(c, d, k, facts, ip)} ::
      0 <= ip < |c.code| && Boundary(c.code, ip) ==> WindowKeptAt(c, d, k, facts, ip)
  }

  // ---- layout ---------------------------------------------------------------------------------------

  lemma PayloadDecides(x: Word, y: Word)
    requires Payload(x) == Payload(y)
    ensures x == y
  {
    PayloadRoundTrip(Payload(x), x);
    PayloadRoundTrip(Payload(y), y);
  }

  /** Compatible code is derived instruction by instruction. */
  lemma CompatibleDerived(c: Chunk, d: Chunk, k: Linkage)
    requires WellFormed(c.code) && Compatible(c, d, k)
    ensures Derived.DerivedFrom(c.code, d.code)
  {
    forall ip | 0 <= ip < |c.code| && Boundary(c.code, ip) ensures Derived.DerivedAt(c.code, d.code, ip) {
      assert PairAt(c, d, k, ip);
      ScansAt(c.code, 0, ip);
      PairDerived(c, d, k, ip);
    }
  }

  lemma PairDerived(c: Chunk, d: Chunk, k: Linkage, ip: nat)
    requires ip < |c.code| == |d.code| && PairAt(c, d, k, ip) && c.code[ip].op < ACU_OPCODE_COUNT
    ensures Derived.DerivedAt(c.code, d.code, ip)
  {
    hide Payload;
    var w, v := c.code[ip], d.code[ip];
    if v.op != OP_NOP {
      if Slots(w.op) == 2 {
        PayloadDecides(c.code[ip + 1], d.code[ip + 1]);
      } else if IsBranch(w.op) {
        OffsetKept(k, ip, w, v);
      }
    }
  }

  lemma OffsetKept(k: Linkage, ip: int, w: Word, v: Word)
    requires IsBranch(w.op) && SameOperation(k, ip, w, v)
    ensures BranchOffset(v) == BranchOffset(w)
  {
  }

  /** A boundary of the derived code is one of the original, or the second slot of one that gave way to NOPs. */
  lemma {:induction false} BoundaryBack(p: seq<Word>, q: seq<Word>, from: nat, i: int)
    requires Scans(p, 0) && Derived.DerivedFrom(p, q) && Boundary(p, from) && Meets(q, from, i) && i < |p|
    ensures 0 <= i
    ensures Boundary(p, i) ||
            (i > 0 && Boundary(p, i - 1) && Slots(p[i - 1].op) == 2 && q[i - 1].op == OP_NOP && q[i].op == OP_NOP)
    decreases |p| - from
  {
    if from != i {
      assert Derived.DerivedAt(p, q, from);
      ScansAt(p, 0, from);
      MeetsNext(p, 0, from);
      var next := from + Slots(p[from].op);
      if Meets(q, next, i) { BoundaryBack(p, q, next, i); }
    }
  }

  // ---- one instruction ------------------------------------------------------------------------------

  lemma Through(k: Linkage, facts: Facts, ip: int, l: u8, r: u8)
    requires k(ip, l, r) && facts(ip, r)
    ensures HoldsOne(k, facts, ip, l)
  {
  }

  /** Where nothing is written. */
  lemma PassesCarries(k: Linkage, facts: Facts, ip: int, next: int)
    requires Passes(k, ip, next) && Carries(facts, ip, next)
    ensures forall l: u8 :: HoldsOne(k, facts, next, l) ==> HoldsOne(k, facts, ip, l)
  {
    forall l: u8 | HoldsOne(k, facts, next, l) ensures HoldsOne(k, facts, ip, l) {
      var r: u8 :| k(next, l, r) && facts(next, r);
      Through(k, facts, ip, l, r);
    }
  }

  /** Where the original stores in `dst` and the rewritten program does nothing. */
  lemma DropsCarries(k: Linkage, facts: Facts, ip: int, next: int, a: u8)
    requires Drops(k, ip, next, a)
    requires forall r: u8 :: facts(next, r) && r != a ==> facts(ip, r)
    ensures forall l: u8 :: HoldsOne(k, facts, next, l) ==> HoldsOne(k, facts, ip, l)
  {
    forall l: u8 | HoldsOne(k, facts, next, l) ensures HoldsOne(k, facts, ip, l) {
      var r: u8 :| k(next, l, r) && facts(next, r);
      Through(k, facts, ip, l, r);
    }
  }

  lemma ForwardsCarries(k: Linkage, facts: Facts, ip: int, next: int, w: Word)
    requires Forwards(k, ip, next, w)
    requires forall r: u8 :: facts(next, r) ==> facts(ip, if r == w.a then w.b else r)
    ensures forall l: u8 :: HoldsOne(k, facts, next, l) ==> HoldsOne(k, facts, ip, l)
  {
    forall l: u8 | HoldsOne(k, facts, next, l) ensures HoldsOne(k, facts, ip, l) {
      var r: u8 :| k(next, l, r) && facts(next, r);
      Through(k, facts, ip, l, if r == w.a then w.b else r);
    }
  }

  /** Both programs copy. */
  lemma DefinesCopies(k: Linkage, facts: Facts, ip: int, next: int, w: Word, v: Word)
    requires Defines(k, ip, next, w, v) && w.op == OP_MOVE && k(ip, v.b, w.b)
    requires forall r: u8 :: facts(next, r) ==> facts(ip, if r == w.a then w.b else r)
    ensures forall l: u8 :: HoldsOne(k, facts, next, l) ==> HoldsOne(k, facts, ip, if l == v.a then v.b else l)
  {
    forall l: u8 | HoldsOne(k, facts, next, l) ensures HoldsOne(k, facts, ip, if l == v.a then v.b else l) {
      var r: u8 :| k(next, l, r) && facts(next, r);
      assert DefinesLink(k, ip, w, v, l, r);
      Through(k, facts, ip, if l == v.a then v.b else l, if r == w.a then w.b else r);
    }
  }

  /** Both programs store. */
  lemma DefinesStores(k: Linkage, facts: Facts, ip: int, next: int, w: Word, v: Word)
    requires Defines(k, ip, next, w, v) && w.op != OP_MOVE
    requires forall r: u8 :: facts(next, r) && r != w.a ==> facts(ip, r)
    ensures forall l: u8 :: HoldsOne(k, facts, next, l) && l != v.a ==> HoldsOne(k, facts, ip, l)
  {
    forall l: u8 | HoldsOne(k, facts, next, l) && l != v.a ensures HoldsOne(k, facts, ip, l) {
      var r: u8 :| k(next, l, r) && facts(next, r);
      assert DefinesLink(k, ip, w, v, l, r);
      Through(k, facts, ip, l, if r == w.a then w.b else r);
    }
  }

  lemma ReturnsStores(k: Linkage, facts: Facts, ip: int, next: int, w: Word, v: Word)
    requires Returns(k, ip, next, w, v)
    requires forall r: u8 :: facts(next, r) && ReturnRegister(w) != Some(r) ==> facts(ip, r)
    ensures forall l: u8 :: HoldsOne(k, facts, next, l) && ReturnRegister(v) != Some(l) ==> HoldsOne(k, facts, ip, l)
  {
    forall l: u8 | HoldsOne(k, facts, next, l) && ReturnRegister(v) != Some(l) ensures HoldsOne(k, facts, ip, l) {
      var r: u8 :| k(next, l, r) && facts(next, r);
      assert ReturnsLink(k, ip, w, v, l, r);
      Through(k, facts, ip, l, r);
    }
  }

  /** The rewritten program looks at registers that hold what the original looks at. */
  lemma OperationLooks(k: Linkage, facts: Facts, ip: int, w: Word, v: Word)
    requires SameOperation(k, ip, w, v) && Looks(facts, ip, w) && !ReadsRange(w.op)
    ensures forall l: u8 :: InstReadsReg(v, l) ==> HoldsOne(k, facts, ip, l)
  {
    forall l: u8 | InstReadsReg(v, l) ensures HoldsOne(k, facts, ip, l) {
      var r := if ReadsA(w.op) && v.a == l then w.a else if ReadsB(w.op) && v.b == l then w.b else w.c;
      assert InstReadsReg(w, r);
      Through(k, facts, ip, l, r);
    }
  }

  lemma ArgumentsLook(k: Linkage, facts: Facts, ip: int, w: Word, v: Word)
    requires ArgumentsLinked(k, ip, w, v) && Looks(facts, ip, w) && ReadsRange(w.op) && ReadsRange(v.op)
    ensures forall l: u8 :: InstReadsReg(v, l) ==> HoldsOne(k, facts, ip, l)
  {
    forall l: u8 | InstReadsReg(v, l) ensures HoldsOne(k, facts, ip, l) {
      var i := l - v.b;
      assert ArgumentLinked(k, ip, w, v, i);
      assert InstReadsReg(w, w.b + i);
      Through(k, facts, ip, l, w.b + i);
    }
  }

  lemma EntersPassed(k: Linkage, facts: Facts, target: int, argc: u8)
    requires Enters(k, target) && Passed(facts, target, argc)
    ensures forall l: u8 :: HoldsOne(k, facts, target, l) ==> l < argc
  {
  }

  lemma CallSurvives(k: Linkage, facts: Facts, ip: int, w: Word, v: Word)
    requires Returns(k, ip, ip + 2, w, v) && Survives(facts, ip, ip + 2, w) && StaysBelow(k, facts, ip + 2, w, v)
    ensures forall l: u8 :: HoldsOne(k, facts, ip + 2, l) && ReturnRegister(v) != Some(l) ==>
              l < v.b && HoldsOne(k, facts, ip, l)
    ensures v.op == OP_CALL && HoldsOne(k, facts, ip + 2, v.a) ==> ReturnRegister(w).Some? && facts(ip + 2, w.a)
  {
    ReturnsStores(k, facts, ip, ip + 2, w, v);
    forall l: u8 | HoldsOne(k, facts, ip + 2, l) && ReturnRegister(v) != Some(l) ensures l < v.b {
      var r: u8 :| k(ip + 2, l, r) && facts(ip + 2, r);
      assert ReturnsLink(k, ip, w, v, l, r);
    }
    if ReturnRegister(v).Some? && HoldsOne(k, facts, ip + 2, v.a) {
      var r: u8 :| k(ip + 2, v.a, r) && facts(ip + 2, r);
      assert ReturnsLink(k, ip, w, v, v.a, r);
    }
  }

  lemma AtBoundary(code: seq<Word>, k: Linkage, facts: Facts, wants: Wants, ip: int)
    requires Boundary(code, ip)
    ensures forall l: u8 :: LinkedFacts(code, k, facts)(ip, l) <==> HoldsOne(k, facts, ip, l)
    ensures AnchoredWants(code, wants)(ip) == wants(ip)
  {
    assert Anchor(code, ip) == ip;
  }

  /** The second slot of a wide instruction counts as the first. */
  lemma AtPayload(code: seq<Word>, k: Linkage, facts: Facts, wants: Wants, ip: int)
    requires Boundary(code, ip) && 0 <= ip < |code| && Slots(code[ip].op) == 2
    ensures !Boundary(code, ip + 1)
    ensures forall l: u8 :: LinkedFacts(code, k, facts)(ip + 1, l) <==> HoldsOne(k, facts, ip, l)
    ensures AnchoredWants(code, wants)(ip + 1) == wants(ip)
  {
    if Boundary(code, ip + 1) { NoBoundaryInside(code, 0, ip, ip + 1); }
    assert Anchor(code, ip + 1) == ip;
  }

  /** An instruction that has given way to NOPs: from its slot to the next instruction. */
  lemma DroppedFollows(c: Chunk, d: Chunk, k: Linkage, facts: Facts, wants: Wants, ip: nat)
    requires ip < |c.code| == |d.code| && Boundary(c.code, ip) && ip + Slots(c.code[ip].op) <= |c.code|
    requires Boundary(c.code, ip + Slots(c.code[ip].op))
    requires PairAt(c, d, k, ip) && KeepsAt(c.code, facts, wants, ip) && d.code[ip].op == OP_NOP
    ensures var next := ip + Slots(c.code[ip].op);
            (forall l: u8 :: HoldsOne(k, facts, next, l) ==> HoldsOne(k, facts, ip, l)) &&
            (wants(ip) ==> wants(next))
  {
    var w := c.code[ip];
    var next := ip + Slots(w.op);
    if w.op == OP_NOP {
      PassesCarries(k, facts, ip, next);
    } else if w.op == OP_SYSCALL {
      DropsCarries(k, facts, ip, next, w.a);
    } else if w.op == OP_MOVE && Forwards(k, ip, next, w) {
      ForwardsCarries(k, facts, ip, next, w);
    } else {
      DropsCarries(k, facts, ip, next, w.a);
    }
  }

  lemma WideKeeps(c: Chunk, d: Chunk, k: Linkage, facts: Facts, wants: Wants, ip: nat)
    requires Disciplined(c.code, facts, wants) && Recoded(c, d) && ip < |c.code| && Boundary(c.code, ip)
    requires PairAt(c, d, k, ip) && WindowKeptAt(c, d, k, facts, ip)
    requires Slots(c.code[ip].op) == 2 && d.code[ip].op != OP_NOP
    ensures KeepsAt(d.code, LinkedFacts(c.code, k, facts), AnchoredWants(c.code, wants), ip)
  {
    hide Boundary;
    hide WellFormed;
    hide ArgumentsLinked;
    hide Returns;
    DisciplinedAt(c.code, facts, wants, ip);
    var w, v, target := c.code[ip], d.code[ip], Payload(c.code[ip + 1]);
    AtBoundary(c.code, k, facts, wants, ip);
    AtBoundary(c.code, k, facts, wants, ip + 2);
    if w.b + w.c <= REG_WINDOW {
      ArgumentsFit(k, ip, w, v);
      ArgumentsLook(k, facts, ip, w, v);
      SameCount(k, ip, w, v);
      if IsCall(w.op) {
        AtBoundary(c.code, k, facts, wants, target);
        EntersPassed(k, facts, target, w.c);
        if w.op != OP_TAILCALL { CallSurvives(k, facts, ip, w, v); }
      } else if !EndsProgram(target) {
        ReturnsStores(k, facts, ip, ip + 2, w, v);
      }
    }
  }

  lemma SameCount(k: Linkage, ip: int, w: Word, v: Word)
    requires ArgumentsLinked(k, ip, w, v)
    ensures v.c == w.c
  {
  }

  lemma MoveLinked(k: Linkage, ip: int, w: Word, v: Word)
    requires SameOperation(k, ip, w, v) && w.op == OP_MOVE
    ensures v.op == OP_MOVE && k(ip, v.b, w.b)
  {
  }

  lemma NarrowKeeps(c: Chunk, d: Chunk, k: Linkage, facts: Facts, wants: Wants, ip: nat)
    requires Disciplined(c.code, facts, wants) && Recoded(c, d) && ip < |c.code| && Boundary(c.code, ip)
    requires PairAt(c, d, k, ip) && Slots(c.code[ip].op) == 1 && c.code[ip].op != OP_NOP && d.code[ip].op != OP_NOP
    ensures KeepsAt(d.code, LinkedFacts(c.code, k, facts), AnchoredWants(c.code, wants), ip)
  {
    hide Boundary;
    hide WellFormed;
    hide BranchOffset;
    hide SameOperation;
    hide Passes;
    hide Defines;
    DisciplinedAt(c.code, facts, wants, ip);
    var w, v := c.code[ip], d.code[ip];
    AtBoundary(c.code, k, facts, wants, ip);
    AtBoundary(c.code, k, facts, wants, ip + 1);
    if SelfMove(w) && v == w && Passes(k, ip, ip + 1) {
      PassesCarries(k, facts, ip, ip + 1);
    } else {
      SameSlots(k, ip, w, v);
      if w.op == OP_MOVE {
        MoveLinked(k, ip, w, v);
        DefinesCopies(k, facts, ip, ip + 1, w, v);
      } else {
        OperationLooks(k, facts, ip, w, v);
        if IsCompute(w.op) {
          DefinesStores(k, facts, ip, ip + 1, w, v);
        } else if IsBranch(w.op) {
          OffsetKept(k, ip, w, v);
          AtBoundary(c.code, k, facts, wants, ip + 1 + BranchOffset(w));
          PassesCarries(k, facts, ip, ip + 1 + BranchOffset(w));
          if w.op != OP_JUMP { PassesCarries(k, facts, ip, ip + 1); }
        } else if w.op == OP_STORE_GLOBAL {
          PassesCarries(k, facts, ip, ip + 1);
        }
      }
    }
  }

  // ---- the whole code -------------------------------------------------------------------------------

  lemma DroppedKeeps(c: Chunk, d: Chunk, k: Linkage, facts: Facts, wants: Wants, ip: nat)
    requires Disciplined(c.code, facts, wants) && Recoded(c, d) && ip < |c.code| && Boundary(c.code, ip)
    requires PairAt(c, d, k, ip) && d.code[ip].op == OP_NOP
    ensures KeepsAt(d.code, LinkedFacts(c.code, k, facts), AnchoredWants(c.code, wants), ip)
    ensures Slots(c.code[ip].op) == 2 && d.code[ip + 1].op == OP_NOP ==>
              KeepsAt(d.code, LinkedFacts(c.code, k, facts), AnchoredWants(c.code, wants), ip + 1)
  {
    hide Boundary;
    hide WellFormed;
    DisciplinedAt(c.code, facts, wants, ip);
    var next := ip + Slots(c.code[ip].op);
    AtBoundary(c.code, k, facts, wants, ip);
    AtBoundary(c.code, k, facts, wants, next);
    DroppedFollows(c, d, k, facts, wants, ip);
    if next == ip + 2 { AtPayload(c.code, k, facts, wants, ip); }
  }

  /** A compatible rewriting that keeps windows keeps the discipline. */
  lemma KeepsDiscipline(c: Chunk, d: Chunk, k: Linkage, facts: Facts, wants: Wants)
    requires Disciplined(c.code, facts, wants) && Compatible(c, d, k) && WindowsKept(c, d, k, facts)
    ensures Disciplined(d.code, LinkedFacts(c.code, k, facts), AnchoredWants(c.code, wants))
  {
    hide KeepsAt;
    hide PairAt;
    hide Derived.DerivedAt;
    hide WindowKeptAt;
    hide Boundary;
    CompatibleDerived(c, d, k);
    Derived.DerivedSound(c.code, d.code, []);
    var facts', wants' := LinkedFacts(c.code, k, facts), AnchoredWants(c.code, wants);
    forall ip | 0 <= ip < |d.code| && Boundary(d.code, ip) ensures KeepsAt(d.code, facts', wants', ip) {
      StartsAtBoundary(c.code);
      StartsAtBoundary(d.code);
      BoundaryBack(c.code, d.code, 0, ip);
      var at := if Boundary(c.code, ip) then ip else ip - 1;
      assert PairAt(c, d, k, at) && WindowKeptAt(c, d, k, facts, at);
      if d.code[at].op == OP_NOP {
        DroppedKeeps(c, d, k, facts, wants, at);
      } else {
        PairKinds(c, d, k, at);
        if Slots(c.code[at].op) == 2 {
          WideKeeps(c, d, k, facts, wants, at);
        } else {
          NarrowKeeps(c, d, k, facts, wants, at);
        }
      }
    }
  }

  lemma StartsAtBoundary(code: seq<Word>)
    ensures Boundary(code, 0) && forall i: int :: Boundary(code, i) == Meets(code, 0, i)
  {
  }

  lemma PairKinds(c: Chunk, d: Chunk, k: Linkage, ip: nat)
    requires ip < |c.code| == |d.code| && PairAt(c, d, k, ip) && d.code[ip].op != OP_NOP
    ensures c.code[ip].op != OP_NOP
  {
  }

  /** A compatible rewriting of disciplined code that keeps windows cannot be noticed on the machine. */
  lemma CompatibleOnMachine(c: Chunk, d: Chunk, k: Linkage, facts: Facts, wants: Wants, h: Host, e: World, s: State)
    requires Disciplined(c.code, facts, wants) && Compatible(c, d, k) && WindowsKept(c, d, k, facts)
    requires Enters(k, 0) && IsInitial(c, s) && KeepsPurity(h, e) && TerminatorsStop(e.host)
    ensures Unnoticed(c, d, h, s)
  {
    hide Compatible;
    hide WindowsKept;
    hide KeepsPurity;
    hide Disciplined;
    KeepsDiscipline(c, d, k, facts, wants);
    var t := FirstConfig(s);
    FirstMatches(c, facts, wants, s);
    StartsRelated(c, k, t);
    DisciplinedCode(c.code, facts, wants);
    CompatibleRecoded(c, d, k);
    CompatibleCodeBehavesAlike(c, d, e, k, t, t);
    MachineFollows(c, d, facts, wants, LinkedFacts(c.code, k, facts), AnchoredWants(c.code, wants), h, e, s);
  }

  lemma DisciplinedCode(code: seq<Word>, facts: Facts, wants: Wants)
    requires Disciplined(code, facts, wants)
    ensures WellFormed(code)
  {
  }

  lemma CompatibleRecoded(c: Chunk, d: Chunk, k: Linkage)
    requires Compatible(c, d, k)
    ensures Recoded(c, d)
  {
  }
}
