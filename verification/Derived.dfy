/** Code derived instruction by instruction: each one is kept with its control flow, or gives way to
    NOPs. Such code is well formed again, and the marks collected before still cover it. */
module Derived {
  import opened Words
  import opened Bytecode
  import opened Layout
  import opened JumpTargets
  import DeadCode

  /** Same size, same branch offset, same payload, and no new branch or call. */
  predicate KeptAt(p: seq<Word>, q: seq<Word>, k: nat)
    requires k < |p| == |q|
  {
    && Slots(q[k].op) == Slots(p[k].op) && q[k].op < ACU_OPCODE_COUNT
    && (IsBranch(q[k].op) ==> IsBranch(p[k].op) && BranchOffset(q[k]) == BranchOffset(p[k]))
    && (IsCall(q[k].op) ==> IsCall(p[k].op))
    && (Slots(p[k].op) == 2 && k + 1 < |p| ==> q[k + 1] == p[k + 1])
  }

  predicate BlankedAt(p: seq<Word>, q: seq<Word>, k: nat)
    requires k < |p| == |q|
  {
    q[k].op == OP_NOP && (Slots(p[k].op) == 2 && k + 1 < |p| ==> q[k + 1].op == OP_NOP)
  }

  predicate DerivedAt(p: seq<Word>, q: seq<Word>, k: nat)
    requires k < |p| == |q|
  {
    KeptAt(p, q, k) || BlankedAt(p, q, k)
  }

  ghost predicate DerivedFrom(p: seq<Word>, q: seq<Word>) {
    |q| == |p| &&
    forall k {:trigger DerivedAt(p, q, k)} :: 0 <= k < |p| && Boundary(p, k) ==> DerivedAt(p, q, k)
  }

  lemma {:induction false} BoundaryStays(p: seq<Word>, q: seq<Word>, from: nat, i: int)
    requires Scans(p, 0) && DerivedFrom(p, q) && Boundary(p, from) && Meets(p, from, i) && i <= |p|
    ensures Meets(q, from, i)
    decreases |p| - from
  {
    if from < i {
      assert DerivedAt(p, q, from);
      ScansAt(p, 0, from);
      MeetsNext(p, 0, from);
      BoundaryStays(p, q, from + Slots(p[from].op), i);
    }
  }

  /** At a boundary of the derived code stands a NOP or an instruction that was there before. */
  lemma {:induction false} BoundaryFrom(p: seq<Word>, q: seq<Word>, from: nat, i: int)
    requires Scans(p, 0) && DerivedFrom(p, q) && Boundary(p, from) && Meets(q, from, i) && i < |p|
    ensures 0 <= i && (q[i].op == OP_NOP || (Boundary(p, i) && KeptAt(p, q, i)))
    decreases |p| - from
  {
    if from == i {
      assert DerivedAt(p, q, i);
    } else {
      assert DerivedAt(p, q, from);
      ScansAt(p, 0, from);
      MeetsNext(p, 0, from);
      var next := from + Slots(p[from].op);
      if Meets(q, next, i) {
        BoundaryFrom(p, q, next, i);
      } else {
        assert i == from + 1 && q[i].op == OP_NOP;
      }
    }
  }

  lemma {:induction false} DerivedScans(p: seq<Word>, q: seq<Word>, from: nat)
    requires Scans(p, 0) && DerivedFrom(p, q) && Boundary(p, from) && from <= |p|
    ensures Scans(q, from)
    decreases |p| - from
  {
    if from < |p| {
      assert DerivedAt(p, q, from);
      ScansAt(p, 0, from);
      MeetsNext(p, 0, from);
      DerivedScans(p, q, from + Slots(p[from].op));
    }
  }

  lemma DerivedGoodAt(p: seq<Word>, q: seq<Word>, i: nat)
    requires KeepsBoundaries(p, q) && i < |p| && GoodAt(p, i) && KeptAt(p, q, i)
    ensures GoodAt(q, i)
  {
    hide Boundary;
    hide BranchOffset;
  }

  lemma DerivedSound(p: seq<Word>, q: seq<Word>, marks: seq<bool>)
    requires WellFormed(p) && DerivedFrom(p, q)
    ensures WellFormed(q) && KeepsBoundaries(p, q) && (Covers(p, marks) ==> Covers(q, marks))
  {
    hide GoodAt;
    hide KeptAt;
    hide BlankedAt;
    DerivedScans(p, q, 0);
    forall i | 0 <= i <= |p| && Boundary(p, i) ensures Boundary(q, i) {
      BoundaryStays(p, q, 0, i);
    }
    forall i | 0 <= i < |q| && Boundary(q, i) ensures GoodAt(q, i) {
      BoundaryFrom(p, q, 0, i);
      if q[i].op == OP_NOP {
        DeadCode.NopGoodAt(q, i);
      } else {
        assert GoodAt(p, i);
        DerivedGoodAt(p, q, i);
      }
    }
    if Covers(p, marks) { DerivedCovers(p, q, marks); }
  }

  lemma DerivedCovers(p: seq<Word>, q: seq<Word>, marks: seq<bool>)
    requires WellFormed(p) && DerivedFrom(p, q) && Covers(p, marks)
    ensures Covers(q, marks)
  {
    hide KeptAt;
    hide BlankedAt;
    hide Boundary;
    hide EntersAt;
    forall i | 0 <= i <= |q| && IsTarget(q, i) ensures marks[i] {
      if i != 0 {
        var k :| 0 <= k < |q| && Boundary(q, k) && EntersAt(q, k, i);
        BoundaryZero(p);
        BoundaryZero(q);
        BoundaryFrom(p, q, 0, k);
        EntersAsBefore(p, q, k, i);
        assert EntersAt(p, k, i);
      }
      assert IsTarget(p, i);
    }
  }

  lemma BoundaryZero(p: seq<Word>)
    ensures Boundary(p, 0) && forall i: int :: Boundary(p, i) == Meets(p, 0, i)
  {
  }

  lemma EntersAsBefore(p: seq<Word>, q: seq<Word>, k: nat, i: int)
    requires k < |p| == |q| && EntersAt(q, k, i) && (q[k].op == OP_NOP || KeptAt(p, q, k))
    ensures q[k].op != OP_NOP && EntersAt(p, k, i)
  {
    hide BranchOffset;
  }
}
