/** Instruction boundaries: the slots at which a scan from the start of the code finds an
    instruction rather than the payload of a wide one. */
module Layout {
  import opened Words
  import opened Bytecode

  /** The largest code the loader accepts, in words (32-bit byte size). */
  const MAX_CODE: nat := 0x3FFF_FFFF

  /** A scan that starts at `ip` meets only known opcodes and ends exactly at the end. */
  predicate Scans(code: seq<Word>, ip: nat)
    decreases |code| - ip
  {
    ip == |code| ||
    (ip < |code| && code[ip].op < ACU_OPCODE_COUNT && ip + Slots(code[ip].op) <= |code| &&
     Scans(code, ip + Slots(code[ip].op)))
  }

  /** A scan that starts at `from` stops over at `i`. */
  predicate Meets(code: seq<Word>, from: nat, i: int)
    decreases |code| - from
  {
    from == i || (from < i && from < |code| && Meets(code, from + Slots(code[from].op), i))
  }

  predicate Boundary(code: seq<Word>, i: int) { Meets(code, 0, i) }

  lemma {:induction false} MeetsNext(code: seq<Word>, from: nat, i: int)
    requires Meets(code, from, i) && i < |code|
    ensures Meets(code, from, i + Slots(code[i].op))
    ensures from <= i
    decreases |code| - from
  {
    if from < i {
      MeetsNext(code, from + Slots(code[from].op), i);
    }
  }

  /** Boundaries inside scannable code: a known opcode whose slots all fit. */
  lemma {:induction false} ScansAt(code: seq<Word>, from: nat, i: int)
    requires Scans(code, from) && Meets(code, from, i)
    ensures from <= i <= |code| && Scans(code, i)
    decreases |code| - from
  {
    if from < i {
      ScansAt(code, from + Slots(code[from].op), i);
    }
  }

  /** Between a boundary and the next one there is only payload. */
  lemma {:induction false} NoBoundaryInside(code: seq<Word>, from: nat, i: int, j: int)
    requires Meets(code, from, i) && Meets(code, from, j) && i < j && i < |code|
    ensures i + Slots(code[i].op) <= j
    ensures Meets(code, i + Slots(code[i].op), j)
    decreases |code| - from
  {
    var next := from + Slots(code[from].op);
    if from < i {
      NoBoundaryInside(code, next, i, j);
    } else {
      MeetsOrder(code, next, j);
    }
  }

  lemma {:induction false} MeetsOrder(code: seq<Word>, from: nat, i: int)
    requires Meets(code, from, i)
    ensures from <= i
  {
  }

  /** Codes with the same opcodes at the boundaries of one of them have the same layout. */
  lemma {:induction false} SameLayout(p: seq<Word>, q: seq<Word>, from: nat, i: int)
    requires |p| == |q|
    requires forall k :: from <= k < |p| && Meets(p, from, k) ==> Slots(q[k].op) == Slots(p[k].op)
    ensures Meets(p, from, i) == Meets(q, from, i)
    decreases |p| - from
  {
    if from < i && from < |p| {
      var next := from + Slots(p[from].op);
      assert Meets(p, from, from);
      forall k | next <= k < |p| && Meets(p, next, k)
        ensures Slots(q[k].op) == Slots(p[k].op)
      {
        assert Meets(p, from, k);
      }
      SameLayout(p, q, next, i);
    }
  }

  lemma {:induction false} SameScan(p: seq<Word>, q: seq<Word>, from: nat)
    requires |p| == |q| && Scans(p, from)
    requires forall k :: from <= k < |p| && Meets(p, from, k) ==>
               Slots(q[k].op) == Slots(p[k].op) && q[k].op < ACU_OPCODE_COUNT
    ensures Scans(q, from)
    decreases |p| - from
  {
    if from < |p| {
      var next := from + Slots(p[from].op);
      assert Meets(p, from, from);
      forall k | next <= k < |p| && Meets(p, next, k)
        ensures Slots(q[k].op) == Slots(p[k].op) && q[k].op < ACU_OPCODE_COUNT
      {
        assert Meets(p, from, k);
      }
      SameScan(p, q, next);
    }
  }

  // ---- well-formed code -----------------------------------------------------------------------------

  /** Branches and calls at `ip` go to boundaries (possibly the end of the code). */
  predicate TargetsOk(code: seq<Word>, ip: nat)
    requires ip < |code| && ip + Slots(code[ip].op) <= |code|
  {
    var w := code[ip];
    (IsBranch(w.op) ==> 0 <= ip + 1 + BranchOffset(w) <= |code| &&
                        Boundary(code, ip + 1 + BranchOffset(w))) &&
    (IsCall(w.op) ==> Payload(code[ip + 1]) <= |code| && Boundary(code, Payload(code[ip + 1])))
  }

  predicate GoodAt(code: seq<Word>, ip: nat)
    requires ip < |code|
  {
    ip + Slots(code[ip].op) <= |code| && TargetsOk(code, ip)
  }

  /** Code as the generator emits it and the validator accepts it. */
  ghost predicate WellFormed(code: seq<Word>) {
    |code| <= MAX_CODE && Scans(code, 0) &&
    forall ip {:trigger GoodAt(code, ip)} :: 0 <= ip < |code| && Boundary(code, ip) ==> GoodAt(code, ip)
  }

  /** Every boundary of `p` is one of `q`. */
  ghost predicate KeepsBoundaries(p: seq<Word>, q: seq<Word>) {
    |p| == |q| && forall i :: 0 <= i <= |p| && Boundary(p, i) ==> Boundary(q, i)
  }

  /** An instruction copied unchanged into code that keeps the boundaries still has good targets. */
  lemma CopyGoodAt(p: seq<Word>, q: seq<Word>, i: nat)
    requires KeepsBoundaries(p, q) && i < |p| && GoodAt(p, i) && q[i] == p[i]
    requires Slots(p[i].op) == 2 ==> q[i + 1] == p[i + 1]
    ensures GoodAt(q, i)
  {
    hide Boundary;
  }

  /** `q` has the opcode, branch offset and payload of `p` at boundary `i`. */
  ghost predicate ShapeAt(p: seq<Word>, q: seq<Word>, i: nat)
    requires i < |p| == |q|
  {
    q[i].op == p[i].op && (IsBranch(p[i].op) ==> BranchOffset(q[i]) == BranchOffset(p[i])) &&
    (Slots(p[i].op) == 2 && i + 1 < |p| ==> q[i + 1] == p[i + 1])
  }

  ghost predicate SameShape(p: seq<Word>, q: seq<Word>) {
    |p| == |q| && forall i :: 0 <= i < |p| && Boundary(p, i) ==> ShapeAt(p, q, i)
  }

  /** Rewriting register operands keeps code well formed. */
  lemma SameShapeWellFormed(p: seq<Word>, q: seq<Word>)
    requires WellFormed(p) && SameShape(p, q)
    ensures WellFormed(q) && forall i :: Boundary(q, i) == Boundary(p, i)
  {
    hide GoodAt;
    hide BranchOffset;
    forall i ensures Boundary(q, i) == Boundary(p, i) {
      assert forall k :: 0 <= k < |p| && Meets(p, 0, k) ==> Boundary(p, k) && ShapeAt(p, q, k);
      SameLayout(p, q, 0, i);
    }
    forall k | 0 <= k < |p| && Meets(p, 0, k)
      ensures Slots(q[k].op) == Slots(p[k].op) && q[k].op < ACU_OPCODE_COUNT
    {
      assert Boundary(p, k) && ShapeAt(p, q, k);
      ScansAt(p, 0, k);
    }
    SameScan(p, q, 0);
    forall i | 0 <= i < |q| && Boundary(q, i) ensures GoodAt(q, i) {
      assert Boundary(p, i) && ShapeAt(p, q, i) && GoodAt(p, i);
      ShapeGoodAt(p, q, i);
    }
  }

  lemma ShapeGoodAt(p: seq<Word>, q: seq<Word>, i: nat)
    requires i < |p| == |q| && ShapeAt(p, q, i) && GoodAt(p, i)
    requires forall k :: Boundary(q, k) == Boundary(p, k)
    ensures GoodAt(q, i)
  {
    hide Boundary;
    hide BranchOffset;
  }
}
