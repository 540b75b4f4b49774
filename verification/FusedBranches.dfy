/** Compare-and-branch fusion (rules 8 and 11 of `AcuOpt_PeepholePass`): exactly when the fused
    branch decides as the comparison and the branch it replaces. */
module FusedBranches {
  import opened Words
  import opened Bytecode
  import opened Vm

  predicate IsRegCompare(op: u8) { OP_EQ <= op <= OP_GTE_U }

  predicate IsImmCompare(op: u8) { OP_EQ_IMM <= op <= OP_GTE_U_IMM }

  /** `AcuOpt_FuseCmpJump`. */
  function FuseCmpJump(op: u8, jumpOnTrue: bool): u8 {
    var fused: u8 := if IsRegCompare(op) then OP_JUMP_EQ + (op - OP_EQ)
                     else if IsImmCompare(op) then OP_JUMP_EQ_IMM + (op - OP_EQ_IMM)
                     else OP_NOP;
    if fused == OP_NOP then OP_NOP else if jumpOnTrue then fused else GetInverted(fused)
  }

  /** The value the comparison `w` stores, given its operand registers. */
  function CompareValue(h: Host, w: Word, x: u64, y: u64): Option<u64>
    requires IsRegCompare(w.op) || IsImmCompare(w.op)
  {
    if IsRegCompare(w.op) then BinaryOp(h, w.op, x, y) else ImmediateOp(w.op, x, w.c)
  }

  /** The fused branch: operand registers B and C, or B and the immediate, move to A and B. */
  function FusedWord(w: Word, jumpOnTrue: bool, offset: u8): Word {
    Word(FuseCmpJump(w.op, jumpOnTrue), w.b, w.c, offset)
  }

  /** With operand values x and y both ways branch alike. */
  predicate FusionAgrees(h: Host, w: Word, jumpOnTrue: bool, offset: u8, x: u64, y: u64)
    requires IsRegCompare(w.op) || IsImmCompare(w.op)
  {
    CompareValue(h, w, x, y).Some? &&
    Taken(FusedWord(w, jumpOnTrue, offset), x, y) == (jumpOnTrue == (CompareValue(h, w, x, y).value != 0))
  }

  /** Fusion is right for all operand values, except that the branch zero-extends the immediate of an
      equality test which the comparison sign-extends. */
  lemma FusionExact(h: Host, w: Word, jumpOnTrue: bool, offset: u8)
    requires IsRegCompare(w.op) || IsImmCompare(w.op)
    ensures (forall x: u64, y: u64 :: FusionAgrees(h, w, jumpOnTrue, offset, x, y)) <==>
            !((w.op == OP_EQ_IMM || w.op == OP_NEQ_IMM) && GetsC(w) < 0)
  {
    if (w.op == OP_EQ_IMM || w.op == OP_NEQ_IMM) && GetsC(w) < 0 {
      assert Wrap(GetsC(w)) != w.c;
      assert !FusionAgrees(h, w, jumpOnTrue, offset, w.c, 0);
    } else {
      forall x: u64, y: u64 ensures FusionAgrees(h, w, jumpOnTrue, offset, x, y) {
        FusionRight(h, w, jumpOnTrue, offset, x, y);
      }
    }
  }

  lemma FusionRight(h: Host, w: Word, jumpOnTrue: bool, offset: u8, x: u64, y: u64)
    requires IsRegCompare(w.op) || IsImmCompare(w.op)
    requires !((w.op == OP_EQ_IMM || w.op == OP_NEQ_IMM) && GetsC(w) < 0)
    ensures FusionAgrees(h, w, jumpOnTrue, offset, x, y)
  {
    var plain := FusedWord(w, true, offset);
    assert Wrap(GetsC(w)) == w.c || !(w.op == OP_EQ_IMM || w.op == OP_NEQ_IMM);
    assert Taken(plain, x, y) == (CompareValue(h, w, x, y).value != 0);
    InvertedBranch(plain, x, y);
    assert FusedWord(w, false, offset) == plain.(op := GetInverted(plain.op));
  }

  /** Rule 8: a comparison with zero and a branch on its result become a branch on the operand. */
  function ZeroFusedOp(isEq: bool, jumpOnTrue: bool): u8 {
    if isEq == jumpOnTrue then OP_JUMP_IF_FALSE else OP_JUMP_IF_TRUE
  }
}
