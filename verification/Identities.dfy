/** Rule 10 of the peephole pass: algebraic identities. The instruction that takes the place of
    another one does the same in every state. */
module Identities {
  import opened Words
  import opened Bytecode
  import opened Vm

  /** Opcodes flagged as 0, or as 1, on equal operands. */
  predicate SelfZero(op: u8) {
    op == OP_SUB || op == OP_XOR || op == OP_NEQ || op == OP_LT_S || op == OP_LT_U || op == OP_GT_S || op == OP_GT_U
  }

  predicate SelfOne(op: u8) {
    op == OP_EQ || op == OP_LTE_S || op == OP_LTE_U || op == OP_GTE_S || op == OP_GTE_U
  }

  /** Immediate forms that leave their operand as it is. */
  predicate IsNeutralImm(w: Word) {
    ((w.op == OP_ADD_IMM || w.op == OP_SUB_IMM || w.op == OP_OR_IMM || w.op == OP_XOR_IMM) && GetsC(w) == 0) ||
    (w.op == OP_MUL_IMM && GetsC(w) == 1) ||
    ((w.op == OP_SHL_IMM || w.op == OP_SHR_S_IMM || w.op == OP_SHR_U_IMM) && w.c % 64 == 0)
  }

  predicate IsZeroImm(w: Word) { (w.op == OP_MUL_IMM || w.op == OP_AND_IMM) && GetsC(w) == 0 }

  /** What the rule makes of an instruction. */
  function Simplified(w: Word): Word {
    if SelfZero(w.op) && w.b == w.c then EncodeAsBx(OP_LOAD_IMM, w.a, 0)
    else if SelfOne(w.op) && w.b == w.c then EncodeAsBx(OP_LOAD_IMM, w.a, 1)
    else if IsNeutralImm(w) then if w.a == w.b then NOP_WORD else Word(OP_MOVE, w.a, w.b, 0)
    else if IsZeroImm(w) then EncodeAsBx(OP_LOAD_IMM, w.a, 0)
    else w
  }

  lemma SelfZeroComputes(h: Host, op: u8, x: u64)
    requires SelfZero(op)
    ensures BinaryOp(h, op, x, x) == Some(0)
  {
    BitSelf(x);
  }

  lemma SelfOneComputes(h: Host, op: u8, x: u64)
    requires SelfOne(op)
    ensures BinaryOp(h, op, x, x) == Some(1)
  {
  }

  lemma NeutralImmComputes(w: Word, x: u64)
    requires IsNeutralImm(w)
    ensures ImmediateOp(w.op, x, w.c) == Some(x)
  {
    WrapSigned(x);
    BitZero(x);
    assert w.op == OP_MUL_IMM ==> Wrap(Signed(x) * 1) == x;
    assert Pow2(0) == 1;
    assert x * 1 == x && x / 1 == x;
  }

  lemma BitZero(x: nat)
    ensures BitAnd(x, 0) == 0 && BitOr(x, 0) == x && BitXor(x, 0) == x
  {
  }

  lemma ZeroImmComputes(w: Word, x: u64)
    requires IsZeroImm(w)
    ensures ImmediateOp(w.op, x, w.c) == Some(0)
  {
    BitZero(x);
    assert Signed(x) * 0 == 0;
  }

  /** The new instruction does what the old one did. */
  lemma SimplifiedExecutes(c: Chunk, h: Host, s: State, w: Word)
    requires 0 <= s.ip < |c.code| && s.HasWindow()
    ensures Execute(c, h, s, Simplified(w)) == Execute(c, h, s, w)
  {
    hide BinaryOp;
    hide ImmediateOp;
    hide UnaryOp;
    hide Taken;
    hide BranchOffset;
    var x := s.Reg(w.b);
    if SelfZero(w.op) && w.b == w.c {
      SelfZeroComputes(h, w.op, x);
      LoadExecutes(c, h, s, w.a, 0);
    } else if SelfOne(w.op) && w.b == w.c {
      SelfOneComputes(h, w.op, x);
      LoadExecutes(c, h, s, w.a, 1);
    } else if IsNeutralImm(w) {
      NeutralImmComputes(w, x);
      MoveExecutes(c, h, s, w.a, w.b);
    } else if IsZeroImm(w) {
      ZeroImmComputes(w, x);
      LoadExecutes(c, h, s, w.a, 0);
    }
  }

  lemma LoadExecutes(c: Chunk, h: Host, s: State, a: u8, v: u8)
    requires 0 <= s.ip < |c.code| && s.HasWindow()
    ensures Execute(c, h, s, EncodeAsBx(OP_LOAD_IMM, a, v)) == Go(s.SetReg(a, v).Goto(s.ip + 1))
  {
    hide BinaryOp;
    hide ImmediateOp;
    hide UnaryOp;
    hide Taken;
    hide BranchOffset;
    hide SetsBx;
    hide GetsBx;
    FieldBx(Word(OP_LOAD_IMM, a, 0, 0), v);
  }

  /** A MOVE, which may be left out if it moves a register to itself. */
  lemma MoveExecutes(c: Chunk, h: Host, s: State, a: u8, b: u8)
    requires 0 <= s.ip < |c.code| && s.HasWindow()
    ensures Execute(c, h, s, Word(OP_MOVE, a, b, 0)) == Go(s.SetReg(a, s.Reg(b)).Goto(s.ip + 1))
    ensures Execute(c, h, s, NOP_WORD) == Go(s.SetReg(a, s.Reg(a)).Goto(s.ip + 1))
  {
    hide BinaryOp;
    hide ImmediateOp;
    hide Taken;
    hide BranchOffset;
    assert s.SetReg(a, s.Reg(a)).stack == s.stack;
  }

  function Rule10(code: seq<Word>, ip: nat): (r: seq<Word>)
    requires ip < |code|
    ensures |r| == |code|
  {
    code[ip := Simplified(code[ip])]
  }

  /** At the instruction itself the step stays the same. */
  lemma Rule10Steps(c: Chunk, h: Host, ip: nat, s: State)
    requires ip < |c.code| && s.ip == ip && Slots(c.code[ip].op) == 1
    ensures Step(c.(code := Rule10(c.code, ip)), h, s) == Step(c, h, s)
  {
    hide Execute;
    var d := c.(code := Rule10(c.code, ip));
    if s.HasWindow() {
      SimplifiedExecutes(c, h, s, c.code[ip]);
      ExecuteChunk(c, d, h, s, d.code[ip]);
    }
  }

  lemma ExecuteChunk(c: Chunk, d: Chunk, h: Host, s: State, w: Word)
    requires d == c.(code := d.code) && |d.code| == |c.code|
    requires 0 <= s.ip < |c.code| && s.HasWindow() && Slots(w.op) == 1
    ensures Execute(d, h, s, w) == Execute(c, h, s, w)
  {
    hide BinaryOp;
    hide ImmediateOp;
    hide UnaryOp;
    hide Taken;
    hide BranchOffset;
    hide GetBx;
    hide GetsBx;
    hide Payload;
    hide StepReturn;
    hide StepCall;
    hide StepTailCall;
    hide StepSyscall;
  }
}
