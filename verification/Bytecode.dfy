/** The instruction set of the Acu VM: opcode numbers, the opcode table (slots, branch format,
    reads, writes, purity, terminators), field accessors, encoders and jump targets. */
module Bytecode {
  import opened Words

  const OP_NOP: u8 := 0
  const OP_HALT: u8 := 1
  const OP_RET: u8 := 2
  const OP_RET_VOID: u8 := 3
  const OP_JUMP: u8 := 4
  const OP_JUMP_IF_TRUE: u8 := 5
  const OP_JUMP_IF_FALSE: u8 := 6
  const OP_MOVE: u8 := 7
  const OP_LOAD_CONST: u8 := 8
  const OP_LOAD_STR: u8 := 9
  const OP_LOAD_IMM: u8 := 10
  const OP_LOAD_GLOBAL: u8 := 11
  const OP_STORE_GLOBAL: u8 := 12
  const OP_CALL: u8 := 13
  const OP_CALL_VOID: u8 := 14
  const OP_TAILCALL: u8 := 15
  const OP_SYSCALL: u8 := 16
  const OP_SYSCALL_VOID: u8 := 17
  const OP_JUMP_EQ: u8 := 18
  const OP_JUMP_NEQ: u8 := 19
  const OP_JUMP_LT_S: u8 := 20
  const OP_JUMP_LT_U: u8 := 21
  const OP_JUMP_LTE_S: u8 := 22
  const OP_JUMP_LTE_U: u8 := 23
  const OP_JUMP_GT_S: u8 := 24
  const OP_JUMP_GT_U: u8 := 25
  const OP_JUMP_GTE_S: u8 := 26
  const OP_JUMP_GTE_U: u8 := 27
  const OP_JUMP_EQ_IMM: u8 := 28
  const OP_JUMP_NEQ_IMM: u8 := 29
  const OP_JUMP_LT_S_IMM: u8 := 30
  const OP_JUMP_LT_U_IMM: u8 := 31
  const OP_JUMP_LTE_S_IMM: u8 := 32
  const OP_JUMP_LTE_U_IMM: u8 := 33
  const OP_JUMP_GT_S_IMM: u8 := 34
  const OP_JUMP_GT_U_IMM: u8 := 35
  const OP_JUMP_GTE_S_IMM: u8 := 36
  const OP_JUMP_GTE_U_IMM: u8 := 37
  const OP_ADD: u8 := 38
  const OP_SUB: u8 := 39
  const OP_MUL: u8 := 40
  const OP_DIV_S: u8 := 41
  const OP_DIV_U: u8 := 42
  const OP_REM_S: u8 := 43
  const OP_REM_U: u8 := 44
  const OP_POW: u8 := 45
  const OP_FPOW: u8 := 46
  const OP_AND: u8 := 47
  const OP_OR: u8 := 48
  const OP_XOR: u8 := 49
  const OP_SHL: u8 := 50
  const OP_SHR_S: u8 := 51
  const OP_SHR_U: u8 := 52
  const OP_ADD_IMM: u8 := 53
  const OP_SUB_IMM: u8 := 54
  const OP_RSUB_IMM: u8 := 55
  const OP_MUL_IMM: u8 := 56
  const OP_DIV_S_IMM: u8 := 57
  const OP_DIV_U_IMM: u8 := 58
  const OP_REM_S_IMM: u8 := 59
  const OP_REM_U_IMM: u8 := 60
  const OP_POW_IMM: u8 := 61
  const OP_AND_IMM: u8 := 62
  const OP_OR_IMM: u8 := 63
  const OP_XOR_IMM: u8 := 64
  const OP_SHL_IMM: u8 := 65
  const OP_SHR_S_IMM: u8 := 66
  const OP_SHR_U_IMM: u8 := 67
  const OP_FADD: u8 := 68
  const OP_FSUB: u8 := 69
  const OP_FMUL: u8 := 70
  const OP_FDIV: u8 := 71
  const OP_FREM: u8 := 72
  const OP_FNEG: u8 := 73
  const OP_NEG: u8 := 74
  const OP_NOT: u8 := 75
  const OP_LNOT: u8 := 76
  const OP_EQ: u8 := 77
  const OP_NEQ: u8 := 78
  const OP_LT_S: u8 := 79
  const OP_LT_U: u8 := 80
  const OP_LTE_S: u8 := 81
  const OP_LTE_U: u8 := 82
  const OP_GT_S: u8 := 83
  const OP_GT_U: u8 := 84
  const OP_GTE_S: u8 := 85
  const OP_GTE_U: u8 := 86
  const OP_EQ_IMM: u8 := 87
  const OP_NEQ_IMM: u8 := 88
  const OP_LT_S_IMM: u8 := 89
  const OP_LT_U_IMM: u8 := 90
  const OP_LTE_S_IMM: u8 := 91
  const OP_LTE_U_IMM: u8 := 92
  const OP_GT_S_IMM: u8 := 93
  const OP_GT_U_IMM: u8 := 94
  const OP_GTE_S_IMM: u8 := 95
  const OP_GTE_U_IMM: u8 := 96
  const OP_FEQ: u8 := 97
  const OP_FNEQ: u8 := 98
  const OP_FLT: u8 := 99
  const OP_FLTE: u8 := 100
  const OP_FGT: u8 := 101
  const OP_FGTE: u8 := 102
  const OP_SEXT8: u8 := 103
  const OP_SEXT16: u8 := 104
  const OP_SEXT32: u8 := 105
  const OP_ZEXT8: u8 := 106
  const OP_ZEXT16: u8 := 107
  const OP_ZEXT32: u8 := 108
  const OP_TRUNC8: u8 := 109
  const OP_TRUNC16: u8 := 110
  const OP_TRUNC32: u8 := 111
  const OP_I64_TO_F64: u8 := 112
  const OP_U64_TO_F64: u8 := 113
  const OP_F64_TO_I64: u8 := 114
  const OP_F64_TO_U64: u8 := 115
  const OP_F32_TO_F64: u8 := 116
  const OP_F64_TO_F32: u8 := 117
  const ACU_OPCODE_COUNT: u8 := 118

  const UINT32_MAX: nat := 0xFFFF_FFFF

  /** A 32-bit code word as its four bytes: the opcode in the low byte, then fields A, B, C.
      The second slot of a wide instruction is a plain number in the same four bytes. */
  datatype Word = Word(op: u8, a: u8, b: u8, c: u8)

  const NOP_WORD := Word(OP_NOP, 0, 0, 0)

  // ---- packed form and fields -----------------------------------------------------------

  function Payload(w: Word): u32 {
    w.op + 0x100 * w.a + 0x1_0000 * w.b + 0x100_0000 * w.c
  }

  function FromPayload(v: u32): Word {
    var v1 := v / 0x100;
    var v2 := v1 / 0x100;
    Word(v % 0x100, v1 % 0x100, v2 % 0x100, v2 / 0x100)
  }

  /** The packed 32-bit form and the four bytes determine each other. */
  lemma PayloadRoundTrip(v: u32, w: Word)
    ensures Payload(FromPayload(v)) == v
    ensures FromPayload(Payload(w)) == w
  {
    var p2 := w.b + 0x100 * w.c;
    var p1 := w.a + 0x100 * p2;
    DivModUnique(Payload(w), 0x100, p1, w.op);
    DivModUnique(p1, 0x100, p2, w.a);
    DivModUnique(p2, 0x100, w.c, w.b);
  }

  function GetBx(w: Word): u16 { w.b + 0x100 * w.c }

  /** The signed number in these bytes, the lowest one first. */
  function SignedBytes(bytes: seq<u8>): int
    requires bytes != []
  {
    if |bytes| == 1 then SignExtend8(bytes[0]) else bytes[0] + 0x100 * SignedBytes(bytes[1..])
  }

  function GetsBx(w: Word): int { SignedBytes([w.b, w.c]) }

  function GetsC(w: Word): int { SignExtend8(w.c) }

  function GetsB(w: Word): int { SignExtend8(w.b) }

  function GetsAx(w: Word): int { SignedBytes([w.a, w.b, w.c]) }

  /** The signed fields in terms of their bytes. */
  lemma SignedFields(w: Word)
    ensures GetsBx(w) == w.b + 0x100 * GetsC(w)
    ensures GetsAx(w) == w.a + 0x100 * w.b + 0x1_0000 * GetsC(w)
  {
    assert [w.a, w.b, w.c][1..] == [w.b, w.c] && [w.b, w.c][1..] == [w.c];
    assert SignedBytes([w.c]) == GetsC(w);
    assert SignedBytes([w.b, w.c]) == w.b + 0x100 * SignedBytes([w.c]);
    assert SignedBytes([w.a, w.b, w.c]) == w.a + 0x100 * SignedBytes([w.b, w.c]);
  }

  function SetsBx(w: Word, i: int): Word {
    var bx := i % 0x1_0000;
    w.(b := bx % 0x100, c := bx / 0x100)
  }

  function SetsC(w: Word, i: int): Word { w.(c := i % 0x100) }

  function SetsAx(w: Word, i: int): Word {
    var ax := i % 0x100_0000;
    w.(a := ax % 0x100, b := ax / 0x100 % 0x100, c := ax / 0x1_0000)
  }

  function EncodeAsBx(op: u8, a: u8, i: int): Word { SetsBx(Word(op, a, 0, 0), i) }

  function EncodeABx(op: u8, a: u8, bx: u16): Word { Word(op, a, bx % 0x100, bx / 0x100) }

  function EncodesAx(op: u8, i: int): Word { SetsAx(Word(op, 0, 0, 0), i) }

  predicate FitsImm8(i: int) { -0x80 <= i < 0x80 }

  predicate FitsImm16(i: int) { -0x8000 <= i < 0x8000 }

  predicate FitsImm24(i: int) { -0x80_0000 <= i < 0x80_0000 }

  /** A field reads back what was stored in it, and only that field changes. */
  lemma FieldBx(w: Word, i: int)
    ensures FitsImm16(i) ==> GetsBx(SetsBx(w, i)) == i
    ensures SetsBx(w, i).op == w.op && SetsBx(w, i).a == w.a
  {
    var bx := i % 0x1_0000;
    SignedFields(SetsBx(w, i));
    assert GetBx(SetsBx(w, i)) == bx;
    assert FitsImm16(i) ==> bx == if i < 0 then i + 0x1_0000 else i;
  }

  lemma FieldC(w: Word, i: int)
    ensures FitsImm8(i) ==> GetsC(SetsC(w, i)) == i
    ensures SetsC(w, i) == w.(c := SetsC(w, i).c)
  {
    assert FitsImm8(i) ==> i % 0x100 == if i < 0 then i + 0x100 else i;
  }

  lemma FieldAx(w: Word, i: int)
    ensures FitsImm24(i) ==> GetsAx(SetsAx(w, i)) == i
    ensures SetsAx(w, i).op == w.op
  {
    var ax := i % 0x100_0000;
    var s := SetsAx(w, i);
    var hi := ax / 0x100;
    DivModUnique(ax, 0x1_0000, hi / 0x100, ax % 0x100 + 0x100 * (hi % 0x100));
    SignedFields(s);
    assert s.a + 0x100 * s.b + 0x1_0000 * s.c == ax;
    assert FitsImm24(i) ==> ax == if i < 0 then i + 0x100_0000 else i;
  }

  // ---- the opcode table -------------------------------------------------------------------

  function Slots(op: u8): (n: nat)
    ensures 1 <= n <= 2
  {
    if OP_CALL <= op <= OP_SYSCALL_VOID then 2 else 1
  }

  predicate IsCall(op: u8) { OP_CALL <= op <= OP_TAILCALL }

  predicate IsSyscall(op: u8) { op == OP_SYSCALL || op == OP_SYSCALL_VOID }

  predicate IsRegJump(op: u8) { OP_JUMP_EQ <= op <= OP_JUMP_GTE_U }

  predicate IsImmJump(op: u8) { OP_JUMP_EQ_IMM <= op <= OP_JUMP_GTE_U_IMM }

  predicate IsBoolJump(op: u8) { op == OP_JUMP_IF_TRUE || op == OP_JUMP_IF_FALSE }

  predicate IsCondBranch(op: u8) { IsBoolJump(op) || IsRegJump(op) || IsImmJump(op) }

  predicate IsBranch(op: u8) { op == OP_JUMP || IsCondBranch(op) }

  predicate IsTerminator(op: u8) {
    op == OP_HALT || op == OP_RET || op == OP_RET_VOID || op == OP_JUMP || op == OP_TAILCALL
  }

  predicate IsBinaryReg(op: u8) {
    OP_ADD <= op <= OP_SHR_U || OP_FADD <= op <= OP_FREM || OP_EQ <= op <= OP_GTE_U ||
    OP_FEQ <= op <= OP_FGTE
  }

  predicate IsBinaryImm(op: u8) {
    OP_ADD_IMM <= op <= OP_SHR_U_IMM || OP_EQ_IMM <= op <= OP_GTE_U_IMM
  }

  predicate IsUnaryReg(op: u8) {
    op == OP_MOVE || OP_FNEG <= op <= OP_LNOT || OP_SEXT8 <= op <= OP_F64_TO_F32
  }

  predicate IsLoad(op: u8) { OP_LOAD_CONST <= op <= OP_LOAD_GLOBAL }

  /** The opcodes that only compute a value for register A and fall through. */
  predicate IsCompute(op: u8) {
    op == OP_MOVE || IsLoad(op) || OP_ADD <= op < ACU_OPCODE_COUNT
  }

  predicate WritesA(op: u8) { IsCompute(op) || op == OP_CALL || op == OP_SYSCALL }

  predicate ReadsA(op: u8) {
    op == OP_RET || IsBoolJump(op) || op == OP_STORE_GLOBAL || IsRegJump(op) || IsImmJump(op)
  }

  predicate ReadsB(op: u8) {
    IsUnaryReg(op) || IsBinaryImm(op) || IsBinaryReg(op) || IsRegJump(op)
  }

  predicate ReadsC(op: u8) { IsBinaryReg(op) }

  predicate ReadsRange(op: u8) { IsCall(op) || IsSyscall(op) }

  /** Whether an instruction reads a register, by the read mode of its opcode. */
  predicate InstReadsReg(w: Word, r: u8) {
    (ReadsA(w.op) && w.a == r) || (ReadsB(w.op) && w.b == r) || (ReadsC(w.op) && w.c == r) ||
    (ReadsRange(w.op) && w.b <= r < w.b + w.c)
  }

  /** Default purity of at most PURE. */
  predicate IsPureOpcode(op: u8) {
    op == OP_NOP ||
    (IsCompute(op) && !(OP_DIV_S <= op <= OP_REM_U) && !(OP_DIV_S_IMM <= op <= OP_REM_U_IMM))
  }

  /** `AcuOpcode_GetInverted` on the branch opcodes. */
  function GetInverted(op: u8): u8 {
    if op == OP_JUMP_IF_TRUE then OP_JUMP_IF_FALSE
    else if op == OP_JUMP_IF_FALSE then OP_JUMP_IF_TRUE
    else if op == OP_JUMP_EQ then OP_JUMP_NEQ
    else if op == OP_JUMP_NEQ then OP_JUMP_EQ
    else if op == OP_JUMP_LT_S then OP_JUMP_GTE_S
    else if op == OP_JUMP_LTE_S then OP_JUMP_GT_S
    else if op == OP_JUMP_GT_S then OP_JUMP_LTE_S
    else if op == OP_JUMP_GTE_S then OP_JUMP_LT_S
    else if op == OP_JUMP_LT_U then OP_JUMP_GTE_U
    else if op == OP_JUMP_LTE_U then OP_JUMP_GT_U
    else if op == OP_JUMP_GT_U then OP_JUMP_LTE_U
    else if op == OP_JUMP_GTE_U then OP_JUMP_LT_U
    else if op == OP_JUMP_EQ_IMM then OP_JUMP_NEQ_IMM
    else if op == OP_JUMP_NEQ_IMM then OP_JUMP_EQ_IMM
    else if op == OP_JUMP_LT_S_IMM then OP_JUMP_GTE_S_IMM
    else if op == OP_JUMP_LTE_S_IMM then OP_JUMP_GT_S_IMM
    else if op == OP_JUMP_GT_S_IMM then OP_JUMP_LTE_S_IMM
    else if op == OP_JUMP_GTE_S_IMM then OP_JUMP_LT_S_IMM
    else if op == OP_JUMP_LT_U_IMM then OP_JUMP_GTE_U_IMM
    else if op == OP_JUMP_LTE_U_IMM then OP_JUMP_GT_U_IMM
    else if op == OP_JUMP_GT_U_IMM then OP_JUMP_LTE_U_IMM
    else if op == OP_JUMP_GTE_U_IMM then OP_JUMP_LT_U_IMM
    else OP_NOP
  }

  // ---- branch targets ----------------------------------------------------------------------

  /** The signed distance a branch adds to the following ip. */
  function BranchOffset(w: Word): int {
    if w.op == OP_JUMP then GetsAx(w) else if IsBoolJump(w.op) then GetsBx(w) else GetsC(w)
  }

  function SetBranchOffset(w: Word, i: int): Word {
    if w.op == OP_JUMP then SetsAx(w, i) else if IsBoolJump(w.op) then SetsBx(w, i) else SetsC(w, i)
  }

  predicate FitsBranch(op: u8, i: int) {
    if op == OP_JUMP then FitsImm24(i) else if IsBoolJump(op) then FitsImm16(i) else FitsImm8(i)
  }

  lemma BranchOffsetFits(w: Word)
    ensures FitsBranch(w.op, BranchOffset(w))
  {
    SignedFields(w);
  }

  lemma SetBranchOffsetReads(w: Word, i: int)
    requires IsBranch(w.op) && FitsBranch(w.op, i)
    ensures BranchOffset(SetBranchOffset(w, i)) == i && SetBranchOffset(w, i).op == w.op
    ensures w.op != OP_JUMP ==> SetBranchOffset(w, i).a == w.a
    ensures !IsBoolJump(w.op) && w.op != OP_JUMP ==> SetBranchOffset(w, i).b == w.b
  {
    FieldAx(w, i);
    FieldBx(w, i);
    FieldC(w, i);
  }

  /** `AcuOpt_GetJumpTarget`: the target ip, or UINT32_MAX for a non-branch or a target
      before the start of the code. */
  function GetJumpTarget(ip: nat, w: Word): nat {
    if !IsBranch(w.op) then UINT32_MAX
    else
      var target := ip + 1 + BranchOffset(w);
      if target >= 0 then target else UINT32_MAX
  }
}
