/** Opcode selection, operand swapping, and why every rewrite the generator
    makes on an operator node keeps its value. */
module OpTables {
  import opened Words
  import opened Bytecode
  import opened Vm
  import opened Expr
  import opened Emitted
  import opened Fragments

  predicate IsCommutative(op: BinaryKind) {
    op == AddK || op == MulK || op == BitAndK || op == BitOrK || op == BitXorK || op == EqK || op == NeqK
  }

  predicate IsComparison(op: BinaryKind) {
    op == LtK || op == LteK || op == GtK || op == GteK || IsUnsignedOrder(op)
  }

  /** `AstBinary_InvertComparison`: the comparison with its operands exchanged. */
  function SwapComparison(op: BinaryKind): BinaryKind {
    match op
    case LtK => GtK
    case LteK => GteK
    case GtK => LtK
    case GteK => LteK
    case LtUK => GtUK
    case LteUK => GteUK
    case GtUK => LtUK
    case GteUK => LteUK
    case _ => op
  }

  function RegOpcode(op: BinaryKind): u8
    requires !IsLogical(op)
  {
    match op
    case AddK => OP_ADD
    case SubK => OP_SUB
    case MulK => OP_MUL
    case DivK => OP_DIV_S
    case RemK => OP_REM_S
    case PowK => OP_POW
    case BitAndK => OP_AND
    case BitOrK => OP_OR
    case BitXorK => OP_XOR
    case ShlK => OP_SHL
    case ShrK => OP_SHR_S
    case DivUK => OP_DIV_U
    case RemUK => OP_REM_U
    case ShrUK => OP_SHR_U
    case LtUK => OP_LT_U
    case LteUK => OP_LTE_U
    case GtUK => OP_GT_U
    case GteUK => OP_GTE_U
    case EqK => OP_EQ
    case NeqK => OP_NEQ
    case LtK => OP_LT_S
    case LteK => OP_LTE_S
    case GtK => OP_GT_S
    case GteK => OP_GTE_S
  }

  function ImmOpcode(op: BinaryKind): u8
    requires !IsLogical(op)
  {
    match op
    case AddK => OP_ADD_IMM
    case SubK => OP_SUB_IMM
    case MulK => OP_MUL_IMM
    case DivK => OP_DIV_S_IMM
    case RemK => OP_REM_S_IMM
    case PowK => OP_POW_IMM
    case BitAndK => OP_AND_IMM
    case BitOrK => OP_OR_IMM
    case BitXorK => OP_XOR_IMM
    case ShlK => OP_SHL_IMM
    case ShrK => OP_SHR_S_IMM
    case DivUK => OP_DIV_U_IMM
    case RemUK => OP_REM_U_IMM
    case ShrUK => OP_SHR_U_IMM
    case LtUK => OP_LT_U_IMM
    case LteUK => OP_LTE_U_IMM
    case GtUK => OP_GT_U_IMM
    case GteUK => OP_GTE_U_IMM
    case EqK => OP_EQ_IMM
    case NeqK => OP_NEQ_IMM
    case LtK => OP_LT_S_IMM
    case LteK => OP_LTE_S_IMM
    case GtK => OP_GT_S_IMM
    case GteK => OP_GTE_S_IMM
  }

  function UnaryOpcode(op: UnaryKind): u8
    requires op != Plus
  {
    match op
    case Minus => OP_NEG
    case BitwiseNot => OP_NOT
    case LogicalNot => OP_LNOT
  }

  // ---- the opcodes compute the operators ----------------------------------------------------------

  /** The division opcodes special-case a divisor of -1; the result is still the truncated
      quotient or remainder modulo 2^64. */
  lemma SignedDivision(x: u64, y: u64)
    ensures DivS(x, y) == EvalBinary(DivK, x, y)
    ensures RemS(x, y) == EvalBinary(RemK, x, y)
  {
    if y == ALL_ONES {
      var a := Signed(x);
      ShrinksDiv(Abs(a), 1);
      QuotientBound(Abs(a), 1);
      assert TruncDiv(a, -1) == -a;
      TruncDivRem(a, -1);
      assert TruncRem(a, -1) == 0;
      if x == TWO_63 {
        WrapUnique(-a, 0, TWO_63);
      } else {
        WrapCongruent(0 - x, -a, if x < TWO_63 then 0 else -1);
      }
    }
  }

  lemma RegOpcodeComputes(op: BinaryKind, h: Host, x: u64, y: u64)
    requires !IsLogical(op)
    ensures IsBinaryReg(RegOpcode(op))
    ensures BinaryOp(h, RegOpcode(op), x, y) == EvalBinary(op, x, y)
  {
    SignedDivision(x, y);
  }

  /** An immediate form computes the operator on the literal, except where the VM reads the literal's byte
      unsigned and the literal is negative. */
  lemma ImmOpcodeComputes(op: BinaryKind, x: u64, v: u64)
    requires !IsLogical(op) && FitsImm8(Signed(v)) && (ReadsByte(op) ==> Signed(v) >= 0)
    ensures IsBinaryImm(ImmOpcode(op))
    ensures ImmediateOp(ImmOpcode(op), x, Signed(v) % 0x100) == EvalBinary(op, x, v)
  {
    hide ImmediateOp;
    hide EvalBinary;
    ByteImmediate(v);
    if ReadsByte(op) {
      ByteComputes(op, x, v);
    } else if IsArithmetic(op) {
      ArithmeticImmediate(op, x, v);
    } else {
      OtherImmediate(op, x, v);
    }
  }

  predicate IsArithmetic(op: BinaryKind) { op == AddK || op == SubK || op == MulK || op == DivK || op == RemK }

  lemma ArithmeticImmediate(op: BinaryKind, x: u64, v: u64)
    requires IsArithmetic(op) && FitsImm8(Signed(v))
    ensures ImmediateOp(ImmOpcode(op), x, Signed(v) % 0x100) == EvalBinary(op, x, v)
  {
    hide DivS;
    hide RemS;
    hide TruncDiv;
    hide TruncRem;
    ByteImmediate(v);
    AddSigned(x, Signed(v));
    SubSigned(x, Signed(v));
    MulSigned(x, Signed(v), Signed(v));
    SignedDivision(x, v);
  }

  lemma OtherImmediate(op: BinaryKind, x: u64, v: u64)
    requires !IsLogical(op) && !ReadsByte(op) && !IsArithmetic(op) && FitsImm8(Signed(v))
    ensures IsBinaryImm(ImmOpcode(op))
    ensures ImmediateOp(ImmOpcode(op), x, Signed(v) % 0x100) == EvalBinary(op, x, v)
  {
    hide Shl;
    hide ShrS;
    hide ShrU;
    hide BitAnd;
    hide BitOr;
    hide BitXor;
    ByteImmediate(v);
  }

  /** These forms compute the operator on the byte. */
  lemma ByteComputes(op: BinaryKind, x: u64, c: u8)
    requires ReadsByte(op)
    ensures IsBinaryImm(ImmOpcode(op)) && ImmediateOp(ImmOpcode(op), x, c) == EvalBinary(op, x, c)
  {
  }

  lemma ByteImmediate(v: u64)
    requires FitsImm8(Signed(v))
    ensures var c := Signed(v) % 0x100;
            SignExtend8(c) == Signed(v) && Wrap(SignExtend8(c)) == v && v % 64 == c % 64 &&
            (Signed(v) >= 0 ==> c == v)
  {
    WrapSigned(v);
  }

  /** A left operand on which a negative literal read as a byte gives another result. */
  function Witness(op: BinaryKind): u64 { if op == PowK then NEAR_ONE else 0x100 }

  lemma ByteIsWrong(op: BinaryKind, v: u64)
    requires ReadsByte(op) && -0x80 <= Signed(v) < 0
    ensures EvalBinary(op, Witness(op), Signed(v) % 0x100) != EvalBinary(op, Witness(op), v)
  {
    hide PowWord;
    var c := Signed(v) % 0x100;
    if op == PowK {
      PowerIsWrong(v, c);
    } else {
      DivModUnique(0x100, v, 0, 0x100);
      DivModUnique(0x100, c, if c == 0x80 then 2 else 1, if c == 0x80 then 0 else 0x100 - c);
    }
  }

  lemma PowerIsWrong(v: u64, c: u8)
    requires v - c == 0xFFFF_FFFF_FFFF_FF00
    ensures PowWord(NEAR_ONE, c) != PowWord(NEAR_ONE, v)
  {
    PowNearOne(c);
    PowNearOne(v);
    var a := 1 + c * TWO_32;
    assert 1 + v * TWO_32 == a + (TWO_64 - 0x100 * TWO_32) + (TWO_32 - 1) * TWO_64;
    WrapDiffers(a, TWO_64 - 0x100 * TWO_32, TWO_32 - 1);
  }

  predicate ImmediateAgrees(op: BinaryKind, v: u64, x: u64)
    requires !IsLogical(op)
  {
    IsBinaryImm(ImmOpcode(op)) && ImmediateOp(ImmOpcode(op), x, Signed(v) % 0x100) == EvalBinary(op, x, v)
  }

  /** So an immediate form is right for every left operand exactly when it is not a power, an unsigned
      division, remainder or order with a negative literal. */
  lemma ImmediateFormExact(op: BinaryKind, v: u64)
    requires !IsLogical(op) && FitsImm8(Signed(v))
    ensures (forall x: u64 :: ImmediateAgrees(op, v, x)) <==> !(ReadsByte(op) && Signed(v) < 0)
  {
    if ReadsByte(op) && Signed(v) < 0 {
      ByteIsWrong(op, v);
      ByteComputes(op, Witness(op), Signed(v) % 0x100);
      assert !ImmediateAgrees(op, v, Witness(op));
    } else {
      forall x: u64 ensures ImmediateAgrees(op, v, x) {
        ImmOpcodeComputes(op, x, v);
      }
    }
  }

  predicate MeetsDirect(e: Expr, env: Env) { EvalEmitted(e, env) == Eval(e, env) }

  lemma ByteEmitted(op: BinaryKind, sym: nat, v: u64, x: u64)
    requires WrapsRight(op, Literal(v))
    ensures var e, env := Binary(op, Local(sym), Literal(v)), map[sym := x];
            EvalEmitted(e, env) == EvalBinary(op, x, Signed(v) % 0x100) && Eval(e, env) == EvalBinary(op, x, v)
  {
    hide EvalBinary;
  }

  lemma LocalReadsRight(op: BinaryKind, sym: nat, v: u64)
    requires !WrapsRight(op, Literal(v))
    ensures ReadsRight(Binary(op, Local(sym), Literal(v))) && KeepsTraps(Binary(op, Local(sym), Literal(v)))
  {
    assert !FoldsInts(op, Local(sym), Literal(v)) && !WrapsLeft(op, Local(sym), Literal(v));
    assert ImmediatesInRange(Local(sym)) && ImmediatesInRange(Literal(v));
    assert IsPure(Local(sym)) && KeepsTraps(Local(sym)) && KeepsTraps(Literal(v));
  }

  /** And so is the code for a whole operation on a local and a literal: it is the direct value in every
      environment under the same condition. */
  lemma LiteralOfLocalExact(op: BinaryKind, sym: nat, v: u64)
    requires !IsLogical(op)
    ensures (forall env: Env :: MeetsDirect(Binary(op, Local(sym), Literal(v)), env)) <==>
            !WrapsRight(op, Literal(v))
  {
    hide EvalBinary;
    hide BinaryEmitted;
    var e := Binary(op, Local(sym), Literal(v));
    if WrapsRight(op, Literal(v)) {
      ByteIsWrong(op, v);
      ByteEmitted(op, sym, v, Witness(op));
      assert !MeetsDirect(e, map[sym := Witness(op)]);
    } else {
      LocalReadsRight(op, sym, v);
      forall env: Env ensures MeetsDirect(e, env) {
        EmittedIsDirect(e, env);
      }
    }
  }

  const TWO_32: int := 0x1_0000_0000
  const NEAR_ONE: u64 := 0x1_0000_0001

  /** (1 + 2^32)^n is 1 + n 2^32 modulo 2^64. */
  lemma {:induction false} PowNearOne(n: nat)
    ensures PowWord(NEAR_ONE, n) == Wrap(1 + n * TWO_32)
  {
    if n > 0 {
      var p := Pow(NEAR_ONE, n - 1);
      var q := 1 + (n - 1) * TWO_32;
      PowNearOne(n - 1);
      WrapMul(NEAR_ONE, p);
      WrapMul(NEAR_ONE, q);
      assert NEAR_ONE * q == 1 + n * TWO_32 + (n - 1) * TWO_64;
      WrapCongruent(NEAR_ONE * q, 1 + n * TWO_32, n - 1);
    }
  }

  // ---- rewrites of operator nodes --------------------------------------------------------------------

  /** `AcuCodeGen_CanonicalizeBinary`: a literal left operand moves to the right when the operator
      allows it. */
  function Canonical(op: BinaryKind, l: Expr, r: Expr): (BinaryKind, Expr, Expr) {
    if l.Literal? && !r.Literal? && IsCommutative(op) then (op, r, l)
    else if l.Literal? && !r.Literal? && IsComparison(op) then (SwapComparison(op), r, l)
    else (op, l, r)
  }

  lemma SwapComputes(op: BinaryKind, x: u64, y: u64)
    ensures IsCommutative(op) ==> EvalBinary(op, x, y) == EvalBinary(op, y, x)
    ensures IsComparison(op) ==> EvalBinary(op, x, y) == EvalBinary(SwapComparison(op), y, x)
  {
    hide EvalBinary;
    if IsCommutative(op) { CommutedComputes(op, x, y); }
    if IsComparison(op) { MirroredComputes(op, x, y); }
  }

  lemma CommutedComputes(op: BinaryKind, x: u64, y: u64)
    requires IsCommutative(op)
    ensures EvalBinary(op, x, y) == EvalBinary(op, y, x)
  {
    hide BitAnd;
    hide BitOr;
    hide BitXor;
    MulCommutes(x, y);
    BitCommutes(x, y);
  }

  lemma MirroredComputes(op: BinaryKind, x: u64, y: u64)
    requires IsComparison(op)
    ensures EvalBinary(op, x, y) == EvalBinary(SwapComparison(op), y, x)
  {
  }

  lemma SwapFolds(op: BinaryKind, swapped: BinaryKind, v: u64, r: Expr)
    requires (IsCommutative(op) && swapped == op) || (IsComparison(op) && swapped == SwapComparison(op))
    requires !FoldsInts(op, Literal(v), r)
    ensures !FoldsInts(swapped, r, Literal(v))
  {
  }

  lemma SwapOperator(op: BinaryKind, swapped: BinaryKind, v: u64, r: Expr, y: u64)
    requires (IsCommutative(op) && swapped == op) || (IsComparison(op) && swapped == SwapComparison(op))
    requires !r.Literal? && !FoldsInts(op, Literal(v), r) && !FoldsInts(swapped, r, Literal(v))
    ensures BinaryEmitted(op, Literal(v), r, v, y) == BinaryEmitted(swapped, r, Literal(v), y, v)
  {
    hide EvalBinary;
    hide FoldsInts;
    SwapComputes(op, v, y);
    SwapComputes(op, ByteOf(Literal(v)), y);
  }

  /** Evaluating a literal last instead of first changes nothing. */
  lemma SwapSame(op: BinaryKind, swapped: BinaryKind, v: u64, r: Expr, env: Env)
    requires (IsCommutative(op) && swapped == op) || (IsComparison(op) && swapped == SwapComparison(op))
    requires !r.Literal? && !FoldsInts(op, Literal(v), r)
    ensures !FoldsInts(swapped, r, Literal(v))
    ensures SameOn(Binary(op, Literal(v), r), Binary(swapped, r, Literal(v)), env)
  {
    hide EvalBinary;
    hide FoldsInts;
    hide BinaryEmitted;
    SwapFolds(op, swapped, v, r);
    if DropsRight(op, Literal(v)) {
      assert DropsLeft(swapped, Literal(v));
    } else {
      assert !DropsLeft(op, r) && !DropsLeft(swapped, Literal(v)) && !DropsRight(swapped, r);
      assert !IsLogical(op) && !IsLogical(swapped);
      if EvalEmitted(r, env).Some? {
        var y := EvalEmitted(r, env).value;
        SwapOperator(op, swapped, v, r, y);
        assert EvalEmitted(Binary(op, Literal(v), r), env) == BinaryEmitted(op, Literal(v), r, v, y);
        assert EvalEmitted(Binary(swapped, r, Literal(v)), env) == BinaryEmitted(swapped, r, Literal(v), y, v);
      }
    }
  }

  lemma CanonicalSame(op: BinaryKind, l: Expr, r: Expr, syms: set<nat>)
    requires !FoldsInts(op, l, r)
    ensures var (op', l', r') := Canonical(op, l, r);
            SameMeaning(Binary(op, l, r), Binary(op', l', r')) && IsLogical(op') == IsLogical(op) &&
            Size(l') + Size(r') == Size(l) + Size(r) && (DropsRight(op', l') ==> r'.Literal?) &&
            !FoldsInts(op', l', r') && !WrapsLeft(op', l', r') &&
            (BoundIn(l, syms) && BoundIn(r, syms) ==> BoundIn(l', syms) && BoundIn(r', syms))
  {
    hide EvalEmitted;
    hide DropTraps;
    hide FoldsInts;
    var (op', l', r') := Canonical(op, l, r);
    forall env: Env ensures SameOn(Binary(op, l, r), Binary(op', l', r'), env) {
      if l.Literal? && !r.Literal? && (IsCommutative(op) || IsComparison(op)) {
        SwapSame(op, op', l.v, r, env);
      }
    }
    if l.Literal? && !r.Literal? && (IsCommutative(op) || IsComparison(op)) {
      SwapSame(op, op', l.v, r, map[]);
    }
  }

  /** A strict operator with a literal on its right that does not absorb it. */
  lemma LiteralEmitted(op: BinaryKind, l: Expr, v: u64, env: Env)
    requires !IsLogical(op) && !DropsLeft(op, Literal(v)) && !FoldsInts(op, l, Literal(v))
    ensures EvalEmitted(Binary(op, l, Literal(v)), env) ==
            match EvalEmitted(l, env)
            case None => None
            case Some(x) => EvalBinary(op, x, if WrapsRight(op, Literal(v)) then ByteOf(Literal(v)) else v)
    ensures DropTraps(Binary(op, l, Literal(v)), env) == DropTraps(l, env)
  {
    hide EvalBinary;
    AbsorbedComputes(op, v);
  }

  /** x op x for the operators whose result does not depend on x. */
  function SelfResult(op: BinaryKind): Option<int> {
    match op
    case SubK => Some(0)
    case BitXorK => Some(0)
    case NeqK => Some(0)
    case LtK => Some(0)
    case GtK => Some(0)
    case EqK => Some(1)
    case LteK => Some(1)
    case GteK => Some(1)
    case LtUK => Some(0)
    case GtUK => Some(0)
    case LteUK => Some(1)
    case GteUK => Some(1)
    case _ => None
  }

  lemma SelfConstant(op: BinaryKind, e: Expr, env: Env)
    requires e.Local? && SelfResult(op).Some?
    ensures EvalEmitted(Binary(op, e, e), env) == Some(SelfResult(op).value)
  {
    BitSelf(EvalEmitted(e, env).value);
  }

  lemma SelfIdentity(op: BinaryKind, e: Expr)
    requires e.Local? && (op == BitAndK || op == BitOrK)
    ensures SameMeaning(Binary(op, e, e), e)
  {
    forall env: Env ensures SameOn(Binary(op, e, e), e, env) {
      BitSelf(EvalEmitted(e, env).value);
    }
  }

  /** The literals that an operator treats as neutral on its right. */
  predicate IsNeutral(op: BinaryKind, v: u64) {
    match op
    case AddK => v == 0
    case SubK => v == 0
    case MulK => v == 1
    case DivK | DivUK => v == 1
    case PowK => v == 1
    case ShlK => v == 0
    case ShrK | ShrUK => v == 0
    case BitAndK => v == ALL_ONES
    case BitOrK => v == 0
    case BitXorK => v == 0
    case _ => false
  }

  lemma NeutralLiteral(op: BinaryKind, x: u64, v: u64)
    requires IsNeutral(op, v)
    ensures EvalBinary(op, x, v) == Some(x)
  {
    WrapSigned(x);
    WrapIdentity(x);
    AndAllOnes(x);
    if op == DivK {
      QuotientBound(Abs(Signed(x)), 1);
    } else if op == DivUK {
      DivModUnique(x, 1, x, 0);
    } else if op == PowK {
      PowSmall(x);
    }
  }

  lemma NeutralSame(op: BinaryKind, l: Expr, v: u64)
    requires IsNeutral(op, v) && !FoldsInts(op, l, Literal(v))
    ensures SameMeaning(Binary(op, l, Literal(v)), l)
  {
    forall env: Env ensures SameOn(Binary(op, l, Literal(v)), l, env) {
      LiteralEmitted(op, l, v, env);
      if EvalEmitted(l, env).Some? {
        NeutralLiteral(op, EvalEmitted(l, env).value, v);
      }
    }
  }

  /** What is left of x * 0, x & 0 and x ** 0 once x has been dropped. */
  lemma AbsorbedLeaves(op: BinaryKind, l: Expr)
    requires DropsLeft(op, Literal(0))
    ensures Leaves(Binary(op, l, Literal(0)), l, Literal(AbsorbedValue(op)))
  {
    forall env: Env ensures LeavesOn(Binary(op, l, Literal(0)), l, Literal(AbsorbedValue(op)), env) {
    }
  }

  // ---- one-operand rewrites -----------------------------------------------------------------------------

  lemma MinusMeaning(whole: Expr, src: Expr, w: Word)
    requires w.op == OP_NEG
    requires whole == Binary(SubK, Literal(0), src) || whole == Binary(MulK, src, Literal(ALL_ONES))
    requires !FoldsInts(whole.bop, whole.left, whole.right)
    ensures OneOperandMeaning(whole, src, w) && SameDrops(whole, src)
  {
    forall env: Env, h: Host ensures OneOperandOn(whole, src, w, env, h) {
      if whole.bop == MulK { LiteralEmitted(MulK, src, ALL_ONES, env); }
      if EvalEmitted(src, env).Some? {
        MulMinusOne(EvalEmitted(src, env).value);
      }
    }
  }

  lemma ComplementMeaning(src: Expr, w: Word)
    requires w.op == OP_NOT && !FoldsInts(BitXorK, src, Literal(ALL_ONES))
    ensures OneOperandMeaning(Binary(BitXorK, src, Literal(ALL_ONES)), src, w)
    ensures SameDrops(Binary(BitXorK, src, Literal(ALL_ONES)), src)
  {
    var whole := Binary(BitXorK, src, Literal(ALL_ONES));
    forall env: Env, h: Host ensures OneOperandOn(whole, src, w, env, h) {
      LiteralEmitted(BitXorK, src, ALL_ONES, env);
      if EvalEmitted(src, env).Some? {
        XorAllOnes(EvalEmitted(src, env).value);
      }
    }
  }

  lemma UnaryMeaning(op: UnaryKind, src: Expr, w: Word)
    requires op != Plus && w.op == UnaryOpcode(op)
    ensures OneOperandMeaning(Unary(op, src), src, w) && SameDrops(Unary(op, src), src)
  {
    forall env: Env, h: Host ensures OneOperandOn(Unary(op, src), src, w, env, h) {
    }
  }

  lemma ReverseSubComputes(v: u64, x: u64, w: Word)
    requires w.op == OP_RSUB_IMM && FitsImm8(Signed(v)) && w.c == Signed(v) % 0x100
    ensures ImmediateOp(w.op, x, w.c) == EvalBinary(SubK, v, x)
  {
    WrapSigned(v);
    SubFromSigned(Signed(v), x);
  }

  lemma ReverseSubMeaning(v: u64, src: Expr, w: Word)
    requires w.op == OP_RSUB_IMM && FitsImm8(Signed(v)) && w.c == Signed(v) % 0x100
    requires !FoldsInts(SubK, Literal(v), src)
    ensures OneOperandMeaning(Binary(SubK, Literal(v), src), src, w) && SameDrops(Binary(SubK, Literal(v), src), src)
  {
    var whole := Binary(SubK, Literal(v), src);
    WrapSigned(v);
    forall env: Env, h: Host ensures OneOperandOn(whole, src, w, env, h) {
      if EvalEmitted(src, env).Some? {
        ReverseSubComputes(v, EvalEmitted(src, env).value, w);
      }
    }
  }

  /** The immediate form computes the operator as emitted, misread literals included. */
  lemma ImmMeaning(op: BinaryKind, src: Expr, v: u64, w: Word)
    requires !IsLogical(op) && FitsImm8(Signed(v)) && !DropsLeft(op, Literal(v)) && !FoldsInts(op, src, Literal(v))
    requires w.op == ImmOpcode(op) && w.c == Signed(v) % 0x100
    ensures OneOperandMeaning(Binary(op, src, Literal(v)), src, w)
  {
    var whole := Binary(op, src, Literal(v));
    forall env: Env, h: Host ensures OneOperandOn(whole, src, w, env, h) {
      LiteralEmitted(op, src, v, env);
      if EvalEmitted(src, env).Some? {
        var x := EvalEmitted(src, env).value;
        if ReadsByte(op) { ByteComputes(op, x, w.c); }
        if !WrapsRight(op, Literal(v)) { ImmOpcodeComputes(op, x, v); }
      }
    }
  }

  lemma ShiftComputes(x: u64, v: u64)
    requires IsPowerOfTwo(v)
    ensures TrailingZeros(v) < 64 && ImmediateOp(OP_SHL_IMM, x, TrailingZeros(v)) == EvalBinary(MulK, x, v)
  {
    hide TrailingZeros;
    hide Pow2;
    hide IsPowerOfTwo;
    MulIsShift(x, v);
  }

  lemma ShiftMeaning(src: Expr, v: u64, w: Word)
    requires IsPowerOfTwo(v) && w.op == OP_SHL_IMM && w.c == TrailingZeros(v)
    requires !FoldsInts(MulK, src, Literal(v))
    ensures OneOperandMeaning(Binary(MulK, src, Literal(v)), src, w) && SameDrops(Binary(MulK, src, Literal(v)), src)
  {
    var whole := Binary(MulK, src, Literal(v));
    forall env: Env, h: Host ensures OneOperandOn(whole, src, w, env, h) {
      LiteralEmitted(MulK, src, v, env);
      if EvalEmitted(src, env).Some? {
        ShiftComputes(EvalEmitted(src, env).value, v);
      }
    }
  }

  /** Powers of two are not among the literals that are misread. */
  lemma PowerIsRead(op: BinaryKind, v: u64)
    requires IsPowerOfTwo(v)
    ensures !WrapsRight(op, Literal(v))
  {
    hide TrailingZeros;
    LogBelow64(v);
    Pow2Monotone(TrailingZeros(v), 63);
    Pow2Values();
  }

  lemma UnsignedReduced(x: u64, v: u64)
    requires IsPowerOfTwo(v)
    ensures v > 0 && TrailingZeros(v) < 64
    ensures ImmediateOp(OP_SHR_U_IMM, x, TrailingZeros(v)) == EvalBinary(DivUK, x, v)
    ensures EvalBinary(BitAndK, x, v - 1) == EvalBinary(RemUK, x, v)
  {
    hide TrailingZeros;
    hide Pow2;
    hide BitAnd;
    hide PowWord;
    LogBelow64(v);
    PowerOfTwoReductions(x, v);
  }

  /** A literal that is read as it is written, under an operator that does not absorb. */
  lemma LiteralRead(op: BinaryKind, src: Expr, v: u64, env: Env)
    requires (op == DivUK || op == RemUK) && IsPowerOfTwo(v) && !FoldsInts(op, src, Literal(v))
    ensures EvalEmitted(Binary(op, src, Literal(v)), env) ==
            match EvalEmitted(src, env) { case None => None case Some(x) => EvalBinary(op, x, v) }
    ensures DropTraps(Binary(op, src, Literal(v)), env) == DropTraps(src, env)
  {
    hide IsPowerOfTwo;
    hide EvalBinary;
    hide EvalEmitted;
    PowerIsRead(op, v);
    LiteralEmitted(op, src, v, env);
  }

  /** Unsigned division by a power of two is the logical shift. */
  lemma ShiftRightMeaning(src: Expr, v: u64, w: Word)
    requires IsPowerOfTwo(v) && w.op == OP_SHR_U_IMM && w.c == TrailingZeros(v)
    requires !FoldsInts(DivUK, src, Literal(v))
    ensures OneOperandMeaning(Binary(DivUK, src, Literal(v)), src, w) && SameDrops(Binary(DivUK, src, Literal(v)), src)
  {
    hide TrailingZeros;
    hide IsPowerOfTwo;
    hide EvalBinary;
    hide EvalEmitted;
    hide DropTraps;
    hide ImmediateOp;
    var whole := Binary(DivUK, src, Literal(v));
    forall env: Env ensures DropTraps(whole, env) == DropTraps(src, env) {
      LiteralRead(DivUK, src, v, env);
    }
    forall env: Env, h: Host ensures OneOperandOn(whole, src, w, env, h) {
      LiteralRead(DivUK, src, v, env);
      if EvalEmitted(src, env).Some? { UnsignedReduced(EvalEmitted(src, env).value, v); }
    }
  }

  /** The remainder is the conjunction with the mask below it, as an immediate or in a register. */
  lemma MaskMeaning(src: Expr, v: u64, w: Word)
    requires IsPowerOfTwo(v) && 0 < v <= 0x80 && w.op == OP_AND_IMM && w.c == v - 1
    requires !FoldsInts(RemUK, src, Literal(v))
    ensures OneOperandMeaning(Binary(RemUK, src, Literal(v)), src, w) && SameDrops(Binary(RemUK, src, Literal(v)), src)
  {
    hide IsPowerOfTwo;
    hide EvalBinary;
    hide EvalEmitted;
    hide DropTraps;
    hide ImmediateOp;
    var whole := Binary(RemUK, src, Literal(v));
    forall env: Env ensures DropTraps(whole, env) == DropTraps(src, env) {
      LiteralRead(RemUK, src, v, env);
    }
    forall env: Env, h: Host ensures OneOperandOn(whole, src, w, env, h) {
      LiteralRead(RemUK, src, v, env);
      if EvalEmitted(src, env).Some? {
        UnsignedReduced(EvalEmitted(src, env).value, v);
        ImmOpcodeComputes(BitAndK, EvalEmitted(src, env).value, v - 1);
      }
    }
  }

  lemma MaskRegMeaning(src: Expr, v: u64)
    requires IsPowerOfTwo(v) && v > 0 && !FoldsInts(RemUK, src, Literal(v))
    ensures TwoOperandMeaning(Binary(RemUK, src, Literal(v)), src, Literal(v - 1), OP_AND)
  {
    hide IsPowerOfTwo;
    hide EvalBinary;
    var whole, mask := Binary(RemUK, src, Literal(v)), Literal(v - 1);
    forall env: Env, h: Host ensures TwoOperandsOn(whole, src, mask, OP_AND, env, h) {
      LiteralRead(RemUK, src, v, env);
      if EvalEmitted(src, env).Some? {
        UnsignedReduced(EvalEmitted(src, env).value, v);
        RegOpcodeComputes(BitAndK, h, EvalEmitted(src, env).value, v - 1);
      }
    }
  }

  lemma SquareMeaning(src: Expr, w: Word)
    requires w.op == OP_MUL && w.b == w.c && !FoldsInts(PowK, src, Literal(2))
    ensures OneOperandMeaning(Binary(PowK, src, Literal(2)), src, w)
  {
    var whole := Binary(PowK, src, Literal(2));
    forall env: Env, h: Host ensures OneOperandOn(whole, src, w, env, h) {
      if EvalEmitted(src, env).Some? {
        PowSmall(EvalEmitted(src, env).value);
      }
    }
  }

  /** The register form computes the operator, unless a literal has a form of its own; a literal 0 on its
      left may only meet another literal. */
  lemma RegMeaning(op: BinaryKind, l: Expr, r: Expr, opcode: u8)
    requires !IsLogical(op) && opcode == RegOpcode(op) && !DropsLeft(op, r) && (DropsRight(op, l) ==> r.Literal?)
    requires !FoldsInts(op, l, r) && !WrapsRight(op, r) && !WrapsLeft(op, l, r)
    ensures TwoOperandMeaning(Binary(op, l, r), l, r, opcode)
  {
    hide EvalBinary;
    hide BinaryOp;
    hide FoldsInts;
    forall env: Env, h: Host ensures TwoOperandsOn(Binary(op, l, r), l, r, opcode, env, h) {
      if EvalEmitted(l, env).Some? && EvalEmitted(r, env).Some? {
        var x, y := EvalEmitted(l, env).value, EvalEmitted(r, env).value;
        AbsorbedComputes(op, y);
        RegOpcodeComputes(op, h, x, y);
        assert EvalEmitted(Binary(op, l, r), env) == EvalBinary(op, x, y);
      } else {
        assert EvalEmitted(Binary(op, l, r), env) == None;
      }
    }
  }
}
