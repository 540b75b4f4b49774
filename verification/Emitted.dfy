/** What the emitted code computes. The generator drops the trap of an operand whose value it does not
    need, folds constants as signed numbers whatever their type, and some immediate forms read their
    literal as a byte; everything else is the direct value. Two readings belong together: the value, when
    somebody wants it, and whether the code traps when nobody does. */
module Emitted {
  import opened Words
  import opened Expr

  predicate IsLogical(op: BinaryKind) { op == LogicalAndK || op == LogicalOrK }

  /** Immediates as the generator sees a literal: its 64-bit pattern read signed. */
  function LiteralValue(e: Expr): int
    requires e.Literal?
  {
    Signed(e.v)
  }

  /** The operators whose result with 0 on the right does not depend on the left operand. */
  predicate DropsLeft(op: BinaryKind, r: Expr) {
    r == Literal(0) && (op == MulK || op == BitAndK || op == PowK)
  }

  /** The same for 0 on the left, which the generator moves to the right. */
  predicate DropsRight(op: BinaryKind, l: Expr) { op != PowK && DropsLeft(op, l) }

  /** x * 0, x & 0 and x ** 0 do not depend on x. */
  function AbsorbedValue(op: BinaryKind): int { if op == PowK then 1 else 0 }

  predicate IsUnsignedOrder(op: BinaryKind) { op == LtUK || op == LteUK || op == GtUK || op == GteUK }

  /** The operators whose immediate form reads its literal as an unsigned byte. */
  predicate ReadsByte(op: BinaryKind) { op == PowK || op == DivUK || op == RemUK || IsUnsignedOrder(op) }

  /** A literal that goes into the immediate form although, read unsigned, it does not fit. */
  predicate IsNegativeByte(e: Expr) { e.Literal? && -0x80 <= LiteralValue(e) < 0 }

  /** The byte in its place. */
  function ByteOf(e: Expr): u64
    requires e.Literal?
  {
    LiteralValue(e) % 0x100
  }

  /** The right operand is read as such a byte. */
  predicate WrapsRight(op: BinaryKind, r: Expr) { ReadsByte(op) && IsNegativeByte(r) }

  /** The left operand of a comparison is, after the operands have been exchanged. */
  predicate WrapsLeft(op: BinaryKind, l: Expr, r: Expr) {
    IsUnsignedOrder(op) && IsNegativeByte(l) && !r.Literal?
  }

  /** The strict operators on two values, as emitted. */
  function BinaryEmitted(op: BinaryKind, l: Expr, r: Expr, x: u64, y: u64): Option<u64> {
    if FoldsInts(op, l, r) then Some(ConstWord(FoldInts(op, EvalConst(l).i, EvalConst(r).i)))
    else if WrapsRight(op, r) then EvalBinary(op, x, ByteOf(r))
    else if WrapsLeft(op, l, r) then EvalBinary(op, ByteOf(l), y)
    else EvalBinary(op, x, y)
  }

  /** The value that the code for `e` delivers; None is its division trap. */
  function EvalEmitted(e: Expr, env: Env): Option<u64>
    decreases e, 1
  {
    match e
    case Literal(v) => Some(v)
    case Local(sym) => Some(if sym in env then env[sym] else 0)
    case Unary(op, a) => MapUnary(op, EvalEmitted(a, env))
    case Binary(op, l, r) =>
      if DropsLeft(op, r) then if DropTraps(l, env) then None else Some(AbsorbedValue(op))
      else if DropsRight(op, l) then if DropTraps(r, env) then None else Some(0)
      else
        match EvalEmitted(l, env)
        case None => None
        case Some(x) =>
          if op == LogicalAndK && x == 0 then Some(0)
          else if op == LogicalOrK && x != 0 then Some(1)
          else
            match EvalEmitted(r, env)
            case None => None
            case Some(y) => BinaryEmitted(op, l, r, x, y)
  }

  /** Whether the code for `e` traps when nobody wants its value: a strict operator drops its own trap
      and keeps those of its operands; `&&` and `||` evaluate their left operand. */
  predicate DropTraps(e: Expr, env: Env)
    decreases e, 0
  {
    match e
    case Literal(_) => false
    case Local(_) => false
    case Unary(_, a) => DropTraps(a, env)
    case Binary(op, l, r) =>
      if IsLogical(op) then
        match EvalEmitted(l, env)
        case None => true
        case Some(x) => (x == 0) != (op == LogicalAndK) && DropTraps(r, env)
      else DropTraps(l, env) || DropTraps(r, env)
  }

  // ---- constants and pure expressions ---------------------------------------------------------------

  lemma AbsorbedComputes(op: BinaryKind, x: u64)
    ensures DropsLeft(op, Literal(0)) ==> EvalBinary(op, x, 0) == Some(AbsorbedValue(op))
    ensures DropsRight(op, Literal(0)) ==> EvalBinary(op, 0, x) == Some(0)
  {
    PowSmall(x);
  }

  /** A folded expression is loaded as its constant. */
  lemma {:induction false} EmittedConst(e: Expr, env: Env)
    requires !EvalConst(e).NoConst?
    ensures EvalEmitted(e, env) == Some(ConstWord(EvalConst(e))) && !DropTraps(e, env)
  {
    match e
    case Literal(v) => WrapSigned(v);
    case Local(_) =>
    case Unary(op, a) =>
      EmittedConst(a, env);
      FoldUnarySound(op, EvalConst(a));
    case Binary(op, l, r) =>
      EmittedConst(l, env);
      EmittedConst(r, env);
      ConstBinaryEmitted(op, l, r, env);
  }

  /** Constants that fold to booleans are no literals. */
  lemma BoolEmitted(op: BinaryKind, l: Expr, r: Expr, x: u64, y: u64)
    requires EvalConst(l).BoolConst? && EvalConst(r).BoolConst?
    ensures BinaryEmitted(op, l, r, x, y) == EvalBinary(op, x, y)
    ensures !DropsLeft(op, r) && !DropsRight(op, l)
  {
    hide EvalBinary;
  }

  lemma ConstBinaryEmitted(op: BinaryKind, l: Expr, r: Expr, env: Env)
    requires !EvalConst(Binary(op, l, r)).NoConst? && !EvalConst(l).NoConst? && !EvalConst(r).NoConst?
    requires EvalEmitted(l, env) == Some(ConstWord(EvalConst(l))) && !DropTraps(l, env)
    requires EvalEmitted(r, env) == Some(ConstWord(EvalConst(r))) && !DropTraps(r, env)
    ensures EvalEmitted(Binary(op, l, r), env) == Some(ConstWord(EvalConst(Binary(op, l, r))))
  {
    hide EvalBinary;
    hide FoldInts;
    hide FoldBools;
    hide DropTraps;
    var x, y := ConstWord(EvalConst(l)), ConstWord(EvalConst(r));
    if EvalConst(l).IntConst? {
      AbsorbedComputes(op, x);
      AbsorbedComputes(op, y);
      FoldIntsSound(op, EvalConst(l).i, EvalConst(r).i);
    } else {
      hide BinaryEmitted;
      BoolEmitted(op, l, r, x, y);
      FoldBoolsSound(op, EvalConst(l).b, EvalConst(r).b);
    }
  }

  lemma OperatorEmits(op: BinaryKind, l: Expr, r: Expr, x: u64, y: u64)
    requires IsDivision(op) ==> y != 0
    ensures BinaryEmitted(op, l, r, x, y).Some?
  {
    hide FoldInts;
    hide EvalBinary;
    OperatorHasValue(op, x, y);
    if WrapsRight(op, r) { OperatorHasValue(op, x, ByteOf(r)); }
    if WrapsLeft(op, l, r) { OperatorHasValue(op, ByteOf(l), y); }
  }

  /** The code for a pure expression never traps. */
  lemma {:induction false} PureEmits(e: Expr, env: Env)
    requires IsPure(e)
    ensures EvalEmitted(e, env).Some? && !DropTraps(e, env)
  {
    hide BinaryEmitted;
    match e
    case Literal(_) =>
    case Local(_) =>
    case Unary(_, a) => PureEmits(a, env);
    case Binary(op, l, r) =>
      PureEmits(l, env);
      PureEmits(r, env);
      if IsDivision(op) {
        EmittedConst(r, env);
        SignedWrap(EvalConst(r).i);
      }
      OperatorEmits(op, l, r, EvalEmitted(l, env).value, EvalEmitted(r, env).value);
  }

  // ---- against the direct value ---------------------------------------------------------------------

  /** No immediate form misreads its literal. */
  predicate ImmediatesInRange(e: Expr) {
    match e
    case Literal(_) => true
    case Local(_) => true
    case Unary(_, a) => ImmediatesInRange(a)
    case Binary(op, l, r) =>
      ImmediatesInRange(l) && ImmediatesInRange(r) &&
      (FoldsInts(op, l, r) || (!WrapsRight(op, r) && !WrapsLeft(op, l, r)))
  }

  /** Operators work on the numbers their types promise: constants fold as they compute, and immediates are
      read as they are written. */
  predicate ReadsRight(e: Expr) { FoldsRight(e) && ImmediatesInRange(e) }

  /** No division that may trap is an operand the generator discards: the left operand of a
      product or conjunction with 0, or of a power with exponent 0, is pure. */
  predicate KeepsTraps(e: Expr) {
    match e
    case Literal(_) => true
    case Local(_) => true
    case Unary(_, a) => KeepsTraps(a)
    case Binary(op, l, r) =>
      KeepsTraps(l) && KeepsTraps(r) &&
      (DropsLeft(op, r) ==> IsPure(l)) && (DropsRight(op, l) ==> IsPure(r))
  }

  /** The operator on the direct values of its operands. */
  lemma OperatorReadsRight(op: BinaryKind, l: Expr, r: Expr, env: Env)
    requires ReadsRight(Binary(op, l, r)) && Eval(l, env).Some? && Eval(r, env).Some?
    ensures var x, y := Eval(l, env).value, Eval(r, env).value;
            BinaryEmitted(op, l, r, x, y) == EvalBinary(op, x, y)
  {
    hide EvalBinary;
    hide FoldInts;
    hide FoldsAlike;
    if FoldsInts(op, l, r) {
      EvalConstSound(l, env);
      EvalConstSound(r, env);
      FoldIntsSound(op, EvalConst(l).i, EvalConst(r).i);
    }
  }

  /** Values are never lost: wherever the expression has a value, the code delivers it and does not
      trap. What may be lost is a trap. */
  lemma {:induction false} EmittedKeepsValues(e: Expr, env: Env)
    requires ReadsRight(e) && Eval(e, env).Some?
    ensures EvalEmitted(e, env) == Eval(e, env) && !DropTraps(e, env)
  {
    hide EvalBinary;
    hide BinaryEmitted;
    match e
    case Literal(_) =>
    case Local(_) =>
    case Unary(_, a) => EmittedKeepsValues(a, env);
    case Binary(op, l, r) =>
      EmittedKeepsValues(l, env);
      var x := Eval(l, env).value;
      if !(op == LogicalAndK && x == 0) && !(op == LogicalOrK && x != 0) {
        EmittedKeepsValues(r, env);
        AbsorbedComputes(op, x);
        AbsorbedComputes(op, Eval(r, env).value);
        OperatorReadsRight(op, l, r, env);
      }
  }

  /** Both tests passed, the code has the direct value or its trap, in every environment. */
  lemma {:induction false} EmittedIsDirect(e: Expr, env: Env)
    requires ReadsRight(e) && KeepsTraps(e)
    ensures EvalEmitted(e, env) == Eval(e, env)
  {
    hide EvalBinary;
    hide BinaryEmitted;
    match e
    case Literal(_) =>
    case Local(_) =>
    case Unary(_, a) => EmittedIsDirect(a, env);
    case Binary(op, l, r) =>
      EmittedIsDirect(l, env);
      EmittedIsDirect(r, env);
      if DropsLeft(op, r) {
        PureEmits(l, env);
        AbsorbedComputes(op, Eval(l, env).value);
      } else if DropsRight(op, l) {
        PureEmits(r, env);
        AbsorbedComputes(op, Eval(r, env).value);
      } else if Eval(l, env).Some? && Eval(r, env).Some? {
        OperatorReadsRight(op, l, r, env);
      }
  }

  /** In general the code meets the direct value exactly when it does not outlive the expression's
      trap. */
  lemma EmittedExact(e: Expr, env: Env)
    requires ReadsRight(e)
    ensures EvalEmitted(e, env) == Eval(e, env) <==> (EvalEmitted(e, env).Some? ==> Eval(e, env).Some?)
  {
    if Eval(e, env).Some? { EmittedKeepsValues(e, env); }
  }

  /** A product, conjunction or power with 0 is right exactly when dropping the operand traps wherever
      the operand has no value. */
  lemma AbsorbedExact(op: BinaryKind, l: Expr, env: Env)
    requires DropsLeft(op, Literal(0)) && ReadsRight(l)
    ensures var e := Binary(op, l, Literal(0));
            EvalEmitted(e, env) == Eval(e, env) <==> (Eval(l, env).None? ==> DropTraps(l, env))
  {
    hide EvalBinary;
    if Eval(l, env).Some? {
      EmittedKeepsValues(l, env);
      AbsorbedComputes(op, Eval(l, env).value);
    }
  }

  /** A division by zero under a product with 0 is never noticed. */
  lemma QuotientTimesZero(a: nat, b: nat, env: Env)
    ensures var e := Binary(MulK, Binary(DivK, Local(a), Local(b)), Literal(0));
            EvalEmitted(e, env) == Some(0) && (Eval(e, env).None? <==> Eval(Local(b), env) == Some(0))
  {
    var q := Binary(DivK, Local(a), Local(b));
    assert !DropTraps(q, env);
    assert Eval(q, env) == EvalBinary(DivK, Eval(Local(a), env).value, Eval(Local(b), env).value);
    if Eval(q, env).Some? { AbsorbedComputes(MulK, Eval(q, env).value); }
  }
}
