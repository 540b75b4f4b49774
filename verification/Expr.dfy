/** Pure expressions over integers and booleans: their direct value, the constant folder and the purity
    test of the code generator. The folder reads every constant as a signed number. */
module Expr {
  import opened Words

  datatype UnaryKind = Minus | BitwiseNot | LogicalNot | Plus

  /** The operators, together with the signedness of their operands' type where it matters: the kinds
      with a U work on u8 to u64, their counterparts on i1 to i64. */
  datatype BinaryKind =
    | AddK | SubK | MulK | PowK | DivK | RemK | DivUK | RemUK
    | BitAndK | BitOrK | BitXorK | ShlK | ShrK | ShrUK
    | LtK | LteK | GtK | GteK | LtUK | LteUK | GtUK | GteUK | EqK | NeqK
    | LogicalAndK | LogicalOrK

  /** Literals carry their 64-bit pattern and locals their symbol. */
  datatype Expr =
    | Literal(v: u64)
    | Local(sym: nat)
    | Unary(uop: UnaryKind, arg: Expr)
    | Binary(bop: BinaryKind, left: Expr, right: Expr)

  type Env = map<nat, u64>

  function Size(e: Expr): (n: nat)
    ensures n >= 1
  {
    match e
    case Literal(_) => 1
    case Local(_) => 1
    case Unary(_, a) => 1 + Size(a)
    case Binary(_, l, r) => 1 + Size(l) + Size(r)
  }

  predicate BoundIn(e: Expr, syms: set<nat>) {
    match e
    case Literal(_) => true
    case Local(sym) => sym in syms
    case Unary(_, a) => BoundIn(a, syms)
    case Binary(_, l, r) => BoundIn(l, syms) && BoundIn(r, syms)
  }

  // ---- direct value -------------------------------------------------------------------------

  function Truth(b: bool): u64 { if b then 1 else 0 }

  function EvalUnary(op: UnaryKind, x: u64): u64 {
    match op
    case Minus => Neg(x)
    case BitwiseNot => Not(x)
    case LogicalNot => Truth(x == 0)
    case Plus => x
  }

  /** The strict binary operators; None is a division by zero. */
  function EvalBinary(op: BinaryKind, x: u64, y: u64): Option<u64> {
    match op
    case AddK => Some(Add(x, y))
    case SubK => Some(Sub(x, y))
    case MulK => Some(Mul(x, y))
    case PowK => Some(PowWord(x, y))
    case DivK => if y == 0 then None else Some(Wrap(TruncDiv(Signed(x), Signed(y))))
    case RemK => if y == 0 then None else Some(Wrap(TruncRem(Signed(x), Signed(y))))
    case DivUK => if y == 0 then None else Some(Quotient(x, y))
    case RemUK => if y == 0 then None else Some(x % y)
    case BitAndK => Some(And(x, y))
    case BitOrK => Some(Or(x, y))
    case BitXorK => Some(Xor(x, y))
    case ShlK => Some(Shl(x, y % 64))
    case ShrK => Some(ShrS(x, y % 64))
    case ShrUK => Some(ShrU(x, y % 64))
    case LtK => Some(Truth(Signed(x) < Signed(y)))
    case LteK => Some(Truth(Signed(x) <= Signed(y)))
    case GtK => Some(Truth(Signed(x) > Signed(y)))
    case GteK => Some(Truth(Signed(x) >= Signed(y)))
    case LtUK => Some(Truth(x < y))
    case LteUK => Some(Truth(x <= y))
    case GtUK => Some(Truth(x > y))
    case GteUK => Some(Truth(x >= y))
    case EqK => Some(Truth(x == y))
    case NeqK => Some(Truth(x != y))
    case LogicalAndK => Some(if x == 0 then 0 else y)
    case LogicalOrK => Some(if x != 0 then 1 else y)
  }

  function Quotient(x: u64, y: u64): u64
    requires y != 0
  {
    ShrinksDiv(x, y);
    x / y
  }

  /** The direct value of an expression: operands left to right, `&&` and `||` short-circuit. */
  function Eval(e: Expr, env: Env): Option<u64> {
    match e
    case Literal(v) => Some(v)
    case Local(sym) => Some(if sym in env then env[sym] else 0)
    case Unary(op, a) => MapUnary(op, Eval(a, env))
    case Binary(op, l, r) =>
      match Eval(l, env)
      case None => None
      case Some(x) =>
        if op == LogicalAndK && x == 0 then Some(0)
        else if op == LogicalOrK && x != 0 then Some(1)
        else
          match Eval(r, env)
          case None => None
          case Some(y) => EvalBinary(op, x, y)
  }

  function MapUnary(op: UnaryKind, a: Option<u64>): Option<u64> {
    match a
    case None => None
    case Some(x) => Some(EvalUnary(op, x))
  }

  // ---- constant folding -----------------------------------------------------------------------

  type i64 = x: int | -TWO_63 <= x < TWO_63

  datatype Const = NoConst | IntConst(i: i64) | BoolConst(b: bool)

  function ToI64(x: u64): i64 { Signed(x) }

  function FoldUnary(op: UnaryKind, c: Const): Const {
    match op
    case Plus => c
    case Minus =>
      if c.IntConst? && c.i != -TWO_63 then IntConst(-c.i) else NoConst
    case LogicalNot =>
      match c {
        case BoolConst(b) => BoolConst(!b)
        case IntConst(i) => BoolConst(i == 0)
        case NoConst => NoConst
      }
    case BitwiseNot => if c.IntConst? then IntConst(-1 - c.i) else NoConst
  }

  function FoldBools(op: BinaryKind, a: bool, b: bool): Const {
    match op
    case LogicalAndK => BoolConst(a && b)
    case BitAndK => BoolConst(a && b)
    case LogicalOrK => BoolConst(a || b)
    case BitOrK => BoolConst(a || b)
    case BitXorK => BoolConst(a != b)
    case NeqK => BoolConst(a != b)
    case EqK => BoolConst(a == b)
    case _ => NoConst
  }

  function FoldInts(op: BinaryKind, a: i64, b: i64): Const {
    match op
    case AddK => IntConst(ToI64(Add(Wrap(a), Wrap(b))))
    case SubK => IntConst(ToI64(Sub(Wrap(a), Wrap(b))))
    case MulK => IntConst(ToI64(Mul(Wrap(a), Wrap(b))))
    case DivK | DivUK => if b == 0 || (a == -TWO_63 && b == -1) then NoConst else IntConst(QuotientFits(a, b))
    case RemK | RemUK => if b == 0 || (a == -TWO_63 && b == -1) then NoConst else IntConst(RemainderFits(a, b))
    case PowK => if b < 0 then NoConst else IntConst(ToI64(PowWord(Wrap(a), b)))
    case ShlK => if b < 0 || b >= 64 then NoConst else IntConst(ToI64(Shl(Wrap(a), b)))
    case ShrK => if b < 0 || b >= 64 then NoConst else IntConst(FloorFits(a, Pow2(b)))
    case ShrUK => if b < 0 || b >= 64 then NoConst else IntConst(ToI64(ShrU(Wrap(a), b)))
    case BitAndK => IntConst(ToI64(And(Wrap(a), Wrap(b))))
    case BitOrK => IntConst(ToI64(Or(Wrap(a), Wrap(b))))
    case BitXorK => IntConst(ToI64(Xor(Wrap(a), Wrap(b))))
    case EqK => BoolConst(a == b)
    case NeqK => BoolConst(a != b)
    case LtK | LtUK => BoolConst(a < b)
    case LteK | LteUK => BoolConst(a <= b)
    case GtK | GtUK => BoolConst(a > b)
    case GteK | GteUK => BoolConst(a >= b)
    case _ => NoConst
  }

  /** The quotient, remainder and shift of 64-bit integers are 64-bit integers, the overflowing
      quotient aside. */
  function QuotientFits(a: i64, b: i64): i64
    requires b != 0 && !(a == -TWO_63 && b == -1)
  {
    QuotientBound(Abs(a), Abs(b));
    TruncDiv(a, b)
  }

  function RemainderFits(a: i64, b: i64): i64
    requires b != 0
  {
    TruncDivRem(a, b);
    TruncRem(a, b)
  }

  function FloorFits(a: i64, p: nat): i64
    requires p >= 1
  {
    FloorShrinks(a, p);
    a / p
  }

  lemma QuotientBound(a: nat, b: nat)
    requires b >= 1
    ensures b == 1 ==> a / b == a
    ensures b >= 2 ==> 0 <= a / b && 2 * (a / b) <= a
  {
    var q := a / b;
    assert a == q * b + a % b;
    if b >= 2 {
      ShrinksDiv(a, b);
      assert q * b == 2 * q + q * (b - 2);
      assert q * (b - 2) >= 0;
    }
  }

  lemma FloorShrinks(a: int, p: nat)
    requires p >= 1
    ensures a >= 0 ==> 0 <= a / p <= a
    ensures a < 0 ==> a <= a / p < 0
  {
    if a >= 0 {
      ShrinksDiv(a, p);
    } else {
      var m := -a - 1;
      ShrinksDiv(m, p);
      var q, r := m / p, m % p;
      assert m == q * p + r;
      assert a == (-q - 1) * p + (p - 1 - r) by {
        assert (-q - 1) * p == -(q * p) - p;
      }
      DivModUnique(a, p, -q - 1, p - 1 - r);
    }
  }

  /** `AcuCodeGen_EvalConst` on integers and booleans. */
  function EvalConst(e: Expr): Const {
    match e
    case Literal(v) => IntConst(ToI64(v))
    case Local(_) => NoConst
    case Unary(op, a) => FoldUnary(op, EvalConst(a))
    case Binary(op, l, r) =>
      match (EvalConst(l), EvalConst(r))
      case (BoolConst(a), BoolConst(b)) => FoldBools(op, a, b)
      case (IntConst(a), IntConst(b)) => FoldInts(op, a, b)
      case _ => NoConst
  }

  /** The word that a folded constant is loaded as. */
  function ConstWord(c: Const): u64
    requires !c.NoConst?
  {
    if c.IntConst? then Wrap(c.i) else Truth(c.b)
  }

  /** Whether an operator on these constants has the same value read signed and, as its type may demand,
      read unsigned. */
  predicate FoldsAlike(op: BinaryKind, a: int, b: int) {
    match op
    case DivUK => QuotientsAlike(a, b)
    case RemUK => RemaindersAlike(a, b)
    case LtUK | LteUK | GtUK | GteUK => (a < 0) == (b < 0)
    case _ => true
  }

  predicate QuotientsAlike(a: int, b: int) { (a >= 0 && (b >= 0 || a < -b)) || b == 1 || a == b }

  predicate RemaindersAlike(a: int, b: int) {
    (a >= 0 && (b >= 0 || a < -b)) || a == b || (b > 0 && a % b == 0 && TWO_64 % b == 0)
  }

  /** Folding two constants gives the operator's value exactly then. */
  lemma FoldIntsSound(op: BinaryKind, a: i64, b: i64)
    requires !FoldInts(op, a, b).NoConst?
    ensures EvalBinary(op, Wrap(a), Wrap(b)) == Some(ConstWord(FoldInts(op, a, b))) <==> FoldsAlike(op, a, b)
    ensures op != LogicalAndK && op != LogicalOrK
  {
    SignedWrap(a);
    SignedWrap(b);
    SignedInjective(Wrap(a), Wrap(b));
    match op
    case AddK => WrapSigned(Add(Wrap(a), Wrap(b)));
    case SubK => WrapSigned(Sub(Wrap(a), Wrap(b)));
    case MulK => WrapSigned(Mul(Wrap(a), Wrap(b)));
    case PowK => WrapSigned(PowWord(Wrap(a), b));
    case ShlK => WrapSigned(Shl(Wrap(a), b));
    case ShrUK => WrapSigned(ShrU(Wrap(a), b));
    case BitAndK => WrapSigned(And(Wrap(a), Wrap(b)));
    case BitOrK => WrapSigned(Or(Wrap(a), Wrap(b)));
    case BitXorK => WrapSigned(Xor(Wrap(a), Wrap(b)));
    case DivUK => UnsignedQuotients(a, b);
    case RemUK => UnsignedRemainders(a, b);
    case _ => UnsignedOrder(a, b);
  }

  lemma UnsignedOrder(a: i64, b: i64)
    ensures Wrap(a) == (if a < 0 then a + TWO_64 else a)
    ensures (a < 0) == (b < 0) ==> (Wrap(a) < Wrap(b) <==> a < b)
    ensures (a < 0) != (b < 0) ==> (Wrap(a) < Wrap(b) <==> a > b)
  {
  }

  lemma WrapMinus(q: nat)
    requires q <= TWO_63
    ensures Wrap(0 - q) == if q == 0 then 0 else TWO_64 - q
  {
  }

  lemma SmallQuotient(x: nat, y: nat)
    requires y > 0
    ensures (x / y == 0 <==> x < y) && (x % y == x <==> x < y)
  {
    if x < y { DivModUnique(x, y, 0, x); }
  }

  /** Two numbers above 2^63 are less than a factor 2 apart. */
  lemma LargeNumbers(x: nat, y: nat)
    requires TWO_63 <= x < TWO_64 && TWO_63 <= y
    ensures if x < y then x / y == 0 && x % y == x else x / y == 1 && x % y == x - y
  {
    if x < y { DivModUnique(x, y, 0, x); } else { DivModUnique(x, y, 1, x - y); }
  }

  /** The quotient in the four combinations of signs; n and m are absolute values. */
  lemma QuotientByNegative(n: nat, m: nat)
    requires n < TWO_63 && 0 < m <= TWO_63
    ensures n / (TWO_64 - m) == Wrap(0 - n / m) <==> n < m
  {
    SmallQuotient(n, TWO_64 - m);
    SmallQuotient(n, m);
    ShrinksDiv(n, m);
    WrapMinus(n / m);
  }

  lemma QuotientOfNegative(n: nat, m: nat)
    requires 0 < n <= TWO_63 && 0 < m < TWO_63
    ensures (TWO_64 - n) / m == Wrap(0 - n / m) <==> m == 1
  {
    ShrinksDiv(n, m);
    WrapMinus(n / m);
    QuotientBound(n, m);
    QuotientBound(TWO_64 - n, m);
    SmallQuotient(TWO_64 - n, m);
  }

  lemma QuotientOfNegatives(n: nat, m: nat)
    requires 0 < n <= TWO_63 && 0 < m <= TWO_63 && !(n == TWO_63 && m == 1)
    ensures (TWO_64 - n) / (TWO_64 - m) == Wrap(n / m) <==> n == m
  {
    LargeNumbers(TWO_64 - n, TWO_64 - m);
    SmallQuotient(n, m);
    ShrinksDiv(n, m);
    if n == m { DivModUnique(n, m, 1, 0); }
  }

  lemma UnsignedQuotients(a: i64, b: i64)
    requires b != 0 && !(a == -TWO_63 && b == -1)
    ensures Wrap(b) != 0 && (Wrap(a) / Wrap(b) == Wrap(TruncDiv(a, b)) <==> QuotientsAlike(a, b))
  {
    UnsignedOrder(a, b);
    UnsignedOrder(b, a);
    var n, m := Abs(a), Abs(b);
    if a >= 0 && b > 0 {
      ShrinksDiv(a, b);
    } else if a >= 0 {
      QuotientByNegative(n, m);
    } else if b > 0 {
      QuotientOfNegative(n, m);
    } else {
      QuotientOfNegatives(n, m);
    }
  }

  lemma RemainderByNegative(n: nat, m: nat)
    requires n < TWO_63 && 0 < m <= TWO_63
    ensures n % (TWO_64 - m) == Wrap(n % m) <==> n < m
  {
    SmallQuotient(n, TWO_64 - m);
    SmallQuotient(n, m);
  }

  lemma RemainderOfNegative(n: nat, m: nat)
    requires 0 < n <= TWO_63 && 0 < m < TWO_63
    ensures (TWO_64 - n) % m == Wrap(0 - n % m) <==> (0 - n) % m == 0 && TWO_64 % m == 0
  {
    WrapMinus(n % m);
    DividesShifted(TWO_64, n, m);
  }

  lemma RemainderOfNegatives(n: nat, m: nat)
    requires 0 < n <= TWO_63 && 0 < m <= TWO_63 && !(n == TWO_63 && m == 1)
    ensures (TWO_64 - n) % (TWO_64 - m) == Wrap(0 - n % m) <==> n == m
  {
    LargeNumbers(TWO_64 - n, TWO_64 - m);
    SmallQuotient(n, m);
    WrapMinus(n % m);
    if n == m { DivModUnique(n, m, 1, 0); }
  }

  lemma UnsignedRemainders(a: i64, b: i64)
    requires b != 0 && !(a == -TWO_63 && b == -1)
    ensures Wrap(b) != 0 && (Wrap(a) % Wrap(b) == Wrap(TruncRem(a, b)) <==> RemaindersAlike(a, b))
  {
    UnsignedOrder(a, b);
    UnsignedOrder(b, a);
    var n, m := Abs(a), Abs(b);
    if a >= 0 && b > 0 {
      SmallQuotient(a % b, TWO_64);
    } else if a >= 0 {
      RemainderByNegative(n, m);
    } else if b > 0 {
      RemainderOfNegative(n, m);
    } else {
      RemainderOfNegatives(n, m);
    }
  }

  /** b divides the opposite of n exactly if it divides n, and then w - n exactly if w. */
  lemma DividesShifted(w: nat, n: nat, b: nat)
    requires b > 0 && n <= w
    ensures (0 - n) % b == 0 <==> n % b == 0
    ensures n % b == 0 ==> (w - n) % b == w % b
  {
    var q, r := n / b, n % b;
    assert n == q * b + r;
    if r == 0 {
      assert (0 - q) * b == 0 - q * b;
      DivModUnique(0 - n, b, 0 - q, 0);
      var p := (w - n) / b;
      assert w - n == p * b + (w - n) % b;
      assert (p + q) * b == p * b + q * b;
      DivModUnique(w, b, p + q, (w - n) % b);
    } else {
      assert (0 - q - 1) * b == 0 - q * b - b;
      DivModUnique(0 - n, b, 0 - q - 1, b - r);
    }
  }

  lemma FoldBoolsSound(op: BinaryKind, a: bool, b: bool)
    requires !FoldBools(op, a, b).NoConst?
    ensures EvalBinary(op, Truth(a), Truth(b)) == Some(ConstWord(FoldBools(op, a, b)))
    ensures op == LogicalAndK && !a ==> FoldBools(op, a, b) == BoolConst(false)
    ensures op == LogicalOrK && a ==> FoldBools(op, a, b) == BoolConst(true)
  {
    if op == BitAndK || op == BitOrK || op == BitXorK {
      assert BitAnd(1, 1) == 1 && BitOr(1, 1) == 1 && BitXor(1, 1) == 0;
      assert BitAnd(0, 1) == 0 && BitAnd(1, 0) == 0 && BitAnd(0, 0) == 0;
    }
  }

  lemma FoldUnarySound(op: UnaryKind, c: Const)
    requires !c.NoConst? && !FoldUnary(op, c).NoConst?
    ensures EvalUnary(op, ConstWord(c)) == ConstWord(FoldUnary(op, c))
  {
    if c.IntConst? {
      SignedWrap(c.i);
      if op == Minus {
        WrapCongruent(0 - Wrap(c.i), -c.i, if c.i < 0 then -1 else 0);
      } else if op == BitwiseNot {
        WrapUnique(-1 - c.i, if c.i < 0 then 0 else -1, ALL_ONES - Wrap(c.i));
      }
    }
  }

  /** Both operands fold to integers, and so does the operator. */
  predicate FoldsInts(op: BinaryKind, l: Expr, r: Expr) {
    EvalConst(l).IntConst? && EvalConst(r).IntConst? && !FoldInts(op, EvalConst(l).i, EvalConst(r).i).NoConst?
  }

  /** Nowhere in the expression does folding read an unsigned operand wrongly. */
  predicate FoldsRight(e: Expr) {
    match e
    case Literal(_) => true
    case Local(_) => true
    case Unary(_, a) => FoldsRight(a)
    case Binary(op, l, r) =>
      FoldsRight(l) && FoldsRight(r) && (FoldsInts(op, l, r) ==> FoldsAlike(op, EvalConst(l).i, EvalConst(r).i))
  }

  /** Folding is then sound: a folded expression never traps and has the folded value in every
      environment. */
  lemma {:induction false} EvalConstSound(e: Expr, env: Env)
    requires !EvalConst(e).NoConst? && FoldsRight(e)
    ensures Eval(e, env) == Some(ConstWord(EvalConst(e)))
  {
    hide EvalBinary;
    hide FoldInts;
    hide FoldsAlike;
    match e
    case Literal(v) => WrapSigned(v);
    case Local(_) =>
    case Unary(op, a) =>
      EvalConstSound(a, env);
      FoldUnarySound(op, EvalConst(a));
    case Binary(op, l, r) =>
      EvalConstSound(l, env);
      EvalConstSound(r, env);
      if EvalConst(l).IntConst? {
        FoldIntsSound(op, EvalConst(l).i, EvalConst(r).i);
      } else {
        FoldBoolsSound(op, EvalConst(l).b, EvalConst(r).b);
      }
  }

  /** Where the operands fold rightly, the operator on them does exactly if both readings agree. */
  lemma FoldExact(op: BinaryKind, l: Expr, r: Expr, env: Env)
    requires FoldsRight(l) && FoldsRight(r) && FoldsInts(op, l, r)
    ensures var e := Binary(op, l, r);
            Eval(e, env) == Some(ConstWord(EvalConst(e))) <==> FoldsRight(e)
  {
    hide EvalBinary;
    hide FoldInts;
    hide FoldsAlike;
    EvalConstSound(l, env);
    EvalConstSound(r, env);
    FoldIntsSound(op, EvalConst(l).i, EvalConst(r).i);
  }

  /** (0 - 1) / 2 on an unsigned type folds to 0 instead of 2^63 - 1. */
  lemma UnsignedFoldIsWrong(env: Env)
    ensures var e := Binary(DivUK, Binary(SubK, Literal(0), Literal(1)), Literal(2));
            EvalConst(e) == IntConst(0) && Eval(e, env) == Some(0x7FFF_FFFF_FFFF_FFFF)
  {
    var l := Binary(SubK, Literal(0), Literal(1));
    assert EvalConst(l) == IntConst(-1);
    assert Eval(l, env) == Some(ALL_ONES);
  }

  // ---- purity ---------------------------------------------------------------------------------

  predicate IsDivision(op: BinaryKind) { op == DivK || op == RemK || op == DivUK || op == RemUK }

  predicate IsSignedDivision(op: BinaryKind) { op == DivK || op == RemK }

  /** `AcuCodeGen_IsPure` on this fragment. */
  predicate IsPure(e: Expr) {
    match e
    case Literal(_) => true
    case Local(_) => true
    case Unary(_, a) => IsPure(a)
    case Binary(op, l, r) =>
      IsPure(l) && IsPure(r) &&
      (IsDivision(op) ==>
        EvalConst(r).IntConst? && EvalConst(r).i != 0 &&
        (IsSignedDivision(op) && EvalConst(r).i == -1 ==> EvalConst(l).IntConst? && EvalConst(l).i != -TWO_63))
  }

  /** Only a division by 0 has no value. */
  lemma OperatorHasValue(op: BinaryKind, x: u64, y: u64)
    requires IsDivision(op) ==> y != 0
    ensures EvalBinary(op, x, y).Some?
  {
  }

  /** A pure expression whose constants fold rightly cannot trap. */
  lemma {:induction false} PureNeverTraps(e: Expr, env: Env)
    requires IsPure(e) && FoldsRight(e)
    ensures Eval(e, env).Some?
  {
    hide EvalBinary;
    hide FoldsInts;
    match e
    case Literal(_) =>
    case Local(_) =>
    case Unary(_, a) => PureNeverTraps(a, env);
    case Binary(op, l, r) =>
      PureNeverTraps(l, env);
      PureNeverTraps(r, env);
      if IsDivision(op) {
        EvalConstSound(r, env);
        SignedWrap(EvalConst(r).i);
      }
      OperatorHasValue(op, Eval(l, env).value, Eval(r, env).value);
  }

  /** What remains: a division judged pure, on operands that have values, has none exactly if its constant
      divisor is 0, and then the divisor folds to something else. */
  lemma PureDivisionExact(op: BinaryKind, l: Expr, r: Expr, env: Env)
    requires IsDivision(op) && IsPure(Binary(op, l, r)) && Eval(l, env).Some? && Eval(r, env).Some?
    ensures Eval(Binary(op, l, r), env).None? <==> Eval(r, env) == Some(0)
    ensures Eval(r, env) == Some(0) ==> Eval(r, env) != Some(ConstWord(EvalConst(r))) && !FoldsRight(r)
  {
    SignedWrap(EvalConst(r).i);
    if Eval(r, env) != Some(0) { OperatorHasValue(op, Eval(l, env).value, Eval(r, env).value); }
    if FoldsRight(r) { EvalConstSound(r, env); }
  }

  /** A divisor that is 0 but folds to -1: the division counts as pure. */
  lemma MisfoldedDivisorTraps(sym: nat, env: Env)
    ensures var divisor := Binary(RemUK, Binary(SubK, Literal(0), Literal(6)), Literal(5));
            var e := Binary(DivUK, Local(sym), divisor);
            EvalConst(divisor) == IntConst(-1) && IsPure(e) && Eval(e, env) == None
  {
    var l := Binary(SubK, Literal(0), Literal(6));
    assert EvalConst(l) == IntConst(-6) && Eval(l, env) == Some(TWO_64 - 6);
    var divisor := Binary(RemUK, l, Literal(5));
    assert Abs(-6) % Abs(5) == 1;
    assert FoldInts(RemUK, -6, 5) == IntConst(-1);
    DivModUnique(TWO_64 - 6, 5, 0x3333_3333_3333_3332, 0);
    assert EvalBinary(RemUK, TWO_64 - 6, 5) == Some(0);
    assert Eval(divisor, env) == Some(0);
  }

  /** Booleans stay booleans: under the typing rules (i1 operands of `&&`, `||`, i1 results of
      comparisons) the short-circuit operators are conjunction and disjunction. */
  lemma ShortCircuitIsLogical(l: Expr, r: Expr, env: Env, a: bool, b: bool)
    requires Eval(l, env) == Some(Truth(a)) && Eval(r, env) == Some(Truth(b))
    ensures Eval(Binary(LogicalAndK, l, r), env) == Some(Truth(a && b))
    ensures Eval(Binary(LogicalOrK, l, r), env) == Some(Truth(a || b))
  {
  }
}
