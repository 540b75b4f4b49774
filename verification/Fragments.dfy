/** What it means for a stretch of code to compute an expression, and how such stretches compose
    on the VM. */
module Fragments {
  import opened Words
  import opened Bytecode
  import opened Vm
  import opened Expr
  import opened Emitted

  datatype Binding = Binding(sym: nat, reg: u8)

  // ---- locals --------------------------------------------------------------------------------

  function Syms(locals: seq<Binding>): set<nat> { set b | b in locals :: b.sym }

  function Regs(locals: seq<Binding>): set<u8> { set b | b in locals :: b.reg }

  /** `AcuCodeGen_FindLocal`: the innermost binding of a symbol. */
  function FindLocal(locals: seq<Binding>, sym: nat): (r: u8)
    requires sym in Syms(locals)
    ensures r in Regs(locals)
  {
    var last := locals[|locals| - 1];
    if last.sym == sym then last.reg
    else
      assert forall b :: b in locals ==> b == last || b in locals[..|locals| - 1];
      FindLocal(locals[..|locals| - 1], sym)
  }

  function EnvOf(locals: seq<Binding>, s: State): Env
    requires s.HasWindow()
  {
    map sym | sym in Syms(locals) :: s.Reg(FindLocal(locals, sym))
  }

  // ---- reaching and trapping -------------------------------------------------------------------

  ghost predicate Reaches(c: Chunk, h: Host, s: State, t: State) {
    exists n: nat :: Run(c, h, s, n) == Go(t)
  }

  ghost predicate TrapsFrom(c: Chunk, h: Host, s: State) {
    exists n: nat :: Run(c, h, s, n) == Stop(Final(DivisionByZero, 0, s.globals, s.trace))
  }

  lemma ReachesSelf(c: Chunk, h: Host, s: State)
    ensures Reaches(c, h, s, s)
  {
    assert Run(c, h, s, 0) == Go(s);
  }

  lemma ReachesStep(c: Chunk, h: Host, s: State)
    requires Step(c, h, s).Go?
    ensures Reaches(c, h, s, Step(c, h, s).next)
  {
    assert Run(c, h, s, 1) == Step(c, h, s);
  }

  lemma ReachesTrans(c: Chunk, h: Host, s: State, t: State, u: State)
    requires Reaches(c, h, s, t) && Reaches(c, h, t, u)
    ensures Reaches(c, h, s, u)
  {
    var m: nat :| Run(c, h, s, m) == Go(t);
    var n: nat :| Run(c, h, t, n) == Go(u);
    RunCompose(c, h, s, m, n);
    assert Run(c, h, s, m + n) == Go(u);
  }

  lemma ReachesTrap(c: Chunk, h: Host, s: State, t: State)
    requires Reaches(c, h, s, t) && TrapsFrom(c, h, t) && s.globals == t.globals && s.trace == t.trace
    ensures TrapsFrom(c, h, s)
  {
    var m: nat :| Run(c, h, s, m) == Go(t);
    var n: nat :| Run(c, h, t, n) == Stop(Final(DivisionByZero, 0, t.globals, t.trace));
    RunCompose(c, h, s, m, n);
    assert Run(c, h, s, m + n) == Stop(Final(DivisionByZero, 0, s.globals, s.trace));
  }

  // ---- frames of a fragment ----------------------------------------------------------------------

  /** `t` differs from `s` at most in ip and in window registers outside `keep`. */
  ghost predicate Keeps(s: State, t: State, keep: set<u8>) {
    && s.HasWindow() && |t.stack| == |s.stack| && t.base == s.base
    && t.frames == s.frames && t.globals == s.globals && t.trace == s.trace
    && (forall r: u8 :: r in keep ==> t.Reg(r) == s.Reg(r))
    && (forall i :: 0 <= i < |s.stack| && !(s.base <= i < s.base + REG_WINDOW) ==>
          t.stack[i] == s.stack[i])
  }

  lemma KeepsTrans(s: State, t: State, u: State, k1: set<u8>, k2: set<u8>, keep: set<u8>)
    requires Keeps(s, t, k1) && Keeps(t, u, k2) && keep <= k1 && keep <= k2
    ensures Keeps(s, u, keep)
  {
  }

  lemma EnvKept(locals: seq<Binding>, s: State, t: State, keep: set<u8>)
    requires Keeps(s, t, keep) && Regs(locals) <= keep
    ensures EnvOf(locals, t) == EnvOf(locals, s)
    ensures forall ip: int :: EnvOf(locals, t.Goto(ip)) == EnvOf(locals, s)
  {
  }

  ghost predicate Lands(c: Chunk, h: Host, s: State, t: State, to: int, keep: set<u8>) {
    Reaches(c, h, s, t) && t.ip == to && Keeps(s, t, keep)
  }

  lemma LandsTrans(c: Chunk, h: Host, s: State, t: State, u: State, mid: int, to: int,
                   k1: set<u8>, k2: set<u8>, keep: set<u8>)
    requires Lands(c, h, s, t, mid, k1) && Lands(c, h, t, u, to, k2) && keep <= k1 && keep <= k2
    ensures Lands(c, h, s, u, to, keep)
  {
    ReachesTrans(c, h, s, t, u);
    KeepsTrans(s, t, u, k1, k2, keep);
  }

  lemma LandsTrap(c: Chunk, h: Host, s: State, t: State, mid: int, keep: set<u8>)
    requires Lands(c, h, s, t, mid, keep) && TrapsFrom(c, h, t)
    ensures TrapsFrom(c, h, s)
  {
    ReachesTrap(c, h, s, t);
  }

  lemma LandsSelf(c: Chunk, h: Host, s: State, keep: set<u8>)
    requires s.HasWindow()
    ensures Lands(c, h, s, s, s.ip, keep)
  {
    ReachesSelf(c, h, s);
  }

  /** One computing instruction whose value is defined. */
  lemma LandsCompute(c: Chunk, h: Host, s: State, w: Word, v: u64, keep: set<u8>)
    requires 0 <= s.ip < |c.code| && s.HasWindow() && c.code[s.ip] == w && IsCompute(w.op)
    requires Compute(c, h, s.globals, w, s.Reg(w.b), s.Reg(w.c)) == Val(v)
    requires w.a !in keep
    ensures Lands(c, h, s, s.SetReg(w.a, v).Goto(s.ip + 1), s.ip + 1, keep)
  {
    ReachesStep(c, h, s);
  }

  lemma TrapCompute(c: Chunk, h: Host, s: State, w: Word)
    requires 0 <= s.ip < |c.code| && s.HasWindow() && c.code[s.ip] == w && IsCompute(w.op)
    requires Compute(c, h, s.globals, w, s.Reg(w.b), s.Reg(w.c)) == DivTrap
    ensures TrapsFrom(c, h, s)
  {
    assert Run(c, h, s, 1) == Step(c, h, s);
  }

  lemma LandsBranch(c: Chunk, h: Host, s: State, w: Word, keep: set<u8>)
    requires 0 <= s.ip < |c.code| && s.HasWindow() && c.code[s.ip] == w && IsBranch(w.op)
    ensures var to := s.ip + 1 + if Taken(w, s.Reg(w.a), s.Reg(w.b)) then BranchOffset(w) else 0;
            Lands(c, h, s, s.Goto(to), to, keep)
  {
    ReachesStep(c, h, s);
  }

  // ---- fragments ---------------------------------------------------------------------------------

  /** The chunk contains `frag` at `from`, and its constant pool extends `consts`. */
  ghost predicate Contains(c: Chunk, from: nat, frag: seq<Word>, consts: seq<u64>) {
    && from + |frag| <= |c.code|
    && c.code[from..from + |frag|] == frag
    && consts <= c.constants
  }

  lemma ContainsSplit(c: Chunk, from: nat, f: seq<Word>, g: seq<Word>, k: seq<u64>, consts: seq<u64>)
    requires Contains(c, from, f + g, consts) && k <= consts
    ensures Contains(c, from, f, k) && Contains(c, from + |f|, g, consts)
  {
    var code := c.code[from..from + |f + g|];
    assert c.code[from..from + |f|] == code[..|f|] == f;
    assert c.code[from + |f|..from + |f| + |g|] == code[|f|..] == g;
  }

  lemma ContainsAt(c: Chunk, from: nat, frag: seq<Word>, consts: seq<u64>, i: nat)
    requires Contains(c, from, frag, consts) && i < |frag|
    ensures c.code[from + i] == frag[i]
  {
    assert c.code[from..from + |frag|][i] == c.code[from + i];
  }

  /** Where a run of a fragment may start. */
  ghost predicate Enters(c: Chunk, from: nat, frag: seq<Word>, consts: seq<u64>, s: State) {
    Contains(c, from, frag, consts) && s.ip == from && s.HasWindow()
  }

  /** A landing state delivers the value of `e` as emitted. */
  ghost predicate Agrees(e: Expr, env: Env, v: u64) { EvalEmitted(e, env) == Some(v) }

  /** The outcome of one run of a fragment that computes `e` into `dst`. */
  ghost predicate Computes(c: Chunk, h: Host, s: State, e: Expr, env: Env, to: int, dst: u8,
                           keep: set<u8>)
  {
    (TrapsFrom(c, h, s) && EvalEmitted(e, env).None?) ||
    exists t: State :: LandsOn(c, h, s, t, to, keep, e, env, dst)
  }

  ghost predicate LandsOn(c: Chunk, h: Host, s: State, t: State, to: int, keep: set<u8>,
                          e: Expr, env: Env, dst: u8)
  {
    Lands(c, h, s, t, to, keep) && Agrees(e, env, t.Reg(dst))
  }

  ghost predicate RunComputes(c: Chunk, h: Host, s: State, frag: seq<Word>, from: nat,
                              consts: seq<u64>, locals: seq<Binding>, e: Expr, dst: u8, keep: set<u8>)
  {
    Enters(c, from, frag, consts, s) ==>
      Computes(c, h, s, e, EnvOf(locals, s), from + |frag|, dst, keep)
  }

  /** `frag`, placed at `from` in any chunk, computes `e` into `dst`: a run from its start traps if `e`
      as emitted divides by zero, and otherwise arrives behind it with that value in `dst`, all registers
      in `keep`, all cells outside the window, the frames, the globals and the trace unchanged. */
  ghost predicate Implements(frag: seq<Word>, from: nat, consts: seq<u64>, locals: seq<Binding>,
                             e: Expr, dst: u8, keep: set<u8>)
  {
    forall c: Chunk, h: Host, s: State ::
      RunComputes(c, h, s, frag, from, consts, locals, e, dst, keep)
  }

  ghost predicate Passes(c: Chunk, h: Host, s: State, e: Expr, env: Env, to: int, keep: set<u8>) {
    if DropTraps(e, env) then TrapsFrom(c, h, s) else exists t: State :: Lands(c, h, s, t, to, keep)
  }

  ghost predicate RunDiscards(c: Chunk, h: Host, s: State, frag: seq<Word>, from: nat,
                              consts: seq<u64>, locals: seq<Binding>, e: Expr, keep: set<u8>)
  {
    Enters(c, from, frag, consts, s) ==>
      Passes(c, h, s, e, EnvOf(locals, s), from + |frag|, keep)
  }

  /** The same for a value nobody uses: the trap that is left of `e`, or nothing changed. */
  ghost predicate Discards(frag: seq<Word>, from: nat, consts: seq<u64>, locals: seq<Binding>,
                           e: Expr, keep: set<u8>)
  {
    forall c: Chunk, h: Host, s: State ::
      RunDiscards(c, h, s, frag, from, consts, locals, e, keep)
  }

  lemma UseImplements(c: Chunk, h: Host, s: State, frag: seq<Word>, from: nat, consts: seq<u64>,
                      locals: seq<Binding>, e: Expr, dst: u8, keep: set<u8>)
    requires Implements(frag, from, consts, locals, e, dst, keep)
    requires Enters(c, from, frag, consts, s)
    ensures Computes(c, h, s, e, EnvOf(locals, s), from + |frag|, dst, keep)
  {
    assert RunComputes(c, h, s, frag, from, consts, locals, e, dst, keep);
  }

  lemma UseDiscards(c: Chunk, h: Host, s: State, frag: seq<Word>, from: nat, consts: seq<u64>,
                    locals: seq<Binding>, e: Expr, keep: set<u8>)
    requires Discards(frag, from, consts, locals, e, keep)
    requires Enters(c, from, frag, consts, s)
    ensures Passes(c, h, s, e, EnvOf(locals, s), from + |frag|, keep)
  {
    assert RunDiscards(c, h, s, frag, from, consts, locals, e, keep);
  }

  lemma ImplementsMore(frag: seq<Word>, from: nat, consts: seq<u64>, more: seq<u64>,
                       locals: seq<Binding>, e: Expr, dst: u8, keep: set<u8>)
    requires Implements(frag, from, consts, locals, e, dst, keep) && consts <= more
    ensures Implements(frag, from, more, locals, e, dst, keep)
  {
    forall c: Chunk, h: Host, s: State
      ensures RunComputes(c, h, s, frag, from, more, locals, e, dst, keep)
    {
      assert RunComputes(c, h, s, frag, from, consts, locals, e, dst, keep);
    }
  }

  ghost predicate SameOn(whole: Expr, e: Expr, env: Env) {
    EvalEmitted(whole, env) == EvalEmitted(e, env) && DropTraps(whole, env) == DropTraps(e, env)
  }

  /** Two expressions that are emitted with the same value and the same traps everywhere. */
  ghost predicate SameMeaning(whole: Expr, e: Expr) { forall env: Env :: SameOn(whole, e, env) }

  /** Dropped, they leave the same traps. */
  ghost predicate SameDrops(whole: Expr, e: Expr) {
    forall env: Env :: DropTraps(whole, env) == DropTraps(e, env)
  }

  lemma SameMeaningDrops(whole: Expr, e: Expr)
    requires SameMeaning(whole, e)
    ensures SameDrops(whole, e)
  {
    forall env: Env ensures DropTraps(whole, env) == DropTraps(e, env) {
      assert SameOn(whole, e, env);
    }
  }

  lemma ImplementsSame(frag: seq<Word>, from: nat, consts: seq<u64>, locals: seq<Binding>,
                       whole: Expr, e: Expr, dst: u8, keep: set<u8>)
    requires Implements(frag, from, consts, locals, e, dst, keep) && SameMeaning(whole, e)
    ensures Implements(frag, from, consts, locals, whole, dst, keep)
  {
    forall c: Chunk, h: Host, s: State
      ensures RunComputes(c, h, s, frag, from, consts, locals, whole, dst, keep)
    {
      assert RunComputes(c, h, s, frag, from, consts, locals, e, dst, keep);
      if Enters(c, from, frag, consts, s) {
        var env := EnvOf(locals, s);
        assert SameOn(whole, e, env);
        if !(TrapsFrom(c, h, s) && EvalEmitted(e, env).None?) {
          var t :| LandsOn(c, h, s, t, from + |frag|, keep, e, env, dst);
          assert LandsOn(c, h, s, t, from + |frag|, keep, whole, env, dst);
        }
      }
    }
  }

  /** A single instruction that loads a known word. */
  lemma LoadFragment(w: Word, from: nat, consts: seq<u64>, locals: seq<Binding>, e: Expr, v: u64,
                     keep: set<u8>)
    requires (w.op == OP_LOAD_IMM && Wrap(GetsBx(w)) == v) ||
             (w.op == OP_LOAD_CONST && GetBx(w) < |consts| && consts[GetBx(w)] == v)
    requires forall env: Env :: Agrees(e, env, v)
    requires w.a !in keep
    ensures Implements([w], from, consts, locals, e, w.a, keep)
  {
    forall c: Chunk, h: Host, s: State
      ensures RunComputes(c, h, s, [w], from, consts, locals, e, w.a, keep)
    {
      if Enters(c, from, [w], consts, s) {
        ContainsAt(c, from, [w], consts, 0);
        LandsCompute(c, h, s, w, v, keep);
        var t := s.SetReg(w.a, v).Goto(s.ip + 1);
        assert LandsOn(c, h, s, t, from + 1, keep, e, EnvOf(locals, s), w.a);
      }
    }
  }

  /** A local read in place, or moved. */
  lemma LocalFragment(from: nat, consts: seq<u64>, locals: seq<Binding>, sym: nat, keep: set<u8>)
    requires sym in Syms(locals)
    ensures Implements([], from, consts, locals, Local(sym), FindLocal(locals, sym), keep)
  {
    var r := FindLocal(locals, sym);
    forall c: Chunk, h: Host, s: State
      ensures RunComputes(c, h, s, [], from, consts, locals, Local(sym), r, keep)
    {
      if Enters(c, from, [], consts, s) {
        LandsSelf(c, h, s, keep);
        assert LandsOn(c, h, s, s, from, keep, Local(sym), EnvOf(locals, s), r);
      }
    }
  }

  lemma MoveFragment(from: nat, consts: seq<u64>, locals: seq<Binding>, sym: nat, dst: u8,
                     keep: set<u8>)
    requires sym in Syms(locals) && dst !in keep
    ensures Implements([Word(OP_MOVE, dst, FindLocal(locals, sym), 0)], from, consts, locals,
                       Local(sym), dst, keep)
  {
    var w := Word(OP_MOVE, dst, FindLocal(locals, sym), 0);
    forall c: Chunk, h: Host, s: State
      ensures RunComputes(c, h, s, [w], from, consts, locals, Local(sym), dst, keep)
    {
      if Enters(c, from, [w], consts, s) {
        ContainsAt(c, from, [w], consts, 0);
        LandsCompute(c, h, s, w, s.Reg(w.b), keep);
        assert LandsOn(c, h, s, s.SetReg(dst, s.Reg(w.b)).Goto(s.ip + 1), from + 1, keep,
                       Local(sym), EnvOf(locals, s), dst);
      }
    }
  }

  /** Unary and immediate instructions, and the product of a register with itself. */
  predicate IsOneOperand(w: Word) {
    w.op == OP_NEG || w.op == OP_NOT || w.op == OP_LNOT || IsBinaryImm(w.op) ||
    (w.op == OP_MUL && w.b == w.c)
  }

  /** The value a one-operand instruction makes of the value of its operand. */
  function OneOperand(w: Word, h: Host, x: Option<u64>): Option<u64>
    requires IsOneOperand(w)
  {
    match x
    case None => None
    case Some(v) =>
      if IsBinaryImm(w.op) then ImmediateOp(w.op, v, w.c)
      else if w.op == OP_MUL then Some(Mul(v, v))
      else Some(UnaryOp(h, w.op, v))
  }

  ghost predicate OneOperandOn(whole: Expr, src: Expr, w: Word, env: Env, h: Host)
    requires IsOneOperand(w)
  {
    EvalEmitted(whole, env) == OneOperand(w, h, EvalEmitted(src, env))
  }

  /** `whole` is what `w` makes of the value of `src`. */
  ghost predicate OneOperandMeaning(whole: Expr, src: Expr, w: Word) {
    IsOneOperand(w) &&
    forall env: Env, h: Host :: OneOperandOn(whole, src, w, env, h)
  }

  lemma OneOperandFragment(f: seq<Word>, w: Word, from: nat, consts: seq<u64>,
                           locals: seq<Binding>, whole: Expr, src: Expr, k1: set<u8>, keep: set<u8>)
    requires OneOperandMeaning(whole, src, w)
    requires Implements(f, from, consts, locals, src, w.b, k1)
    requires keep <= k1 && w.a !in keep
    ensures Implements(f + [w], from, consts, locals, whole, w.a, keep)
  {
    hide EvalEmitted;
    hide DropTraps;
    hide Reaches;
    hide TrapsFrom;
    forall c: Chunk, h: Host, s: State
      ensures RunComputes(c, h, s, f + [w], from, consts, locals, whole, w.a, keep)
    {
      if Enters(c, from, f + [w], consts, s) {
        var env := EnvOf(locals, s);
        ContainsSplit(c, from, f, [w], consts, consts);
        ContainsAt(c, from + |f|, [w], consts, 0);
        assert RunComputes(c, h, s, f, from, consts, locals, src, w.b, k1);
        assert OneOperandOn(whole, src, w, env, h);
        if !(TrapsFrom(c, h, s) && EvalEmitted(src, env).None?) {
          var t :| LandsOn(c, h, s, t, from + |f|, k1, src, env, w.b);
          OneOperandStep(c, h, s, t, w, from + |f|, whole, src, env, k1, keep);
        }
      }
    }
  }

  lemma OneOperandStep(c: Chunk, h: Host, s: State, t: State, w: Word, mid: nat, whole: Expr,
                       src: Expr, env: Env, k1: set<u8>, keep: set<u8>)
    requires IsOneOperand(w)
    requires LandsOn(c, h, s, t, mid, k1, src, env, w.b) && OneOperandOn(whole, src, w, env, h)
    requires mid < |c.code| && c.code[mid] == w && keep <= k1 && w.a !in keep
    ensures Computes(c, h, s, whole, env, mid + 1, w.a, keep)
  {
    hide Reaches;
    hide TrapsFrom;
    match OneOperand(w, h, Some(t.Reg(w.b))) {
      case None =>
        TrapCompute(c, h, t, w);
        LandsTrap(c, h, s, t, mid, k1);
      case Some(v) =>
        LandsCompute(c, h, t, w, v, keep);
        var u := t.SetReg(w.a, v).Goto(t.ip + 1);
        LandsTrans(c, h, s, t, u, mid, mid + 1, k1, keep, keep);
        assert LandsOn(c, h, s, u, mid + 1, keep, whole, env, w.a);
    }
  }

  // ---- two operands -------------------------------------------------------------------------------

  /** What a register-register instruction makes of two values evaluated in order. */
  function TwoOperands(op: u8, h: Host, x: Option<u64>, y: Option<u64>): Option<u64> {
    match x
    case None => None
    case Some(a) => match y case None => None case Some(b) => BinaryOp(h, op, a, b)
  }

  ghost predicate TwoOperandsOn(whole: Expr, l: Expr, r: Expr, op: u8, env: Env, h: Host) {
    EvalEmitted(whole, env) == TwoOperands(op, h, EvalEmitted(l, env), EvalEmitted(r, env))
  }

  ghost predicate TwoOperandMeaning(whole: Expr, l: Expr, r: Expr, op: u8) {
    IsBinaryReg(op) &&
    forall env: Env, h: Host :: TwoOperandsOn(whole, l, r, op, env, h)
  }

  lemma TwoOperandFragment(f: seq<Word>, g: seq<Word>, w: Word, from: nat, consts: seq<u64>,
                           locals: seq<Binding>, whole: Expr, l: Expr, r: Expr,
                           k1: set<u8>, k2: set<u8>, keep: set<u8>)
    requires TwoOperandMeaning(whole, l, r, w.op)
    requires Implements(f, from, consts, locals, l, w.b, k1)
    requires Implements(g, from + |f|, consts, locals, r, w.c, k2)
    requires Regs(locals) <= k1 && w.b in k2 && keep <= k1 && keep <= k2 && w.a !in keep
    ensures Implements(f + g + [w], from, consts, locals, whole, w.a, keep)
  {
    hide EvalEmitted;
    hide DropTraps;
    forall c: Chunk, h: Host, s: State
      ensures RunComputes(c, h, s, f + g + [w], from, consts, locals, whole, w.a, keep)
    {
      if Enters(c, from, f + g + [w], consts, s) {
        ContainsSplit(c, from, f + g, [w], consts, consts);
        ContainsSplit(c, from, f, g, consts, consts);
        ContainsAt(c, from + |f + g|, [w], consts, 0);
        UseImplements(c, h, s, f, from, consts, locals, l, w.b, k1);
        assert TwoOperandsOn(whole, l, r, w.op, EnvOf(locals, s), h);
        TwoOperandRun(c, h, s, f, g, w, from, consts, locals, whole, l, r, k1, k2, keep);
      }
    }
  }

  lemma TwoOperandRun(c: Chunk, h: Host, s: State, f: seq<Word>, g: seq<Word>, w: Word, from: nat,
                      consts: seq<u64>, locals: seq<Binding>, whole: Expr, l: Expr, r: Expr,
                      k1: set<u8>, k2: set<u8>, keep: set<u8>)
    requires IsBinaryReg(w.op)
    requires s.HasWindow() && TwoOperandsOn(whole, l, r, w.op, EnvOf(locals, s), h)
    requires Contains(c, from + |f|, g, consts)
    requires from + |f| + |g| < |c.code| && c.code[from + |f| + |g|] == w
    requires Computes(c, h, s, l, EnvOf(locals, s), from + |f|, w.b, k1)
    requires Implements(g, from + |f|, consts, locals, r, w.c, k2)
    requires Regs(locals) <= k1 && w.b in k2 && keep <= k1 && keep <= k2 && w.a !in keep
    ensures Computes(c, h, s, whole, EnvOf(locals, s), from + |f| + |g| + 1, w.a, keep)
  {
    hide EvalEmitted;
    hide DropTraps;
    hide Reaches;
    hide TrapsFrom;
    var env := EnvOf(locals, s);
    if !(TrapsFrom(c, h, s) && EvalEmitted(l, env).None?) {
      var t :| LandsOn(c, h, s, t, from + |f|, k1, l, env, w.b);
      EnvKept(locals, s, t, k1);
      UseImplements(c, h, t, g, from + |f|, consts, locals, r, w.c, k2);
      TwoOperandRest(c, h, s, t, w, from + |f|, from + |f| + |g|, whole, l, r, env, k1, k2, keep);
    }
  }

  lemma TwoOperandRest(c: Chunk, h: Host, s: State, t: State, w: Word, mid: nat, at: nat, whole: Expr,
                       l: Expr, r: Expr, env: Env, k1: set<u8>, k2: set<u8>, keep: set<u8>)
    requires IsBinaryReg(w.op)
    requires TwoOperandsOn(whole, l, r, w.op, env, h) && at < |c.code| && c.code[at] == w
    requires LandsOn(c, h, s, t, mid, k1, l, env, w.b) && Computes(c, h, t, r, env, at, w.c, k2)
    requires w.b in k2 && keep <= k1 && keep <= k2 && w.a !in keep
    ensures Computes(c, h, s, whole, env, at + 1, w.a, keep)
  {
    hide Reaches;
    hide TrapsFrom;
    if TrapsFrom(c, h, t) && EvalEmitted(r, env).None? {
      LandsTrap(c, h, s, t, mid, k1);
    } else {
      var u :| LandsOn(c, h, t, u, at, k2, r, env, w.c);
      LandsTrans(c, h, s, t, u, mid, at, k1, k2, keep);
      TwoOperandStep(c, h, s, u, w, at, whole, l, r, env, keep);
    }
  }

  lemma TwoOperandStep(c: Chunk, h: Host, s: State, t: State, w: Word, mid: nat, whole: Expr,
                       l: Expr, r: Expr, env: Env, keep: set<u8>)
    requires IsBinaryReg(w.op) && TwoOperandsOn(whole, l, r, w.op, env, h)
    requires Lands(c, h, s, t, mid, keep)
    requires Agrees(l, env, t.Reg(w.b)) && Agrees(r, env, t.Reg(w.c))
    requires mid < |c.code| && c.code[mid] == w && w.a !in keep
    ensures Computes(c, h, s, whole, env, mid + 1, w.a, keep)
  {
    hide Reaches;
    hide TrapsFrom;
    match BinaryOp(h, w.op, t.Reg(w.b), t.Reg(w.c)) {
      case None =>
        TrapCompute(c, h, t, w);
        LandsTrap(c, h, s, t, mid, keep);
      case Some(v) =>
        LandsCompute(c, h, t, w, v, keep);
        var u := t.SetReg(w.a, v).Goto(t.ip + 1);
        LandsTrans(c, h, s, t, u, mid, mid + 1, keep, keep, keep);
        assert LandsOn(c, h, s, u, mid + 1, keep, whole, env, w.a);
    }
  }

  // ---- short circuits -------------------------------------------------------------------------------

  function ShortOp(isAnd: bool): BinaryKind { if isAnd then LogicalAndK else LogicalOrK }

  /** The jump taken when the left operand decides, and the value it decides on. */
  function ShortJump(isAnd: bool, r: u8, offset: int): Word {
    EncodeAsBx(if isAnd then OP_JUMP_IF_FALSE else OP_JUMP_IF_TRUE, r, offset)
  }

  function ShortValue(isAnd: bool): int { if isAnd then 0 else 1 }

  function ShortTail(isAnd: bool, dst: u8): (t: seq<Word>)
    ensures |t| == 2
  {
    [EncodesAx(OP_JUMP, 1), EncodeAsBx(OP_LOAD_IMM, dst, ShortValue(isAnd))]
  }

  ghost predicate IsShortJump(w: Word, isAnd: bool, r: u8, offset: int) {
    IsBoolJump(w.op) && (w.op == OP_JUMP_IF_FALSE) == isAnd && w.a == r && BranchOffset(w) == offset
  }

  ghost predicate IsShortTail(tail: seq<Word>, isAnd: bool, dst: u8) {
    |tail| == 2 && tail[0].op == OP_JUMP && BranchOffset(tail[0]) == 1 &&
    IsShortLoad(tail[1], isAnd, dst)
  }

  ghost predicate IsShortLoad(w: Word, isAnd: bool, dst: u8) {
    w.op == OP_LOAD_IMM && w.a == dst && GetsBx(w) == ShortValue(isAnd)
  }

  lemma ShortEncodings(isAnd: bool, r: u8, offset: int, dst: u8)
    requires FitsImm16(offset)
    ensures IsShortJump(ShortJump(isAnd, r, offset), isAnd, r, offset)
    ensures IsShortTail(ShortTail(isAnd, dst), isAnd, dst)
  {
    FieldBx(Word(if isAnd then OP_JUMP_IF_FALSE else OP_JUMP_IF_TRUE, r, 0, 0), offset);
    FieldAx(Word(OP_JUMP, 0, 0, 0), 1);
    FieldBx(Word(OP_LOAD_IMM, dst, 0, 0), ShortValue(isAnd));
  }

  /** The left value decides the result: zero for `&&`, anything else for `||`. */
  predicate Decided(isAnd: bool, v: u64) { (v == 0) == isAnd }

  lemma ShortJumpRun(c: Chunk, h: Host, t: State, isAnd: bool, lr: u8, offset: int, keep: set<u8>)
    requires 0 <= t.ip < |c.code| && t.HasWindow() && IsShortJump(c.code[t.ip], isAnd, lr, offset)
    ensures var to := t.ip + 1 + if Decided(isAnd, t.Reg(lr)) then offset else 0;
            Lands(c, h, t, t.Goto(to), to, keep)
  {
    LandsBranch(c, h, t, c.code[t.ip], keep);
  }

  lemma ShortTaken(c: Chunk, h: Host, s: State, t: State, isAnd: bool, at: nat, l: Expr, r: Expr,
                   env: Env, v: u64, dst: u8, k1: set<u8>, keep: set<u8>)
    requires at < |c.code| && IsShortLoad(c.code[at], isAnd, dst)
    requires Lands(c, h, s, t, at, k1) && Agrees(l, env, v) && Decided(isAnd, v)
    requires keep <= k1 && dst !in keep
    ensures Computes(c, h, s, Binary(ShortOp(isAnd), l, r), env, at + 1, dst, keep)
  {
    hide Reaches;
    hide TrapsFrom;
    LandsCompute(c, h, t, c.code[at], ShortValue(isAnd), keep);
    var u := t.SetReg(dst, ShortValue(isAnd)).Goto(at + 1);
    LandsTrans(c, h, s, t, u, at, at + 1, k1, keep, keep);
    assert LandsOn(c, h, s, u, at + 1, keep, Binary(ShortOp(isAnd), l, r), env, dst);
  }

  lemma ShortAgrees(isAnd: bool, l: Expr, r: Expr, env: Env, v: u64)
    requires Agrees(l, env, v) && !Decided(isAnd, v)
    ensures EvalEmitted(Binary(ShortOp(isAnd), l, r), env) == EvalEmitted(r, env)
    ensures DropTraps(Binary(ShortOp(isAnd), l, r), env) == DropTraps(r, env)
  {
  }

  lemma ShortTraps(isAnd: bool, l: Expr, r: Expr, env: Env)
    requires EvalEmitted(l, env).None?
    ensures EvalEmitted(Binary(ShortOp(isAnd), l, r), env).None? && DropTraps(Binary(ShortOp(isAnd), l, r), env)
  {
  }

  lemma LandsJump(c: Chunk, h: Host, s: State, keep: set<u8>)
    requires 0 <= s.ip < |c.code| && s.HasWindow() && c.code[s.ip].op == OP_JUMP
    ensures var to := s.ip + 1 + BranchOffset(c.code[s.ip]); Lands(c, h, s, s.Goto(to), to, keep)
  {
    LandsBranch(c, h, s, c.code[s.ip], keep);
  }

  lemma ShortNotTaken(c: Chunk, h: Host, s: State, t: State, isAnd: bool, n: nat, l: Expr, r: Expr,
                      env: Env, v: u64, dst: u8, k1: set<u8>, keep: set<u8>)
    requires 0 <= t.ip && t.ip + n + 2 <= |c.code|
    requires c.code[t.ip + n].op == OP_JUMP && BranchOffset(c.code[t.ip + n]) == 1
    requires Lands(c, h, s, t, t.ip, k1) && Agrees(l, env, v) && !Decided(isAnd, v)
    requires Computes(c, h, t, r, env, t.ip + n, dst, keep) && keep <= k1
    ensures Computes(c, h, s, Binary(ShortOp(isAnd), l, r), env, t.ip + n + 2, dst, keep)
  {
    hide EvalEmitted;
    hide DropTraps;
    hide Reaches;
    hide TrapsFrom;
    ShortAgrees(isAnd, l, r, env, v);
    if TrapsFrom(c, h, t) && EvalEmitted(r, env).None? {
      LandsTrap(c, h, s, t, t.ip, k1);
    } else {
      var u :| LandsOn(c, h, t, u, t.ip + n, keep, r, env, dst);
      LandsTrans(c, h, s, t, u, t.ip, t.ip + n, k1, keep, keep);
      LandsJump(c, h, u, keep);
      var w := u.Goto(t.ip + n + 2);
      LandsTrans(c, h, s, u, w, t.ip + n, t.ip + n + 2, keep, keep, keep);
      assert LandsOn(c, h, s, w, t.ip + n + 2, keep, Binary(ShortOp(isAnd), l, r), env, dst);
    }
  }

  lemma ShortRun(c: Chunk, h: Host, s: State, t: State, isAnd: bool, mid: nat, n: nat, l: Expr,
                 r: Expr, env: Env, lr: u8, dst: u8, k1: set<u8>, keep: set<u8>)
    requires mid + n + 3 <= |c.code| && IsShortJump(c.code[mid], isAnd, lr, n + 1)
    requires c.code[mid + 1 + n].op == OP_JUMP && BranchOffset(c.code[mid + 1 + n]) == 1
    requires IsShortLoad(c.code[mid + 2 + n], isAnd, dst)
    requires LandsOn(c, h, s, t, mid, k1, l, env, lr) && keep <= k1 && dst !in keep
    requires Computes(c, h, t.Goto(mid + 1), r, env, mid + 1 + n, dst, keep)
    ensures Computes(c, h, s, Binary(ShortOp(isAnd), l, r), env, mid + n + 3, dst, keep)
  {
    hide EvalEmitted;
    hide DropTraps;
    hide Reaches;
    hide TrapsFrom;
    ShortJumpRun(c, h, t, isAnd, lr, n + 1, k1);
    if Decided(isAnd, t.Reg(lr)) {
      var t1 := t.Goto(mid + 2 + n);
      LandsTrans(c, h, s, t, t1, mid, mid + 2 + n, k1, k1, k1);
      ShortTaken(c, h, s, t1, isAnd, mid + 2 + n, l, r, env, t.Reg(lr), dst, k1, keep);
    } else {
      var t1 := t.Goto(mid + 1);
      LandsTrans(c, h, s, t, t1, mid, mid + 1, k1, k1, k1);
      ShortNotTaken(c, h, s, t1, isAnd, n, l, r, env, t.Reg(lr), dst, k1, keep);
    }
  }

  ghost predicate ContainsShort(c: Chunk, from: nat, f: seq<Word>, jump: Word, g: seq<Word>,
                                tail: seq<Word>, consts: seq<u64>)
  {
    var mid := from + |f|;
    && Contains(c, from, f, consts) && mid < |c.code| && c.code[mid] == jump
    && Contains(c, mid + 1, g, consts) && Contains(c, mid + 1 + |g|, tail, consts)
  }

  lemma ShortSplit(c: Chunk, from: nat, f: seq<Word>, jump: Word, g: seq<Word>, tail: seq<Word>,
                   consts: seq<u64>)
    requires Contains(c, from, f + [jump] + g + tail, consts)
    ensures ContainsShort(c, from, f, jump, g, tail, consts)
  {
    ContainsSplit(c, from, f + [jump] + g, tail, consts, consts);
    ContainsSplit(c, from, f + [jump], g, consts, consts);
    ContainsSplit(c, from, f, [jump], consts, consts);
    ContainsAt(c, from + |f|, [jump], consts, 0);
  }

  /** left; jump over if decided; right into dst; jump over the next; load the decided value. */
  lemma ShortFragment(isAnd: bool, f: seq<Word>, jump: Word, g: seq<Word>, tail: seq<Word>, from: nat,
                      consts: seq<u64>, locals: seq<Binding>, l: Expr, r: Expr, lr: u8, dst: u8,
                      k1: set<u8>, keep: set<u8>)
    requires IsShortJump(jump, isAnd, lr, |g| + 1) && IsShortTail(tail, isAnd, dst)
    requires Implements(f, from, consts, locals, l, lr, k1)
    requires Implements(g, from + |f| + 1, consts, locals, r, dst, keep)
    requires Regs(locals) <= k1 && keep <= k1 && dst !in keep
    ensures Implements(f + [jump] + g + tail, from, consts, locals, Binary(ShortOp(isAnd), l, r), dst,
                       keep)
  {
    hide Reaches;
    hide TrapsFrom;
    var frag := f + [jump] + g + tail;
    forall c: Chunk, h: Host, s: State
      ensures RunComputes(c, h, s, frag, from, consts, locals, Binary(ShortOp(isAnd), l, r), dst, keep)
    {
      if Enters(c, from, frag, consts, s) {
        ShortSplit(c, from, f, jump, g, tail, consts);
        assert RunComputes(c, h, s, f, from, consts, locals, l, lr, k1);
        ShortFragmentRun(c, h, s, isAnd, f, jump, g, tail, from, consts, locals, l, r, lr, dst, k1, keep);
      }
    }
  }

  lemma ShortFragmentRun(c: Chunk, h: Host, s: State, isAnd: bool, f: seq<Word>, jump: Word,
                         g: seq<Word>, tail: seq<Word>, from: nat, consts: seq<u64>,
                         locals: seq<Binding>, l: Expr, r: Expr, lr: u8, dst: u8,
                         k1: set<u8>, keep: set<u8>)
    requires s.HasWindow() && s.ip == from && ContainsShort(c, from, f, jump, g, tail, consts)
    requires IsShortJump(jump, isAnd, lr, |g| + 1) && IsShortTail(tail, isAnd, dst)
    requires Computes(c, h, s, l, EnvOf(locals, s), from + |f|, lr, k1)
    requires Implements(g, from + |f| + 1, consts, locals, r, dst, keep)
    requires Regs(locals) <= k1 && keep <= k1 && dst !in keep
    ensures Computes(c, h, s, Binary(ShortOp(isAnd), l, r), EnvOf(locals, s), from + |f| + |g| + 3,
                     dst, keep)
  {
    hide Reaches;
    hide TrapsFrom;
    hide EvalEmitted;
    hide Implements;
    var env, mid := EnvOf(locals, s), from + |f|;
    ContainsAt(c, mid + 1 + |g|, tail, consts, 0);
    ContainsAt(c, mid + 1 + |g|, tail, consts, 1);
    if EvalEmitted(l, env).None? { ShortTraps(isAnd, l, r, env); }
    if !(TrapsFrom(c, h, s) && EvalEmitted(l, env).None?) {
      var t :| LandsOn(c, h, s, t, mid, k1, l, env, lr);
      EnvKept(locals, s, t, k1);
      UseImplements(c, h, t.Goto(mid + 1), g, mid + 1, consts, locals, r, dst, keep);
      ShortRun(c, h, s, t, isAnd, mid, |g|, l, r, env, lr, dst, k1, keep);
    }
  }

  // ---- discarded values -------------------------------------------------------------------------------

  lemma DiscardsMore(frag: seq<Word>, from: nat, consts: seq<u64>, more: seq<u64>,
                     locals: seq<Binding>, e: Expr, keep: set<u8>)
    requires Discards(frag, from, consts, locals, e, keep) && consts <= more
    ensures Discards(frag, from, more, locals, e, keep)
  {
    forall c: Chunk, h: Host, s: State
      ensures RunDiscards(c, h, s, frag, from, more, locals, e, keep)
    {
      assert RunDiscards(c, h, s, frag, from, consts, locals, e, keep);
    }
  }

  /** Discarding an operand with the same traps discards the whole. */
  lemma DiscardsWhole(frag: seq<Word>, from: nat, consts: seq<u64>, locals: seq<Binding>,
                      whole: Expr, e: Expr, keep: set<u8>)
    requires Discards(frag, from, consts, locals, e, keep) && SameDrops(whole, e)
    ensures Discards(frag, from, consts, locals, whole, keep)
  {
    forall c: Chunk, h: Host, s: State
      ensures RunDiscards(c, h, s, frag, from, consts, locals, whole, keep)
    {
      assert RunDiscards(c, h, s, frag, from, consts, locals, e, keep);
    }
  }

  lemma DiscardsNothing(from: nat, consts: seq<u64>, locals: seq<Binding>, e: Expr, keep: set<u8>)
    requires forall env: Env :: !DropTraps(e, env)
    ensures Discards([], from, consts, locals, e, keep)
  {
    forall c: Chunk, h: Host, s: State
      ensures RunDiscards(c, h, s, [], from, consts, locals, e, keep)
    {
      if Enters(c, from, [], consts, s) {
        LandsSelf(c, h, s, keep);
      }
    }
  }

  /** Dropping both operands of a strict operator drops the operator. */
  lemma DiscardsBoth(f: seq<Word>, g: seq<Word>, from: nat, consts: seq<u64>,
                     locals: seq<Binding>, op: BinaryKind, l: Expr, r: Expr, keep: set<u8>)
    requires !IsLogical(op)
    requires Discards(f, from, consts, locals, l, keep)
    requires Discards(g, from + |f|, consts, locals, r, keep)
    requires Regs(locals) <= keep
    ensures Discards(f + g, from, consts, locals, Binary(op, l, r), keep)
  {
    hide Reaches;
    hide TrapsFrom;
    forall c: Chunk, h: Host, s: State
      ensures RunDiscards(c, h, s, f + g, from, consts, locals, Binary(op, l, r), keep)
    {
      if Enters(c, from, f + g, consts, s) {
        ContainsSplit(c, from, f, g, consts, consts);
        assert RunDiscards(c, h, s, f, from, consts, locals, l, keep);
        if !DropTraps(l, EnvOf(locals, s)) {
          var t :| Lands(c, h, s, t, from + |f|, keep);
          EnvKept(locals, s, t, keep);
          assert RunDiscards(c, h, t, g, from + |f|, consts, locals, r, keep);
          PassesAfter(c, h, s, t, Binary(op, l, r), r, EnvOf(locals, s), from + |f| + |g|, keep);
        }
      }
    }
  }

  ghost predicate LeavesOn(whole: Expr, l: Expr, e: Expr, env: Env) {
    EvalEmitted(whole, env) == if DropTraps(l, env) then None else EvalEmitted(e, env)
  }

  /** `whole` is `e` once `l` has been dropped. */
  ghost predicate Leaves(whole: Expr, l: Expr, e: Expr) { forall env: Env :: LeavesOn(whole, l, e, env) }

  /** A discarded operand followed by the code for the value that is left. */
  lemma DiscardThenCompute(f: seq<Word>, g: seq<Word>, from: nat, consts: seq<u64>, more: seq<u64>,
                           locals: seq<Binding>, whole: Expr, l: Expr, e: Expr, dst: u8,
                           k1: set<u8>, keep: set<u8>)
    requires Discards(f, from, consts, locals, l, k1) && Leaves(whole, l, e)
    requires Implements(g, from + |f|, more, locals, e, dst, keep)
    requires consts <= more && Regs(locals) <= k1 && keep <= k1
    ensures Implements(f + g, from, more, locals, whole, dst, keep)
  {
    forall c: Chunk, h: Host, s: State
      ensures RunComputes(c, h, s, f + g, from, more, locals, whole, dst, keep)
    {
      if Enters(c, from, f + g, more, s) {
        ContainsSplit(c, from, f, g, consts, more);
        ContainsSplit(c, from, f, g, more, more);
        UseDiscards(c, h, s, f, from, consts, locals, l, k1);
        assert LeavesOn(whole, l, e, EnvOf(locals, s));
        DiscardThenComputeRun(c, h, s, f, g, from, more, locals, whole, l, e, dst, k1, keep);
      }
    }
  }

  lemma DiscardThenComputeRun(c: Chunk, h: Host, s: State, f: seq<Word>, g: seq<Word>, from: nat,
                              consts: seq<u64>, locals: seq<Binding>, whole: Expr, l: Expr, e: Expr,
                              dst: u8, k1: set<u8>, keep: set<u8>)
    requires s.HasWindow() && Contains(c, from + |f|, g, consts)
    requires Passes(c, h, s, l, EnvOf(locals, s), from + |f|, k1) && LeavesOn(whole, l, e, EnvOf(locals, s))
    requires Implements(g, from + |f|, consts, locals, e, dst, keep)
    requires Regs(locals) <= k1 && keep <= k1
    ensures Computes(c, h, s, whole, EnvOf(locals, s), from + |f| + |g|, dst, keep)
  {
    hide Reaches;
    hide TrapsFrom;
    var env := EnvOf(locals, s);
    if !DropTraps(l, env) {
      var t :| Lands(c, h, s, t, from + |f|, k1);
      EnvKept(locals, s, t, k1);
      UseImplements(c, h, t, g, from + |f|, consts, locals, e, dst, keep);
      if TrapsFrom(c, h, t) && EvalEmitted(e, env).None? {
        LandsTrap(c, h, s, t, from + |f|, k1);
      } else {
        var u :| LandsOn(c, h, t, u, from + |f| + |g|, keep, e, env, dst);
        LandsTrans(c, h, s, t, u, from + |f|, from + |f| + |g|, k1, keep, keep);
        assert LandsOn(c, h, s, u, from + |f| + |g|, keep, whole, env, dst);
      }
    }
  }

  /** left; jump over if decided; discarded right. */
  lemma ShortDiscard(isAnd: bool, f: seq<Word>, jump: Word, g: seq<Word>, from: nat,
                     consts: seq<u64>, locals: seq<Binding>, l: Expr, r: Expr, lr: u8, keep: set<u8>)
    requires Implements(f, from, consts, locals, l, lr, keep)
    requires Discards(g, from + |f| + 1, consts, locals, r, keep)
    requires Regs(locals) <= keep && IsShortJump(jump, isAnd, lr, |g|)
    ensures Discards(f + [jump] + g, from, consts, locals,
                     Binary(ShortOp(isAnd), l, r), keep)
  {
    hide Reaches;
    hide TrapsFrom;
    var frag := f + [jump] + g;
    assert frag == frag + [];
    forall c: Chunk, h: Host, s: State
      ensures RunDiscards(c, h, s, frag, from, consts, locals, Binary(ShortOp(isAnd), l, r), keep)
    {
      if Enters(c, from, frag, consts, s) {
        ShortSplit(c, from, f, jump, g, [], consts);
        assert RunComputes(c, h, s, f, from, consts, locals, l, lr, keep);
        ShortDiscardRun(c, h, s, isAnd, f, jump, g, from, consts, locals, l, r, lr, keep);
      }
    }
  }

  lemma ShortDiscardRun(c: Chunk, h: Host, s: State, isAnd: bool, f: seq<Word>, jump: Word,
                        g: seq<Word>, from: nat, consts: seq<u64>, locals: seq<Binding>,
                        l: Expr, r: Expr, lr: u8, keep: set<u8>)
    requires s.HasWindow() && s.ip == from
    requires ContainsShort(c, from, f, jump, g, [], consts)
    requires Computes(c, h, s, l, EnvOf(locals, s), from + |f|, lr, keep)
    requires Discards(g, from + |f| + 1, consts, locals, r, keep)
    requires Regs(locals) <= keep && IsShortJump(jump, isAnd, lr, |g|)
    ensures Passes(c, h, s, Binary(ShortOp(isAnd), l, r), EnvOf(locals, s), from + |f| + |g| + 1, keep)
  {
    hide EvalEmitted;
    hide DropTraps;
    hide Reaches;
    hide TrapsFrom;
    var env, mid := EnvOf(locals, s), from + |f|;
    if EvalEmitted(l, env).None? {
      ShortTraps(isAnd, l, r, env);
    } else {
      var t :| LandsOn(c, h, s, t, mid, keep, l, env, lr);
      EnvKept(locals, s, t, keep);
      UseDiscardsAt(c, h, t, g, mid + 1, consts, locals, r, env, keep);
      ShortDiscardRest(c, h, s, t, isAnd, |g|, l, r, lr, env, keep);
    }
  }

  lemma UseDiscardsAt(c: Chunk, h: Host, t: State, g: seq<Word>, at: nat, consts: seq<u64>,
                      locals: seq<Binding>, e: Expr, env: Env, keep: set<u8>)
    requires Discards(g, at, consts, locals, e, keep) && t.HasWindow()
    requires Contains(c, at, g, consts) && EnvOf(locals, t.Goto(at)) == env
    ensures Passes(c, h, t.Goto(at), e, env, at + |g|, keep)
  {
    UseDiscards(c, h, t.Goto(at), g, at, consts, locals, e, keep);
  }

  lemma ShortDiscardRest(c: Chunk, h: Host, s: State, t: State, isAnd: bool, n: nat, l: Expr, r: Expr,
                         lr: u8, env: Env, keep: set<u8>)
    requires 0 <= t.ip < |c.code| && IsShortJump(c.code[t.ip], isAnd, lr, n)
    requires LandsOn(c, h, s, t, t.ip, keep, l, env, lr)
    requires Passes(c, h, t.Goto(t.ip + 1), r, env, t.ip + 1 + n, keep)
    ensures Passes(c, h, s, Binary(ShortOp(isAnd), l, r), env, t.ip + 1 + n, keep)
  {
    hide EvalEmitted;
    hide Reaches;
    hide TrapsFrom;
    ShortJumpRun(c, h, t, isAnd, lr, n, keep);
    if Decided(isAnd, t.Reg(lr)) {
      LandsTrans(c, h, s, t, t.Goto(t.ip + 1 + n), t.ip, t.ip + 1 + n, keep, keep, keep);
    } else {
      var t1 := t.Goto(t.ip + 1);
      LandsTrans(c, h, s, t, t1, t.ip, t.ip + 1, keep, keep, keep);
      ShortAgrees(isAnd, l, r, env, t.Reg(lr));
      PassesAfter(c, h, s, t1, Binary(ShortOp(isAnd), l, r), r, env, t.ip + 1 + n, keep);
    }
  }

  lemma PassesAfter(c: Chunk, h: Host, s: State, t: State, whole: Expr, e: Expr, env: Env, to: int,
                    keep: set<u8>)
    requires Lands(c, h, s, t, t.ip, keep) && Passes(c, h, t, e, env, to, keep)
    requires DropTraps(whole, env) == DropTraps(e, env)
    ensures Passes(c, h, s, whole, env, to, keep)
  {
    hide Reaches;
    hide TrapsFrom;
    if DropTraps(e, env) {
      LandsTrap(c, h, s, t, t.ip, keep);
    } else {
      var u :| Lands(c, h, t, u, to, keep);
      LandsTrans(c, h, s, t, u, t.ip, to, keep, keep, keep);
    }
  }

  // ---- exactly these outcomes --------------------------------------------------------------------------

  /** The state `t` behind the fragment, with `v` in `dst`. */
  ghost predicate Delivers(c: Chunk, h: Host, s: State, t: State, to: int, keep: set<u8>, dst: u8, v: u64) {
    Lands(c, h, s, t, to, keep) && t.Reg(dst) == v
  }

  ghost predicate Arrives(c: Chunk, h: Host, s: State, to: int, keep: set<u8>, dst: u8, v: u64) {
    exists t: State :: Delivers(c, h, s, t, to, keep, dst, v)
  }

  /** In a chunk that ends with the fragment nothing else can happen: it traps exactly if `e` as emitted
      has no value, and arrives with `v` exactly if that is its value. */
  lemma ImplementsExactly(c: Chunk, h: Host, s: State, frag: seq<Word>, from: nat, consts: seq<u64>,
                          locals: seq<Binding>, e: Expr, dst: u8, keep: set<u8>, v: u64)
    requires Implements(frag, from, consts, locals, e, dst, keep) && Enters(c, from, frag, consts, s)
    requires |c.code| == from + |frag|
    ensures TrapsFrom(c, h, s) <==> EvalEmitted(e, EnvOf(locals, s)).None?
    ensures Arrives(c, h, s, |c.code|, keep, dst, v) <==> EvalEmitted(e, EnvOf(locals, s)) == Some(v)
  {
    hide Step;
    var env := EnvOf(locals, s);
    UseImplements(c, h, s, frag, from, consts, locals, e, dst, keep);
    if EvalEmitted(e, env).Some? {
      var t :| LandsOn(c, h, s, t, |c.code|, keep, e, env, dst);
      if v == t.Reg(dst) { assert Delivers(c, h, s, t, |c.code|, keep, dst, v); }
      EndsOnce(c, h, s, t);
      forall u: State | Delivers(c, h, s, u, |c.code|, keep, dst, v) ensures u == t {
        SameEnd(c, h, s, t, u);
      }
    } else {
      forall t: State ensures !Delivers(c, h, s, t, |c.code|, keep, dst, v) {
        if Delivers(c, h, s, t, |c.code|, keep, dst, v) { EndsOnce(c, h, s, t); }
      }
    }
  }

  /** A run that has come to the end of the code does not trap. */
  lemma EndsOnce(c: Chunk, h: Host, s: State, t: State)
    requires Reaches(c, h, s, t) && t.ip == |c.code|
    ensures !TrapsFrom(c, h, s)
  {
    var m: nat :| Run(c, h, s, m) == Go(t);
    RunCompose(c, h, s, m, 1);
    assert Step(c, h, t) == Wild(OffEnd);
    assert Run(c, h, t, 1) == Wild(OffEnd);
    forall n: nat ensures Run(c, h, s, n) != Stop(Final(DivisionByZero, 0, s.globals, s.trace)) {
      if !Run(c, h, s, n).Go? { RunStable(c, h, s, if n < m + 1 then n else m + 1, if n < m + 1 then m + 1 else n); }
    }
  }

  lemma SameEnd(c: Chunk, h: Host, s: State, t: State, u: State)
    requires Reaches(c, h, s, t) && t.ip == |c.code| && Reaches(c, h, s, u) && u.ip == |c.code|
    ensures u == t
  {
    var m: nat :| Run(c, h, s, m) == Go(t);
    var n: nat :| Run(c, h, s, n) == Go(u);
    if m < n {
      NothingAfter(c, h, s, t, m, n);
    } else if n < m {
      NothingAfter(c, h, s, u, n, m);
    }
  }

  lemma NothingAfter(c: Chunk, h: Host, s: State, t: State, m: nat, n: nat)
    requires Run(c, h, s, m) == Go(t) && t.ip == |c.code| && m < n
    ensures !Run(c, h, s, n).Go?
  {
    RunCompose(c, h, s, m, n - m);
    assert Step(c, h, t) == Wild(OffEnd);
  }

  /** The code for (a / b) * 0 goes on with 0 whatever b holds, although the expression has no value when
      b is 0. */
  lemma QuotientTimesZeroArrives(c: Chunk, h: Host, s: State, frag: seq<Word>, from: nat, consts: seq<u64>,
                                 locals: seq<Binding>, a: nat, b: nat, dst: u8, keep: set<u8>)
    requires a in Syms(locals) && b in Syms(locals)
    requires Implements(frag, from, consts, locals, Binary(MulK, Binary(DivK, Local(a), Local(b)), Literal(0)),
                        dst, keep)
    requires Enters(c, from, frag, consts, s)
    ensures Arrives(c, h, s, from + |frag|, keep, dst, 0)
    ensures Eval(Binary(MulK, Binary(DivK, Local(a), Local(b)), Literal(0)), EnvOf(locals, s)).None? <==>
            s.Reg(FindLocal(locals, b)) == 0
  {
    var e := Binary(MulK, Binary(DivK, Local(a), Local(b)), Literal(0));
    UseImplements(c, h, s, frag, from, consts, locals, e, dst, keep);
    QuotientTimesZero(a, b, EnvOf(locals, s));
    var t :| LandsOn(c, h, s, t, from + |frag|, keep, e, EnvOf(locals, s), dst);
    assert Delivers(c, h, s, t, from + |frag|, keep, dst, 0);
  }
}
