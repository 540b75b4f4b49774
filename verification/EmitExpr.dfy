/** The expression emitter: a class that appends to its code, patches jumps in place and updates
    its register set, as `AcuCodeGen_EmitExpr` does. The contract of `EmitExpr` is the correctness
    of the emitted code on the VM. */
module EmitExpr {
  import opened Words
  import opened Bytecode
  import opened Vm
  import opened Expr
  import opened Emitted
  import opened Fragments
  import opened OpTables
  import opened CallFragments

  const MAX_CONSTANTS: nat := 0xFFFF

  datatype Target = Auto | NoTarget | Real(reg: u8)

  /** The part of the generator's state that emission changes. `failed` records that a register
      was asked for when none was free, or that an assertion of the generator would have fired. */
  datatype Snap = Snap(code: seq<Word>, constants: seq<u64>, used: set<u8>, failed: bool)

  /** A call whose payload is filled in once the callee's entry is known. */
  datatype Patch = Patch(instIdx: nat, fnSym: nat)

  // ---- what emitting an expression does to the state -------------------------------------------------

  predicate Fits(a: Snap, n: nat) { |a.used| + n <= 256 && |a.constants| + n <= MAX_CONSTANTS }

  /** Code and constants are only appended to, and nothing fails while there is room. */
  ghost predicate Grows(a: Snap, b: Snap, n: nat) {
    && a.code <= b.code && |b.code| <= |a.code| + 4 * n
    && a.constants <= b.constants && |b.constants| <= |a.constants| + n
    && (a.failed ==> b.failed)
    && (Fits(a, n) && !a.failed ==> !b.failed)
  }

  /** The result register and the register set afterwards: a real target is marked, an automatic
      one is a local or one fresh register, and no other temporary stays marked. */
  ghost predicate RegsOk(before: set<u8>, after: set<u8>, locals: seq<Binding>, target: Target,
                         res: Target)
  {
    match target
    case Real(r) => res == target && after == before + {r}
    case Auto =>
      res.Real? && (if res.reg in Regs(locals) then after == before
                    else res.reg !in before && after == before + {res.reg})
    case NoTarget => res == target && after == before
  }

  /** The registers that the code for a target must leave alone. */
  function Kept(used: set<u8>, target: Target): set<u8> {
    if target.Real? then used - {target.reg} else used
  }

  ghost predicate CodeOk(a: Snap, b: Snap, locals: seq<Binding>, e: Expr, target: Target, res: Target) {
    && a.code <= b.code
    && if target.NoTarget? then Discards(b.code[|a.code|..], |a.code|, b.constants, locals, e, a.used)
       else res.Real? &&
            Implements(b.code[|a.code|..], |a.code|, b.constants, locals, e, res.reg, Kept(a.used, target))
  }

  /** The contract of an emission: it returns a register exactly when one was asked for, and
      unless something failed, the register set is as it should be and the code is correct. */
  ghost predicate Good(a: Snap, b: Snap, locals: seq<Binding>, e: Expr, target: Target, res: Target) {
    (if target.NoTarget? then res == NoTarget else res.Real?) &&
    (!b.failed ==>
      RegsOk(a.used, b.used, locals, target, res) && CodeOk(a, b, locals, e, target, res))
  }

  ghost predicate IsThere(e: Expr, v: u64, env: Env) { Agrees(e, env, v) && !DropTraps(e, env) }

  /** The value of `e` is known beforehand. */
  ghost predicate AlwaysIs(e: Expr, v: u64) { forall env: Env :: IsThere(e, v, env) }

  /** What `AcuCodeGen_ResolveTarget` does. */
  ghost predicate Resolved(a: Snap, b: Snap, target: Target, dst: u8) {
    && b.code == a.code && b.constants == a.constants
    && (a.failed ==> b.failed) && (target.Real? || |a.used| < 256 ==> b.failed == a.failed)
    && (!b.failed ==>
          b.used == a.used + {dst} && (if target.Real? then dst == target.reg else dst !in a.used))
  }

  /** Whether a rewrite to a one-operand instruction is justified. */
  ghost predicate Rewrites(whole: Expr, src: Expr, op: u8, c: u8) {
    Size(src) < Size(whole) && op != OP_MUL && SameDrops(whole, src) &&
    OneOperandMeaning(whole, src, Word(op, 0, 0, c))
  }

  lemma MeaningFields(whole: Expr, src: Expr, v: Word, w: Word)
    requires OneOperandMeaning(whole, src, v) && w.op == v.op && w.c == v.c && v.op != OP_MUL
    ensures OneOperandMeaning(whole, src, w)
  {
    forall env: Env, h: Host ensures OneOperandOn(whole, src, w, env, h) {
      assert OneOperandOn(whole, src, v, env, h);
    }
  }

  lemma AllRegistersUsed(used: set<u8>)
    requires forall r: u8 :: r in used
    ensures |used| >= 256
  {
    RangeCard(used, 256);
  }

  lemma {:induction false} RangeCard(used: set<u8>, n: nat)
    requires n <= 256 && forall r: u8 :: r < n ==> r in used
    ensures |used| >= n
  {
    if n > 0 {
      RangeCard(used - {n - 1}, n - 1);
    }
  }

  // ---- how emissions compose -------------------------------------------------------------------------

  /** After the operand: one instruction that reads its register. */
  lemma GoodOneOperand(a: Snap, b: Snap, c: Snap, locals: seq<Binding>, whole: Expr, src: Expr,
                       srcTarget: Target, target: Target, w: Word)
    requires Good(a, b, locals, src, srcTarget, Real(w.b)) && !srcTarget.NoTarget?
    requires !b.failed && OneOperandMeaning(whole, src, w)
    requires a.code <= b.code && c.code == b.code + [w] && c.constants == b.constants
    requires !target.NoTarget? && (srcTarget == target || srcTarget == Auto)
    requires w.a !in Kept(a.used, target)
    ensures CodeOk(a, c, locals, whole, target, Real(w.a))
  {
    var f := b.code[|a.code|..];
    assert c.code[|a.code|..] == f + [w];
    OneOperandFragment(f, w, |a.code|, c.constants, locals, whole, src, Kept(a.used, srcTarget),
                       Kept(a.used, target));
  }

  /** After both operands: one instruction that reads both registers. */
  lemma GoodTwoOperands(a: Snap, b: Snap, c: Snap, d: Snap, locals: seq<Binding>, whole: Expr, l: Expr,
                        r: Expr, target: Target, w: Word)
    requires Good(a, b, locals, l, Auto, Real(w.b)) && Good(b, c, locals, r, Auto, Real(w.c))
    requires !b.failed && !c.failed
    requires TwoOperandMeaning(whole, l, r, w.op) && Regs(locals) <= a.used
    requires a.code <= b.code <= c.code && b.constants <= c.constants
    requires d.code == c.code + [w] && d.constants == c.constants
    requires !target.NoTarget? && w.a !in Kept(a.used, target)
    ensures CodeOk(a, d, locals, whole, target, Real(w.a))
  {
    var f, g := b.code[|a.code|..], c.code[|b.code|..];
    assert c.code == b.code + g;
    assert d.code[|a.code|..] == f + g + [w];
    ImplementsMore(f, |a.code|, b.constants, c.constants, locals, l, w.b, a.used);
    TwoOperandFragment(f, g, w, |a.code|, d.constants, locals, whole, l, r, a.used, b.used,
                       Kept(a.used, target));
  }

  lemma GoodSame(a: Snap, b: Snap, locals: seq<Binding>, whole: Expr, e: Expr, target: Target, res: Target)
    requires Good(a, b, locals, e, target, res) && SameMeaning(whole, e)
    ensures Good(a, b, locals, whole, target, res)
  {
    if !b.failed {
      if target.NoTarget? {
        SameMeaningDrops(whole, e);
        DiscardsWhole(b.code[|a.code|..], |a.code|, b.constants, locals, whole, e, a.used);
      } else {
        ImplementsSame(b.code[|a.code|..], |a.code|, b.constants, locals, whole, e, res.reg,
                       Kept(a.used, target));
      }
    }
  }

  lemma GoodDrop(a: Snap, b: Snap, locals: seq<Binding>, whole: Expr, src: Expr)
    requires Good(a, b, locals, src, NoTarget, NoTarget) && SameDrops(whole, src)
    ensures Good(a, b, locals, whole, NoTarget, NoTarget)
  {
    if !b.failed {
      DiscardsWhole(b.code[|a.code|..], |a.code|, b.constants, locals, whole, src, a.used);
    }
  }

  /** The short-circuit code, patched: left; jump; right into dst; skip; load. */
  lemma GoodShort(isAnd: bool, a: Snap, b: Snap, c: Snap, d: Snap, e: Snap, locals: seq<Binding>,
                  l: Expr, r: Expr, lr: u8, dst: u8, jump: Word, tail: seq<Word>)
    requires Good(a, b, locals, l, Auto, Real(lr)) && Good(c, d, locals, r, Real(dst), Real(dst))
    requires !b.failed && !d.failed
    requires a.code <= b.code && |c.code| == |b.code| + 1 && c.code <= d.code
    requires b.constants <= d.constants && e.constants == d.constants
    requires IsShortJump(jump, isAnd, lr, |d.code| - |c.code| + 1) && IsShortTail(tail, isAnd, dst)
    requires e.code == b.code + [jump] + d.code[|c.code|..] + tail
    requires Regs(locals) <= a.used && c.used == a.used
    ensures Implements(e.code[|a.code|..], |a.code|, e.constants, locals,
                       Binary(ShortOp(isAnd), l, r), dst, a.used - {dst})
  {
    var f, g := b.code[|a.code|..], d.code[|c.code|..];
    assert e.code[|a.code|..] == f + [jump] + g + tail;
    ImplementsMore(f, |a.code|, b.constants, e.constants, locals, l, lr, a.used);
    ShortFragment(isAnd, f, jump, g, tail, |a.code|, e.constants, locals, l, r, lr, dst, a.used,
                  a.used - {dst});
  }

  /** What choosing a destination for an instruction with first operand `src` does. */
  ghost predicate Chosen(a: Snap, b: Snap, locals: seq<Binding>, src: u8, target: Target, dst: u8) {
    if target.Auto? && src !in Regs(locals) then dst == src && b == a else Resolved(a, b, target, dst)
  }

  /** The register set after a temporary operand that is not the destination has been freed. */
  function Freed(used: set<u8>, locals: seq<Binding>, r: u8, dst: u8): set<u8> {
    if dst != r && r !in Regs(locals) then used - {r} else used
  }

  ghost predicate LocalsMarked(a: Snap, locals: seq<Binding>) { !a.failed ==> Regs(locals) <= a.used }

  lemma UsedCount(before: set<u8>, after: set<u8>, locals: seq<Binding>, target: Target, res: Target)
    requires RegsOk(before, after, locals, target, res)
    ensures |after| <= |before| + 1 && before <= after
  {
  }

  lemma ChosenGrows(a: Snap, b: Snap, c: Snap, d: Snap, locals: seq<Binding>, src: u8, srcTarget: Target,
                    target: Target, dst: u8, w: Word, used: set<u8>, n: nat)
    requires Grows(a, b, n) && n >= 1
    requires !b.failed ==> |b.used| <= |a.used| + n
    requires Chosen(b, c, locals, src, target, dst) || Resolved(b, c, target, dst)
    requires d == Snap(c.code + [w], c.constants, used, c.failed)
    ensures Grows(a, d, n + 1)
  {
  }

  /** The register set after operand, choice and freeing of a one-operand instruction. */
  lemma OneOperandRegs(a: set<u8>, b: set<u8>, c: set<u8>, locals: seq<Binding>, srcTarget: Target,
                       target: Target, src: u8, dst: u8)
    requires RegsOk(a, b, locals, srcTarget, Real(src)) && Regs(locals) <= a
    requires !target.NoTarget? && (srcTarget == target || srcTarget == Auto)
    requires (target.Auto? && dst == src && src !in Regs(locals) && c == b) ||
             (c == b + {dst} && if target.Real? then dst == target.reg else dst !in b)
    ensures RegsOk(a, Freed(c, locals, src, dst), locals, target, Real(dst))
    ensures dst !in Kept(a, target)
  {
  }

  lemma TwoOperandRegs(a: set<u8>, b: set<u8>, c: set<u8>, d: set<u8>, locals: seq<Binding>,
                       target: Target, lr: u8, rr: u8, dst: u8)
    requires RegsOk(a, b, locals, Auto, Real(lr)) && RegsOk(b, c, locals, Auto, Real(rr))
    requires Regs(locals) <= a && !target.NoTarget?
    requires (target.Auto? && dst == lr && lr !in Regs(locals) && d == c) ||
             (d == c + {dst} && if target.Real? then dst == target.reg else dst !in c)
    ensures var e := Freed(d, locals, lr, dst);
            RegsOk(a, if rr != lr then Freed(e, locals, rr, dst) else e, locals, target, Real(dst))
    ensures dst !in Kept(a, target)
  {
  }

  /** Operand, chosen destination, one instruction, temporary freed. */
  lemma FinishOneOperand(a: Snap, b: Snap, c: Snap, d: Snap, locals: seq<Binding>, whole: Expr, src: Expr,
                         srcTarget: Target, target: Target, w: Word)
    requires Grows(a, b, Size(src)) && Good(a, b, locals, src, srcTarget, Real(w.b))
    requires !srcTarget.NoTarget? && !target.NoTarget? && (srcTarget == target || srcTarget == Auto)
    requires LocalsMarked(a, locals)
    requires Chosen(b, c, locals, w.b, target, w.a) || Resolved(b, c, target, w.a)
    requires d == Snap(b.code + [w], b.constants, Freed(c.used, locals, w.b, w.a), c.failed)
    requires OneOperandMeaning(whole, src, w)
    ensures Grows(a, d, Size(src) + 1) && Good(a, d, locals, whole, target, Real(w.a))
  {
    hide Implements;
    hide OneOperandMeaning;
    if !b.failed { UsedCount(a.used, b.used, locals, srcTarget, Real(w.b)); }
    ChosenGrows(a, b, c, d, locals, w.b, srcTarget, target, w.a, w, d.used, Size(src));
    if !d.failed {
      OneOperandRegs(a.used, b.used, c.used, locals, srcTarget, target, w.b, w.a);
      GoodOneOperand(a, b, d, locals, whole, src, srcTarget, target, w);
    }
  }

  /** Both operands, chosen destination, one instruction, temporaries freed. */
  lemma FinishTwoOperands(a: Snap, b: Snap, c: Snap, d: Snap, e: Snap, locals: seq<Binding>, whole: Expr,
                          l: Expr, r: Expr, target: Target, w: Word)
    requires Grows(a, b, Size(l)) && Good(a, b, locals, l, Auto, Real(w.b))
    requires Grows(b, c, Size(r)) && Good(b, c, locals, r, Auto, Real(w.c))
    requires !target.NoTarget? && LocalsMarked(a, locals)
    requires Chosen(c, d, locals, w.b, target, w.a)
    requires e == Snap(c.code + [w], c.constants, e.used, d.failed)
    requires e.used == var u := Freed(d.used, locals, w.b, w.a);
                       if w.c != w.b then Freed(u, locals, w.c, w.a) else u
    requires TwoOperandMeaning(whole, l, r, w.op)
    ensures Grows(a, e, Size(l) + Size(r) + 1) && Good(a, e, locals, whole, target, Real(w.a))
  {
    hide Implements;
    hide TwoOperandMeaning;
    if !b.failed { UsedCount(a.used, b.used, locals, Auto, Real(w.b)); }
    if !c.failed { UsedCount(b.used, c.used, locals, Auto, Real(w.c)); }
    GrowsSeq(a, b, c, Size(l), Size(r));
    ChosenGrows(a, c, d, e, locals, w.b, Auto, target, w.a, w, e.used, Size(l) + Size(r));
    if !e.failed {
      TwoOperandRegs(a.used, b.used, c.used, d.used, locals, target, w.b, w.c, w.a);
      GoodTwoOperands(a, b, c, e, locals, whole, l, r, target, w);
    }
  }

  /** The operand, the chosen destination, a mask in a fresh register, the instruction, both temporaries
      freed. */
  lemma FinishMasked(a: Snap, b: Snap, c: Snap, d: Snap, e: Snap, f: Snap, locals: seq<Binding>, whole: Expr,
                     l: Expr, mask: Expr, target: Target, w: Word)
    requires Grows(a, b, Size(l)) && Good(a, b, locals, l, Auto, Real(w.b))
    requires !target.NoTarget? && LocalsMarked(a, locals)
    requires Chosen(b, c, locals, w.b, target, w.a) && Resolved(c, d, Auto, w.c)
    requires Grows(d, e, 1) && Good(d, e, locals, mask, Real(w.c), Real(w.c))
    requires |d.constants| < MAX_CONSTANTS ==> e.failed == d.failed
    requires f == Snap(e.code + [w], e.constants, Freed(e.used - {w.c}, locals, w.b, w.a), e.failed)
    requires TwoOperandMeaning(whole, l, mask, w.op)
    ensures Grows(a, f, Size(l) + 2) && Good(a, f, locals, whole, target, Real(w.a))
  {
    hide Implements;
    hide TwoOperandMeaning;
    if !b.failed { UsedCount(a.used, b.used, locals, Auto, Real(w.b)); }
    MaskedGrows(a, b, c, d, e, f, locals, target, w, Size(l));
    if !f.failed {
      assert e.used == d.used == c.used + {w.c} && w.c !in c.used;
      assert e.used - {w.c} == c.used;
      OneOperandRegs(a.used, b.used, c.used, locals, Auto, target, w.b, w.a);
      GoodMasked(a, b, d, e, f, locals, whole, l, mask, target, w);
    }
  }

  lemma MaskedGrows(a: Snap, b: Snap, c: Snap, d: Snap, e: Snap, f: Snap, locals: seq<Binding>,
                    target: Target, w: Word, n: nat)
    requires Grows(a, b, n) && n >= 1 && (!b.failed ==> |b.used| <= |a.used| + 1)
    requires Chosen(b, c, locals, w.b, target, w.a) && Resolved(c, d, Auto, w.c) && Grows(d, e, 1)
    requires |d.constants| < MAX_CONSTANTS ==> e.failed == d.failed
    requires f.code == e.code + [w] && f.constants == e.constants && f.failed == e.failed
    ensures Grows(a, f, n + 2)
  {
    if Fits(a, n + 2) && !a.failed {
      assert |c.used| <= |b.used| + 1;
      assert |d.used| <= |c.used| + 1;
    }
  }

  lemma GoodMasked(a: Snap, b: Snap, d: Snap, e: Snap, f: Snap, locals: seq<Binding>, whole: Expr,
                   l: Expr, mask: Expr, target: Target, w: Word)
    requires Good(a, b, locals, l, Auto, Real(w.b)) && Good(d, e, locals, mask, Real(w.c), Real(w.c))
    requires !b.failed && !e.failed && !target.NoTarget? && Regs(locals) <= a.used
    requires TwoOperandMeaning(whole, l, mask, w.op)
    requires a.code <= b.code == d.code <= e.code && b.constants <= e.constants
    requires f.code == e.code + [w] && f.constants == e.constants
    requires b.used <= d.used && w.c !in b.used && w.a !in Kept(a.used, target)
    ensures CodeOk(a, f, locals, whole, target, Real(w.a))
  {
    var g, h := b.code[|a.code|..], e.code[|d.code|..];
    assert e.code == b.code + h;
    assert f.code[|a.code|..] == g + h + [w];
    ImplementsMore(g, |a.code|, b.constants, e.constants, locals, l, w.b, a.used);
    TwoOperandFragment(g, h, w, |a.code|, f.constants, locals, whole, l, mask, a.used, Kept(d.used, Real(w.c)),
                       Kept(a.used, target));
  }

  lemma GrowsSeq(a: Snap, b: Snap, c: Snap, m: nat, n: nat)
    requires Grows(a, b, m) && Grows(b, c, n) && m >= 1
    requires !b.failed ==> |b.used| <= |a.used| + 1
    ensures Grows(a, c, m + n)
  {
  }

  /** The short-circuit code is complete: `s1` has the destination, `s2` the left operand, `s3` the
      jump, `s4` the right operand, `s5` is the end. */
  lemma FinishShort(isAnd: bool, s0: Snap, s1: Snap, s2: Snap, s3: Snap, s4: Snap, s5: Snap,
                    locals: seq<Binding>, l: Expr, r: Expr, lr: u8, dst: u8, target: Target, jump: Word)
    requires LocalsMarked(s0, locals) && !target.NoTarget? && Resolved(s0, s1, target, dst)
    requires Grows(s1, s2, Size(l)) && Good(s1, s2, locals, l, Auto, Real(lr))
    requires s3 == Snap(s3.code, s2.constants, if lr !in Regs(locals) then s2.used - {lr} else s2.used, s2.failed)
    requires |s3.code| == |s2.code| + 1
    requires Grows(s3, s4, Size(r)) && Good(s3, s4, locals, r, Real(dst), Real(dst))
    requires s5.constants == s4.constants && s5.used == s4.used + {dst}
    requires s5.failed == (s4.failed || !FitsImm16(|s4.code| - |s2.code|))
    requires jump == ShortJump(isAnd, lr, |s4.code| - |s2.code|)
    requires s5.code == s2.code + [jump] + s4.code[|s3.code|..] + ShortTail(isAnd, dst)
    ensures Grows(s0, s5, 1 + Size(l) + Size(r))
    ensures Good(s0, s5, locals, Binary(ShortOp(isAnd), l, r), target, Real(dst))
  {
    hide Implements;
    hide Discards;
    hide ShortJump;
    hide ShortTail;
    hide IsShortJump;
    hide IsShortTail;
    hide EvalEmitted;
    hide Grows;
    ShortFlags(s0, s1, s2, s3, s4, Size(l), Size(r));
    ShortGrows(s0, s1, s2, s3, s4, s5, locals, l, r, lr, dst, target);
    if !s5.failed {
      assert s3.used == s1.used;
      assert s5.used == s0.used + {dst};
      assert s1.used - {dst} == Kept(s0.used, target);
      ShortEncodings(isAnd, lr, |s4.code| - |s2.code|, dst);
      GoodShort(isAnd, s1, s2, s3, s4, s5, locals, l, r, lr, dst, jump, ShortTail(isAnd, dst));
    }
  }

  lemma ShortFlags(s0: Snap, s1: Snap, s2: Snap, s3: Snap, s4: Snap, m: nat, n: nat)
    requires Grows(s1, s2, m) && Grows(s3, s4, n) && s3.constants == s2.constants && s3.failed == s2.failed
    ensures s1.code <= s2.code && s3.code <= s4.code && s2.constants <= s4.constants
    ensures !s4.failed ==> !s3.failed && !s2.failed && !s1.failed
  {
  }

  lemma ShortGrows(s0: Snap, s1: Snap, s2: Snap, s3: Snap, s4: Snap, s5: Snap, locals: seq<Binding>,
                   l: Expr, r: Expr, lr: u8, dst: u8, target: Target)
    requires LocalsMarked(s0, locals) && !target.NoTarget? && Resolved(s0, s1, target, dst)
    requires Grows(s1, s2, Size(l)) && (!s2.failed ==> RegsOk(s1.used, s2.used, locals, Auto, Real(lr)))
    requires s3 == Snap(s3.code, s2.constants, if lr !in Regs(locals) then s2.used - {lr} else s2.used, s2.failed)
    requires |s3.code| == |s2.code| + 1
    requires Grows(s3, s4, Size(r))
    requires s5.constants == s4.constants && s5.failed == (s4.failed || !FitsImm16(|s4.code| - |s2.code|))
    requires |s5.code| == |s4.code| + 2 && s2.code <= s5.code
    ensures Grows(s0, s5, 1 + Size(l) + Size(r))
  {
    if Fits(s0, 1 + Size(l) + Size(r)) && !s0.failed {
      assert |s1.used| <= |s0.used| + 1;
      assert !s2.failed && s3.used == s1.used;
      assert |s4.code| - |s2.code| <= 1 + 4 * Size(r);
    }
  }

  lemma FinishShortDiscard(isAnd: bool, s0: Snap, s1: Snap, s2: Snap, s3: Snap, s4: Snap,
                           locals: seq<Binding>, l: Expr, r: Expr, lr: u8, jump: Word)
    requires LocalsMarked(s0, locals)
    requires Grows(s0, s1, Size(l)) && Good(s0, s1, locals, l, Auto, Real(lr))
    requires s2 == Snap(s2.code, s1.constants, if lr !in Regs(locals) then s1.used - {lr} else s1.used, s1.failed)
    requires |s2.code| == |s1.code| + 1
    requires Grows(s2, s3, Size(r)) && Good(s2, s3, locals, r, NoTarget, NoTarget)
    requires s4.constants == s3.constants && s4.used == s3.used
    requires s4.failed == (s3.failed || !FitsImm16(|s3.code| - |s2.code|))
    requires jump == ShortJump(isAnd, lr, |s3.code| - |s2.code|)
    requires s4.code == s1.code + [jump] + s3.code[|s2.code|..]
    ensures Grows(s0, s4, 1 + Size(l) + Size(r))
    ensures Good(s0, s4, locals, Binary(ShortOp(isAnd), l, r), NoTarget, NoTarget)
  {
    hide Implements;
    hide Discards;
    hide ShortJump;
    hide IsShortJump;
    hide EvalEmitted;
    if !s1.failed { assert s2.used == s0.used; }
    ShortDiscardGrows(s0, s1, s2, s3, s4, Size(l), Size(r));
    if !s4.failed {
      GoodShortDiscard(isAnd, s0, s1, s2, s3, s4, locals, l, r, lr, jump);
    }
  }

  lemma ShortDiscardGrows(s0: Snap, s1: Snap, s2: Snap, s3: Snap, s4: Snap, m: nat, n: nat)
    requires Grows(s0, s1, m) && Grows(s2, s3, n)
    requires s2.constants == s1.constants && s2.failed == s1.failed && (!s1.failed ==> s2.used == s0.used)
    requires |s2.code| == |s1.code| + 1 && s4.constants == s3.constants
    requires s4.failed == (s3.failed || !FitsImm16(|s3.code| - |s2.code|))
    requires s1.code <= s4.code && |s4.code| == |s3.code|
    ensures Grows(s0, s4, 1 + m + n)
  {
    if Fits(s0, 1 + m + n) && !s0.failed {
      assert |s3.code| - |s2.code| <= 4 * n;
    }
  }

  lemma SplitShort(a: seq<Word>, b: seq<Word>, jump: seq<Word>, g: seq<Word>, code: seq<Word>)
    requires a <= b && code == b + jump + g
    ensures a <= code && code[|a|..] == b[|a|..] + jump + g
  {
  }

  lemma GoodShortDiscard(isAnd: bool, s0: Snap, s1: Snap, s2: Snap, s3: Snap, s4: Snap,
                         locals: seq<Binding>, l: Expr, r: Expr, lr: u8, jump: Word)
    requires Regs(locals) <= s0.used && CodeOk(s0, s1, locals, l, Auto, Real(lr))
    requires CodeOk(s2, s3, locals, r, NoTarget, NoTarget) && s2.used == s0.used
    requires |s2.code| == |s1.code| + 1 && s1.constants <= s3.constants == s4.constants
    requires FitsImm16(|s3.code| - |s2.code|) && jump == ShortJump(isAnd, lr, |s3.code| - |s2.code|)
    requires s4.code == s1.code + [jump] + s3.code[|s2.code|..]
    ensures CodeOk(s0, s4, locals, Binary(ShortOp(isAnd), l, r), NoTarget, NoTarget)
  {
    hide Implements;
    hide Discards;
    hide ShortJump;
    hide IsShortJump;
    hide EvalEmitted;
    hide ShortTail;
    var f, g := s1.code[|s0.code|..], s3.code[|s2.code|..];
    SplitShort(s0.code, s1.code, [jump], g, s4.code);
    ShortEncodings(isAnd, lr, |g|, 0);
    ImplementsMore(f, |s0.code|, s1.constants, s4.constants, locals, l, lr, s0.used);
    ShortDiscard(isAnd, f, jump, g, |s0.code|, s4.constants, locals, l, r, lr, s0.used);
  }

  // ---- calls ----------------------------------------------------------------------------------------

  /** The registers base .. base + count - 1. */
  function Window(base: nat, count: nat): set<u8> {
    set r: u8 | InWindow(r, base, count)
  }

  predicate InWindow(r: u8, base: nat, count: nat) { base <= r < base + count }

  /** The window of these arguments lies above all used registers. */
  predicate WindowAbove(used: set<u8>, args: seq<Expr>) { args != [] || 255 !in used }

  lemma ExtendArgs(s0: Snap, s1: Snap, s2: Snap, locals: seq<Binding>, args: seq<Expr>, i: nat, base: u8)
    requires i < |args| && base + |args| <= 256 && s0.code <= s1.code
    requires ImplementsArgs(s1.code[|s0.code|..], |s0.code|, s1.constants, locals, args[..i], base, s0.used)
    requires Good(s1, s2, locals, args[i], Real(base + i), Real(base + i)) && !s2.failed
    requires s1.constants <= s2.constants
    requires s1.used == s0.used + Window(base, |args|) && Regs(locals) <= s0.used
    requires forall r: u8 :: r in s0.used ==> r < base
    ensures ImplementsArgs(s2.code[|s0.code|..], |s0.code|, s2.constants, locals, args[..i + 1], base, s0.used)
  {
    hide Implements;
    hide ImplementsArgs;
    var f, g := s1.code[|s0.code|..], s2.code[|s1.code|..];
    assert s2.code[|s0.code|..] == f + g;
    assert args[..i + 1] == args[..i] + [args[i]];
    MoreArgs(f, g, |s0.code|, s1.constants, s2.constants, locals, args[..i], args[i], base, s0.used,
             s1.used - {base + i});
  }

  ghost predicate CallResult(before: set<u8>, after: set<u8>, target: Target, res: Target) {
    match target
    case NoTarget => res == NoTarget && after == before
    case Real(r) => res == target && after == before + {r}
    case Auto => res.Real? && res.reg !in before && after == before + {res.reg}
  }

  /** The code of a call: argument code into a window above every register then in use, and a call
      to that window that delivers to the result register. */
  ghost predicate CallEmitted(a: Snap, b: Snap, locals: seq<Binding>, args: seq<Expr>, target: Target,
                              res: Target)
  {
    a.code <= b.code && |a.code| + 2 <= |b.code| &&
    var w := b.code[|b.code| - 2];
    && w.op == (if target.NoTarget? then OP_CALL_VOID else OP_CALL) && w.c == |args|
    && (target.NoTarget? || res == Real(w.a))
    && (forall r: u8 :: r in b.used ==> r < w.b)
    && ImplementsArgs(b.code[|a.code|..|b.code| - 2], |a.code|, b.constants, locals, args, w.b, b.used)
  }

  // ---- the generator --------------------------------------------------------------------------------

  class CodeGen {
    var code: seq<Word>
    var constants: seq<u64>
    var regSet: set<u8>
    var failed: bool
    const locals: seq<Binding>
    var fnPatches: seq<Patch>

    constructor (locals: seq<Binding>)
      ensures this.locals == locals && Now() == Snap([], [], Regs(locals), false)
    {
      this.locals := locals;
      code, constants, failed, fnPatches := [], [], false, [];
      regSet := Regs(locals);
    }

    function Now(): Snap
      reads this
    {
      Snap(code, constants, regSet, failed)
    }

    /** The registers of locals are marked used. */
    ghost predicate Ready()
      reads this
    {
      !failed ==> Regs(locals) <= regSet
    }

    method Emit(w: Word)
      modifies this`code
      ensures code == old(code) + [w]
    {
      code := code + [w];
    }

    /** `AcuRegSet_Alloc`: the lowest free register, or 0 when there is none. */
    method AllocReg() returns (r: u8)
      modifies this`regSet, this`failed
      ensures Resolved(old(Now()), Now(), Auto, r)
      ensures !failed ==> forall k: u8 :: k < r ==> k in old(regSet)
    {
      var i := 0;
      while i < 256 && i in regSet
        invariant 0 <= i <= 256 && forall k: u8 :: k < i ==> k in regSet
      {
        i := i + 1;
      }
      if i == 256 {
        AllRegistersUsed(regSet);
        failed := true;
        return 0;
      }
      r := i;
      regSet := regSet + {r};
    }

    method FreeReg(r: u8)
      modifies this`regSet
      ensures regSet == old(regSet) - {r}
    {
      regSet := regSet - {r};
    }

    method ResolveTarget(target: Target) returns (dst: u8)
      requires !target.NoTarget?
      modifies this`regSet, this`failed
      ensures Resolved(old(Now()), Now(), target, dst)
    {
      if target.Real? {
        dst := target.reg;
        regSet := regSet + {dst};
      } else {
        dst := AllocReg();
      }
    }

    method IsLocalReg(r: u8) returns (b: bool)
      ensures b == (r in Regs(locals))
    {
      for i := 0 to |locals|
        invariant forall k :: 0 <= k < i ==> locals[k].reg != r
      {
        if locals[i].reg == r {
          assert locals[i] in locals;
          return true;
        }
      }
      return false;
    }

    method FindLocalReg(sym: nat) returns (r: u8)
      requires sym in Syms(locals)
      ensures r == FindLocal(locals, sym)
    {
      var i := |locals|;
      assert locals[..i] == locals;
      while true
        invariant 0 < i <= |locals| && sym in Syms(locals[..i])
        invariant FindLocal(locals, sym) == FindLocal(locals[..i], sym)
        decreases i
      {
        var b := locals[i - 1];
        if b.sym == sym { return b.reg; }
        assert locals[..i][..i - 1] == locals[..i - 1];
        assert forall k :: k in locals[..i] ==> k == b || k in locals[..i - 1];
        i := i - 1;
      }
    }

    /** The constant pool as a sequence: the id of an equal constant, or of a new last one. */
    method InternConst(v: u64) returns (id: u16)
      modifies this`constants, this`failed
      ensures old(constants) <= constants && |constants| <= |old(constants)| + 1
      ensures (old(failed) ==> failed) && (|old(constants)| < MAX_CONSTANTS ==> failed == old(failed))
      ensures !failed ==> id < |constants| && constants[id] == v
    {
      for i := 0 to |constants|
        invariant forall k :: 0 <= k < i ==> constants[k] != v
      {
        if constants[i] == v {
          if i >= MAX_CONSTANTS { failed := true; }
          return i % 0x1_0000;
        }
      }
      if |constants| >= MAX_CONSTANTS { failed := true; }
      id := |constants| % 0x1_0000;
      constants := constants + [v];
    }

    /** Loads a known value, as a 16-bit immediate or as a pooled constant. */
    method EmitValue(v: u64, immediate: bool, target: Target, ghost e: Expr) returns (res: Target)
      requires Ready() && AlwaysIs(e, v) && (immediate ==> FitsImm16(Signed(v)))
      modifies this`code, this`constants, this`regSet, this`failed
      ensures Grows(old(Now()), Now(), 1) && Good(old(Now()), Now(), locals, e, target, res)
      ensures target.Real? && |old(constants)| < MAX_CONSTANTS ==> failed == old(failed)
    {
      ghost var s0 := Now();
      assert forall env: Env :: IsThere(e, v, env) ==> Agrees(e, env, v) && !DropTraps(e, env);
      if target.NoTarget? {
        DiscardsNothing(|code|, constants, locals, e, regSet);
        assert code[|code|..] == [];
        return NoTarget;
      }
      var w: Word;
      var dst: u8;
      if immediate {
        dst := ResolveTarget(target);
        w := EncodeAsBx(OP_LOAD_IMM, dst, Signed(v));
        FieldBx(Word(OP_LOAD_IMM, dst, 0, 0), Signed(v));
        WrapSigned(v);
      } else {
        var id := InternConst(v);
        dst := ResolveTarget(target);
        w := EncodeABx(OP_LOAD_CONST, dst, id);
      }
      Emit(w);
      if !failed {
        LoadFragment(w, |s0.code|, constants, locals, e, v, Kept(s0.used, target));
        assert code[|s0.code|..] == [w];
      }
      return Real(dst);
    }

    /** A folded constant: an immediate when it fits, read signed. */
    method EmitWord(v: u64, target: Target, ghost e: Expr) returns (res: Target)
      requires Ready() && AlwaysIs(e, v)
      modifies this`code, this`constants, this`regSet, this`failed
      ensures Grows(old(Now()), Now(), 1) && Good(old(Now()), Now(), locals, e, target, res)
      ensures target.Real? && |old(constants)| < MAX_CONSTANTS ==> failed == old(failed)
    {
      res := EmitValue(v, FitsImm16(Signed(v)), target, e);
    }

    /** `AcuCodeGen_EmitLiteral` on an integer: one of unsigned type must fit without its sign. */
    method EmitLiteral(v: u64, unsigned: bool, target: Target) returns (res: Target)
      requires Ready()
      modifies this`code, this`constants, this`regSet, this`failed
      ensures Grows(old(Now()), Now(), 1) && Good(old(Now()), Now(), locals, Literal(v), target, res)
    {
      ghost var e := Literal(v);
      assert forall env: Env :: IsThere(e, v, env);
      res := EmitValue(v, if unsigned then v <= 32767 else FitsImm16(Signed(v)), target, e);
    }

    /** A literal 0, 1 or other 16-bit value known to be that of `e`. */
    method EmitConstImm(imm: int, target: Target, ghost e: Expr) returns (res: Target)
      requires FitsImm16(imm) && Ready() && AlwaysIs(e, Wrap(imm))
      modifies this`code, this`constants, this`regSet, this`failed
      ensures Grows(old(Now()), Now(), 1) && Good(old(Now()), Now(), locals, e, target, res)
    {
      SignedWrap(imm);
      res := EmitWord(Wrap(imm), target, e);
    }

    /** The destination of an instruction whose first operand is in `src`: the temporary itself if
        any register will do, else the resolved target. */
    method ChooseDst(src: u8, target: Target) returns (dst: u8)
      requires !target.NoTarget?
      modifies this`regSet, this`failed
      ensures Chosen(old(Now()), Now(), locals, src, target, dst)
    {
      var isLocal := IsLocalReg(src);
      if target.Auto? && !isLocal {
        dst := src;
      } else {
        dst := ResolveTarget(target);
      }
    }

    method FreeTemp(r: u8, dst: u8)
      modifies this`regSet
      ensures regSet == Freed(old(regSet), locals, r, dst)
    {
      var isLocal := IsLocalReg(r);
      if dst != r && !isLocal {
        FreeReg(r);
      }
    }

    /** `AcuCodeGen_EmitUnaryOp` and `AcuCodeGen_EmitImmOp`: the operand, then one instruction;
        `whole` is the expression this computes. */
    method EmitOneOperand(src: Expr, op: u8, c: u8, target: Target, ghost whole: Expr)
      returns (res: Target)
      requires BoundIn(src, Syms(locals)) && Ready() && Rewrites(whole, src, op, c)
      modifies this`code, this`constants, this`regSet, this`failed
      ensures Grows(old(Now()), Now(), Size(whole))
      ensures Good(old(Now()), Now(), locals, whole, target, res)
      decreases Size(src), 11
    {
      ghost var s0 := Now();
      if target.NoTarget? {
        res := DropOperand(src);
        GoodDrop(s0, Now(), locals, whole, src);
        return;
      }
      var srcRes := EmitExpr(src, Auto);
      ghost var s1 := Now();
      var dst := ChooseDst(srcRes.reg, target);
      ghost var s2 := Now();
      var w := Word(op, dst, srcRes.reg, c);
      Emit(w);
      FreeTemp(srcRes.reg, dst);
      res := Real(dst);
      MeaningFields(whole, src, Word(op, 0, 0, c), w);
      FinishOneOperand(s0, s1, s2, Now(), locals, whole, src, Auto, target, w);
    }

    /** A value nobody uses: only an impure operand is emitted, and its value is not used. */
    method DropOperand(src: Expr) returns (res: Target)
      requires BoundIn(src, Syms(locals)) && Ready()
      modifies this`code, this`constants, this`regSet, this`failed
      ensures Grows(old(Now()), Now(), Size(src)) && Good(old(Now()), Now(), locals, src, NoTarget, res)
      decreases Size(src), 10
    {
      if !IsPure(src) {
        res := EmitExpr(src, NoTarget);
      } else {
        res := NoTarget;
        forall env: Env ensures !DropTraps(src, env) { PureEmits(src, env); }
        DiscardsNothing(|code|, constants, locals, src, regSet);
        assert code[|code|..] == [];
      }
    }

    method EmitExpr(e: Expr, target: Target) returns (res: Target)
      requires BoundIn(e, Syms(locals)) && Ready()
      modifies this`code, this`constants, this`regSet, this`failed
      ensures Grows(old(Now()), Now(), Size(e)) && Good(old(Now()), Now(), locals, e, target, res)
      decreases Size(e), 9
    {
      if e.Unary? || e.Binary? {
        var folded := EvalConst(e);
        if !folded.NoConst? {
          forall env: Env ensures IsThere(e, ConstWord(folded), env) { EmittedConst(e, env); }
          res := EmitWord(ConstWord(folded), target, e);
          return;
        }
      }
      match e {
        case Literal(v) =>
          // the tree does not say whether its type is unsigned; either way is right
          var unsigned: bool := *;
          res := EmitLiteral(v, unsigned, target);
        case Local(sym) => res := EmitLocal(sym, target);
        case Unary(op, a) => res := EmitUnary(op, a, target);
        case Binary(op, l, r) =>
          if op == LogicalAndK || op == LogicalOrK {
            res := EmitLogical(op == LogicalAndK, l, r, target);
          } else {
            res := EmitBinary(op, l, r, target);
          }
      }
    }

    method EmitLocal(sym: nat, target: Target) returns (res: Target)
      requires sym in Syms(locals) && Ready()
      modifies this`code, this`constants, this`regSet, this`failed
      ensures Grows(old(Now()), Now(), 1) && Good(old(Now()), Now(), locals, Local(sym), target, res)
    {
      hide Implements;
      hide Discards;
      ghost var s0 := Now();
      assert code[|code|..] == [];
      if target.NoTarget? {
        DiscardsNothing(|code|, constants, locals, Local(sym), regSet);
        return NoTarget;
      }
      var reg := FindLocalReg(sym);
      if target == Auto || target == Real(reg) {
        LocalFragment(|code|, constants, locals, sym, Kept(regSet, target));
        if !failed { assert regSet + {reg} == regSet; }
        return Real(reg);
      }
      var dst := ResolveTarget(target);
      Emit(Word(OP_MOVE, dst, reg, 0));
      if !failed {
        MoveFragment(|s0.code|, constants, locals, sym, dst, Kept(s0.used, target));
      }
      assert code[|s0.code|..] == [Word(OP_MOVE, dst, reg, 0)];
      return Real(dst);
    }

    method EmitUnary(op: UnaryKind, a: Expr, target: Target) returns (res: Target)
      requires BoundIn(a, Syms(locals)) && Ready()
      modifies this`code, this`constants, this`regSet, this`failed
      ensures Grows(old(Now()), Now(), 1 + Size(a))
      ensures Good(old(Now()), Now(), locals, Unary(op, a), target, res)
      decreases 1 + Size(a), 1
    {
      if op == Plus {
        res := EmitExpr(a, target);
        GoodSame(old(Now()), Now(), locals, Unary(op, a), a, target, res);
      } else {
        UnaryMeaning(op, a, Word(UnaryOpcode(op), 0, 0, 0));
        res := EmitOneOperand(a, UnaryOpcode(op), 0, target, Unary(op, a));
      }
    }

    /** `AcuCodeGen_EmitLogicalAnd` and `AcuCodeGen_EmitLogicalOr`, with their forward jumps
        emitted empty and patched once the target is known. */
    method EmitLogical(isAnd: bool, l: Expr, r: Expr, target: Target) returns (res: Target)
      requires BoundIn(l, Syms(locals)) && BoundIn(r, Syms(locals)) && Ready()
      modifies this`code, this`constants, this`regSet, this`failed
      ensures Grows(old(Now()), Now(), 1 + Size(l) + Size(r))
      ensures Good(old(Now()), Now(), locals, Binary(ShortOp(isAnd), l, r), target, res)
      decreases 1 + Size(l) + Size(r), 1
    {
      hide DropTraps;
      hide FitsImm16;
      hide CodeOk;
      hide ShortTail;
      hide ShortJump;
      hide Implements;
      hide Discards;
      hide EvalEmitted;
      if target.NoTarget? {
        res := EmitLogicalDiscard(isAnd, l, r);
        return;
      }
      ghost var s0 := Now();
      var dst := ResolveTarget(target);
      ghost var s1 := Now();
      var left := EmitExpr(l, Auto);
      ghost var s2 := Now();
      var jumpIp := |code|;
      Emit(ShortJump(isAnd, left.reg, 0));
      FreeIfTemp(left.reg);
      ghost var s3 := Now();
      var right := EmitExpr(r, Real(dst));
      ghost var s4 := Now();
      CloseShort(isAnd, left.reg, dst, jumpIp);
      res := Real(dst);
      FinishShort(isAnd, s0, s1, s2, s3, s4, Now(), locals, l, r, left.reg, dst, target,
                  ShortJump(isAnd, left.reg, |s4.code| - |s2.code|));
    }

    method FreeIfTemp(r: u8)
      modifies this`regSet
      ensures regSet == if r !in Regs(locals) then old(regSet) - {r} else old(regSet)
    {
      var isLocal := IsLocalReg(r);
      if !isLocal { FreeReg(r); }
    }

    /** The end of a short circuit: skip over the decided value, patch the jump to it, load it. */
    method CloseShort(isAnd: bool, left: u8, dst: u8, jumpIp: nat)
      requires jumpIp < |code|
      modifies this`code, this`regSet, this`failed
      ensures var n := |old(code)| - jumpIp;
              code == old(code)[jumpIp := ShortJump(isAnd, left, n)] + ShortTail(isAnd, dst) &&
              failed == (old(failed) || !FitsImm16(n))
      ensures regSet == old(regSet) + {dst}
    {
      var jumpEndIp := |code|;
      Emit(EncodesAx(OP_JUMP, 0));
      var offset := |code| - jumpIp - 1;
      if !FitsImm16(offset) { failed := true; }
      code := code[jumpIp := ShortJump(isAnd, left, offset)];
      Emit(EncodeAsBx(OP_LOAD_IMM, dst, ShortValue(isAnd)));
      code := code[jumpEndIp := EncodesAx(OP_JUMP, |code| - jumpEndIp - 1)];
      regSet := regSet + {dst};
    }

    method EmitLogicalDiscard(isAnd: bool, l: Expr, r: Expr) returns (res: Target)
      requires BoundIn(l, Syms(locals)) && BoundIn(r, Syms(locals)) && Ready()
      modifies this`code, this`constants, this`regSet, this`failed
      ensures Grows(old(Now()), Now(), 1 + Size(l) + Size(r))
      ensures Good(old(Now()), Now(), locals, Binary(ShortOp(isAnd), l, r), NoTarget, res)
      decreases 1 + Size(l) + Size(r), 0
    {
      hide Implements;
      hide Discards;
      hide EvalEmitted;
      ghost var s0 := Now();
      var left := EmitExpr(l, Auto);
      ghost var s1 := Now();
      var jumpIp := |code|;
      Emit(ShortJump(isAnd, left.reg, 0));
      FreeIfTemp(left.reg);
      ghost var s2 := Now();
      res := EmitExpr(r, NoTarget);
      ghost var s3 := Now();
      var offset := |code| - jumpIp - 1;
      if !FitsImm16(offset) { failed := true; }
      code := code[jumpIp := ShortJump(isAnd, left.reg, offset)];
      FinishShortDiscard(isAnd, s0, s1, s2, s3, Now(), locals, l, r, left.reg,
                         ShortJump(isAnd, left.reg, offset));
    }

    /** `AcuCodeGen_TryGetBinaryImm`: whether the right operand is a literal for the immediate form. */
    predicate IsImmediate(r: Expr) { r.Literal? && FitsImm8(LiteralValue(r)) }

    /** `AcuCodeGen_EmitBinary` for the operators that evaluate both operands. */
    method EmitBinary(op: BinaryKind, l: Expr, r: Expr, target: Target) returns (res: Target)
      requires !IsLogical(op) && !FoldsInts(op, l, r) && Ready()
      requires BoundIn(l, Syms(locals)) && BoundIn(r, Syms(locals))
      modifies this`code, this`constants, this`regSet, this`failed
      ensures Grows(old(Now()), Now(), 1 + Size(l) + Size(r))
      ensures Good(old(Now()), Now(), locals, Binary(op, l, r), target, res)
      decreases 1 + Size(l) + Size(r), 3
    {
      hide BoundIn;
      hide DropsRight;
      hide WrapsLeft;
      hide Implements;
      hide Discards;
      hide EvalEmitted;
      hide DropTraps;
      hide CodeOk;
      hide RegsOk;
      hide SameMeaning;
      hide Good;
      hide Grows;
      hide FoldsInts;
      hide Canonical;
      if target.NoTarget? {
        res := DropOperands(op, l, r);
        return;
      }
      CanonicalSame(op, l, r, Syms(locals));
      var (op', l', r') := Canonical(op, l, r);
      res := EmitCanonical(op', l', r', target);
      GoodSame(old(Now()), Now(), locals, Binary(op, l, r), Binary(op', l', r'), target, res);
    }

    /** Once a literal has been moved to the right: a cheaper form, the immediate form or the registers. */
    method EmitCanonical(op: BinaryKind, l: Expr, r: Expr, target: Target) returns (res: Target)
      requires !IsLogical(op) && !FoldsInts(op, l, r) && Ready() && !target.NoTarget?
      requires (DropsRight(op, l) ==> r.Literal?) && !WrapsLeft(op, l, r)
      requires BoundIn(l, Syms(locals)) && BoundIn(r, Syms(locals))
      modifies this`code, this`constants, this`regSet, this`failed
      ensures Grows(old(Now()), Now(), 1 + Size(l) + Size(r))
      ensures Good(old(Now()), Now(), locals, Binary(op, l, r), target, res)
      decreases 1 + Size(l) + Size(r), 2
    {
      hide Good;
      hide Grows;
      hide FoldsInts;
      var reduced;
      reduced, res := TryStrengthReduction(op, l, r, target);
      if !reduced {
        if IsImmediate(r) {
          res := EmitBinaryImm(op, l, r.v, target);
        } else {
          res := EmitBinaryReg(op, l, r, target);
        }
      }
    }

    method DropOperands(op: BinaryKind, l: Expr, r: Expr) returns (res: Target)
      requires !IsLogical(op) && BoundIn(l, Syms(locals)) && BoundIn(r, Syms(locals)) && Ready()
      modifies this`code, this`constants, this`regSet, this`failed
      ensures Grows(old(Now()), Now(), 1 + Size(l) + Size(r))
      ensures Good(old(Now()), Now(), locals, Binary(op, l, r), NoTarget, res)
      decreases 1 + Size(l) + Size(r), 0
    {
      hide DropTraps;
      hide EvalEmitted;
      hide IsPure;
      ghost var s0 := Now();
      res := DropOperand(l);
      ghost var s1 := Now();
      res := DropOperand(r);
      if !failed {
        var f, g := s1.code[|s0.code|..], code[|s1.code|..];
        assert code[|s0.code|..] == f + g;
        DiscardsMore(f, |s0.code|, s1.constants, constants, locals, l, s0.used);
        DiscardsBoth(f, g, |s0.code|, constants, locals, op, l, r, s0.used);
      }
    }

    /** The immediate form; a left operand that is not a local goes to the target directly. */
    method EmitBinaryImm(op: BinaryKind, l: Expr, v: u64, target: Target) returns (res: Target)
      requires !IsLogical(op) && FitsImm8(Signed(v)) && !DropsLeft(op, Literal(v)) && !target.NoTarget?
      requires !FoldsInts(op, l, Literal(v))
      requires BoundIn(l, Syms(locals)) && Ready()
      modifies this`code, this`constants, this`regSet, this`failed
      ensures Grows(old(Now()), Now(), 2 + Size(l))
      ensures Good(old(Now()), Now(), locals, Binary(op, l, Literal(v)), target, res)
      decreases 2 + Size(l), 0
    {
      ghost var s0 := Now();
      var leftTarget := if target.Real? && !l.Local? then target else Auto;
      var left := EmitExpr(l, leftTarget);
      ghost var s1 := Now();
      var dst := ChooseDst(left.reg, target);
      ghost var s2 := Now();
      var w := Word(ImmOpcode(op), dst, left.reg, Signed(v) % 0x100);
      Emit(w);
      FreeTemp(left.reg, dst);
      res := Real(dst);
      ImmMeaning(op, l, v, w);
      FinishOneOperand(s0, s1, s2, Now(), locals, Binary(op, l, Literal(v)), l, leftTarget, target, w);
    }

    method EmitBinaryReg(op: BinaryKind, l: Expr, r: Expr, target: Target) returns (res: Target)
      requires !IsLogical(op) && !target.NoTarget? && !DropsLeft(op, r) && (DropsRight(op, l) ==> r.Literal?)
      requires !FoldsInts(op, l, r) && !WrapsRight(op, r) && !WrapsLeft(op, l, r)
      requires BoundIn(l, Syms(locals)) && BoundIn(r, Syms(locals)) && Ready()
      modifies this`code, this`constants, this`regSet, this`failed
      ensures Grows(old(Now()), Now(), 1 + Size(l) + Size(r))
      ensures Good(old(Now()), Now(), locals, Binary(op, l, r), target, res)
      decreases 1 + Size(l) + Size(r), 0
    {
      hide Implements;
      hide Discards;
      hide EvalEmitted;
      hide CodeOk;
      hide TwoOperandMeaning;
      hide Grows;
      hide RegOpcode;
      ghost var s0 := Now();
      var left := EmitExpr(l, Auto);
      ghost var s1 := Now();
      var right := EmitExpr(r, Auto);
      ghost var s2 := Now();
      var dst;
      ghost var s3;
      dst, s3 := EmitBinaryInst(RegOpcode(op), left.reg, right.reg, target);
      res := Real(dst);
      RegMeaning(op, l, r, RegOpcode(op));
      FinishTwoOperands(s0, s1, s2, s3, Now(), locals, Binary(op, l, r), l, r, target,
                        Word(RegOpcode(op), dst, left.reg, right.reg));
    }

    /** `AcuCodeGen_EmitBinaryInst` on two registers; `mid` is the state once the destination is
        chosen. */
    method EmitBinaryInst(op: u8, left: u8, right: u8, target: Target) returns (dst: u8, ghost mid: Snap)
      requires !target.NoTarget?
      modifies this`code, this`regSet, this`failed
      ensures Chosen(old(Now()), mid, locals, left, target, dst)
      ensures code == mid.code + [Word(op, dst, left, right)] && failed == mid.failed
      ensures regSet == var u := Freed(mid.used, locals, left, dst);
                        if right != left then Freed(u, locals, right, dst) else u
    {
      dst := ChooseDst(left, target);
      mid := Now();
      Emit(Word(op, dst, left, right));
      FreeTemp(left, dst);
      if right != left {
        FreeTemp(right, dst);
      }
    }

    /** `AcuCodeGen_TryStrengthReduction`. */
    method TryStrengthReduction(op: BinaryKind, l: Expr, r: Expr, target: Target)
      returns (done: bool, res: Target)
      requires !IsLogical(op) && !target.NoTarget? && !FoldsInts(op, l, r)
      requires BoundIn(l, Syms(locals)) && BoundIn(r, Syms(locals)) && Ready()
      modifies this`code, this`constants, this`regSet, this`failed
      ensures if done then Grows(old(Now()), Now(), 1 + Size(l) + Size(r)) &&
                           Good(old(Now()), Now(), locals, Binary(op, l, r), target, res)
              else Now() == old(Now()) && !DropsLeft(op, r)
      decreases 1 + Size(l) + Size(r), 1
    {
      ghost var whole := Binary(op, l, r);
      res := NoTarget;
      if l.Local? && l == r {
        if SelfResult(op).Some? {
          forall env: Env ensures IsThere(whole, Wrap(SelfResult(op).value), env) { SelfConstant(op, l, env); }
          res := EmitConstImm(SelfResult(op).value, target, whole);
          return true, res;
        } else if op == BitAndK || op == BitOrK {
          SelfIdentity(op, l);
          res := EmitExpr(l, target);
          GoodSame(old(Now()), Now(), locals, whole, l, target, res);
          return true, res;
        }
      }
      if l.Literal? && op == SubK {
        if l.v == 0 {
          MinusMeaning(whole, r, Word(OP_NEG, 0, 0, 0));
          res := EmitOneOperand(r, OP_NEG, 0, target, whole);
          return true, res;
        }
        if FitsImm8(LiteralValue(l)) {
          var imm := LiteralValue(l) % 0x100;
          ReverseSubMeaning(l.v, r, Word(OP_RSUB_IMM, 0, 0, imm));
          res := EmitOneOperand(r, OP_RSUB_IMM, imm, target, whole);
          return true, res;
        }
      }
      if !r.Literal? { return false, NoTarget; }
      var v := r.v;
      if IsNeutral(op, v) {
        NeutralSame(op, l, v);
        res := EmitExpr(l, target);
        GoodSame(old(Now()), Now(), locals, whole, l, target, res);
        return true, res;
      }
      if DropsLeft(op, r) {
        res := EmitAbsorbed(op, l, target);
        return true, res;
      }
      if op == MulK && v == ALL_ONES {
        MinusMeaning(whole, l, Word(OP_NEG, 0, 0, 0));
        res := EmitOneOperand(l, OP_NEG, 0, target, whole);
        return true, res;
      }
      if op == MulK && Signed(v) > 0 && IsPowerOfTwo(v) {
        LogBelow64(v);
        ShiftMeaning(l, v, Word(OP_SHL_IMM, 0, 0, TrailingZeros(v)));
        res := EmitOneOperand(l, OP_SHL_IMM, TrailingZeros(v), target, whole);
        return true, res;
      }
      if (op == DivUK || op == RemUK) && v > 0 && IsPowerOfTwo(v) {
        res := EmitUnsignedPower(op, l, v, target);
        return true, res;
      }
      if op == PowK && v == 2 {
        res := EmitSquare(l, target);
        return true, res;
      }
      if op == BitXorK && v == ALL_ONES {
        ComplementMeaning(l, Word(OP_NOT, 0, 0, 0));
        res := EmitOneOperand(l, OP_NOT, 0, target, whole);
        return true, res;
      }
      return false, NoTarget;
    }

    /** Unsigned division and remainder by a power of two: a shift, or a mask in the instruction or in a
        register. */
    method EmitUnsignedPower(op: BinaryKind, l: Expr, v: u64, target: Target) returns (res: Target)
      requires (op == DivUK || op == RemUK) && v > 0 && IsPowerOfTwo(v) && !FoldsInts(op, l, Literal(v))
      requires !target.NoTarget? && BoundIn(l, Syms(locals)) && Ready()
      modifies this`code, this`constants, this`regSet, this`failed
      ensures Grows(old(Now()), Now(), 2 + Size(l))
      ensures Good(old(Now()), Now(), locals, Binary(op, l, Literal(v)), target, res)
      decreases 2 + Size(l), 0
    {
      hide Good;
      hide Grows;
      hide OneOperandMeaning;
      hide SameDrops;
      hide TrailingZeros;
      hide IsPowerOfTwo;
      ghost var whole := Binary(op, l, Literal(v));
      if op == DivUK {
        LogBelow64(v);
        ShiftRightMeaning(l, v, Word(OP_SHR_U_IMM, 0, 0, TrailingZeros(v)));
        res := EmitOneOperand(l, OP_SHR_U_IMM, TrailingZeros(v), target, whole);
      } else if v - 1 <= 127 {
        MaskMeaning(l, v, Word(OP_AND_IMM, 0, 0, v - 1));
        res := EmitOneOperand(l, OP_AND_IMM, v - 1, target, whole);
      } else {
        res := EmitMasked(l, v, target);
      }
    }

    /** The mask in a register of its own, chosen after the destination and free again at once. */
    method EmitMasked(l: Expr, v: u64, target: Target) returns (res: Target)
      requires v > 0 && IsPowerOfTwo(v) && !FoldsInts(RemUK, l, Literal(v))
      requires !target.NoTarget? && BoundIn(l, Syms(locals)) && Ready()
      modifies this`code, this`constants, this`regSet, this`failed
      ensures Grows(old(Now()), Now(), 2 + Size(l))
      ensures Good(old(Now()), Now(), locals, Binary(RemUK, l, Literal(v)), target, res)
      decreases 1 + Size(l), 12
    {
      hide FoldsInts;
      hide IsPowerOfTwo;
      hide Implements;
      hide Discards;
      hide CodeOk;
      hide TwoOperandMeaning;
      ghost var s0 := Now();
      var src := EmitExpr(l, Auto);
      ghost var s1 := Now();
      var dst := ChooseDst(src.reg, target);
      ghost var s2 := Now();
      var mask := AllocReg();
      ghost var s3 := Now();
      var bits := v - 1;
      ghost var below := Literal(bits);
      assert forall env: Env :: IsThere(below, bits, env);
      var _ := EmitWord(bits, Real(mask), below);
      ghost var s4 := Now();
      var w := Word(OP_AND, dst, src.reg, mask);
      Emit(w);
      FreeReg(mask);
      FreeTemp(src.reg, dst);
      res := Real(dst);
      MaskRegMeaning(l, v);
      FinishMasked(s0, s1, s2, s3, s4, Now(), locals, Binary(RemUK, l, Literal(v)), l, below, target, w);
    }

    /** x * 0, x & 0, x ** 0: the operand for its effects only, then the constant. */
    method EmitAbsorbed(op: BinaryKind, l: Expr, target: Target) returns (res: Target)
      requires DropsLeft(op, Literal(0)) && !target.NoTarget?
      requires BoundIn(l, Syms(locals)) && Ready()
      modifies this`code, this`constants, this`regSet, this`failed
      ensures Grows(old(Now()), Now(), 2 + Size(l))
      ensures Good(old(Now()), Now(), locals, Binary(op, l, Literal(0)), target, res)
      decreases 2 + Size(l), 0
    {
      ghost var s0 := Now();
      ghost var whole, left := Binary(op, l, Literal(0)), Literal(AbsorbedValue(op));
      AbsorbedLeaves(op, l);
      var _ := DropOperand(l);
      ghost var s1 := Now();
      assert forall env: Env :: IsThere(left, AbsorbedValue(op), env);
      res := EmitConstImm(AbsorbedValue(op), target, left);
      if !failed {
        var f, g := s1.code[|s0.code|..], code[|s1.code|..];
        assert code[|s0.code|..] == f + g;
        DiscardThenCompute(f, g, |s0.code|, s1.constants, constants, locals, whole, l, left, res.reg,
                           s0.used, Kept(s0.used, target));
      }
    }

    /** x ** 2 as a product; the result always gets its own register. */
    method EmitSquare(l: Expr, target: Target) returns (res: Target)
      requires !target.NoTarget? && !FoldsInts(PowK, l, Literal(2)) && BoundIn(l, Syms(locals)) && Ready()
      modifies this`code, this`constants, this`regSet, this`failed
      ensures Grows(old(Now()), Now(), 2 + Size(l))
      ensures Good(old(Now()), Now(), locals, Binary(PowK, l, Literal(2)), target, res)
      decreases 2 + Size(l), 0
    {
      ghost var s0 := Now();
      var src := EmitExpr(l, Auto);
      ghost var s1 := Now();
      var dst := ResolveTarget(target);
      ghost var s2 := Now();
      var w := Word(OP_MUL, dst, src.reg, src.reg);
      Emit(w);
      FreeTemp(src.reg, dst);
      res := Real(dst);
      SquareMeaning(l, w);
      FinishOneOperand(s0, s1, s2, Now(), locals, Binary(PowK, l, Literal(2)), l, Auto, target, w);
    }

    // ---- calls ------------------------------------------------------------------------------------

    /** `AcuRegSet_GetHighestUsed`: -1 when no register is used. */
    method GetHighestUsed() returns (highest: int)
      ensures -1 <= highest < 256 && (highest >= 0 ==> highest in regSet)
      ensures forall r: u8 :: r in regSet ==> r <= highest
    {
      highest := 255;
      while highest >= 0 && highest !in regSet
        invariant -1 <= highest < 256 && forall r: u8 :: r in regSet ==> r <= highest
      {
        highest := highest - 1;
      }
    }

    /** `AcuCodeGen_AllocCallWindow`: `count` registers above every used one. The base is returned in
        eight bits, so an empty window above register 255 wraps to 0; that is the only case in which
        a used register is not below the window. */
    method AllocCallWindow(count: nat) returns (base: u8)
      modifies this`regSet, this`failed
      ensures old(failed) ==> failed
      ensures !failed ==> base + count <= 256 && regSet == old(regSet) + Window(base, count)
      ensures !failed ==>
                ((forall r: u8 :: r in old(regSet) ==> r < base) <==> !(count == 0 && 255 in old(regSet)))
    {
      var highest := GetHighestUsed();
      var first := highest + 1;
      base := first % 0x100;
      if first + count > 256 {
        failed := true;
        return;
      }
      for i := 0 to count
        invariant regSet == old(regSet) + Window(base, i) && failed == old(failed)
      {
        assert Window(base, i + 1) == Window(base, i) + {base + i};
        regSet := regSet + {(base + i) as u8};
      }
    }

    /** `AcuCodeGen_EmitContiguousArgs`: each argument straight into its register of the window. */
    method EmitContiguousArgs(args: seq<Expr>) returns (base: u8)
      requires Ready() && forall e :: e in args ==> BoundIn(e, Syms(locals))
      modifies this`code, this`constants, this`regSet, this`failed
      ensures old(code) <= code && old(constants) <= constants && (old(failed) ==> failed)
      ensures !failed && WindowAbove(old(regSet), args) ==>
                (forall r: u8 :: r in old(regSet) ==> r < base) && base + |args| <= 256 &&
                ImplementsArgs(code[|old(code)|..], |old(code)|, constants, locals, args, base, old(regSet))
    {
      ghost var s0 := Now();
      base := AllocCallWindow(|args|);
      ghost var used := regSet;
      if !failed {
        NoArgs(|code|, constants, locals, base, s0.used);
        assert code[|s0.code|..] == [] && args[..0] == [];
      }
      for i := 0 to |args|
        invariant s0.code <= code && s0.constants <= constants && (s0.failed ==> failed) && Ready()
        invariant !failed ==> regSet == used == s0.used + Window(base, |args|) && base + |args| <= 256
        invariant !failed && WindowAbove(s0.used, args) ==> forall r: u8 :: r in s0.used ==> r < base
        invariant !failed && WindowAbove(s0.used, args) ==>
                    ImplementsArgs(code[|s0.code|..], |s0.code|, constants, locals, args[..i], base, s0.used)
      {
        ghost var s1 := Now();
        var _ := EmitExpr(args[i], Real((base + i) % 0x100));
        if !failed {
          assert (base + i) as u8 in Window(base, |args|);
          assert regSet == s1.used;
          if WindowAbove(s0.used, args) {
            ExtendArgs(s0, s1, Now(), locals, args, i, base);
          }
        }
      }
      assert args[..|args|] == args;
    }

    /** `AcuCodeGen_EmitStandardCall`: destination, arguments, the call with an empty payload, a
        patch entry; the register set is restored, with the destination marked. */
    method EmitStandardCall(fnSym: nat, args: seq<Expr>, target: Target) returns (res: Target)
      requires Ready() && forall e :: e in args ==> BoundIn(e, Syms(locals))
      modifies this`code, this`constants, this`regSet, this`failed, this`fnPatches
      ensures !failed ==> CallResult(old(regSet), regSet, target, res)
      ensures !failed && WindowAbove(regSet, args) ==>
                CallEmitted(old(Now()), Now(), locals, args, target, res)
      ensures |code| >= 2 && fnPatches == old(fnPatches) + [Patch(|code| - 2, fnSym)]
    {
      ghost var s0 := Now();
      if |args| > 255 { failed := true; }
      var saved := regSet;
      var dst: u8 := 0;
      if !target.NoTarget? {
        dst := ResolveTarget(target);
      }
      ghost var used := regSet;
      var first := EmitContiguousArgs(args);
      ghost var frag := code[|s0.code|..];
      var ip := |code|;
      Emit(Word(if target.NoTarget? then OP_CALL_VOID else OP_CALL, dst, first, |args| % 0x100));
      Emit(Word(0, 0, 0, 0));
      fnPatches := fnPatches + [Patch(ip, fnSym)];
      regSet := saved;
      if target.NoTarget? {
        res := NoTarget;
      } else {
        regSet := regSet + {dst};
        res := Real(dst);
      }
      if !failed {
        assert regSet == used;
        assert code[|s0.code|..|code| - 2] == frag;
      }
    }
  }
}
