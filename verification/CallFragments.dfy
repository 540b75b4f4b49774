/** Call expressions: arguments evaluated into consecutive registers of a fresh window, and what
    the whole call leaves untouched once it has returned. */
module CallFragments {
  import opened Words
  import opened Bytecode
  import opened Vm
  import opened CallWindows
  import opened Expr
  import opened Emitted
  import opened Fragments

  /** Register `base + i` holds the value of argument `i` as emitted. */
  ghost predicate HoldsArgs(t: State, args: seq<Expr>, env: Env, base: nat)
    requires t.HasWindow()
  {
    base + |args| <= REG_WINDOW &&
    forall i :: 0 <= i < |args| ==> HoldsArg(t, args[i], env, base + i)
  }

  ghost predicate HoldsArg(t: State, arg: Expr, env: Env, r: nat)
    requires t.HasWindow()
  {
    r < REG_WINDOW && Agrees(arg, env, t.stack[t.base + r])
  }

  ghost predicate SomeArgTraps(args: seq<Expr>, env: Env) {
    exists i :: 0 <= i < |args| && EvalEmitted(args[i], env).None?
  }

  ghost predicate LandsWithArgs(c: Chunk, h: Host, s: State, t: State, to: int, args: seq<Expr>,
                                env: Env, base: nat, keep: set<u8>)
  {
    Lands(c, h, s, t, to, keep) && HoldsArgs(t, args, env, base)
  }

  ghost predicate ComputesArgs(c: Chunk, h: Host, s: State, to: int, args: seq<Expr>, env: Env,
                               base: nat, keep: set<u8>)
  {
    (TrapsFrom(c, h, s) && SomeArgTraps(args, env)) ||
    exists t: State :: LandsWithArgs(c, h, s, t, to, args, env, base, keep)
  }

  ghost predicate RunArgs(c: Chunk, h: Host, s: State, frag: seq<Word>, from: nat, consts: seq<u64>,
                          locals: seq<Binding>, args: seq<Expr>, base: nat, keep: set<u8>)
  {
    Enters(c, from, frag, consts, s) ==>
      ComputesArgs(c, h, s, from + |frag|, args, EnvOf(locals, s), base, keep)
  }

  /** `frag`, placed at `from`, evaluates `args` into the registers from `base` on. */
  ghost predicate ImplementsArgs(frag: seq<Word>, from: nat, consts: seq<u64>, locals: seq<Binding>,
                                 args: seq<Expr>, base: nat, keep: set<u8>)
  {
    forall c: Chunk, h: Host, s: State ::
      RunArgs(c, h, s, frag, from, consts, locals, args, base, keep)
  }

  lemma NoArgs(from: nat, consts: seq<u64>, locals: seq<Binding>, base: nat, keep: set<u8>)
    requires base <= REG_WINDOW
    ensures ImplementsArgs([], from, consts, locals, [], base, keep)
  {
    forall c: Chunk, h: Host, s: State
      ensures RunArgs(c, h, s, [], from, consts, locals, [], base, keep)
    {
      if Enters(c, from, [], consts, s) {
        LandsSelf(c, h, s, keep);
        assert LandsWithArgs(c, h, s, s, from, [], EnvOf(locals, s), base, keep);
      }
    }
  }

  /** One more argument: its code leaves the earlier arguments and the kept registers alone. */
  lemma MoreArgs(f: seq<Word>, g: seq<Word>, from: nat, consts: seq<u64>, more: seq<u64>,
                 locals: seq<Binding>, args: seq<Expr>, e: Expr, base: nat, keep: set<u8>, k2: set<u8>)
    requires ImplementsArgs(f, from, consts, locals, args, base, keep)
    requires base + |args| < REG_WINDOW
    requires Implements(g, from + |f|, more, locals, e, base + |args|, k2)
    requires consts <= more && Regs(locals) <= keep && keep <= k2
    requires forall r: u8 :: base <= r < base + |args| ==> r in k2
    ensures ImplementsArgs(f + g, from, more, locals, args + [e], base, keep)
  {
    forall c: Chunk, h: Host, s: State
      ensures RunArgs(c, h, s, f + g, from, more, locals, args + [e], base, keep)
    {
      if Enters(c, from, f + g, more, s) {
        ContainsSplit(c, from, f, g, consts, more);
        assert Contains(c, from, f, consts);
        assert RunArgs(c, h, s, f, from, consts, locals, args, base, keep);
        MoreArgsRun(c, h, s, f, g, from, more, locals, args, e, base, keep, k2);
      }
    }
  }

  lemma MoreArgsRun(c: Chunk, h: Host, s: State, f: seq<Word>, g: seq<Word>, from: nat,
                    consts: seq<u64>, locals: seq<Binding>, args: seq<Expr>, e: Expr, base: nat,
                    keep: set<u8>, k2: set<u8>)
    requires s.HasWindow() && Contains(c, from + |f|, g, consts) && base + |args| < REG_WINDOW
    requires ComputesArgs(c, h, s, from + |f|, args, EnvOf(locals, s), base, keep)
    requires Implements(g, from + |f|, consts, locals, e, base + |args|, k2)
    requires Regs(locals) <= keep && keep <= k2
    requires forall r: u8 :: base <= r < base + |args| ==> r in k2
    ensures ComputesArgs(c, h, s, from + |f| + |g|, args + [e], EnvOf(locals, s), base, keep)
  {
    hide Reaches;
    hide TrapsFrom;
    var env, mid, to := EnvOf(locals, s), from + |f|, from + |f| + |g|;
    assert forall i :: 0 <= i < |args| ==> (args + [e])[i] == args[i];
    if TrapsFrom(c, h, s) && SomeArgTraps(args, env) {
      var i :| 0 <= i < |args| && EvalEmitted(args[i], env).None?;
      assert EvalEmitted((args + [e])[i], env).None?;
    } else {
      var t :| LandsWithArgs(c, h, s, t, mid, args, env, base, keep);
      EnvKept(locals, s, t, keep);
      UseImplements(c, h, t, g, mid, consts, locals, e, base + |args|, k2);
      if TrapsFrom(c, h, t) && EvalEmitted(e, env).None? {
        LandsTrap(c, h, s, t, mid, keep);
        assert EvalEmitted((args + [e])[|args|], env).None?;
      } else {
        var u :| LandsOn(c, h, t, u, to, k2, e, env, base + |args|);
        LandsTrans(c, h, s, t, u, mid, to, keep, k2, keep);
        ArgsKept(t, u, args, e, env, base, k2);
        assert LandsWithArgs(c, h, s, u, to, args + [e], env, base, keep);
      }
    }
  }

  lemma ArgsKept(t: State, u: State, args: seq<Expr>, e: Expr, env: Env, base: nat, k2: set<u8>)
    requires Keeps(t, u, k2) && HoldsArgs(t, args, env, base) && base + |args| < REG_WINDOW
    requires Agrees(e, env, u.Reg(base + |args|))
    requires forall r: u8 :: base <= r < base + |args| ==> r in k2
    ensures HoldsArgs(u, args + [e], env, base)
  {
    forall i | 0 <= i < |args| + 1 ensures HoldsArg(u, (args + [e])[i], env, base + i) {
      if i < |args| {
        assert HoldsArg(t, args[i], env, base + i);
        var r: u8 := base + i;
        assert r in k2;
        assert u.Reg(r) == t.Reg(r);
      }
    }
  }

  /** A call expression as emitted (argument code, then the wide call, its payload patched to any
      target), from its start to the matching return: unless an argument traps, the callee is
      entered with argument i in its register i, and when it has returned, execution is behind the
      call and every register that was in use before, the destination of a CALL aside, holds what
      it held. */
  lemma CallExpressionPreserves(c: Chunk, h: Host, s: State, frag: seq<Word>, w: Word, from: nat,
                                consts: seq<u64>, locals: seq<Binding>, args: seq<Expr>, used: set<u8>)
    requires ImplementsArgs(frag, from, consts, locals, args, w.b, used)
    requires Enters(c, from, frag, consts, s)
    requires (w.op == OP_CALL || w.op == OP_CALL_VOID) && w.c == |args|
    requires from + |frag| + 1 < |c.code| && c.code[from + |frag|] == w
    requires forall r: u8 :: r in used ==> r < w.b
    ensures (TrapsFrom(c, h, s) && SomeArgTraps(args, EnvOf(locals, s))) ||
            exists t :: Reaches(c, h, s, t) && CallPreserves(c, h, s, t, w, args, EnvOf(locals, s), used)
  {
    var env := EnvOf(locals, s);
    assert RunArgs(c, h, s, frag, from, consts, locals, args, w.b, used);
    if !(TrapsFrom(c, h, s) && SomeArgTraps(args, env)) {
      var t :| LandsWithArgs(c, h, s, t, from + |frag|, args, env, w.b, used);
      assert AtCall(c, t, w);
      if Step(c, h, t).Go? {
        CalleeReceivesArgs(c, h, t, w, args, env);
      }
      forall n: nat | ReturnsAfter(c, h, t, n) ensures Restored(s, Run(c, h, t, n + 1).next, t.ip, w, used) {
        LiveRegistersSurviveCall(c, h, t, w, n, used);
        CallReturnsToCaller(c, h, t, w, n);
      }
    }
  }

  ghost predicate ReturnsAfter(c: Chunk, h: Host, t: State, n: nat) {
    n >= 1 && StillInside(c, h, t, n) && Run(c, h, t, n + 1).Go? &&
    |Run(c, h, t, n + 1).next.frames| <= |t.frames|
  }

  ghost predicate Restored(s: State, u: State, callIp: int, w: Word, used: set<u8>)
    requires s.HasWindow()
  {
    u.HasWindow() && u.ip == callIp + 2 && u.base == s.base && u.frames == s.frames &&
    forall r: u8 :: r in used && (w.op == OP_CALL ==> r != w.a) ==> u.Reg(r) == s.Reg(r)
  }

  /** `t` is the state at the call instruction. */
  ghost predicate CallPreserves(c: Chunk, h: Host, s: State, t: State, w: Word, args: seq<Expr>,
                                env: Env, used: set<u8>)
    requires s.HasWindow()
  {
    && AtCall(c, t, w)
    && (Step(c, h, t).Go? ==> Step(c, h, t).next.HasWindow() && HoldsArgs(Step(c, h, t).next, args, env, 0))
    && (forall n: nat :: ReturnsAfter(c, h, t, n) ==> Restored(s, Run(c, h, t, n + 1).next, t.ip, w, used))
  }

  lemma CalleeReceivesArgs(c: Chunk, h: Host, t: State, w: Word, args: seq<Expr>, env: Env)
    requires AtCall(c, t, w) && t.ip + 1 < |c.code| && Step(c, h, t).Go?
    requires HoldsArgs(t, args, env, w.b)
    ensures Step(c, h, t).next.HasWindow() && HoldsArgs(Step(c, h, t).next, args, env, 0)
  {
    var u := Step(c, h, t).next;
    forall i | 0 <= i < |args| ensures HoldsArg(u, args[i], env, 0 + i) {
      assert HoldsArg(t, args[i], env, w.b + i);
    }
  }
}
