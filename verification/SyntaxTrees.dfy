/** The tree walks under the purity and reachability passes: which calls and which assignments to globals
    they find in a function's body. */
module SyntaxTrees {
  import opened Words

  /** Unary operators, casts, discards, declarations, returns, breaks and loops have one child. */
  datatype OneChild = UnaryNode | CastNode | DiscardNode | VarDeclNode | ReturnNode | BreakNode | LoopNode

  /** `Absent` is the null index; a call knows the symbol it resolves to; an assignment whether its target
      is a global variable, by name or through a module. */
  datatype Node =
    | Absent
    | Leaf
    | Call(callee: Option<nat>, args: seq<Node>)
    | Assign(toGlobal: bool, value: Node)
    | One(kind: OneChild, child: Node)
    | Binary(left: Node, right: Node)
    | If(cond: Node, then_: Node, else_: Node)
    | While(cond: Node, body: Node)
    | Block(stmts: seq<Node>)

  // ---- what is in a tree ----------------------------------------------------------------------------

  /** `x` stands somewhere in `n`; only outside call arguments if `inArgs` is false. */
  ghost predicate Within(n: Node, x: Node, inArgs: bool) {
    n == x ||
    match n
    case Absent => false
    case Leaf => false
    case Call(_, args) => inArgs && exists i :: 0 <= i < |args| && Within(args[i], x, inArgs)
    case Assign(_, value) => Within(value, x, inArgs)
    case One(_, child) => Within(child, x, inArgs)
    case Binary(l, r) => Within(l, x, inArgs) || Within(r, x, inArgs)
    case If(c, t, e) => Within(c, x, inArgs) || Within(t, x, inArgs) || Within(e, x, inArgs)
    case While(c, b) => Within(c, x, inArgs) || Within(b, x, inArgs)
    case Block(stmts) => exists i :: 0 <= i < |stmts| && Within(stmts[i], x, inArgs)
  }

  /** The body assigns to a global somewhere. */
  ghost predicate Assigns(n: Node) { exists x: Node :: Within(n, x, true) && IsGlobalAssign(x) }

  /** It does so outside the arguments of calls. */
  ghost predicate AssignsOpenly(n: Node) { exists x: Node :: Within(n, x, false) && IsGlobalAssign(x) }

  predicate IsGlobalAssign(x: Node) { x.Assign? && x.toGlobal }

  ghost predicate CallsSymbol(n: Node, callee: Option<nat>) {
    exists x: Node :: Within(n, x, true) && IsCallOf(x, callee)
  }

  predicate IsCallOf(x: Node, callee: Option<nat>) { x.Call? && x.callee == callee }

  // ---- direct effects -------------------------------------------------------------------------------

  /** `AcuPurity_HasDirectSideEffects`, as a function of the tree. */
  predicate Effects(n: Node) {
    match n
    case Assign(toGlobal, value) => toGlobal || Effects(value)
    case One(_, child) => Effects(child)
    case Binary(l, r) => Effects(l) || Effects(r)
    case If(c, t, e) => Effects(c) || Effects(t) || Effects(e)
    case While(c, b) => Effects(c) || Effects(b)
    case Block(stmts) => exists i :: 0 <= i < |stmts| && Effects(stmts[i])
    case _ => false
  }

  method HasDirectSideEffects(n: Node) returns (found: bool)
    ensures found == Effects(n)
    decreases n
  {
    match n {
      case Assign(toGlobal, value) =>
        if toGlobal { return true; }
        found := HasDirectSideEffects(value);
      case One(_, child) => found := HasDirectSideEffects(child);
      case Binary(l, r) =>
        found := HasDirectSideEffects(l);
        if !found { found := HasDirectSideEffects(r); }
      case If(c, t, e) =>
        found := HasDirectSideEffects(c);
        if !found { found := HasDirectSideEffects(t); }
        if !found { found := HasDirectSideEffects(e); }
      case While(c, b) =>
        found := HasDirectSideEffects(c);
        if !found { found := HasDirectSideEffects(b); }
      case Block(stmts) =>
        for i := 0 to |stmts|
          invariant forall k :: 0 <= k < i ==> !Effects(stmts[k])
        {
          var inner := HasDirectSideEffects(stmts[i]);
          if inner { return true; }
        }
        found := false;
      case _ => found := false;
    }
  }

  /** The walk finds exactly the assignments that stand outside call arguments. */
  lemma {:induction false} EffectsAreOpen(n: Node)
    ensures Effects(n) <==> AssignsOpenly(n)
    decreases n
  {
    forall x: Node | Within(n, x, false) && IsGlobalAssign(x) ensures Effects(n) {
      OpenIsFound(n, x);
    }
    if Effects(n) {
      var x := FindEffect(n);
    }
  }

  lemma {:induction false} OpenIsFound(n: Node, x: Node)
    requires Within(n, x, false) && IsGlobalAssign(x)
    ensures Effects(n)
    decreases n
  {
    if n != x {
      match n
      case Assign(_, value) => OpenIsFound(value, x);
      case One(_, child) => OpenIsFound(child, x);
      case Binary(l, r) => if Within(l, x, false) { OpenIsFound(l, x); } else { OpenIsFound(r, x); }
      case If(c, t, e) =>
        if Within(c, x, false) { OpenIsFound(c, x); }
        else if Within(t, x, false) { OpenIsFound(t, x); }
        else { OpenIsFound(e, x); }
      case While(c, b) => if Within(c, x, false) { OpenIsFound(c, x); } else { OpenIsFound(b, x); }
      case Block(stmts) =>
        var i :| 0 <= i < |stmts| && Within(stmts[i], x, false);
        OpenIsFound(stmts[i], x);
    }
  }

  lemma {:induction false} FindEffect(n: Node) returns (x: Node)
    requires Effects(n)
    ensures Within(n, x, false) && IsGlobalAssign(x)
    decreases n
  {
    match n
    case Assign(toGlobal, value) => if toGlobal { x := n; } else { x := FindEffect(value); }
    case One(_, child) => x := FindEffect(child);
    case Binary(l, r) => if Effects(l) { x := FindEffect(l); } else { x := FindEffect(r); }
    case If(c, t, e) =>
      if Effects(c) { x := FindEffect(c); } else if Effects(t) { x := FindEffect(t); } else { x := FindEffect(e); }
    case While(c, b) => if Effects(c) { x := FindEffect(c); } else { x := FindEffect(b); }
    case Block(stmts) =>
      var i :| 0 <= i < |stmts| && Effects(stmts[i]);
      x := FindEffect(stmts[i]);
  }

  /** An argument of a call in the tree assigns to a global. */
  ghost predicate HidesEffect(n: Node) { exists c: Node :: Within(n, c, false) && EffectInArgs(c) }

  ghost predicate EffectInArgs(c: Node) { c.Call? && exists i :: 0 <= i < |c.args| && Assigns(c.args[i]) }

  /** What the walk misses: assignments in arguments. It decides whether the body assigns to a global
      exactly when it finds one or no argument in the tree holds one. */
  lemma EffectsExact(n: Node)
    ensures (Effects(n) <==> Assigns(n)) <==> (Effects(n) || !HidesEffect(n))
  {
    EffectsAreOpen(n);
    forall x: Node | Within(n, x, false) ensures Within(n, x, true) {
      OpenIsWithin(n, x);
    }
    forall x: Node | Within(n, x, true) && IsGlobalAssign(x) ensures AssignsOpenly(n) || HidesEffect(n) {
      OpenOrHidden(n, x);
    }
    if HidesEffect(n) {
      var c: Node :| Within(n, c, false) && EffectInArgs(c);
      var i :| 0 <= i < |c.args| && Assigns(c.args[i]);
      var x: Node :| Within(c.args[i], x, true) && IsGlobalAssign(x);
      assert Within(c, x, true);
      WithinWithin(n, c, x);
    }
  }

  lemma {:induction false} OpenOrHidden(n: Node, x: Node)
    requires Within(n, x, true) && IsGlobalAssign(x)
    ensures Within(n, x, false) || HidesEffect(n)
    decreases n, 1
  {
    if n != x {
      match n
      case Call(_, args) =>
        var i :| 0 <= i < |args| && Within(args[i], x, true);
        assert Assigns(args[i]);
        assert Within(n, n, false) && EffectInArgs(n);
      case Assign(_, value) => OpenOrHiddenIn(n, value, x);
      case One(_, child) => OpenOrHiddenIn(n, child, x);
      case Binary(l, r) => OpenOrHiddenIn(n, if Within(l, x, true) then l else r, x);
      case If(c, t, e) =>
        OpenOrHiddenIn(n, if Within(c, x, true) then c else if Within(t, x, true) then t else e, x);
      case While(c, b) => OpenOrHiddenIn(n, if Within(c, x, true) then c else b, x);
      case Block(stmts) =>
        var i :| 0 <= i < |stmts| && Within(stmts[i], x, true);
        OpenOrHiddenIn(n, stmts[i], x);
    }
  }

  lemma {:induction false} OpenOrHiddenIn(n: Node, child: Node, x: Node)
    requires child < n && Within(child, x, true) && IsGlobalAssign(x)
    requires forall y: Node :: Within(child, y, false) ==> Within(n, y, false)
    ensures Within(n, x, false) || HidesEffect(n)
    decreases n, 0
  {
    OpenOrHidden(child, x);
    if HidesEffect(child) {
      var c: Node :| Within(child, c, false) && EffectInArgs(c);
      assert Within(n, c, false);
    }
  }

  lemma {:induction false} WithinWithin(n: Node, c: Node, x: Node)
    requires Within(n, c, false) && Within(c, x, true)
    ensures Within(n, x, true)
    decreases n
  {
    if n != c {
      match n
      case Assign(_, value) => WithinWithin(value, c, x);
      case One(_, child) => WithinWithin(child, c, x);
      case Binary(l, r) => WithinWithin(if Within(l, c, false) then l else r, c, x);
      case If(i, t, e) =>
        WithinWithin(if Within(i, c, false) then i else if Within(t, c, false) then t else e, c, x);
      case While(i, b) => WithinWithin(if Within(i, c, false) then i else b, c, x);
      case Block(stmts) =>
        var i :| 0 <= i < |stmts| && Within(stmts[i], c, false);
        WithinWithin(stmts[i], c, x);
    }
  }

  lemma {:induction false} OpenIsWithin(n: Node, x: Node)
    requires Within(n, x, false)
    ensures Within(n, x, true)
    decreases n
  {
    if n != x {
      match n
      case Assign(_, value) => OpenIsWithin(value, x);
      case One(_, child) => OpenIsWithin(child, x);
      case Binary(l, r) => if Within(l, x, false) { OpenIsWithin(l, x); } else { OpenIsWithin(r, x); }
      case If(c, t, e) =>
        if Within(c, x, false) { OpenIsWithin(c, x); }
        else if Within(t, x, false) { OpenIsWithin(t, x); }
        else { OpenIsWithin(e, x); }
      case While(c, b) => if Within(c, x, false) { OpenIsWithin(c, x); } else { OpenIsWithin(b, x); }
      case Block(stmts) =>
        var i :| 0 <= i < |stmts| && Within(stmts[i], x, false);
        OpenIsWithin(stmts[i], x);
    }
  }

  /** A call whose argument is a block that assigns to a global: the walk finds no effect. */
  function HiddenEffect(callee: nat): Node {
    Block([Call(Some(callee), [Block([Assign(true, Leaf), Leaf])])])
  }

  lemma HiddenEffectIsMissed(callee: nat)
    ensures Assigns(HiddenEffect(callee)) && !Effects(HiddenEffect(callee))
  {
    var x := Assign(true, Leaf);
    var inner := Block([x, Leaf]);
    var call := Call(Some(callee), [inner]);
    assert inner.stmts[0] == x && Within(inner.stmts[0], x, true);
    assert call.args[0] == inner && Within(call.args[0], x, true);
    var whole := Block([call]);
    assert whole.stmts[0] == call && Within(whole.stmts[0], x, true);
    assert whole == HiddenEffect(callee);
    assert Within(HiddenEffect(callee), x, true) && IsGlobalAssign(x);
    assert !Effects(call);
  }

  // ---- callees --------------------------------------------------------------------------------------

  /** The resolved callees in the order of the walk. */
  function Callees(n: Node): seq<nat> {
    match n
    case Call(callee, args) => (if callee.Some? then [callee.value] else []) + CalleesOfAll(args)
    case Assign(_, value) => Callees(value)
    case One(_, child) => Callees(child)
    case Binary(l, r) => Callees(l) + Callees(r)
    case If(c, t, e) => Callees(c) + Callees(t) + Callees(e)
    case While(c, b) => Callees(c) + Callees(b)
    case Block(stmts) => CalleesOfAll(stmts)
    case _ => []
  }

  function CalleesOfAll(ns: seq<Node>): seq<nat> {
    if ns == [] then [] else Callees(ns[0]) + CalleesOfAll(ns[1..])
  }

  predicate Unresolved(n: Node) {
    match n
    case Call(callee, args) => callee.None? || exists i :: 0 <= i < |args| && Unresolved(args[i])
    case Assign(_, value) => Unresolved(value)
    case One(_, child) => Unresolved(child)
    case Binary(l, r) => Unresolved(l) || Unresolved(r)
    case If(c, t, e) => Unresolved(c) || Unresolved(t) || Unresolved(e)
    case While(c, b) => Unresolved(c) || Unresolved(b)
    case Block(stmts) => exists i :: 0 <= i < |stmts| && Unresolved(stmts[i])
    case _ => false
  }

  /** A callee is listed exactly if one of the nodes lists it. */
  lemma {:induction false} InSomeNode(ns: seq<Node>, f: nat)
    ensures f in CalleesOfAll(ns) <==> exists i :: 0 <= i < |ns| && f in Callees(ns[i])
  {
    if ns != [] {
      InSomeNode(ns[1..], f);
      if f in CalleesOfAll(ns[1..]) {
        var i :| 0 <= i < |ns[1..]| && f in Callees(ns[1..][i]);
        assert ns[1..][i] == ns[i + 1];
      }
      if exists i :: 0 <= i < |ns| && f in Callees(ns[i]) {
        var i :| 0 <= i < |ns| && f in Callees(ns[i]);
        assert i > 0 ==> ns[1..][i - 1] == ns[i];
      }
    }
  }

  /** The list is complete: it has exactly the symbols of the calls in the tree, arguments included. */
  lemma CalleesComplete(n: Node, f: nat)
    ensures f in Callees(n) <==> CallsSymbol(n, Some(f))
    ensures Unresolved(n) <==> CallsSymbol(n, None)
  {
    forall x: Node | Within(n, x, true) && x.Call?
      ensures x.callee == Some(f) ==> f in Callees(n)
      ensures x.callee == None ==> Unresolved(n)
    {
      CallIsFound(n, x, f);
    }
    if f in Callees(n) { var x := FindCall(n, f); }
    if Unresolved(n) { var x := FindUnresolved(n); }
  }

  lemma {:induction false} CallIsFound(n: Node, x: Node, f: nat)
    requires Within(n, x, true) && x.Call?
    ensures x.callee == Some(f) ==> f in Callees(n)
    ensures x.callee == None ==> Unresolved(n)
    decreases n
  {
    if n != x {
      match n
      case Call(_, args) =>
        var i :| 0 <= i < |args| && Within(args[i], x, true);
        CallIsFound(args[i], x, f);
        InSomeNode(args, f);
      case Assign(_, value) => CallIsFound(value, x, f);
      case One(_, child) => CallIsFound(child, x, f);
      case Binary(l, r) => if Within(l, x, true) { CallIsFound(l, x, f); } else { CallIsFound(r, x, f); }
      case If(c, t, e) =>
        if Within(c, x, true) { CallIsFound(c, x, f); }
        else if Within(t, x, true) { CallIsFound(t, x, f); }
        else { CallIsFound(e, x, f); }
      case While(c, b) => if Within(c, x, true) { CallIsFound(c, x, f); } else { CallIsFound(b, x, f); }
      case Block(stmts) =>
        var i :| 0 <= i < |stmts| && Within(stmts[i], x, true);
        CallIsFound(stmts[i], x, f);
        InSomeNode(stmts, f);
    } else {
      InSomeNode(x.args, f);
    }
  }

  lemma {:induction false} FindCall(n: Node, f: nat) returns (x: Node)
    requires f in Callees(n)
    ensures Within(n, x, true) && IsCallOf(x, Some(f))
    decreases n
  {
    match n
    case Call(callee, args) =>
      if callee == Some(f) {
        x := n;
      } else {
        InSomeNode(args, f);
        var i :| 0 <= i < |args| && f in Callees(args[i]);
        x := FindCall(args[i], f);
      }
    case Assign(_, value) => x := FindCall(value, f);
    case One(_, child) => x := FindCall(child, f);
    case Binary(l, r) => if f in Callees(l) { x := FindCall(l, f); } else { x := FindCall(r, f); }
    case If(c, t, e) =>
      if f in Callees(c) { x := FindCall(c, f); }
      else if f in Callees(t) { x := FindCall(t, f); }
      else { x := FindCall(e, f); }
    case While(c, b) => if f in Callees(c) { x := FindCall(c, f); } else { x := FindCall(b, f); }
    case Block(stmts) =>
      InSomeNode(stmts, f);
      var i :| 0 <= i < |stmts| && f in Callees(stmts[i]);
      x := FindCall(stmts[i], f);
  }

  lemma {:induction false} FindUnresolved(n: Node) returns (x: Node)
    requires Unresolved(n)
    ensures Within(n, x, true) && IsCallOf(x, None)
    decreases n
  {
    match n
    case Call(callee, args) =>
      if callee.None? {
        x := n;
      } else {
        var i :| 0 <= i < |args| && Unresolved(args[i]);
        x := FindUnresolved(args[i]);
      }
    case Assign(_, value) => x := FindUnresolved(value);
    case One(_, child) => x := FindUnresolved(child);
    case Binary(l, r) => if Unresolved(l) { x := FindUnresolved(l); } else { x := FindUnresolved(r); }
    case If(c, t, e) =>
      if Unresolved(c) { x := FindUnresolved(c); }
      else if Unresolved(t) { x := FindUnresolved(t); }
      else { x := FindUnresolved(e); }
    case While(c, b) => if Unresolved(c) { x := FindUnresolved(c); } else { x := FindUnresolved(b); }
    case Block(stmts) =>
      var i :| 0 <= i < |stmts| && Unresolved(stmts[i]);
      x := FindUnresolved(stmts[i]);
  }

  /** `AcuPurity_CollectCallees`: appends to the list and raises the flag. */
  method CollectCallees(n: Node, found: seq<nat>, flag: bool) returns (callees: seq<nat>, unresolved: bool)
    ensures callees == found + Callees(n) && unresolved == (flag || Unresolved(n))
    decreases n, 1
  {
    callees, unresolved := found, flag;
    match n {
      case Call(callee, args) =>
        if callee.Some? { callees := callees + [callee.value]; } else { unresolved := true; }
        callees, unresolved := CollectAll(n, args, callees, unresolved);
      case Assign(_, value) => callees, unresolved := CollectCallees(value, callees, unresolved);
      case One(_, child) => callees, unresolved := CollectCallees(child, callees, unresolved);
      case Binary(l, r) =>
        callees, unresolved := CollectCallees(l, callees, unresolved);
        callees, unresolved := CollectCallees(r, callees, unresolved);
      case If(c, t, e) =>
        callees, unresolved := CollectCallees(c, callees, unresolved);
        callees, unresolved := CollectCallees(t, callees, unresolved);
        callees, unresolved := CollectCallees(e, callees, unresolved);
      case While(c, b) =>
        callees, unresolved := CollectCallees(c, callees, unresolved);
        callees, unresolved := CollectCallees(b, callees, unresolved);
      case Block(stmts) => callees, unresolved := CollectAll(n, stmts, callees, unresolved);
      case _ =>
    }
  }

  /** The loop over arguments or statements. */
  method CollectAll(ghost parent: Node, ns: seq<Node>, found: seq<nat>, flag: bool)
      returns (callees: seq<nat>, unresolved: bool)
    requires forall i :: 0 <= i < |ns| ==> ns[i] < parent
    ensures callees == found + CalleesOfAll(ns)
    ensures unresolved == (flag || exists i :: 0 <= i < |ns| && Unresolved(ns[i]))
    decreases parent, 0
  {
    callees, unresolved := found, flag;
    for i := 0 to |ns|
      invariant callees + CalleesOfAll(ns[i..]) == found + CalleesOfAll(ns)
      invariant unresolved == (flag || exists k :: 0 <= k < i && Unresolved(ns[k]))
    {
      assert ns[i..][1..] == ns[i + 1..];
      callees, unresolved := CollectCallees(ns[i], callees, unresolved);
    }
  }
}
