/** `AcuWorkspace_Pass5_Reachability` and the emission that relies on it: the worklist marks exactly
    the functions that can be called, and every emitted call is patched to the entry of a function
    that was emitted. */
module Reachability {
  import opened Words
  import opened Bytecode
  import opened SyntaxTrees

  /** The function symbols called by each body, in the order of the tree walk, and those called by the
      initialisers of the globals and the statements of the main module. */
  datatype Program = Program(calls: seq<seq<nat>>, roots: seq<seq<nat>>)

  predicate InRange(callees: seq<nat>, n: nat) { forall k :: 0 <= k < |callees| ==> callees[k] < n }

  predicate IsProgram(p: Program) {
    (forall f :: 0 <= f < |p.calls| ==> InRange(p.calls[f], |p.calls|)) &&
    (forall r :: 0 <= r < |p.roots| ==> InRange(p.roots[r], |p.calls|))
  }

  predicate CalledFromRoot(p: Program, f: nat) { exists r :: 0 <= r < |p.roots| && f in p.roots[r] }

  predicate Calls(p: Program, f: nat, g: nat) { f < |p.calls| && g in p.calls[f] }

  /** A chain of calls that begins at a root. */
  ghost predicate Chain(p: Program, c: seq<nat>) {
    |c| > 0 && CalledFromRoot(p, c[0]) && forall i :: 0 < i < |c| ==> Calls(p, c[i - 1], c[i])
  }

  ghost predicate Reachable(p: Program, f: nat) { exists c: seq<nat> :: ChainTo(p, c, f) }

  ghost predicate ChainTo(p: Program, c: seq<nat>, f: nat) { Chain(p, c) && c[|c| - 1] == f }

  lemma RootReachable(p: Program, f: nat)
    requires CalledFromRoot(p, f)
    ensures Reachable(p, f)
  {
    assert ChainTo(p, [f], f);
  }

  lemma CalleeReachable(p: Program, f: nat, g: nat)
    requires Reachable(p, f) && Calls(p, f, g)
    ensures Reachable(p, g)
  {
    var c: seq<nat> :| ChainTo(p, c, f);
    var d := c + [g];
    forall i | 0 < i < |d| ensures Calls(p, d[i - 1], d[i]) {
      assert i < |c| ==> Calls(p, c[i - 1], c[i]);
    }
    assert ChainTo(p, d, g);
  }

  /** A set that contains the roots and is closed under calls contains every chain. */
  lemma {:induction false} ClosedContains(p: Program, marked: set<nat>, c: seq<nat>, k: nat)
    requires Chain(p, c) && k < |c|
    requires forall f: nat :: CalledFromRoot(p, f) ==> f in marked
    requires forall f: nat, g: nat :: f in marked && Calls(p, f, g) ==> g in marked
    ensures c[k] in marked
    decreases k
  {
    if k > 0 {
      ClosedContains(p, marked, c, k - 1);
      assert Calls(p, c[k - 1], c[k]);
    }
  }

  /** The function symbols called in a tree, in the order of the walk. */
  function FnCallees(n: Node, functions: seq<bool>): seq<nat> { Only(Callees(n), functions) }

  predicate IsFn(f: nat, functions: seq<bool>) { f < |functions| && functions[f] }

  function Only(callees: seq<nat>, functions: seq<bool>): (r: seq<nat>)
    ensures forall f :: f in r <==> f in callees && IsFn(f, functions)
  {
    if callees == [] then []
    else (if IsFn(callees[0], functions) then [callees[0]] else []) + Only(callees[1..], functions)
  }

  /** The program whose symbols have these bodies (absent for all but functions), with the global
      initialisers and the statements of main as roots. */
  function ProgramOf(functions: seq<bool>, bodies: seq<Node>, roots: seq<Node>): (p: Program)
    ensures |p.calls| == |bodies| && |p.roots| == |roots|
    ensures forall f :: 0 <= f < |bodies| ==> p.calls[f] == FnCallees(bodies[f], functions)
    ensures forall r :: 0 <= r < |roots| ==> p.roots[r] == FnCallees(roots[r], functions)
  {
    Program(seq(|bodies|, f requires 0 <= f < |bodies| => FnCallees(bodies[f], functions)),
            seq(|roots|, r requires 0 <= r < |roots| => FnCallees(roots[r], functions)))
  }

  lemma ProgramOfTrees(functions: seq<bool>, bodies: seq<Node>, roots: seq<Node>)
    requires |functions| == |bodies|
    ensures IsProgram(ProgramOf(functions, bodies, roots))
  {
    var p := ProgramOf(functions, bodies, roots);
    forall f | 0 <= f < |bodies| ensures InRange(p.calls[f], |bodies|) {
      OnlyInRange(Callees(bodies[f]), functions);
    }
    forall r | 0 <= r < |roots| ensures InRange(p.roots[r], |bodies|) {
      OnlyInRange(Callees(roots[r]), functions);
    }
  }

  lemma OnlyInRange(callees: seq<nat>, functions: seq<bool>)
    ensures InRange(Only(callees, functions), |functions|)
  {
    var r := Only(callees, functions);
    forall k | 0 <= k < |r| ensures r[k] < |functions| {
      assert r[k] in r;
    }
  }

  /** One function calls another exactly if its body holds such a call, and a root likewise. */
  lemma CallsMeaning(functions: seq<bool>, bodies: seq<Node>, roots: seq<Node>, f: nat, g: nat)
    ensures Calls(ProgramOf(functions, bodies, roots), f, g) <==>
            f < |bodies| && IsFn(g, functions) && CallsSymbol(bodies[f], Some(g))
    ensures CalledFromRoot(ProgramOf(functions, bodies, roots), g) <==>
            IsFn(g, functions) && exists r :: 0 <= r < |roots| && CallsSymbol(roots[r], Some(g))
  {
    if f < |bodies| { CalleesComplete(bodies[f], g); }
    forall r | 0 <= r < |roots| ensures g in Callees(roots[r]) <==> CallsSymbol(roots[r], Some(g)) {
      CalleesComplete(roots[r], g);
    }
    var p := ProgramOf(functions, bodies, roots);
    if CalledFromRoot(p, g) {
      var r :| 0 <= r < |p.roots| && g in p.roots[r];
      assert CallsSymbol(roots[r], Some(g));
    }
    if IsFn(g, functions) && exists r :: 0 <= r < |roots| && CallsSymbol(roots[r], Some(g)) {
      var r :| 0 <= r < |roots| && CallsSymbol(roots[r], Some(g));
      assert g in p.roots[r];
    }
  }

  class Marker {
    const functions: seq<bool>
    const bodies: seq<Node>
    const roots: seq<Node>
    const program: Program
    const reachable: array<bool>
    var worklist: seq<nat>
    /** Everything ever pushed, in order. */
    ghost var pushed: seq<nat>

    ghost predicate Valid()
      reads this, reachable
    {
      && program == ProgramOf(functions, bodies, roots) && |functions| == |bodies|
      && IsProgram(program) && reachable.Length == |program.calls|
      && (forall f :: 0 <= f < reachable.Length ==> (reachable[f] <==> f in pushed))
      && (forall i :: 0 <= i < |pushed| ==> pushed[i] < reachable.Length && Reachable(program, pushed[i]))
      && (forall i, j :: 0 <= i < j < |pushed| ==> pushed[i] != pushed[j])
      && (forall i :: 0 <= i < |worklist| ==> worklist[i] in pushed)
    }

    /** Every marked function is still on the worklist, or is being visited, or has all its callees
        marked. */
    ghost predicate Settled(visiting: set<nat>)
      reads this
    {
      forall f :: f in pushed && f !in worklist && f !in visiting ==> CalleesPushed(f)
    }

    ghost predicate CalleesPushed(f: nat)
      reads this
    {
      forall g: nat :: Calls(program, f, g) ==> g in pushed
    }

    ghost function Unmarked(): set<nat>
      reads this, reachable
    {
      set f: nat | f < reachable.Length && !reachable[f]
    }

    constructor (functions: seq<bool>, bodies: seq<Node>, roots: seq<Node>)
      requires |functions| == |bodies|
      ensures program == ProgramOf(functions, bodies, roots)
      ensures Valid() && Settled({}) && fresh(reachable) && worklist == [] && pushed == []
    {
      this.functions, this.bodies, this.roots := functions, bodies, roots;
      program := ProgramOf(functions, bodies, roots);
      ProgramOfTrees(functions, bodies, roots);
      reachable := new bool[|bodies|](_ => false);
      worklist, pushed := [], [];
    }

    /** Everything the tree calls can be reached. */
    ghost predicate CallsReachable(n: Node) {
      forall f :: f in Callees(n) && IsFn(f, functions) ==> Reachable(program, f)
    }

    ghost predicate Collected(callees: seq<nat>)
      reads this
    {
      forall f :: f in callees && IsFn(f, functions) ==> f in pushed
    }

    /** A callee that is not marked yet is marked and pushed. */
    method Push(callee: nat, ghost visiting: set<nat>)
      requires Valid() && Settled(visiting) && IsFn(callee, functions) && Reachable(program, callee)
      modifies this, reachable
      ensures Valid() && Settled(visiting) && old(worklist) <= worklist
      ensures (forall f :: f in old(pushed) ==> f in pushed) && callee in pushed
      ensures if worklist == old(worklist) then Unmarked() == old(Unmarked()) else Unmarked() < old(Unmarked())
    {
      if !reachable[callee] {
        ghost var before, marked := Unmarked(), pushed;
        reachable[callee] := true;
        worklist := worklist + [callee];
        pushed := pushed + [callee];
        assert Unmarked() == before - {callee} && callee in before;
        forall f | f in pushed && f !in worklist && f !in visiting ensures CalleesPushed(f) {
          assert f in marked;
          assert forall g: nat :: Calls(program, f, g) ==> g in marked;
        }
      }
    }

    /** `AcuPass5_CollectCalls`: walks the tree and pushes every function called in it. */
    method CollectCalls(n: Node, ghost visiting: set<nat>)
      requires Valid() && Settled(visiting) && CallsReachable(n)
      modifies this, reachable
      ensures Valid() && Settled(visiting) && old(worklist) <= worklist
      ensures (forall f :: f in old(pushed) ==> f in pushed) && Collected(Callees(n))
      ensures if worklist == old(worklist) then Unmarked() == old(Unmarked()) else Unmarked() < old(Unmarked())
      decreases n, 1
    {
      match n {
        case Call(callee, args) =>
          if callee.Some? && IsFn(callee.value, functions) { Push(callee.value, visiting); }
          CollectAll(n, args, visiting);
        case Assign(_, value) => CollectCalls(value, visiting);
        case One(_, child) => CollectCalls(child, visiting);
        case Binary(l, r) =>
          CollectCalls(l, visiting);
          CollectCalls(r, visiting);
        case If(c, t, e) =>
          CollectCalls(c, visiting);
          CollectCalls(t, visiting);
          CollectCalls(e, visiting);
        case While(c, b) =>
          CollectCalls(c, visiting);
          CollectCalls(b, visiting);
        case Block(stmts) => CollectAll(n, stmts, visiting);
        case _ =>
      }
    }

    /** The loop over arguments or statements. */
    method CollectAll(ghost parent: Node, ns: seq<Node>, ghost visiting: set<nat>)
      requires forall i :: 0 <= i < |ns| ==> ns[i] < parent
      requires Valid() && Settled(visiting)
      requires forall f :: f in CalleesOfAll(ns) && IsFn(f, functions) ==> Reachable(program, f)
      modifies this, reachable
      ensures Valid() && Settled(visiting) && old(worklist) <= worklist
      ensures (forall f :: f in old(pushed) ==> f in pushed) && Collected(CalleesOfAll(ns))
      ensures if worklist == old(worklist) then Unmarked() == old(Unmarked()) else Unmarked() < old(Unmarked())
      decreases parent, 0
    {
      for i := 0 to |ns|
        invariant Valid() && Settled(visiting) && old(worklist) <= worklist
        invariant forall f :: f in old(pushed) ==> f in pushed
        invariant forall k :: 0 <= k < i ==> Collected(Callees(ns[k]))
        invariant if worklist == old(worklist) then Unmarked() == old(Unmarked()) else Unmarked() < old(Unmarked())
      {
        forall f | f in Callees(ns[i]) && IsFn(f, functions) ensures Reachable(program, f) {
          InSomeNode(ns, f);
        }
        ghost var marked := pushed;
        CollectCalls(ns[i], visiting);
        forall k | 0 <= k <= i ensures Collected(Callees(ns[k])) {
          if k < i { assert forall f :: f in Callees(ns[k]) && IsFn(f, functions) ==> f in marked; }
        }
      }
      forall f | f in CalleesOfAll(ns) && IsFn(f, functions) ensures f in pushed {
        InSomeNode(ns, f);
        var k :| 0 <= k < |ns| && f in Callees(ns[k]);
        assert Collected(Callees(ns[k]));
      }
    }

    /** The bodies that belong to no function: everything they call is pushed. */
    method MarkRoots()
      requires Valid() && Settled({}) && worklist == [] && pushed == []
      modifies this, reachable
      ensures Valid() && Settled({})
      ensures forall q :: 0 <= q < |program.roots| ==> RootsIn(program, pushed, q)
    {
      hide Reachable;
      for r := 0 to |roots|
        invariant Valid() && Settled({})
        invariant forall q :: 0 <= q < r ==> RootsIn(program, pushed, q)
      {
        forall f | f in Callees(roots[r]) && IsFn(f, functions) ensures Reachable(program, f) {
          assert f in program.roots[r];
          RootReachable(program, f);
        }
        ghost var marked := pushed;
        CollectCalls(roots[r], {});
        forall q | 0 <= q <= r ensures RootsIn(program, pushed, q) {
          assert q < r ==> RootsIn(program, marked, q);
        }
      }
    }

    /** The body of a function from the worklist: everything it calls is pushed. */
    method VisitBody(f: nat)
      requires Valid() && Settled({f}) && f in pushed
      modifies this, reachable
      ensures Valid() && Settled({}) && old(worklist) <= worklist
      ensures forall g :: g in old(pushed) ==> g in pushed
      ensures if worklist == old(worklist) then Unmarked() == old(Unmarked()) else Unmarked() < old(Unmarked())
    {
      hide Reachable;
      forall g | g in Callees(bodies[f]) && IsFn(g, functions) ensures Reachable(program, g) {
        assert g in program.calls[f];
        CalleeReachable(program, f, g);
      }
      CollectCalls(bodies[f], {f});
      assert CalleesPushed(f);
    }

    /** The pass: roots first, then the worklist. Every function is pushed at most once, and the marks
        are exactly the functions reachable from the roots. */
    method MarkReachable()
      requires Valid() && Settled({}) && worklist == [] && pushed == []
      modifies this, reachable
      ensures Valid() && worklist == []
      ensures forall f :: 0 <= f < reachable.Length ==> (reachable[f] <==> Reachable(program, f))
    {
      hide Reachable;
      MarkRoots();
      while worklist != []
        invariant Valid() && Settled({})
        invariant forall q :: 0 <= q < |program.roots| ==> RootsIn(program, pushed, q)
        decreases Unmarked(), |worklist|
      {
        ghost var before, marked := worklist, pushed;
        var f := worklist[|worklist| - 1];
        worklist := worklist[..|worklist| - 1];
        assert f in pushed && before == worklist + [f];
        VisitBody(f);
        forall q | 0 <= q < |program.roots| ensures RootsIn(program, pushed, q) {
          assert RootsIn(program, marked, q);
        }
      }
      forall f: nat, g: nat | f in pushed && Calls(program, f, g) ensures g in pushed {
        assert CalleesPushed(f);
      }
      MarksReachable(program, pushed);
    }
  }

  /** A list of reachable functions that holds the roots and is closed under calls holds them all. */
  lemma MarksReachable(p: Program, pushed: seq<nat>)
    requires forall q :: 0 <= q < |p.roots| ==> RootsIn(p, pushed, q)
    requires forall f: nat, g: nat :: f in pushed && Calls(p, f, g) ==> g in pushed
    requires forall i :: 0 <= i < |pushed| ==> Reachable(p, pushed[i])
    ensures forall f: nat :: f in pushed <==> Reachable(p, f)
  {
    forall f: nat | CalledFromRoot(p, f) ensures f in pushed {
      var r :| 0 <= r < |p.roots| && f in p.roots[r];
      assert RootsIn(p, pushed, r);
    }
    forall f: nat | Reachable(p, f) ensures f in pushed {
      var c: seq<nat> :| ChainTo(p, c, f);
      ClosedContains(p, (set g | g in pushed), c, |c| - 1);
    }
  }

  ghost predicate RootsIn(p: Program, pushed: seq<nat>, r: nat)
    requires r < |p.roots|
  {
    forall f :: f in p.roots[r] ==> f in pushed
  }

  // ---- emission and call patching -------------------------------------------------------------------

  /** A call instruction at `inst` whose payload is to become the entry of function `fn`. */
  datatype Patch = Patch(inst: nat, fn: nat)

  /** The code emitted for the main program or for one function, with its open calls. */
  datatype Unit = Unit(code: seq<Word>, patches: seq<Patch>)

  predicate PatchesInside(u: Unit) {
    (forall k :: 0 <= k < |u.patches| ==> u.patches[k].inst + 1 < |u.code|) && DifferentSlots(u.patches)
  }

  predicate DifferentSlots(patches: seq<Patch>) {
    forall i, j :: 0 <= i < j < |patches| ==> patches[i].inst != patches[j].inst
  }

  predicate CallsAmong(u: Unit, callees: seq<nat>) {
    forall k :: 0 <= k < |u.patches| ==> u.patches[k].fn in callees
  }

  /** The units are what the generator emits for the program: their open calls are calls of it. */
  ghost predicate Emits(p: Program, main: Unit, bodies: seq<Unit>) {
    && |bodies| == |p.calls| && PatchesInside(main)
    && (forall k :: 0 <= k < |main.patches| ==> CalledFromRoot(p, main.patches[k].fn))
    && (forall f :: 0 <= f < |bodies| ==> PatchesInside(bodies[f]) && CallsAmong(bodies[f], p.calls[f]))
  }

  function Shifted(patches: seq<Patch>, offset: nat): (r: seq<Patch>)
    ensures |r| == |patches|
    ensures forall k :: 0 <= k < |r| ==> r[k] == Patch(patches[k].inst + offset, patches[k].fn)
  {
    seq(|patches|, k requires 0 <= k < |patches| => Patch(patches[k].inst + offset, patches[k].fn))
  }

  /** The body of `f` stands at its offset, up to the payloads still to be patched. */
  ghost predicate Placed(code: seq<Word>, patches: seq<Patch>, body: seq<Word>, at: nat) {
    at + |body| <= |code| &&
    forall i :: at <= i < at + |body| ==> code[i] == body[i - at] || IsPayload(patches, i)
  }

  predicate IsPayload(patches: seq<Patch>, i: int) {
    exists k :: 0 <= k < |patches| && patches[k].inst + 1 == i
  }

  /** Open calls lie in the code and go to reachable functions. */
  ghost predicate OpenCalls(p: Program, code: seq<Word>, patches: seq<Patch>) {
    forall k :: 0 <= k < |patches| ==>
      patches[k].inst + 1 < |code| && patches[k].fn < |p.calls| && Reachable(p, patches[k].fn)
  }

  function MainCode(main: Unit): seq<Word> { main.code + [Word(OP_HALT, 0, 0, 0)] }

  /** The first `s` functions are laid out: those reachable stand at their offsets. */
  ghost predicate Laid(p: Program, main: Unit, bodies: seq<Unit>, code: seq<Word>, patches: seq<Patch>,
                       offsets: seq<nat>, s: nat)
    requires s <= |bodies|
  {
    && |offsets| == s && OpenCalls(p, code, patches) && DifferentSlots(patches)
    && |code| <= |main.code| + 1 + TotalLength(bodies, s)
    && Placed(code, patches, MainCode(main), 0)
    && (forall f :: 0 <= f < s ==> offsets[f] <= |code|)
    && (forall f :: 0 <= f < s && Reachable(p, f) ==> Placed(code, patches, bodies[f].code, offsets[f]))
  }

  lemma LaidFirst(p: Program, main: Unit, bodies: seq<Unit>)
    requires IsProgram(p) && Emits(p, main, bodies)
    ensures Laid(p, main, bodies, MainCode(main), main.patches, [], 0)
  {
    forall k | 0 <= k < |main.patches|
      ensures main.patches[k].fn < |p.calls| && Reachable(p, main.patches[k].fn)
    {
      RootInRange(p, main.patches[k].fn);
      RootReachable(p, main.patches[k].fn);
    }
  }

  lemma LaidSkip(p: Program, main: Unit, bodies: seq<Unit>, code: seq<Word>, patches: seq<Patch>,
                 offsets: seq<nat>, s: nat)
    requires s < |bodies| && Laid(p, main, bodies, code, patches, offsets, s) && !Reachable(p, s)
    ensures Laid(p, main, bodies, code, patches, offsets + [0], s + 1)
  {
  }

  lemma LaidNext(p: Program, main: Unit, bodies: seq<Unit>, code: seq<Word>, patches: seq<Patch>,
                 offsets: seq<nat>, s: nat)
    requires IsProgram(p) && Emits(p, main, bodies)
    requires s < |bodies| && Laid(p, main, bodies, code, patches, offsets, s) && Reachable(p, s)
    ensures Laid(p, main, bodies, code + bodies[s].code, patches + Shifted(bodies[s].patches, |code|),
                 offsets + [|code|], s + 1)
  {
    hide Reachable;
    var code', added := code + bodies[s].code, Shifted(bodies[s].patches, |code|);
    var patches', offsets' := patches + added, offsets + [|code|];
    forall k | 0 <= k < |added|
      ensures added[k].inst + 1 < |code'| && added[k].fn < |p.calls| && Reachable(p, added[k].fn)
    {
      assert bodies[s].patches[k].fn in p.calls[s] && InRange(p.calls[s], |p.calls|);
      CalleeReachable(p, s, added[k].fn);
    }
    PlacedKept(code, patches, code', patches', MainCode(main), 0);
    forall f | 0 <= f < s + 1 && Reachable(p, f) ensures Placed(code', patches', bodies[f].code, offsets'[f]) {
      if f < s {
        PlacedKept(code, patches, code', patches', bodies[f].code, offsets[f]);
      }
    }
  }

  /** The part of `AcuCodeGen_CompileWorkspace` that lays out the functions marked reachable behind the
      main program and then patches every call: each payload is the entry of a function that was
      emitted, and at that entry stands its body. */
  method LinkProgram(p: Program, main: Unit, bodies: seq<Unit>, reachable: seq<bool>)
      returns (code: seq<Word>, offsets: seq<nat>, patches: seq<Patch>)
    requires IsProgram(p) && Emits(p, main, bodies) && |reachable| == |p.calls|
    requires forall f :: 0 <= f < |reachable| ==> (reachable[f] <==> Reachable(p, f))
    requires |main.code| + 1 + TotalLength(bodies, |bodies|) < 0x1_0000_0000
    ensures |offsets| == |bodies| && OpenCalls(p, code, patches)
    ensures forall k :: 0 <= k < |patches| ==> Patched(code, patches, offsets, k)
    ensures Placed(code, patches, MainCode(main), 0)
    ensures forall f :: 0 <= f < |bodies| && Reachable(p, f) ==> Placed(code, patches, bodies[f].code, offsets[f])
  {
    hide Reachable;
    assert |bodies| == |p.calls|;
    hide Emits;
    code, patches, offsets := MainCode(main), main.patches, [];
    LaidFirst(p, main, bodies);
    for s := 0 to |bodies|
      invariant Laid(p, main, bodies, code, patches, offsets, s)
    {
      hide Laid;
      if reachable[s] {
        LaidNext(p, main, bodies, code, patches, offsets, s);
        var entry := |code|;
        offsets := offsets + [entry];
        code := code + bodies[s].code;
        patches := patches + Shifted(bodies[s].patches, entry);
      } else {
        LaidSkip(p, main, bodies, code, patches, offsets, s);
        offsets := offsets + [0];
      }
    }
    ghost var laid := code;
    code := PatchCalls(code, patches, offsets);
    PlacedPatched(laid, code, patches, MainCode(main), 0);
    forall f | 0 <= f < |bodies| && Reachable(p, f) ensures Placed(code, patches, bodies[f].code, offsets[f]) {
      PlacedPatched(laid, code, patches, bodies[f].code, offsets[f]);
    }
  }

  /** The patch loop. */
  method PatchCalls(laid: seq<Word>, patches: seq<Patch>, offsets: seq<nat>) returns (code: seq<Word>)
    requires DifferentSlots(patches)
    requires forall k :: 0 <= k < |patches| ==> patches[k].inst + 1 < |laid| && patches[k].fn < |offsets|
    requires forall f :: 0 <= f < |offsets| ==> offsets[f] < 0x1_0000_0000
    ensures |code| == |laid| && forall k :: 0 <= k < |patches| ==> Patched(code, patches, offsets, k)
    ensures forall i :: 0 <= i < |code| ==> code[i] == laid[i] || IsPayload(patches, i)
  {
    hide FromPayload;
    code := laid;
    for k := 0 to |patches|
      invariant |code| == |laid| && forall j :: 0 <= j < k ==> Patched(code, patches, offsets, j)
      invariant forall i :: 0 <= i < |code| ==> code[i] == laid[i] || IsPayload(patches, i)
    {
      var patch := patches[k];
      ghost var before := code;
      code := code[patch.inst + 1 := FromPayload(offsets[patch.fn])];
      forall j | 0 <= j <= k ensures Patched(code, patches, offsets, j) {
        if j < k {
          assert Patched(before, patches, offsets, j) && patches[j].inst != patch.inst;
        }
      }
      assert IsPayload(patches, patch.inst + 1);
    }
  }

  lemma PlacedPatched(laid: seq<Word>, code: seq<Word>, patches: seq<Patch>, body: seq<Word>, at: nat)
    requires Placed(laid, patches, body, at) && |code| == |laid|
    requires forall i :: 0 <= i < |code| ==> code[i] == laid[i] || IsPayload(patches, i)
    ensures Placed(code, patches, body, at)
  {
  }

  predicate Patched(code: seq<Word>, patches: seq<Patch>, offsets: seq<nat>, k: nat)
    requires k < |patches|
  {
    patches[k].inst + 1 < |code| && patches[k].fn < |offsets| && offsets[patches[k].fn] < 0x1_0000_0000 &&
    code[patches[k].inst + 1] == FromPayload(offsets[patches[k].fn])
  }

  function TotalLength(bodies: seq<Unit>, n: nat): nat
    requires n <= |bodies|
  {
    if n == 0 then 0 else TotalLength(bodies, n - 1) + |bodies[n - 1].code|
  }

  lemma {:induction false} LengthGrows(bodies: seq<Unit>, m: nat, n: nat)
    requires m <= n <= |bodies|
    ensures TotalLength(bodies, m) <= TotalLength(bodies, n)
    decreases n
  {
    if m < n { LengthGrows(bodies, m, n - 1); }
  }

  lemma RootInRange(p: Program, f: nat)
    requires IsProgram(p) && CalledFromRoot(p, f)
    ensures f < |p.calls|
  {
    var r :| 0 <= r < |p.roots| && f in p.roots[r];
    assert InRange(p.roots[r], |p.calls|);
  }

  lemma PlacedKept(code: seq<Word>, patches: seq<Patch>, code': seq<Word>, patches': seq<Patch>,
                   body: seq<Word>, at: nat)
    requires Placed(code, patches, body, at) && code <= code' && patches <= patches'
    ensures Placed(code', patches', body, at)
  {
    forall i | at <= i < at + |body| ensures code'[i] == body[i - at] || IsPayload(patches', i) {
      if code[i] != body[i - at] {
        var k :| 0 <= k < |patches| && patches[k].inst + 1 == i;
        assert patches'[k].inst + 1 == i;
      }
    }
  }
}
