/** `AcuWorkspace_Pass4_AnalyzePurity`: impurity spreads from callees to callers until nothing
    changes; what stays marked is the greatest set of functions that can be called without effect. */
module Purity {
  import opened Words
  import opened SyntaxTrees

  /** What the pass knows of a symbol: whether it is a function with a body, whether the body itself
      has effects or calls something unresolved, and which symbols it calls. */
  datatype FnInfo = FnInfo(isFunction: bool, hasBody: bool, hasEffects: bool, hasUnresolved: bool, callees: seq<nat>)

  predicate IsCallGraph(fns: seq<FnInfo>) {
    forall s, c :: 0 <= s < |fns| && c in fns[s].callees ==> c < |fns|
  }

  /** Nothing in the function's own body makes it impure. */
  predicate Eligible(f: FnInfo) { f.isFunction && f.hasBody && !f.hasEffects && !f.hasUnresolved }

  /** A set of eligible functions that call only each other. */
  ghost predicate PureSet(fns: seq<FnInfo>, pure_: set<nat>) {
    forall s :: s in pure_ ==> s < |fns| && PureIn(fns, pure_, s)
  }

  predicate PureIn(fns: seq<FnInfo>, pure_: set<nat>, s: nat)
    requires s < |fns|
  {
    Eligible(fns[s]) && CallsOnly(fns, pure_, s)
  }

  predicate CallsOnly(fns: seq<FnInfo>, pure_: set<nat>, s: nat)
    requires s < |fns|
  {
    forall c :: c in fns[s].callees ==> c in pure_
  }

  ghost predicate GreatestPureSet(fns: seq<FnInfo>, pure_: set<nat>) {
    PureSet(fns, pure_) && forall other: set<nat> :: PureSet(fns, other) ==> other <= pure_
  }

  // ---- by call paths --------------------------------------------------------------------------------

  ghost predicate IsCallPath(fns: seq<FnInfo>, p: seq<nat>) {
    |p| > 0 && (forall i :: 0 <= i < |p| ==> p[i] < |fns|) &&
    forall i :: 0 < i < |p| ==> Calls(fns, p[i - 1], p[i])
  }

  predicate Calls(fns: seq<FnInfo>, s: nat, c: nat) { s < |fns| && c in fns[s].callees }

  /** Some chain of calls from `s` comes to a symbol that is impure in itself. */
  ghost predicate ReachesImpure(fns: seq<FnInfo>, s: nat) {
    exists p: seq<nat> :: LeadsToImpure(fns, s, p)
  }

  ghost predicate LeadsToImpure(fns: seq<FnInfo>, s: nat, p: seq<nat>) {
    IsCallPath(fns, p) && p[0] == s && !Eligible(fns[p[|p| - 1]])
  }

  ghost function HarmlessSet(fns: seq<FnInfo>): set<nat> {
    set s: nat | s < |fns| && !ReachesImpure(fns, s)
  }

  lemma {:induction false} PathStaysPure(fns: seq<FnInfo>, pure_: set<nat>, p: seq<nat>, k: nat)
    requires PureSet(fns, pure_) && IsCallPath(fns, p) && p[0] in pure_ && k < |p|
    ensures p[k] in pure_
    decreases k
  {
    if k > 0 {
      PathStaysPure(fns, pure_, p, k - 1);
      assert Calls(fns, p[k - 1], p[k]) && PureIn(fns, pure_, p[k - 1]);
    }
  }

  lemma HarmlessIsPure(fns: seq<FnInfo>)
    requires IsCallGraph(fns)
    ensures PureSet(fns, HarmlessSet(fns))
  {
    forall s | s in HarmlessSet(fns) ensures PureIn(fns, HarmlessSet(fns), s) {
      if !Eligible(fns[s]) {
        assert LeadsToImpure(fns, s, [s]);
        assert false;
      }
      forall c | c in fns[s].callees ensures c in HarmlessSet(fns) {
        if ReachesImpure(fns, c) {
          var p: seq<nat> :| LeadsToImpure(fns, c, p);
          PrependCall(fns, s, c, p);
        }
      }
    }
  }

  lemma PrependCall(fns: seq<FnInfo>, s: nat, c: nat, p: seq<nat>)
    requires s < |fns| && Calls(fns, s, c) && LeadsToImpure(fns, c, p)
    ensures ReachesImpure(fns, s)
  {
    var q := [s] + p;
    forall i | 0 < i < |q| ensures Calls(fns, q[i - 1], q[i]) {
      assert i > 1 ==> Calls(fns, p[i - 2], p[i - 1]);
    }
    assert q[|q| - 1] == p[|p| - 1];
    assert LeadsToImpure(fns, s, q);
  }

  /** The greatest pure set is exactly the set of functions from which no call path reaches an impure
      symbol. */
  lemma PureIffHarmless(fns: seq<FnInfo>, pure_: set<nat>)
    requires IsCallGraph(fns) && GreatestPureSet(fns, pure_)
    ensures pure_ == HarmlessSet(fns)
  {
    HarmlessIsPure(fns);
    forall s | s in pure_ ensures s in HarmlessSet(fns) {
      assert PureIn(fns, pure_, s);
      forall p: seq<nat> ensures !LeadsToImpure(fns, s, p) {
        if IsCallPath(fns, p) && p[0] == s {
          PathStaysPure(fns, pure_, p, |p| - 1);
          assert PureIn(fns, pure_, p[|p| - 1]);
        }
      }
    }
  }

  // ---- what the tree walks give ---------------------------------------------------------------------

  /** A declared symbol: a function with its body (absent if external), or something else. */
  datatype Declared = Declared(isFunction: bool, body: Node)

  /** What the pass knows of a declared symbol once its body has been walked. */
  function InfoOf(d: Declared): FnInfo {
    if d.isFunction && d.body != Absent
    then FnInfo(true, true, Effects(d.body), Unresolved(d.body), Callees(d.body))
    else FnInfo(d.isFunction, false, false, false, [])
  }

  function Infos(ds: seq<Declared>): (r: seq<FnInfo>)
    ensures |r| == |ds| && forall s :: 0 <= s < |r| ==> r[s] == InfoOf(ds[s])
  {
    seq(|ds|, s requires 0 <= s < |ds| => InfoOf(ds[s]))
  }

  /** The first step of the pass: every function body is walked once for effects and once for callees. */
  method WalkBodies(ds: seq<Declared>) returns (fns: seq<FnInfo>)
    ensures fns == Infos(ds)
  {
    fns := [];
    for s := 0 to |ds|
      invariant fns == Infos(ds)[..s]
    {
      var info := FnInfo(ds[s].isFunction, false, false, false, []);
      if ds[s].isFunction && ds[s].body != Absent {
        var effects := HasDirectSideEffects(ds[s].body);
        var callees, unresolved := CollectCallees(ds[s].body, [], false);
        assert [] + Callees(ds[s].body) == Callees(ds[s].body);
        info := FnInfo(true, true, effects, unresolved, callees);
      }
      assert info == Infos(ds)[s];
      assert Infos(ds)[..s + 1] == Infos(ds)[..s] + [info];
      fns := fns + [info];
    }
  }

  /** In terms of the bodies: a symbol is impure in itself unless it is a function whose body neither
      assigns openly to a global nor makes a call that does not resolve, and it calls what its body calls. */
  lemma InfoMeaning(ds: seq<Declared>, s: nat, c: nat)
    requires s < |ds|
    ensures Eligible(Infos(ds)[s]) <==>
            ds[s].isFunction && ds[s].body != Absent && !AssignsOpenly(ds[s].body) && !CallsSymbol(ds[s].body, None)
    ensures Calls(Infos(ds), s, c) <==>
            ds[s].isFunction && ds[s].body != Absent && CallsSymbol(ds[s].body, Some(c))
  {
    EffectsAreOpen(ds[s].body);
    CalleesComplete(ds[s].body, c);
  }

  /** The pass can mark a function pure that assigns to a global: the assignment stands in the argument of
      a call of a harmless function. */
  lemma HiddenEffectIsMarkedPure(pure_: set<nat>)
    ensures var ds := [Declared(true, Leaf), Declared(true, HiddenEffect(0))];
            GreatestPureSet(Infos(ds), pure_) ==> 1 in pure_ && Assigns(ds[1].body)
  {
    var ds := [Declared(true, Leaf), Declared(true, HiddenEffect(0))];
    HiddenEffectIsMissed(0);
    var call := Call(Some(0), [Block([Assign(true, Leaf), Leaf])]);
    assert Callees(Block([Assign(true, Leaf), Leaf])) == [];
    assert CalleesOfAll(call.args) == [] && Callees(call) == [0];
    assert CalleesOfAll([call]) == [0];
    assert !Unresolved(call);
    assert PureIn(Infos(ds), {0, 1}, 0) && PureIn(Infos(ds), {0, 1}, 1);
    assert PureSet(Infos(ds), {0, 1});
  }

  // ---- the pass -------------------------------------------------------------------------------------

  /** The symbols marked in the flag array. */
  ghost function Marked(flags: seq<bool>): set<nat> { set s: nat | s < |flags| && flags[s] }

  /** The optimistic marking and the propagation: afterwards the flags mark the greatest pure set. */
  method AnalyzePurity(fns: seq<FnInfo>, isPure: array<bool>)
    requires isPure.Length == |fns| && IsCallGraph(fns)
    modifies isPure
    ensures GreatestPureSet(fns, Marked(isPure[..]))
  {
    var count := |fns|;
    if count == 0 { return; }
    for s := 0 to count
      invariant forall k :: 0 <= k < s ==> isPure[k] == Eligible(fns[k])
    {
      var f := fns[s];
      if f.isFunction {
        if !f.hasBody {
          isPure[s] := false;
          continue;
        }
        isPure[s] := !f.hasEffects;
        if f.hasUnresolved { isPure[s] := false; }
      } else {
        isPure[s] := false;
      }
    }

    var changed := true;
    while changed
      invariant forall k :: 0 <= k < count && isPure[k] ==> Eligible(fns[k])
      invariant ContainsPureSets(fns, Marked(isPure[..]))
      invariant !changed ==> forall k :: 0 <= k < count && isPure[k] ==> CallsOnly(fns, Marked(isPure[..]), k)
      decreases |Marked(isPure[..])|, changed
    {
      changed := Sweep(fns, isPure);
    }
    forall s | s in Marked(isPure[..]) ensures PureIn(fns, Marked(isPure[..]), s) {
    }
  }

  /** The whole pass, from declarations and bodies to flags. */
  method AnalyzeDeclarations(ds: seq<Declared>, isPure: array<bool>)
    requires isPure.Length == |ds| && IsCallGraph(Infos(ds))
    modifies isPure
    ensures GreatestPureSet(Infos(ds), Marked(isPure[..]))
  {
    var fns := WalkBodies(ds);
    AnalyzePurity(fns, isPure);
  }

  ghost predicate ContainsPureSets(fns: seq<FnInfo>, pure_: set<nat>) {
    forall other: set<nat> :: PureSet(fns, other) ==> other <= pure_
  }

  /** One round of propagation. */
  method Sweep(fns: seq<FnInfo>, isPure: array<bool>) returns (changed: bool)
    requires isPure.Length == |fns| && IsCallGraph(fns)
    requires forall k :: 0 <= k < |fns| && isPure[k] ==> Eligible(fns[k])
    requires ContainsPureSets(fns, Marked(isPure[..]))
    modifies isPure
    ensures forall k :: 0 <= k < |fns| && isPure[k] ==> Eligible(fns[k])
    ensures ContainsPureSets(fns, Marked(isPure[..]))
    ensures if changed then |Marked(isPure[..])| < |old(Marked(isPure[..]))|
            else isPure[..] == old(isPure[..]) &&
                 forall k :: 0 <= k < |fns| && isPure[k] ==> CallsOnly(fns, Marked(isPure[..]), k)
  {
    changed := false;
    ghost var before := isPure[..];
    for s := 0 to |fns|
      invariant forall k :: 0 <= k < |fns| && isPure[k] ==> Eligible(fns[k])
      invariant ContainsPureSets(fns, Marked(isPure[..]))
      invariant if changed then |Marked(isPure[..])| < |Marked(before)| else isPure[..] == before
      invariant !changed ==> forall k :: 0 <= k < s && isPure[k] ==> CallsOnly(fns, Marked(before), k)
    {
      if !isPure[s] { continue; }
      var callees := fns[s].callees;
      assert forall j :: 0 <= j < |callees| ==> callees[j] in fns[s].callees;
      var c := 0;
      while c < |callees| && isPure[callees[c]]
        invariant 0 <= c <= |callees| && forall j :: 0 <= j < c ==> isPure[callees[j]]
      {
        c := c + 1;
      }
      if c < |callees| {
        ghost var marked := Marked(isPure[..]);
        Expelled(fns, marked, s, callees[c]);
        isPure[s] := false;
        assert Marked(isPure[..]) == marked - {s};
        changed := true;
      }
    }
  }

  /** A function that calls an unmarked symbol is in no pure set. */
  lemma Expelled(fns: seq<FnInfo>, marked: set<nat>, s: nat, c: nat)
    requires ContainsPureSets(fns, marked) && Calls(fns, s, c) && c !in marked && s in marked
    ensures ContainsPureSets(fns, marked - {s})
  {
    forall other: set<nat> | PureSet(fns, other) ensures other <= marked - {s} {
      MemberCalls(fns, other, s, c);
    }
  }

  lemma MemberCalls(fns: seq<FnInfo>, other: set<nat>, s: nat, c: nat)
    requires PureSet(fns, other) && Calls(fns, s, c)
    ensures s in other ==> c in other
  {
    assert s in other ==> PureIn(fns, other, s);
  }
}
