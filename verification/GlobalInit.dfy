/** The depth-first check of global variables: `AcuWorkspace_EnsureGlobalVarChecked` walks the initialiser
    and follows its references before it appends the global to the initialisation order. */
module GlobalInit {

  // ---- initialisers ---------------------------------------------------------------------------------

  /** An expression as far as globals matter: a reference to one, by name or through a module; a call; or
      parts in the order in which they are checked. */
  datatype Init = Ref(global: nat) | Calls(fn: nat, args: seq<Init>) | Parts(parts: seq<Init>)

  /** The globals that the walk comes to, in its order. A callee's body is not walked. */
  function References(n: Init): seq<nat> {
    match n
    case Ref(g) => [g]
    case Calls(_, args) => ReferencesOfAll(args)
    case Parts(parts) => ReferencesOfAll(parts)
  }

  function ReferencesOfAll(ns: seq<Init>): seq<nat> {
    if ns == [] then [] else References(ns[0]) + ReferencesOfAll(ns[1..])
  }

  function AllReferences(inits: seq<Init>): (r: seq<seq<nat>>)
    ensures |r| == |inits| && forall g :: 0 <= g < |r| ==> r[g] == References(inits[g])
  {
    seq(|inits|, g requires 0 <= g < |inits| => References(inits[g]))
  }

  /** The global stands somewhere in the expression. */
  ghost predicate Mentions(n: Init, g: nat) {
    match n
    case Ref(x) => x == g
    case Calls(_, args) => exists i :: 0 <= i < |args| && Mentions(args[i], g)
    case Parts(parts) => exists i :: 0 <= i < |parts| && Mentions(parts[i], g)
  }

  lemma {:induction false} InSomePart(ns: seq<Init>, g: nat)
    ensures g in ReferencesOfAll(ns) <==> exists i :: 0 <= i < |ns| && g in References(ns[i])
  {
    if ns != [] {
      InSomePart(ns[1..], g);
      if i :| 0 <= i < |ns[1..]| && g in References(ns[1..][i]) { assert ns[1..][i] == ns[i + 1]; }
      if i :| 0 <= i < |ns| && g in References(ns[i]) { assert i > 0 ==> ns[1..][i - 1] == ns[i]; }
    }
  }

  /** The walk misses no reference in the expression itself. */
  lemma {:induction false} ReferencesComplete(n: Init, g: nat)
    ensures g in References(n) <==> Mentions(n, g)
    decreases n
  {
    match n
    case Ref(_) =>
    case Calls(_, args) =>
      forall i | 0 <= i < |args| ensures g in References(args[i]) <==> Mentions(args[i], g) {
        ReferencesComplete(args[i], g);
      }
      InSomePart(args, g);
    case Parts(parts) =>
      forall i | 0 <= i < |parts| ensures g in References(parts[i]) <==> Mentions(parts[i], g) {
        ReferencesComplete(parts[i], g);
      }
      InSomePart(parts, g);
  }

  // ---- the reference graph --------------------------------------------------------------------------

  /** For every global, the globals its initialiser refers to, in the order of checking. */
  predicate IsGraph(refs: seq<seq<nat>>) {
    forall g, k :: 0 <= g < |refs| && 0 <= k < |refs[g]| ==> refs[g][k] < |refs|
  }

  predicate Edge(refs: seq<seq<nat>>, g: nat, r: nat) { g < |refs| && r in refs[g] }

  ghost predicate IsPath(refs: seq<seq<nat>>, p: seq<nat>) {
    forall i :: 0 < i < |p| ==> Edge(refs, p[i - 1], p[i])
  }

  ghost predicate IsCycle(refs: seq<seq<nat>>, p: seq<nat>) {
    |p| > 0 && IsPath(refs, p) && Edge(refs, p[|p| - 1], p[0])
  }

  ghost predicate HasCycle(refs: seq<seq<nat>>) { exists p: seq<nat> :: IsCycle(refs, p) }

  /** Everything a global refers to comes before it. */
  ghost predicate Topological(refs: seq<seq<nat>>, order: seq<nat>) {
    forall i :: 0 <= i < |order| ==> RefsBefore(refs, order, i)
  }

  ghost predicate RefsBefore(refs: seq<seq<nat>>, order: seq<nat>, i: nat)
    requires i < |order|
  {
    forall r :: Edge(refs, order[i], r) ==> r in order[..i]
  }

  ghost predicate Distinct(order: seq<nat>) {
    forall i, j :: 0 <= i < j < |order| ==> order[i] != order[j]
  }

  /** Every global exactly once. */
  ghost predicate ListsAll(order: seq<nat>, n: nat) {
    Distinct(order) && forall g :: g in order <==> 0 <= g < n
  }

  /** A complete topological order rules out cycles: positions would fall along the whole cycle. */
  lemma {:induction false} PositionsFall(refs: seq<seq<nat>>, order: seq<nat>, p: seq<nat>, k: nat, i: nat)
      returns (j: nat)
    requires Topological(refs, order) && Distinct(order) && IsPath(refs, p)
    requires k < |p| && i < |order| && order[i] == p[0]
    ensures j + k <= i && order[j] == p[k]
    decreases k
  {
    if k == 0 {
      j := i;
    } else {
      var m := PositionsFall(refs, order, p, k - 1, i);
      assert Edge(refs, p[k - 1], p[k]) && RefsBefore(refs, order, m);
      j :| 0 <= j < m && order[..m][j] == p[k];
    }
  }

  lemma TopologicalHasNoCycle(refs: seq<seq<nat>>, order: seq<nat>)
    requires Topological(refs, order) && ListsAll(order, |refs|)
    ensures !HasCycle(refs)
  {
    forall p: seq<nat> ensures !IsCycle(refs, p) {
      if IsCycle(refs, p) {
        assert Edge(refs, p[|p| - 1], p[0]);
        if |p| > 1 {
          assert Edge(refs, p[0], p[1]);
        }
        assert p[0] in order;
        var i: nat :| i < |order| && order[i] == p[0];
        var j := PositionsFall(refs, order, p, |p| - 1, i);
        BackEdge(refs, order, i, j);
      }
    }
  }

  lemma BackEdge(refs: seq<seq<nat>>, order: seq<nat>, i: nat, j: nat)
    requires Topological(refs, order) && Distinct(order) && j <= i < |order|
    ensures !Edge(refs, order[j], order[i])
  {
    assert RefsBefore(refs, order, j);
    assert order[i] !in order[..j];
  }

  lemma TopologicalPush(refs: seq<seq<nat>>, order: seq<nat>, g: nat)
    requires Topological(refs, order) && g < |refs|
    requires forall j :: 0 <= j < |refs[g]| ==> refs[g][j] in order
    ensures Topological(refs, order + [g])
  {
    var longer := order + [g];
    forall i | 0 <= i < |longer| ensures RefsBefore(refs, longer, i) {
      assert longer[..i] == order[..i];
      if i < |order| {
        assert RefsBefore(refs, order, i);
      } else {
        assert order[..i] == order;
      }
    }
  }

  class Checker {
    const inits: seq<Init>
    const refs: seq<seq<nat>>
    const checking: array<bool>
    const isChecked: array<bool>
    var order: seq<nat>
    var errors: seq<nat>

    /** `path` is the chain of globals whose initialisers are being checked. */
    ghost predicate Valid(path: seq<nat>)
      reads this, checking, isChecked
    {
      && refs == AllReferences(inits) && IsGraph(refs)
      && checking != isChecked && checking.Length == isChecked.Length == |refs|
      && IsPath(refs, path)
      && (forall g :: g in path ==> g < |refs|)
      && (forall g :: 0 <= g < |refs| ==> (checking[g] <==> g in path))
      && Distinct(order)
      && (forall g :: g in order ==> g < |refs|)
      && (forall g :: 0 <= g < |refs| ==> (isChecked[g] <==> g in order))
      && (forall g :: g in order ==> g !in path)
      && (errors == [] ==> Topological(refs, order))
      && (errors != [] ==> HasCycle(refs))
    }

    /** The globals not yet begun. */
    ghost function Fresh(): set<nat>
      requires checking.Length == isChecked.Length == |refs|
      reads this, checking, isChecked
    {
      set g: nat | g < |refs| && !checking[g] && !isChecked[g]
    }

    constructor (inits: seq<Init>)
      requires IsGraph(AllReferences(inits))
      ensures this.inits == inits && Valid([]) && order == [] && errors == []
      ensures fresh(checking) && fresh(isChecked)
    {
      this.inits, this.refs := inits, AllReferences(inits);
      checking := new bool[|inits|](_ => false);
      isChecked := new bool[|inits|](_ => false);
      order, errors := [], [];
    }

    /** `AcuWorkspace_EnsureGlobalVarChecked`, called while the initialisers on `path` are being
        checked: afterwards `g` is in the order, or an error has been reported. */
    method Ensure(g: nat, ghost path: seq<nat>)
      requires Valid(path) && g < |refs|
      requires path != [] ==> Edge(refs, path[|path| - 1], g)
      modifies this, checking, isChecked
      ensures Valid(path)
      ensures old(order) <= order && old(errors) <= errors && Fresh() <= old(Fresh())
      ensures g in order || errors != []
      ensures path == [] ==> g in order
      ensures !old(isChecked[g]) && !old(checking[g]) && refs[g] == [] ==> order == old(order) + [g]
      decreases Fresh(), 0
    {
      if isChecked[g] { return; }
      if checking[g] {
        CycleOnPath(refs, path, g);
        errors := errors + [g];
        return;
      }
      checking[g] := true;
      ghost var longer := path + [g];
      ghost var before := old(Fresh());
      assert g in before && g !in Fresh();
      CheckExpr(inits[g], longer);
      checking[g] := false;
      isChecked[g] := true;
      if errors == [] {
        TopologicalPush(refs, order, g);
      }
      order := order + [g];
    }

    /** The walk over the initialiser of the last global on `path`. */
    method CheckExpr(n: Init, ghost path: seq<nat>)
      requires Valid(path) && path != []
      requires forall g :: g in References(n) ==> Edge(refs, path[|path| - 1], g)
      modifies this, checking, isChecked
      ensures Valid(path)
      ensures old(order) <= order && old(errors) <= errors && Fresh() <= old(Fresh())
      ensures errors == [] ==> forall g :: g in References(n) ==> g in order
      ensures References(n) == [] ==> order == old(order)
      decreases Fresh(), 1, n, 1
    {
      match n {
        case Ref(g) =>
          assert g in References(n) && Edge(refs, path[|path| - 1], g);
          Ensure(g, path);
        case Calls(_, args) =>
          assert References(n) == ReferencesOfAll(args);
          CheckParts(n, args, path);
        case Parts(parts) =>
          assert References(n) == ReferencesOfAll(parts);
          CheckParts(n, parts, path);
      }
    }

    method CheckParts(ghost parent: Init, ns: seq<Init>, ghost path: seq<nat>)
      requires forall i :: 0 <= i < |ns| ==> ns[i] < parent
      requires Valid(path) && path != []
      requires forall g :: g in ReferencesOfAll(ns) ==> Edge(refs, path[|path| - 1], g)
      modifies this, checking, isChecked
      ensures Valid(path)
      ensures old(order) <= order && old(errors) <= errors && Fresh() <= old(Fresh())
      ensures errors == [] ==> forall g :: g in ReferencesOfAll(ns) ==> g in order
      ensures ReferencesOfAll(ns) == [] ==> order == old(order)
      decreases Fresh(), 1, parent, 0
    {
      for i := 0 to |ns|
        invariant Valid(path) && old(order) <= order && old(errors) <= errors && Fresh() <= old(Fresh())
        invariant errors == [] ==> forall k :: 0 <= k < i ==> AllIn(References(ns[k]), order)
        invariant ReferencesOfAll(ns) == [] ==> order == old(order)
      {
        forall g | g in References(ns[i]) ensures Edge(refs, path[|path| - 1], g) { InSomePart(ns, g); }
        if ReferencesOfAll(ns) == [] && References(ns[i]) != [] { InSomePart(ns, References(ns[i])[0]); }
        ghost var before := order;
        CheckExpr(ns[i], path);
        forall k | 0 <= k <= i && errors == [] ensures AllIn(References(ns[k]), order) {
          if k < i { assert AllIn(References(ns[k]), before); }
        }
      }
      forall g | g in ReferencesOfAll(ns) && errors == [] ensures g in order {
        InSomePart(ns, g);
        var k :| 0 <= k < |ns| && g in References(ns[k]);
        assert AllIn(References(ns[k]), order);
      }
    }

    /** The pass over all global declarations: the order lists every global exactly once; an error is
        reported exactly when the references form a cycle, and otherwise the order is topological. */
    method CheckAll()
      requires Valid([]) && order == [] && errors == []
      modifies this, checking, isChecked
      ensures ListsAll(order, |refs|)
      ensures errors == [] <==> !HasCycle(refs)
      ensures !HasCycle(refs) ==> Topological(refs, order)
      ensures (forall g :: 0 <= g < |refs| ==> refs[g] == []) ==> order == Declared(|refs|)
    {
      for g := 0 to |refs|
        invariant Valid([]) && forall h :: 0 <= h < g ==> h in order
        invariant (forall h :: 0 <= h < |refs| ==> refs[h] == []) ==> order == Declared(g)
      {
        ghost var before := order;
        Ensure(g, []);
        forall h | h in before ensures h in order {
          var i :| 0 <= i < |before| && before[i] == h;
          assert order[i] == h;
        }
      }
      if errors == [] {
        TopologicalHasNoCycle(refs, order);
      }
    }
  }

  /** The order of declaration. */
  function Declared(n: nat): seq<nat> { seq(n, i requires 0 <= i < n => i) }

  ghost predicate AllIn(gs: seq<nat>, order: seq<nat>) { forall g :: g in gs ==> g in order }

  // ---- what an initialiser needs when it runs -------------------------------------------------------

  ghost predicate CallsFn(n: Init, fn: nat) {
    match n
    case Ref(_) => false
    case Calls(f, args) => f == fn || exists i :: 0 <= i < |args| && CallsFn(args[i], fn)
    case Parts(parts) => exists i :: 0 <= i < |parts| && CallsFn(parts[i], fn)
  }

  /** The expression, or a function called from it at most `depth` calls deep, refers to the global. */
  ghost predicate NeedsWithin(bodies: seq<Init>, n: Init, g: nat, depth: nat)
    decreases depth
  {
    Mentions(n, g) ||
    (depth > 0 && exists fn: nat :: fn < |bodies| && CallsFn(n, fn) && NeedsWithin(bodies, bodies[fn], g, depth - 1))
  }

  ghost predicate Needs(bodies: seq<Init>, n: Init, g: nat) { exists depth: nat :: NeedsWithin(bodies, n, g, depth) }

  /** Whatever an initialiser may look at when it runs has been initialised. */
  ghost predicate ReadyAt(inits: seq<Init>, bodies: seq<Init>, order: seq<nat>, i: nat)
    requires i < |order| && order[i] < |inits|
  {
    forall g: nat :: Needs(bodies, inits[order[i]], g) ==> g in order[..i]
  }

  /** The order that the pass finds makes an initialiser ready exactly if the globals that it needs only
      through calls happen to come before it, too. */
  lemma ReadyExact(inits: seq<Init>, bodies: seq<Init>, order: seq<nat>, i: nat)
    requires Topological(AllReferences(inits), order) && i < |order| && order[i] < |inits|
    ensures ReadyAt(inits, bodies, order, i) <==>
            forall g: nat :: Needs(bodies, inits[order[i]], g) && !Mentions(inits[order[i]], g) ==> g in order[..i]
  {
    assert RefsBefore(AllReferences(inits), order, i);
    forall g: nat | Mentions(inits[order[i]], g) ensures g in order[..i] {
      ReferencesComplete(inits[order[i]], g);
      assert Edge(AllReferences(inits), order[i], g);
    }
  }

  /** let a = f(); let b = ...; where f refers to b: neither refers to a global itself, so that they stay in
      the order of declaration, and a runs before b. */
  lemma CalledReferenceComesLater()
    ensures var inits, bodies := [Calls(0, []), Parts([])], [Ref(1)];
            AllReferences(inits) == [[], []] && !HasCycle(AllReferences(inits)) &&
            Declared(2) == [0, 1] && !ReadyAt(inits, bodies, [0, 1], 0)
  {
    var inits, bodies, order := [Calls(0, []), Parts([])], [Ref(1)], [0, 1];
    var refs := AllReferences(inits);
    assert refs[0] == [] && refs[1] == [];
    assert Topological(refs, order) && ListsAll(order, |refs|);
    TopologicalHasNoCycle(refs, order);
    assert NeedsWithin(bodies, bodies[0], 1, 0) && CallsFn(inits[0], 0);
    assert NeedsWithin(bodies, inits[0], 1, 1);
    assert Needs(bodies, inits[order[0]], 1) && order[..0] == [];
  }

  /** Meeting a global that is still being checked closes a cycle. */
  lemma CycleOnPath(refs: seq<seq<nat>>, path: seq<nat>, g: nat)
    requires IsPath(refs, path) && g in path && Edge(refs, path[|path| - 1], g)
    ensures HasCycle(refs)
  {
    var i: nat :| i < |path| && path[i] == g;
    var p := path[i..];
    forall k | 0 < k < |p| ensures Edge(refs, p[k - 1], p[k]) {
      assert Edge(refs, path[i + k - 1], path[i + k]);
    }
    assert IsCycle(refs, p);
  }
}
