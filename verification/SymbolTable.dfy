/** The symbol table of the analyser: an append-only list of symbols, a probed hash table that finds
    the most recent one of a name in a scope, and a forest of scopes. */
module SymbolTable {
  import opened Words
  import opened Probing

  const NULL_IDX: u32 := 0xFFFF_FFFF
  const INITIAL_CAPACITY: nat := 4096

  datatype Symbol = Symbol(kind: u16, flags: u16, name: u32, typeId: u32, scope: u32, declNode: u32, extra: u32)

  datatype Scope = Scope(parent: u32, moduleId: u32)

  /** `HashNameAndScope`. */
  function HashNameAndScope(name: u32, scope: u32): u64 {
    var k0: u64 := scope * 0x1_0000_0000 + name;
    var k1 := Xor(k0, ShrU(k0, 28));
    var k2 := Mul(k1, 0x517c_c1b7_2722_0a95);
    var k3 := Xor(k2, ShrU(k2, 28));
    Xor(k3, ShrU(k3, 32)) % 0x1_0000_0000
  }

  predicate Names(symbol: Symbol, scope: u32, name: u32) { symbol.scope == scope && symbol.name == name }

  /** The id of the symbol added last for a name in a scope. */
  function Latest(symbols: seq<Symbol>, scope: u32, name: u32): (r: Option<nat>)
    ensures match r
            case Some(i) => i < |symbols| && Names(symbols[i], scope, name) &&
                            forall j :: i < j < |symbols| ==> !Names(symbols[j], scope, name)
            case None => forall j :: 0 <= j < |symbols| ==> !Names(symbols[j], scope, name)
  {
    if symbols == [] then None
    else
      var last := |symbols| - 1;
      if Names(symbols[last], scope, name) then Some(last) else Latest(symbols[..last], scope, name)
  }

  predicate IsLatest(symbols: seq<Symbol>, i: nat)
    requires i < |symbols|
  {
    Latest(symbols, symbols[i].scope, symbols[i].name) == Some(i)
  }

  ghost function LatestIds(symbols: seq<Symbol>): set<nat> {
    set i: nat | i < |symbols| && IsLatest(symbols, i)
  }

  function HashSymbol(symbol: Symbol): u64 { HashNameAndScope(symbol.name, symbol.scope) }

  ghost function Hashes(symbols: seq<Symbol>): (r: seq<u64>)
    ensures |r| == |symbols|
  {
    HashesOf(symbols, HashSymbol)
  }

  /** A new symbol takes over from the latest one of its name and scope, and from no other. */
  lemma {:induction false} LatestPush(symbols: seq<Symbol>, symbol: Symbol)
    ensures var old_ := Latest(symbols, symbol.scope, symbol.name);
            LatestIds(symbols + [symbol]) ==
            (if old_.Some? then LatestIds(symbols) - {old_.value} else LatestIds(symbols)) + {|symbols|}
    ensures Latest(symbols, symbol.scope, symbol.name).Some? ==>
              Latest(symbols, symbol.scope, symbol.name).value in LatestIds(symbols)
  {
    var longer, old_ := symbols + [symbol], Latest(symbols, symbol.scope, symbol.name);
    assert longer[..|symbols|] == symbols;
    forall i: nat | i < |symbols|
      ensures IsLatest(longer, i) <==> IsLatest(symbols, i) && Some(i) != old_
    {
      assert longer[i] == symbols[i];
    }
    assert IsLatest(longer, |symbols|);
  }

  lemma {:induction false} LatestOf(symbols: seq<Symbol>, id: nat, scope: u32, name: u32)
    requires id in LatestIds(symbols) && Names(symbols[id], scope, name)
    ensures Latest(symbols, scope, name) == Some(id)
  {
  }

  // ---- scopes ---------------------------------------------------------------------------------------

  /** Every scope was pushed after its parent. */
  ghost predicate ParentsFirst(scopes: seq<Scope>) {
    |scopes| <= NULL_IDX &&
    forall s :: 0 <= s < |scopes| ==> scopes[s].parent == NULL_IDX || scopes[s].parent < s
  }

  predicate IsScope(scopes: seq<Scope>, scope: u32) { scope == NULL_IDX || scope < |scopes| }

  /** The scope `n` levels out. */
  function Enclosing(scopes: seq<Scope>, scope: u32, n: nat): u32
    decreases n
  {
    if n == 0 || scope >= |scopes| then scope else Enclosing(scopes, scopes[scope].parent, n - 1)
  }

  /** What a name means in a scope: the latest symbol in the nearest enclosing scope that has one. */
  ghost function Resolve(scopes: seq<Scope>, symbols: seq<Symbol>, scope: u32, name: u32): Option<nat>
    requires ParentsFirst(scopes) && IsScope(scopes, scope)
    decreases if scope == NULL_IDX then 0 else scope + 1
  {
    if scope == NULL_IDX then None
    else if Latest(symbols, scope, name).Some? then Latest(symbols, scope, name)
    else Resolve(scopes, symbols, scopes[scope].parent, name)
  }

  /** No scope up to `n` levels out has the name. */
  ghost predicate AbsentBelow(scopes: seq<Scope>, symbols: seq<Symbol>, scope: u32, name: u32, n: nat) {
    forall m: nat :: m < n && Enclosing(scopes, scope, m) != NULL_IDX ==>
      Latest(symbols, Enclosing(scopes, scope, m), name) == None
  }

  /** Resolution finds the nearest scope with the name, and nothing exactly if none has it. */
  lemma {:induction false} NearestScopeWins(scopes: seq<Scope>, symbols: seq<Symbol>, scope: u32, name: u32)
      returns (n: nat)
    requires ParentsFirst(scopes) && IsScope(scopes, scope)
    ensures AbsentBelow(scopes, symbols, scope, name, n)
    ensures match Resolve(scopes, symbols, scope, name)
            case Some(id) => Enclosing(scopes, scope, n) != NULL_IDX &&
                             Latest(symbols, Enclosing(scopes, scope, n), name) == Some(id)
            case None => Enclosing(scopes, scope, n) == NULL_IDX
    decreases if scope == NULL_IDX then 0 else scope + 1
  {
    if scope == NULL_IDX || Latest(symbols, scope, name).Some? {
      n := 0;
    } else {
      var parent := scopes[scope].parent;
      var m := NearestScopeWins(scopes, symbols, parent, name);
      n := m + 1;
      forall k: nat | k < n && Enclosing(scopes, scope, k) != NULL_IDX
        ensures Latest(symbols, Enclosing(scopes, scope, k), name) == None
      {
        if k > 0 {
          assert Enclosing(scopes, scope, k) == Enclosing(scopes, parent, k - 1);
        }
      }
      assert Enclosing(scopes, scope, n) == Enclosing(scopes, parent, m);
    }
  }

  // ---- the table ------------------------------------------------------------------------------------

  class SymbolTable {
    var symbols: seq<Symbol>
    var scopes: seq<Scope>
    var table: array<Slot>
    var count: nat

    ghost predicate Valid()
      reads this, table
    {
      && Stores(table[..], NULL_IDX, Hashes(symbols), LatestIds(symbols))
      && count == |LatestIds(symbols)| && count < table.Length && 4 <= table.Length
      && |symbols| <= NULL_IDX
    }

    /** `AcuSymbolTable_Init`. */
    constructor ()
      ensures Valid() && fresh(table) && symbols == [] && scopes == [] && ParentsFirst(scopes)
    {
      symbols, scopes, count := [], [], 0;
      table := new Slot[INITIAL_CAPACITY](_ => Slot(0, NULL_IDX));
      new;
      assert IsCapacity(INITIAL_CAPACITY) by {
        Pow2Add(6, 6);
        Pow2Values();
        assert Pow2(6) == 64 && Pow2(12) == 4096;
      }
      EmptyStores(table[..], NULL_IDX, []);
      assert LatestIds([]) == {} && Hashes([]) == [];
    }

    /** `AcuSymbolTable_PushScope`. The parent is stored unchecked: the scopes remain a forest exactly if
        it exists already. */
    method PushScope(parent: u32, moduleId: u32) returns (id: u32)
      requires Valid() && |scopes| < NULL_IDX
      modifies this`scopes
      ensures Valid() && id == |old(scopes)| && scopes == old(scopes) + [Scope(parent, moduleId)]
      ensures ParentsFirst(scopes) <==> ParentsFirst(old(scopes)) && IsScope(old(scopes), parent)
    {
      id := |scopes|;
      ghost var before := scopes;
      scopes := scopes + [Scope(parent, moduleId)];
      assert forall s :: 0 <= s < |before| ==> scopes[s] == before[s];
      assert scopes[id].parent == parent;
    }

    /** The probe loop shared by adding and looking up. */
    method Probe(scope: u32, name: u32) returns (found: bool, idx: nat, ghost k: nat)
      requires Valid()
      ensures k < table.Length && Home(HashNameAndScope(name, scope), table.Length) < table.Length
      ensures idx == At(table.Length, Home(HashNameAndScope(name, scope), table.Length), k)
      ensures Path(table[..], NULL_IDX, Home(HashNameAndScope(name, scope), table.Length), k)
      ensures found ==> !IsFree(table[..], NULL_IDX, idx) &&
                        table[idx].hash == HashNameAndScope(name, scope) &&
                        Latest(symbols, scope, name) == Some(table[idx].id)
      ensures !found ==> IsFree(table[..], NULL_IDX, idx) && Latest(symbols, scope, name) == None
    {
      hide Home;
      hide NextSlot;
      hide HashNameAndScope;
      hide Latest;
      var hash, cap := HashNameAndScope(name, scope), table.Length;
      ghost var t, ids := table[..], LatestIds(symbols);
      ghost var home := Home(hash, cap);
      found, idx, k := false, Home(hash, cap), 0;
      while table[idx].id != NULL_IDX
        invariant k < cap && idx == At(cap, home, k) && Path(t, NULL_IDX, home, k)
        invariant forall j :: 0 <= j < k ==> Other(t, symbols, home, j, scope, name)
        decreases cap - k
      {
        StoredAt(t, NULL_IDX, Hashes(symbols), ids, idx);
        assert table[idx].hash == HashSymbol(symbols[table[idx].id]);
        if table[idx].hash == hash {
          var symbol := symbols[table[idx].id];
          if symbol.name == name && symbol.scope == scope {
            LatestOf(symbols, table[idx].id, scope, name);
            return true, idx, k;
          }
        }
        assert Other(t, symbols, home, k, scope, name);
        assert Taken(t, NULL_IDX, home, k);
        ProbeEnds(t, NULL_IDX, Hashes(symbols), ids, home, k + 1);
        NextIsAt(cap, home, k);
        idx := NextSlot(idx, cap);
        k := k + 1;
      }
      if Latest(symbols, scope, name).Some? {
        var j := WouldHaveMetName(t, symbols, home, k, scope, name);
      }
    }

    /** `AcuSymbolTable_Add`: the symbol is appended, and becomes the latest one of its name. */
    method Add(symbol: Symbol) returns (id: u32)
      requires Valid() && |symbols| < NULL_IDX && 2 * table.Length < TWO_64
      modifies this, table
      ensures Valid() && (table == old(table) || fresh(table))
      ensures id == |old(symbols)| && symbols == old(symbols) + [symbol] && scopes == old(scopes)
    {
      hide Home;
      hide HashNameAndScope;
      hide Latest;
      hide Hashes;
      hide Stores;
      if count * 4 >= table.Length * 3 {
        table := Rehash(table, NULL_IDX, Hashes(symbols), LatestIds(symbols));
      }
      var hash := HashNameAndScope(symbol.name, symbol.scope);
      var found, idx, k := Probe(symbol.scope, symbol.name);
      id := |symbols|;
      ghost var t := table[..];
      if found {
        AddReplaces(symbols, symbol, t, idx);
        table[idx] := table[idx].(id := id);
        assert table[..] == t[idx := t[idx].(id := id)];
      } else {
        AddInserts(symbols, symbol, t, hash, Home(hash, table.Length), k);
        table[idx] := Slot(hash, id);
        assert table[..] == t[idx := Slot(hash, id)];
        count := count + 1;
      }
      symbols := symbols + [symbol];
    }

    /** `AcuSymbolTable_LookupExact`: the symbol added last for the name in the scope, if any. */
    method LookupExact(scope: u32, name: u32) returns (id: u32)
      requires Valid()
      ensures scope == NULL_IDX ==> id == NULL_IDX
      ensures scope != NULL_IDX ==>
                id == match Latest(symbols, scope, name) { case Some(i) => i case None => NULL_IDX }
    {
      hide Home;
      hide HashNameAndScope;
      if scope == NULL_IDX { return NULL_IDX; }
      var found, idx, _ := Probe(scope, name);
      id := if found then table[idx].id else NULL_IDX;
    }

    /** `AcuSymbolTable_Lookup`: outwards through the scopes until the name is found. */
    method Lookup(startScope: u32, name: u32) returns (id: u32)
      requires Valid() && ParentsFirst(scopes) && IsScope(scopes, startScope)
      ensures id == match Resolve(scopes, symbols, startScope, name) { case Some(i) => i case None => NULL_IDX }
    {
      hide Home;
      hide HashNameAndScope;
      hide Stores;
      var current := startScope;
      while current != NULL_IDX
        invariant IsScope(scopes, current)
        invariant Resolve(scopes, symbols, startScope, name) == Resolve(scopes, symbols, current, name)
        decreases if current == NULL_IDX then 0 else current + 1
      {
        id := LookupExact(current, name);
        if id != NULL_IDX { return; }
        current := scopes[current].parent;
      }
      id := NULL_IDX;
    }
  }

  /** The taken slot `j` steps from `home` holds some other name. */
  ghost predicate Other(t: seq<Slot>, symbols: seq<Symbol>, home: nat, j: nat, scope: u32, name: u32)
    requires home < |t|
  {
    j < |t| && t[At(|t|, home, j)].id < |symbols| && !Names(symbols[t[At(|t|, home, j)].id], scope, name)
  }

  /** A probe that has come to a free slot has met the name, if it is there at all. */
  lemma {:induction false} WouldHaveMetName(t: seq<Slot>, symbols: seq<Symbol>, home: nat, k: nat,
                                             scope: u32, name: u32)
      returns (j: nat)
    requires Stores(t, NULL_IDX, Hashes(symbols), LatestIds(symbols)) && home < |t| < TWO_64 && k < |t|
    requires home == Home(HashNameAndScope(name, scope), |t|) && IsFree(t, NULL_IDX, At(|t|, home, k))
    requires Latest(symbols, scope, name).Some?
    ensures j < k && !Other(t, symbols, home, j, scope, name)
  {
    hide Home;
    hide HashNameAndScope;
    var id := Latest(symbols, scope, name).value;
    assert IsLatest(symbols, id) && id in LatestIds(symbols);
    assert Hashes(symbols)[id] == HashSymbol(symbols[id]);
    j := MissedNothing(t, NULL_IDX, Hashes(symbols), LatestIds(symbols), home, k, id);
  }

  /** Handing the slot of the latest symbol of a name to a newer one. */
  lemma {:induction false} AddReplaces(symbols: seq<Symbol>, symbol: Symbol, t: seq<Slot>, idx: nat)
    requires Stores(t, NULL_IDX, Hashes(symbols), LatestIds(symbols)) && |symbols| < NULL_IDX && idx < |t|
    requires !IsFree(t, NULL_IDX, idx) && t[idx].hash == HashNameAndScope(symbol.name, symbol.scope)
    requires Latest(symbols, symbol.scope, symbol.name) == Some(t[idx].id)
    ensures Stores(t[idx := t[idx].(id := |symbols|)], NULL_IDX,
                   Hashes(symbols + [symbol]), LatestIds(symbols + [symbol]))
    ensures |LatestIds(symbols + [symbol])| == |LatestIds(symbols)|
  {
    hide Stores;
    hide Latest;
    hide HashNameAndScope;
    var longer, ids := symbols + [symbol], LatestIds(symbols);
    LatestPush(symbols, symbol);
    HashesPush(symbols, HashSymbol, symbol);
    MoreHashes(t, NULL_IDX, Hashes(symbols), ids, t[idx].hash);
    Probing.Replace(t, NULL_IDX, Hashes(longer), ids, idx, |symbols|);
  }

  /** Filling a free slot with the first symbol of a name. */
  lemma {:induction false} AddInserts(symbols: seq<Symbol>, symbol: Symbol, t: seq<Slot>, hash: u64, home: nat, k: nat)
    requires Stores(t, NULL_IDX, Hashes(symbols), LatestIds(symbols)) && |symbols| < NULL_IDX
    requires k < |t| < TWO_64 && Latest(symbols, symbol.scope, symbol.name) == None
    requires hash == HashNameAndScope(symbol.name, symbol.scope) && home == Home(hash, |t|)
    requires Path(t, NULL_IDX, home, k) && IsFree(t, NULL_IDX, At(|t|, home, k))
    ensures Stores(t[At(|t|, home, k) := Slot(hash, |symbols|)], NULL_IDX,
                   Hashes(symbols + [symbol]), LatestIds(symbols + [symbol]))
    ensures |LatestIds(symbols + [symbol])| == |LatestIds(symbols)| + 1
  {
    hide Stores;
    hide Latest;
    hide Home;
    hide HashNameAndScope;
    var longer, ids := symbols + [symbol], LatestIds(symbols);
    LatestPush(symbols, symbol);
    HashesPush(symbols, HashSymbol, symbol);
    MoreHashes(t, NULL_IDX, Hashes(symbols), ids, hash);
    Insert(t, NULL_IDX, Hashes(longer), ids, k, |symbols|);
  }
}
