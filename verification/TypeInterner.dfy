/** The type interner: structurally equal types have one id. Field and parameter lists live in one
    shared array of extra words, and types point into it. */
module TypeInterner {
  import opened Words
  import opened Probing

  const NULL_ID: nat := 0xFFFF_FFFF
  const INITIAL_CAPACITY: nat := 4096
  const PRIMITIVE_KINDS: nat := 15
  const FNV_OFFSET: u32 := 2166136261
  const FNV_PRIME: u32 := 16777619

  /** A type as it is stored: tuples and functions name a slice of the extra words. */
  datatype RawType =
    | RawPrimitive(kind: u32)
    | RawArray(inner: u32, size: u32)
    | RawVector(inner: u32)
    | RawTuple(start: nat, count: nat)
    | RawFunc(ret: u32, start: nat, count: nat)

  /** A type as it is meant. */
  datatype Type =
    | Primitive(kind: u32)
    | Array(inner: u32, size: u32)
    | Vector(inner: u32)
    | Tuple(fields: seq<u32>)
    | Func(ret: u32, params: seq<u32>)

  /** The stored type's slice lies inside the extra words. */
  predicate Fits(t: RawType, extra: seq<u32>) {
    match t
    case RawTuple(start, count) => start + count <= |extra|
    case RawFunc(_, start, count) => start + count <= |extra|
    case _ => true
  }

  /** What a stored type means. */
  function Read(t: RawType, extra: seq<u32>): Type
    requires Fits(t, extra)
  {
    match t
    case RawPrimitive(kind) => Primitive(kind)
    case RawArray(inner, size) => Array(inner, size)
    case RawVector(inner) => Vector(inner)
    case RawTuple(start, count) => Tuple(extra[start..start + count])
    case RawFunc(ret, start, count) => Func(ret, extra[start..start + count])
  }

  /** A lookup key comes with its own slice; its start field is not set yet. */
  predicate IsKey(t: RawType, slice: seq<u32>) {
    match t
    case RawTuple(_, count) => count == |slice|
    case RawFunc(_, _, count) => count == |slice|
    case _ => slice == []
  }

  function Key(t: RawType, slice: seq<u32>): Type
    requires IsKey(t, slice)
  {
    match t
    case RawPrimitive(kind) => Primitive(kind)
    case RawArray(inner, size) => Array(inner, size)
    case RawVector(inner) => Vector(inner)
    case RawTuple(_, _) => Tuple(slice)
    case RawFunc(ret, _, _) => Func(ret, slice)
  }

  // ---- hashing --------------------------------------------------------------------------------------

  function Mix(hash: u32, v: u32): u32 {
    Xor(hash, v) * FNV_PRIME % 0x1_0000_0000
  }

  function MixAll(hash: u32, vs: seq<u32>): u32 {
    if vs == [] then hash else Mix(MixAll(hash, vs[..|vs| - 1]), vs[|vs| - 1])
  }

  /** The hash of a type, as a function of what it means. */
  function HashOf(t: Type): u64 {
    match t
    case Primitive(kind) => Mix(Mix(FNV_OFFSET, 0), kind)
    case Array(inner, size) => Mix(Mix(Mix(FNV_OFFSET, 1), inner), size)
    case Vector(inner) => Mix(Mix(FNV_OFFSET, 2), inner)
    case Tuple(fields) => MixAll(Mix(Mix(FNV_OFFSET, 3), |fields| % 0x1_0000_0000), fields)
    case Func(ret, params) =>
      MixAll(Mix(Mix(Mix(FNV_OFFSET, 4), ret), |params| % 0x1_0000_0000), params)
  }

  method MixSlice(hash: u32, slice: seq<u32>) returns (r: u32)
    ensures r == MixAll(hash, slice)
  {
    hide Mix;
    r := hash;
    for i := 0 to |slice|
      invariant r == MixAll(hash, slice[..i])
    {
      assert slice[..i + 1][..i] == slice[..i];
      r := Mix(r, slice[i]);
    }
    assert slice[..|slice|] == slice;
  }

  /** `HashType`: it looks at the contents of the slice, not at where the slice lies. */
  method HashType(t: RawType, slice: seq<u32>) returns (hash: u64)
    requires IsKey(t, slice)
    ensures hash == HashOf(Key(t, slice))
  {
    hide Mix;
    hide MixAll;
    match t {
      case RawPrimitive(kind) => hash := Mix(Mix(FNV_OFFSET, 0), kind);
      case RawArray(inner, size) => hash := Mix(Mix(Mix(FNV_OFFSET, 1), inner), size);
      case RawVector(inner) => hash := Mix(Mix(FNV_OFFSET, 2), inner);
      case RawTuple(_, count) =>
        hash := MixSlice(Mix(Mix(FNV_OFFSET, 3), count % 0x1_0000_0000), slice);
      case RawFunc(ret, _, count) =>
        hash := MixSlice(Mix(Mix(Mix(FNV_OFFSET, 4), ret), count % 0x1_0000_0000), slice);
    }
  }

  /** `EqType`: a stored type against a lookup key, slices compared word by word. */
  predicate EqType(a: RawType, b: RawType, extra: seq<u32>, slice: seq<u32>)
    requires Fits(a, extra) && IsKey(b, slice)
  {
    match a
    case RawPrimitive(kind) => b.RawPrimitive? && b.kind == kind
    case RawArray(inner, size) => b.RawArray? && b.inner == inner && b.size == size
    case RawVector(inner) => b.RawVector? && b.inner == inner
    case RawTuple(start, count) =>
      b.RawTuple? && b.count == count && (count == 0 || extra[start..start + count] == slice)
    case RawFunc(ret, start, count) =>
      b.RawFunc? && b.ret == ret && b.count == count && (count == 0 || extra[start..start + count] == slice)
  }

  /** The comparison is structural equality. */
  lemma EqTypeIsStructural(a: RawType, b: RawType, extra: seq<u32>, slice: seq<u32>)
    requires Fits(a, extra) && IsKey(b, slice)
    ensures EqType(a, b, extra, slice) <==> Read(a, extra) == Key(b, slice)
  {
    match a {
      case RawTuple(start, count) => assert count == 0 ==> extra[start..start + count] == [];
      case RawFunc(_, start, count) => assert count == 0 ==> extra[start..start + count] == [];
      case _ =>
    }
  }

  // ---- the interner ---------------------------------------------------------------------------------

  ghost predicate AllFit(types: seq<RawType>, extra: seq<u32>) {
    forall i :: 0 <= i < |types| ==> Fits(types[i], extra)
  }

  ghost function Meanings(types: seq<RawType>, extra: seq<u32>): (r: seq<Type>)
    requires AllFit(types, extra)
    ensures |r| == |types|
    ensures forall i :: 0 <= i < |types| ==> r[i] == Read(types[i], extra)
  {
    seq(|types|, i requires 0 <= i < |types| => Read(types[i], extra))
  }

  ghost predicate AllDifferent(values: seq<Type>) {
    forall i, j :: 0 <= i < j < |values| ==> values[i] != values[j]
  }

  /** More extra words change no stored type. */
  lemma {:induction false} MeaningsKept(types: seq<RawType>, extra: seq<u32>, more: seq<u32>)
    requires AllFit(types, extra)
    ensures AllFit(types, extra + more) && Meanings(types, extra + more) == Meanings(types, extra)
  {
    forall i | 0 <= i < |types|
      ensures Fits(types[i], extra + more) && Read(types[i], extra + more) == Read(types[i], extra)
    {
      ReadKept(types[i], extra, more);
    }
  }

  lemma ReadKept(t: RawType, extra: seq<u32>, more: seq<u32>)
    requires Fits(t, extra)
    ensures Fits(t, extra + more) && Read(t, extra + more) == Read(t, extra)
  {
    match t {
      case RawTuple(start, count) => SliceKept(extra, more, start, start + count);
      case RawFunc(_, start, count) => SliceKept(extra, more, start, start + count);
      case _ =>
    }
  }

  lemma SliceKept(extra: seq<u32>, more: seq<u32>, lo: nat, hi: nat)
    requires lo <= hi <= |extra|
    ensures (extra + more)[lo..hi] == extra[lo..hi]
  {
  }

  /** The type as it is stored: pointed at its slice, appended to the extra words. */
  function Placed(t: RawType, start: nat): RawType {
    match t
    case RawTuple(_, count) => RawTuple(start, count)
    case RawFunc(ret, _, count) => RawFunc(ret, start, count)
    case _ => t
  }

  lemma PlacedReads(t: RawType, extra: seq<u32>, slice: seq<u32>)
    requires IsKey(t, slice)
    ensures Fits(Placed(t, |extra|), extra + slice) && Read(Placed(t, |extra|), extra + slice) == Key(t, slice)
  {
    assert (extra + slice)[|extra|..|extra| + |slice|] == slice;
  }

  class TypeInterner {
    var types: seq<RawType>
    var extra: seq<u32>
    var table: array<Slot>
    var count: nat

    ghost predicate Valid()
      reads this, table
    {
      && AllFit(types, extra)
      && Stores(table[..], NULL_ID, HashesOf(Meanings(types, extra), HashOf), Ids(|types|))
      && AllDifferent(Meanings(types, extra))
      && count == |types| < table.Length && 4 <= table.Length && |types| <= NULL_ID
    }

    /** The types behind the ids. */
    ghost function Contents(): seq<Type>
      requires AllFit(types, extra)
      reads this
    {
      Meanings(types, extra)
    }

    /** `AcuTypeInterner_Init`: the primitive kinds are interned first, in the order of their
        numbers, so that each kind is its own id. */
    constructor ()
      ensures Valid() && fresh(table)
      ensures Contents() == seq(PRIMITIVE_KINDS, i requires 0 <= i < PRIMITIVE_KINDS => Primitive(i))
    {
      types, extra, count := [], [], 0;
      table := new Slot[INITIAL_CAPACITY](_ => Slot(0, NULL_ID));
      new;
      assert IsCapacity(INITIAL_CAPACITY) by {
        Pow2Add(6, 6);
        assert Pow2(6) == 64 && Pow2(12) == 4096;
      }
      EmptyStores(table[..], NULL_ID, []);
      assert Ids(0) == {} && HashesOf(Meanings(types, extra), HashOf) == [];
      for kind := 0 to PRIMITIVE_KINDS
        invariant Valid() && fresh(table) && table.Length == INITIAL_CAPACITY
        invariant Contents() == seq(kind, i requires 0 <= i < kind => Primitive(i))
      {
        var id := GetPrimitive(kind);
      }
    }

    /** `AcuTypeInterner_Intern`: the one id of the type, new if the type is. Ids given out before
        keep their types. */
    method Intern(lookup: RawType, slice: seq<u32>) returns (id: nat)
      requires Valid() && IsKey(lookup, slice) && |types| < NULL_ID && 2 * table.Length < TWO_64
      modifies this, table
      ensures Valid() && (table == old(table) || fresh(table))
      ensures old(count * 4 < table.Length * 3) ==> table == old(table)
      ensures id < |types| && forall i :: 0 <= i < |types| ==> (Contents()[i] == Key(lookup, slice) <==> i == id)
      ensures Contents() == if Key(lookup, slice) in old(Contents()) then old(Contents())
                            else old(Contents()) + [Key(lookup, slice)]
    {
      hide Path;
      hide IsFree;
      hide Home;
      hide HashOf;
      hide Stores;
      hide Read;
      hide HashesOf;
      var hash := HashType(lookup, slice);
      ghost var value, was := Key(lookup, slice), Contents();
      IdsSize(|types|);
      var found, idx, k := Find(lookup, slice, hash);
      if found { return table[idx].id; }
      if count * 4 >= table.Length * 3 {
        table := Rehash(table, NULL_ID, HashesOf(was, HashOf), Ids(|types|));
        idx, k := FindFree(table, NULL_ID, hash, HashesOf(was, HashOf), Ids(|types|));
      }
      id := |types|;
      MeaningsPush(types, extra, lookup, slice);
      types := types + [Placed(lookup, |extra|)];
      extra := extra + slice;
      StoreNew(table, NULL_ID, was, HashOf, Ids(id), idx, k, value, Slot(hash, id));
      count := count + 1;
      assert Contents() == was + [value];
    }

    /** The probe loop: the slot of the type, or the free slot it would go to. */
    method Find(lookup: RawType, slice: seq<u32>, hash: u64) returns (found: bool, idx: nat, ghost k: nat)
      requires Valid() && IsKey(lookup, slice) && hash == HashOf(Key(lookup, slice))
      ensures k < table.Length && idx == At(table.Length, Home(hash, table.Length), k)
      ensures Path(table[..], NULL_ID, Home(hash, table.Length), k)
      ensures found ==> table[idx].id < |types| && Contents()[table[idx].id] == Key(lookup, slice)
      ensures !found ==> IsFree(table[..], NULL_ID, idx) && Key(lookup, slice) !in Contents()
    {
      hide Home;
      hide HashOf;
      hide NextSlot;
      hide EqType;
      hide Read;
      hide Key;
      hide Stores;
      var cap := table.Length;
      StoresCapacity(table[..], NULL_ID, HashesOf(Contents(), HashOf), Ids(|types|));
      ghost var t, home, values, value := table[..], Home(hash, cap), Contents(), Key(lookup, slice);
      IdsSize(|types|);
      found, idx, k := false, Home(hash, cap), 0;
      while table[idx].id != NULL_ID
        invariant k < cap && idx == At(cap, home, k) && Path(t, NULL_ID, home, k)
        invariant forall j :: 0 <= j < k ==> HoldsOther(t, values, home, j, value)
        decreases cap - k
      {
        StoredAt(t, NULL_ID, HashesOf(values, HashOf), Ids(|types|), idx);
        if table[idx].hash == hash {
          EqTypeIsStructural(types[table[idx].id], lookup, extra, slice);
          if EqType(types[table[idx].id], lookup, extra, slice) {
            return true, idx, k;
          }
        }
        assert HoldsOther(t, values, home, k, value);
        assert Taken(t, NULL_ID, home, k);
        ProbeEnds(t, NULL_ID, HashesOf(values, HashOf), Ids(|types|), home, k + 1);
        NextIsAt(cap, home, k);
        idx := NextSlot(idx, cap);
        k := k + 1;
      }
      if value in values {
        ghost var id: nat :| id < |values| && values[id] == value;
        ghost var j := WouldHaveMet(t, NULL_ID, values, HashOf, Ids(|types|), home, k, id);
      }
    }

    method GetPrimitive(kind: u32) returns (id: nat)
      requires Valid() && |types| < NULL_ID && 2 * table.Length < TWO_64
      modifies this, table
      ensures Valid() && (table == old(table) || fresh(table))
      ensures old(count * 4 < table.Length * 3) ==> table == old(table)
      ensures id < |types| && Contents()[id] == Primitive(kind)
      ensures Contents() == if Primitive(kind) in old(Contents()) then old(Contents())
                            else old(Contents()) + [Primitive(kind)]
    {
      id := Intern(RawPrimitive(kind), []);
    }

    method GetFunc(ret: u32, params: seq<u32>) returns (id: nat)
      requires Valid() && |types| < NULL_ID && 2 * table.Length < TWO_64
      modifies this, table
      ensures Valid() && (table == old(table) || fresh(table))
      ensures id < |types| && Contents()[id] == Func(ret, params)
      ensures Contents() == if Func(ret, params) in old(Contents()) then old(Contents())
                            else old(Contents()) + [Func(ret, params)]
    {
      id := Intern(RawFunc(ret, 0, |params|), params);
    }
  }

  /** Storing a new type behind the others. */
  lemma {:induction false} MeaningsPush(types: seq<RawType>, extra: seq<u32>, lookup: RawType, slice: seq<u32>)
    requires AllFit(types, extra) && IsKey(lookup, slice)
    ensures AllFit(types + [Placed(lookup, |extra|)], extra + slice)
    ensures Meanings(types + [Placed(lookup, |extra|)], extra + slice) == Meanings(types, extra) + [Key(lookup, slice)]
  {
    hide Read;
    hide Fits;
    hide Placed;
    hide Key;
    hide IsKey;
    MeaningsKept(types, extra, slice);
    PlacedReads(lookup, extra, slice);
    assert forall i :: 0 <= i < |types| ==> Meanings(types, extra + slice)[i] == Meanings(types, extra)[i];
  }
}
