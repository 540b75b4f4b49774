/** The constant pool of a chunk: every 64-bit value has one id, and ids never change. */
module ConstantPool {
  import opened Words
  import opened Probing

  const NULL_ID: nat := 0xFFFF
  const INITIAL_CAPACITY: nat := 64

  /** `AcuHash_U64`. */
  function HashU64(x: u64): u64 {
    var x1 := Mul(Xor(x, ShrU(x, 30)), 0xbf58_476d_1ce4_e5b9);
    var x2 := Mul(Xor(x1, ShrU(x1, 27)), 0x94d0_49bb_1331_11eb);
    Xor(x2, ShrU(x2, 31))
  }

  ghost function Hashes(values: seq<u64>): seq<u64> { HashesOf(values, HashU64) }

  ghost predicate AllDifferent(values: seq<u64>) {
    forall i, j :: 0 <= i < j < |values| ==> values[i] != values[j]
  }

  class ConstantPool {
    var constants: seq<u64>
    var table: array<Slot>
    var count: nat

    ghost predicate Valid()
      reads this, table
    {
      && Stores(table[..], NULL_ID, Hashes(constants), Ids(|constants|))
      && AllDifferent(constants)
      && count == |constants| < table.Length && 4 <= table.Length && |constants| <= NULL_ID
    }

    constructor ()
      ensures Valid() && fresh(table) && constants == []
    {
      constants, count := [], 0;
      table := new Slot[INITIAL_CAPACITY](_ => Slot(0, NULL_ID));
      new;
      assert IsCapacity(INITIAL_CAPACITY) by {
        assert Pow2(6) == 64;
      }
      EmptyStores(table[..], NULL_ID, []);
      assert Ids(0) == {} && Hashes([]) == [];
    }

    /** `AcuConstantPool_Intern`: the one id of the value, new if the value is. Ids given out before
        keep their values. */
    method Intern(value: u64) returns (id: nat)
      requires Valid() && |constants| < NULL_ID && 2 * table.Length < TWO_64
      modifies this, table
      ensures Valid() && (table == old(table) || fresh(table))
      ensures id < |constants| && forall i :: 0 <= i < |constants| ==> (constants[i] == value <==> i == id)
      ensures constants == if value in old(constants) then old(constants) else old(constants) + [value]
    {
      hide Home;
      hide HashU64;
      hide NextSlot;
      hide Stores;
      var hash := HashU64(value);
      IdsSize(|constants|);
      var found, idx, k := Find(value);
      if found { return table[idx].id; }
      if count * 4 >= table.Length * 3 {
        table := Rehash(table, NULL_ID, Hashes(constants), Ids(|constants|));
        idx, k := FindFree(table, NULL_ID, hash, Hashes(constants), Ids(|constants|));
      }
      id := |constants|;
      StoreNew(table, NULL_ID, constants, HashU64, Ids(id), idx, k, value, Slot(hash, id));
      constants := constants + [value];
      count := count + 1;
    }

    /** The probe loop: the slot of the value, or the free slot it would go to. */
    method Find(value: u64) returns (found: bool, idx: nat, ghost k: nat)
      requires Valid()
      ensures k < table.Length && idx == At(table.Length, Home(HashU64(value), table.Length), k)
      ensures Path(table[..], NULL_ID, Home(HashU64(value), table.Length), k)
      ensures found ==> table[idx].id < |constants| && constants[table[idx].id] == value
      ensures !found ==> IsFree(table[..], NULL_ID, idx) && value !in constants
    {
      hide Home;
      hide HashU64;
      hide NextSlot;
      var hash, cap := HashU64(value), table.Length;
      ghost var t, home := table[..], Home(hash, cap);
      IdsSize(|constants|);
      found, idx, k := false, Home(hash, cap), 0;
      while table[idx].id != NULL_ID
        invariant k < cap && idx == At(cap, home, k) && Path(t, NULL_ID, home, k)
        invariant forall j :: 0 <= j < k ==> HoldsOther(t, constants, home, j, value)
        decreases cap - k
      {
        StoredAt(t, NULL_ID, Hashes(constants), Ids(|constants|), idx);
        if table[idx].hash == hash && constants[table[idx].id] == value {
          return true, idx, k;
        }
        assert HoldsOther(t, constants, home, k, value);
        assert Taken(t, NULL_ID, home, k);
        ProbeEnds(t, NULL_ID, Hashes(constants), Ids(|constants|), home, k + 1);
        NextIsAt(cap, home, k);
        idx := NextSlot(idx, cap);
        k := k + 1;
      }
      if value in constants {
        ghost var id: nat :| id < |constants| && constants[id] == value;
        ghost var j := WouldHaveMet(t, NULL_ID, constants, HashU64, Ids(|constants|), home, k, id);
      }
    }

    /** `AcuConstantPool_Get`. */
    method Get(id: nat) returns (value: u64)
      ensures value == if id < |constants| then constants[id] else 0
    {
      value := if id >= |constants| then 0 else constants[id];
    }
  }
}
