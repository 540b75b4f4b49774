/** Open addressing with linear probing and doubling, as all hash tables of the compiler do it: what
    a table stores, why probing ends, and what insertion, replacement and rehashing keep. */
module Probing {
  import opened Words

  /** A slot is free if its id is the table's null id. */
  datatype Slot = Slot(hash: u64, id: nat)

  predicate IsFree(t: seq<Slot>, nil: nat, i: nat)
    requires i < |t|
  {
    t[i].id == nil
  }

  // ---- walking the table ----------------------------------------------------------------------------

  /** The capacity is a power of two. */
  ghost predicate IsCapacity(cap: nat) { 0 < cap < TWO_64 && exists k: nat :: Pow2(k) == cap }

  /** `hash & mask`. */
  function Home(hash: u64, cap: nat): (i: nat)
    requires 0 < cap < TWO_64
    ensures i < cap
  {
    And(hash, cap - 1)
  }

  /** `(idx + 1) & mask`. */
  function NextSlot(i: nat, cap: nat): (j: nat)
    requires i < cap < TWO_64
    ensures j < cap
  {
    BitAnd(i + 1, cap - 1)
  }

  /** The slot `k` steps from `home`. */
  function At(cap: nat, home: nat, k: nat): (i: nat)
    requires home < cap && k < cap
    ensures i < cap
  {
    if home + k < cap then home + k else home + k - cap
  }

  function Distance(cap: nat, home: nat, i: nat): (k: nat)
    requires home < cap && i < cap
    ensures k < cap && At(cap, home, k) == i
  {
    if i >= home then i - home else i + cap - home
  }

  lemma NextIsAt(cap: nat, home: nat, k: nat)
    requires IsCapacity(cap) && home < cap && k < cap
    ensures NextSlot(At(cap, home, k), cap) == if k + 1 < cap then At(cap, home, k + 1) else home
  {
    var e: nat :| Pow2(e) == cap;
    var i := At(cap, home, k);
    BitMask(i + 1, e);
    DivModUnique(i + 1, cap, if i + 1 < cap then 0 else 1, if i + 1 < cap then i + 1 else 0);
  }

  lemma Doubled(cap: nat)
    requires IsCapacity(cap) && 2 * cap < TWO_64
    ensures IsCapacity(2 * cap)
  {
    var e: nat :| Pow2(e) == cap;
    assert Pow2(e + 1) == 2 * cap;
  }

  // ---- what a table stores --------------------------------------------------------------------------

  /** The first `d` slots from `home` are taken. */
  ghost predicate Path(t: seq<Slot>, nil: nat, home: nat, d: nat)
    requires home < |t| && d <= |t|
  {
    forall k :: 0 <= k < d ==> Taken(t, nil, home, k)
  }

  predicate Taken(t: seq<Slot>, nil: nat, home: nat, k: nat)
    requires home < |t| && k < |t|
  {
    !IsFree(t, nil, At(|t|, home, k))
  }

  /** A taken slot carries its entry's hash and can be reached from that hash's home. */
  ghost predicate SlotOk(t: seq<Slot>, nil: nat, hashes: seq<u64>, i: nat)
    requires i < |t| < TWO_64
  {
    t[i].id < |hashes| && t[i].hash == hashes[t[i].id] &&
    Path(t, nil, Home(t[i].hash, |t|), Distance(|t|, Home(t[i].hash, |t|), i))
  }

  ghost predicate HasSlot(t: seq<Slot>, id: nat) {
    exists i :: 0 <= i < |t| && t[i].id == id
  }

  ghost predicate Apart(t: seq<Slot>, nil: nat, i: nat, j: nat)
    requires i < |t| && j < |t|
  {
    i != j && !IsFree(t, nil, i) && !IsFree(t, nil, j) ==> t[i].id != t[j].id
  }

  /** The table holds exactly the entries `ids`, each in one slot, found by probing. */
  ghost predicate Stores(t: seq<Slot>, nil: nat, hashes: seq<u64>, ids: set<nat>) {
    && IsCapacity(|t|)
    && (forall id :: id in ids ==> id != nil && id < |hashes| && HasSlot(t, id))
    && (forall i :: 0 <= i < |t| && !IsFree(t, nil, i) ==> t[i].id in ids && SlotOk(t, nil, hashes, i))
    && (forall i, j :: 0 <= i < |t| && 0 <= j < |t| ==> Apart(t, nil, i, j))
  }

  // ---- probing ends ---------------------------------------------------------------------------------

  /** The ids in the first `n` slots of a full table are n different ones. */
  lemma {:induction false} FullIds(t: seq<Slot>, nil: nat, hashes: seq<u64>, ids: set<nat>, n: nat)
      returns (seen: set<nat>)
    requires Stores(t, nil, hashes, ids) && n <= |t|
    requires forall i :: 0 <= i < n ==> !IsFree(t, nil, i)
    ensures seen <= ids && |seen| == n
    ensures forall id :: id in seen ==> exists i :: 0 <= i < n && t[i].id == id
    decreases n
  {
    if n == 0 {
      seen := {};
    } else {
      seen := FullIds(t, nil, hashes, ids, n - 1);
      forall i | 0 <= i < n - 1 ensures t[i].id != t[n - 1].id {
        assert Apart(t, nil, i, n - 1);
      }
      seen := seen + {t[n - 1].id};
    }
  }

  lemma SubsetSize(a: set<nat>, b: set<nat>)
    requires a <= b
    ensures |a| <= |b|
  {
    assert b == a + (b - a);
  }

  /** A table with fewer entries than slots has a free slot, so a probe never goes all the way round. */
  lemma ProbeEnds(t: seq<Slot>, nil: nat, hashes: seq<u64>, ids: set<nat>, home: nat, k: nat)
    requires Stores(t, nil, hashes, ids) && |ids| < |t| && home < |t| && k <= |t|
    requires Path(t, nil, home, k)
    ensures k < |t|
  {
    if k == |t| {
      forall i | 0 <= i < |t| ensures !IsFree(t, nil, i) {
        assert Taken(t, nil, home, Distance(|t|, home, i));
      }
      var seen := FullIds(t, nil, hashes, ids, |t|);
      SubsetSize(seen, ids);
    }
  }

  /** When a probe from `home` has come to a free slot, every entry that lives at `home` was passed. */
  lemma MissedNothing(t: seq<Slot>, nil: nat, hashes: seq<u64>, ids: set<nat>, home: nat, k: nat, id: nat)
      returns (j: nat)
    requires Stores(t, nil, hashes, ids) && home < |t| && k < |t|
    requires IsFree(t, nil, At(|t|, home, k)) && id in ids && Home(hashes[id], |t|) == home
    ensures j < k && t[At(|t|, home, j)].id == id && t[At(|t|, home, j)].hash == hashes[id]
  {
    assert HasSlot(t, id);
    var i :| 0 <= i < |t| && t[i].id == id;
    assert !IsFree(t, nil, i) && SlotOk(t, nil, hashes, i);
    j := Distance(|t|, home, i);
    PathAt(t, nil, home, j, k);
  }

  lemma PathAt(t: seq<Slot>, nil: nat, home: nat, d: nat, k: nat)
    requires home < |t| && d <= |t| && Path(t, nil, home, d) && k < |t|
    ensures k < d ==> Taken(t, nil, home, k)
  {
  }

  // ---- changes --------------------------------------------------------------------------------------

  /** Filling a slot leaves every existing path intact. */
  lemma PathKept(t: seq<Slot>, nil: nat, home: nat, d: nat, i: nat, slot: Slot)
    requires home < |t| && d <= |t| && Path(t, nil, home, d) && i < |t| && slot.id != nil
    ensures Path(t[i := slot], nil, home, d)
  {
    var u := t[i := slot];
    forall k | 0 <= k < d ensures Taken(u, nil, home, k) {
      assert Taken(t, nil, home, k);
    }
  }

  lemma Insert(t: seq<Slot>, nil: nat, hashes: seq<u64>, ids: set<nat>, k: nat, id: nat)
    requires Stores(t, nil, hashes, ids) && id < |hashes| && id !in ids && id != nil && k < |t|
    requires Path(t, nil, Home(hashes[id], |t|), k) && IsFree(t, nil, At(|t|, Home(hashes[id], |t|), k))
    ensures Stores(t[At(|t|, Home(hashes[id], |t|), k) := Slot(hashes[id], id)], nil, hashes, ids + {id})
  {
    hide Home;
    var home := Home(hashes[id], |t|);
    var at, slot := At(|t|, home, k), Slot(hashes[id], id);
    var u := t[at := slot];
    forall e | e in ids + {id} ensures e != nil && e < |hashes| && HasSlot(u, e) {
      if e == id {
        assert u[at].id == id;
      } else {
        assert HasSlot(t, e);
        var i :| 0 <= i < |t| && t[i].id == e;
        assert u[i].id == e;
      }
    }
    forall i | 0 <= i < |u| && !IsFree(u, nil, i) ensures u[i].id in ids + {id} && SlotOk(u, nil, hashes, i) {
      if i == at {
        PathKept(t, nil, home, k, at, slot);
        assert Distance(|t|, home, at) == k;
      } else {
        assert !IsFree(t, nil, i) && SlotOk(t, nil, hashes, i);
        PathKept(t, nil, Home(t[i].hash, |t|), Distance(|t|, Home(t[i].hash, |t|), i), at, slot);
      }
    }
    forall i, j | 0 <= i < |u| && 0 <= j < |u| ensures Apart(u, nil, i, j) {
      assert Apart(t, nil, i, j);
    }
  }

  /** A slot may be handed over to a newer entry with the same hash. */
  lemma Replace(t: seq<Slot>, nil: nat, hashes: seq<u64>, ids: set<nat>, at: nat, id: nat)
    requires Stores(t, nil, hashes, ids) && at < |t| && !IsFree(t, nil, at)
    requires id < |hashes| && id !in ids && id != nil && hashes[id] == t[at].hash
    ensures Stores(t[at := t[at].(id := id)], nil, hashes, ids - {t[at].id} + {id})
  {
    hide Home;
    var slot := t[at].(id := id);
    var u, new_ := t[at := slot], ids - {t[at].id} + {id};
    forall e | e in new_ ensures e != nil && e < |hashes| && HasSlot(u, e) {
      if e == id {
        assert u[at].id == id;
      } else {
        assert HasSlot(t, e);
        var i :| 0 <= i < |t| && t[i].id == e;
        assert u[i].id == e;
      }
    }
    forall i | 0 <= i < |u| && !IsFree(u, nil, i) ensures u[i].id in new_ && SlotOk(u, nil, hashes, i) {
      assert !IsFree(t, nil, i) && SlotOk(t, nil, hashes, i) && Apart(t, nil, i, at);
      PathKept(t, nil, Home(t[i].hash, |t|), Distance(|t|, Home(t[i].hash, |t|), i), at, slot);
    }
    forall i, j | 0 <= i < |u| && 0 <= j < |u| ensures Apart(u, nil, i, j) {
      assert Apart(t, nil, i, j);
    }
  }

  /** New entries do not disturb a table that does not hold them yet. */
  lemma MoreHashes(t: seq<Slot>, nil: nat, hashes: seq<u64>, ids: set<nat>, hash: u64)
    requires Stores(t, nil, hashes, ids)
    ensures Stores(t, nil, hashes + [hash], ids)
  {
    forall i | 0 <= i < |t| && !IsFree(t, nil, i) ensures SlotOk(t, nil, hashes + [hash], i) {
      assert SlotOk(t, nil, hashes, i);
    }
  }

  lemma EmptyStores(t: seq<Slot>, nil: nat, hashes: seq<u64>)
    requires IsCapacity(|t|) && forall i :: 0 <= i < |t| ==> IsFree(t, nil, i)
    ensures Stores(t, nil, hashes, {})
  {
  }

  // ---- the loops ------------------------------------------------------------------------------------

  /** Probes for a free slot. */
  method FindFree(t: array<Slot>, nil: nat, hash: u64, ghost hashes: seq<u64>, ghost ids: set<nat>)
      returns (idx: nat, ghost k: nat)
    requires Stores(t[..], nil, hashes, ids) && |ids| < t.Length
    ensures k < t.Length && idx == At(t.Length, Home(hash, t.Length), k)
    ensures Path(t[..], nil, Home(hash, t.Length), k) && IsFree(t[..], nil, idx)
  {
    hide Home;
    hide NextSlot;
    hide Stores;
    StoresCapacity(t[..], nil, hashes, ids);
    ghost var home := Home(hash, t.Length);
    idx, k := Home(hash, t.Length), 0;
    while t[idx].id != nil
      invariant k < t.Length && idx == At(t.Length, home, k)
      invariant Path(t[..], nil, home, k)
      decreases t.Length - k
    {
      assert Taken(t[..], nil, home, k);
      ProbeEnds(t[..], nil, hashes, ids, home, k + 1);
      NextIsAt(t.Length, home, k);
      idx := NextSlot(idx, t.Length);
      k := k + 1;
    }
  }

  lemma StoresCapacity(t: seq<Slot>, nil: nat, hashes: seq<u64>, ids: set<nat>)
    requires Stores(t, nil, hashes, ids)
    ensures IsCapacity(|t|)
  {
  }

  /** The entries found in the first `n` slots. */
  ghost function MovedIds(t: seq<Slot>, nil: nat, n: nat): set<nat>
    requires n <= |t|
  {
    set i | 0 <= i < n && !IsFree(t, nil, i) :: t[i].id
  }

  lemma MovedIdsSize(t: seq<Slot>, nil: nat, n: nat)
    requires n <= |t|
    ensures |MovedIds(t, nil, n)| <= n
  {
    if n == 0 {
      assert MovedIds(t, nil, 0) == {};
    } else {
      MovedIdsSize(t, nil, n - 1);
      SubsetSize(MovedIds(t, nil, n), MovedIds(t, nil, n - 1) + {t[n - 1].id});
    }
  }

  /** Every taken slot of the old table moves to a table of twice the size: the same entries. */
  method Rehash(t: array<Slot>, nil: nat, ghost hashes: seq<u64>, ghost ids: set<nat>)
      returns (new_: array<Slot>)
    requires Stores(t[..], nil, hashes, ids) && 2 * t.Length < TWO_64
    ensures fresh(new_) && new_.Length == 2 * t.Length && Stores(new_[..], nil, hashes, ids)
  {
    hide Stores;
    hide Home;
    var cap := t.Length;
    StoresCapacity(t[..], nil, hashes, ids);
    Doubled(cap);
    new_ := new Slot[2 * cap](_ => Slot(0, nil));
    EmptyStores(new_[..], nil, hashes);
    ghost var old_ := t[..];
    assert MovedIds(old_, nil, 0) == {};
    for i := 0 to cap
      invariant t[..] == old_ && fresh(new_) && new_.Length == 2 * cap
      invariant Stores(new_[..], nil, hashes, MovedIds(old_, nil, i))
    {
      var slot := t[i];
      if slot.id != nil {
        StoredAt(old_, nil, hashes, ids, i);
        MovedIdsSize(old_, nil, i);
        var idx, k := FindFree(new_, nil, slot.hash, hashes, MovedIds(old_, nil, i));
        Insert(new_[..], nil, hashes, MovedIds(old_, nil, i), k, slot.id);
        assert new_[..][idx := slot] == new_[..idx] + [slot] + new_[idx + 1..];
        new_[idx] := slot;
        assert MovedIds(old_, nil, i + 1) == MovedIds(old_, nil, i) + {slot.id};
      } else {
        assert MovedIds(old_, nil, i + 1) == MovedIds(old_, nil, i);
      }
    }
    AllMoved(old_, nil, hashes, ids);
  }

  lemma StoredAt(t: seq<Slot>, nil: nat, hashes: seq<u64>, ids: set<nat>, i: nat)
    requires Stores(t, nil, hashes, ids) && i < |t| && !IsFree(t, nil, i)
    ensures t[i].id in ids && t[i].id < |hashes| && t[i] == Slot(hashes[t[i].id], t[i].id)
    ensures t[i].id !in MovedIds(t, nil, i)
  {
    assert SlotOk(t, nil, hashes, i);
    forall j | 0 <= j < i && !IsFree(t, nil, j) ensures t[j].id != t[i].id {
      assert Apart(t, nil, j, i);
    }
  }

  lemma AllMoved(t: seq<Slot>, nil: nat, hashes: seq<u64>, ids: set<nat>)
    requires Stores(t, nil, hashes, ids)
    ensures MovedIds(t, nil, |t|) == ids
  {
    forall id | id in ids ensures id in MovedIds(t, nil, |t|) {
      assert HasSlot(t, id);
      var i :| 0 <= i < |t| && t[i].id == id;
      assert !IsFree(t, nil, i);
    }
  }

  // ---- tables of distinct values --------------------------------------------------------------------

  /** The ids of `n` entries. */
  ghost function Ids(n: nat): set<nat> { set i: nat | i < n && IsId(i, n) }

  predicate IsId(i: nat, n: nat) { i < n }

  lemma {:induction false} IdsSize(n: nat)
    ensures |Ids(n)| == n
    ensures Ids(n + 1) == Ids(n) + {n}
  {
    if n > 0 {
      IdsSize(n - 1);
    } else {
      assert Ids(0) == {};
    }
  }

  ghost function HashesOf<V>(values: seq<V>, hash: V -> u64): (r: seq<u64>)
    ensures |r| == |values|
  {
    seq(|values|, i requires 0 <= i < |values| => hash(values[i]))
  }

  lemma {:induction false} HashesPush<V>(values: seq<V>, hash: V -> u64, value: V)
    ensures HashesOf(values + [value], hash) == HashesOf(values, hash) + [hash(value)]
  {
  }

  /** The taken slot `j` steps from `home` holds some other value. */
  ghost predicate HoldsOther<V>(t: seq<Slot>, values: seq<V>, home: nat, j: nat, value: V)
    requires home < |t|
  {
    j < |t| && t[At(|t|, home, j)].id < |values| && values[t[At(|t|, home, j)].id] != value
  }

  /** A probe that has come to a free slot has met the value, if the table stores it at all. */
  lemma {:induction false} WouldHaveMet<V>(t: seq<Slot>, nil: nat, values: seq<V>, hash: V -> u64,
                                           ids: set<nat>, home: nat, k: nat, id: nat)
      returns (j: nat)
    requires Stores(t, nil, HashesOf(values, hash), ids) && home < |t| < TWO_64 && k < |t|
    requires id in ids && id < |values| && home == Home(hash(values[id]), |t|)
    requires IsFree(t, nil, At(|t|, home, k))
    ensures j < k && !HoldsOther(t, values, home, j, values[id])
  {
    hide Home;
    j := MissedNothing(t, nil, HashesOf(values, hash), ids, home, k, id);
  }

  /** Fills the free slot at the end of a probe with a new value, the last one in the list. */
  method StoreNew<V>(t: array<Slot>, nil: nat, ghost values: seq<V>, ghost hash: V -> u64, ghost ids: set<nat>,
                     idx: nat, ghost k: nat, ghost value: V, slot: Slot)
    requires Stores(t[..], nil, HashesOf(values, hash), ids) && slot == Slot(hash(value), |values|)
    requires |values| != nil && |values| !in ids
    requires k < t.Length < TWO_64 && idx == At(t.Length, Home(hash(value), t.Length), k)
    requires Path(t[..], nil, Home(hash(value), t.Length), k) && IsFree(t[..], nil, idx)
    modifies t
    ensures Stores(t[..], nil, HashesOf(values + [value], hash), ids + {|values|})
  {
    hide Home;
    hide Stores;
    hide Path;
    ghost var before := t[..];
    HashesPush(values, hash, value);
    MoreHashes(before, nil, HashesOf(values, hash), ids, hash(value));
    Insert(before, nil, HashesOf(values + [value], hash), ids, k, |values|);
    t[idx] := slot;
    assert t[..] == before[idx := slot];
  }
}
