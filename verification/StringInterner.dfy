/** The string interner: equal strings have one id. The bytes of all strings lie behind each other in
    one buffer, each string closed by a zero byte; id 0 is the empty string, which no table slot holds. */
module StringInterner {
  import opened Words
  import opened Probing

  const NULL_ID: nat := 0xFFFF_FFFF
  const INITIAL_CAPACITY: nat := 8192
  const MULTIPLIER: u64 := 0x517c_c1b7_2722_0a95
  const SEED: u64 := 0xcbf2_9ce4_8422_2325

  // ---- hashing --------------------------------------------------------------------------------------

  /** The number in these bytes, the first byte lowest. */
  function LittleEndian(data: seq<u8>): nat {
    if data == [] then 0 else data[0] + 256 * LittleEndian(data[1..])
  }

  /** The body of `StringView_Hash`: eight bytes at a time, then four, two and one. */
  function MixBytes(hash: u64, data: seq<u8>): u64
    decreases |data|
  {
    if data == [] then hash
    else
      var n := if |data| >= 8 then 8 else if |data| >= 4 then 4 else if |data| >= 2 then 2 else 1;
      MixBytes(Mul(Xor(hash, LittleEndian(data[..n]) % TWO_64), MULTIPLIER), data[n..])
  }

  /** `(u32)StringView_Hash(sv)`. */
  function Hash32(text: seq<u8>): u64 {
    var h := Xor(MixBytes(SEED, text), |text| % TWO_64);
    var h := Mul(Xor(h, ShrU(h, 32)), MULTIPLIER);
    Xor(h, ShrU(h, 32)) % 0x1_0000_0000
  }

  // ---- strings in the buffer ------------------------------------------------------------------------

  datatype Span = Span(offset: nat, length: nat)

  /** The string and its closing zero lie inside the buffer. */
  predicate Fits(s: Span, chars: seq<u8>) {
    s.offset + s.length < |chars| && chars[s.offset + s.length] == 0
  }

  ghost predicate AllFit(strings: seq<Span>, chars: seq<u8>) {
    forall i :: 0 <= i < |strings| ==> Fits(strings[i], chars)
  }

  function Text(s: Span, chars: seq<u8>): seq<u8>
    requires Fits(s, chars)
  {
    chars[s.offset..s.offset + s.length]
  }

  ghost function Texts(strings: seq<Span>, chars: seq<u8>): (r: seq<seq<u8>>)
    requires AllFit(strings, chars)
    ensures |r| == |strings|
    ensures forall i :: 0 <= i < |strings| ==> r[i] == Text(strings[i], chars)
  {
    seq(|strings|, i requires 0 <= i < |strings| => Text(strings[i], chars))
  }

  ghost predicate AllDifferent(values: seq<seq<u8>>) {
    forall i, j :: 0 <= i < j < |values| ==> values[i] != values[j]
  }

  /** Appending a string and its closing zero adds its text and moves no other. */
  lemma {:induction false} TextsPush(strings: seq<Span>, chars: seq<u8>, text: seq<u8>)
    requires AllFit(strings, chars)
    ensures AllFit(strings + [Span(|chars|, |text|)], chars + text + [0])
    ensures Texts(strings + [Span(|chars|, |text|)], chars + text + [0]) == Texts(strings, chars) + [text]
  {
    var more := chars + text + [0];
    assert more[|chars|..|chars| + |text|] == text;
    forall i | 0 <= i < |strings|
      ensures Fits(strings[i], more) && Text(strings[i], more) == Text(strings[i], chars)
    {
      assert Fits(strings[i], chars);
    }
  }

  /** The ids held by a table slot. */
  ghost function TableIds(n: nat): set<nat> { Ids(n) - {0} }

  lemma TableIdsGrow(n: nat)
    requires 0 < n
    ensures |TableIds(n)| == n - 1 && n !in TableIds(n) && 0 !in TableIds(n)
    ensures TableIds(n + 1) == TableIds(n) + {n}
    ensures forall id :: 0 < id < n ==> id in TableIds(n)
  {
    IdsSize(n);
    assert forall id: nat :: IsId(id, n) ==> id in Ids(n);
  }

  class StringInterner {
    var chars: seq<u8>
    var strings: seq<Span>
    var table: array<Slot>
    var count: nat

    ghost predicate Valid()
      reads this, table
    {
      && AllFit(strings, chars) && 0 < |strings| <= NULL_ID && strings[0].length == 0
      && Stores(table[..], NULL_ID, HashesOf(Contents(), Hash32), TableIds(|strings|))
      && AllDifferent(Contents())
      && count == |strings| - 1 < table.Length && 4 <= table.Length
    }

    /** The strings behind the ids. */
    ghost function Contents(): seq<seq<u8>>
      requires AllFit(strings, chars)
      reads this
    {
      Texts(strings, chars)
    }

    /** `AcuStringInterner_Init`. */
    constructor ()
      ensures Valid() && fresh(table) && Contents() == [[]]
    {
      chars, strings, count := [0], [Span(0, 0)], 0;
      table := new Slot[INITIAL_CAPACITY](_ => Slot(0, NULL_ID));
      new;
      assert IsCapacity(INITIAL_CAPACITY) by {
        Pow2Add(6, 7);
        assert Pow2(6) == 64 && Pow2(7) == 128 && Pow2(13) == 8192;
      }
      EmptyStores(table[..], NULL_ID, HashesOf(Contents(), Hash32));
      assert TableIds(1) == {};
    }

    /** `AcuStringInterner_Intern`: the one id of the string, new if the string is. Ids given out
        before keep their strings. */
    method Intern(text: seq<u8>) returns (id: nat)
      requires Valid() && |strings| < NULL_ID && 2 * table.Length < TWO_64
      modifies this, table
      ensures Valid() && (table == old(table) || fresh(table))
      ensures id < |strings| && forall i :: 0 <= i < |strings| ==> (Contents()[i] == text <==> i == id)
      ensures Contents() == if text in old(Contents()) then old(Contents()) else old(Contents()) + [text]
    {
      hide Path;
      hide IsFree;
      hide Home;
      hide Hash32;
      hide Stores;
      hide HashesOf;
      hide TableIds;
      if text == [] {
        assert Contents()[0] == [];
        return 0;
      }
      hide Text;
      var hash := Hash32(text);
      ghost var was, ids := Contents(), TableIds(|strings|);
      TableIdsGrow(|strings|);
      var found, idx, k := Find(text, hash);
      if found { return table[idx].id; }
      if count * 4 >= table.Length * 3 {
        table := Rehash(table, NULL_ID, HashesOf(was, Hash32), ids);
        idx, k := FindFree(table, NULL_ID, hash, HashesOf(was, Hash32), ids);
      }
      id := |strings|;
      TextsPush(strings, chars, text);
      strings := strings + [Span(|chars|, |text|)];
      chars := chars + text + [0];
      StoreNew(table, NULL_ID, was, Hash32, ids, idx, k, text, Slot(hash, id));
      count := count + 1;
    }

    /** The probe loop: the slot of the string, or the free slot it would go to. */
    method Find(text: seq<u8>, hash: u64) returns (found: bool, idx: nat, ghost k: nat)
      requires Valid() && hash == Hash32(text) && text != []
      ensures k < table.Length && idx == At(table.Length, Home(hash, table.Length), k)
      ensures Path(table[..], NULL_ID, Home(hash, table.Length), k)
      ensures found ==> table[idx].id < |strings| && Contents()[table[idx].id] == text
      ensures !found ==> IsFree(table[..], NULL_ID, idx) && text !in Contents()
    {
      hide Home;
      hide Hash32;
      hide NextSlot;
      hide Stores;
      hide TableIds;
      var cap := table.Length;
      StoresCapacity(table[..], NULL_ID, HashesOf(Contents(), Hash32), TableIds(|strings|));
      ghost var t, home, values, ids := table[..], Home(hash, cap), Contents(), TableIds(|strings|);
      TableIdsGrow(|strings|);
      found, idx, k := false, Home(hash, cap), 0;
      while table[idx].id != NULL_ID
        invariant k < cap && idx == At(cap, home, k) && Path(t, NULL_ID, home, k)
        invariant forall j :: 0 <= j < k ==> HoldsOther(t, values, home, j, text)
        decreases cap - k
      {
        StoredAt(t, NULL_ID, HashesOf(values, Hash32), ids, idx);
        if table[idx].hash == hash {
          var s := strings[table[idx].id];
          if s.length == |text| && chars[s.offset..s.offset + s.length] == text {
            return true, idx, k;
          }
        }
        assert HoldsOther(t, values, home, k, text);
        assert Taken(t, NULL_ID, home, k);
        ProbeEnds(t, NULL_ID, HashesOf(values, Hash32), ids, home, k + 1);
        NextIsAt(cap, home, k);
        idx := NextSlot(idx, cap);
        k := k + 1;
      }
      if text in values {
        ghost var id: nat :| id < |values| && values[id] == text;
        ghost var j := WouldHaveMet(t, NULL_ID, values, Hash32, ids, home, k, id);
      }
    }

    /** `AcuStringInterner_GetString`: the empty string for an id never given out. */
    method GetString(id: nat) returns (text: seq<u8>)
      requires Valid()
      ensures text == if id < |strings| then Contents()[id] else []
    {
      text := if id >= |strings| then [] else Text(strings[id], chars);
    }
  }
}
