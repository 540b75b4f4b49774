/** `AcuOpt_StripNopsAndRelocate` in place: the pass writes exactly the stripped code of module
    Relocate over the code array, and that code is well formed again. */
module StripNops {
  import opened Words
  import opened Bytecode
  import opened Layout
  import opened Relocate

  // ---- code without NOPs is left as it is -----------------------------------------------------------

  lemma SetBranchOffsetSame(w: Word)
    requires IsBranch(w.op)
    ensures SetBranchOffset(w, BranchOffset(w)) == w
  {
    var hi := w.b + 0x100 * w.c;
    var ax := w.a + 0x100 * hi;
    SignedFields(w);
    DivModUnique(ax, 0x100, hi, w.a);
    DivModUnique(hi, 0x100, w.c, w.b);
    assert GetsAx(w) % 0x100_0000 == ax;
    assert GetsBx(w) % 0x1_0000 == hi;
    assert GetsC(w) % 0x100 == w.c;
    DivModUnique(ax, 0x1_0000, w.c, w.a + 0x100 * w.b);
  }

  /** If nothing is dropped from `from` on, no instruction there is a NOP and no address moves. */
  lemma {:induction false} NothingDropped(code: seq<Word>, from: nat, at: nat, i: nat)
    requires Scans(code, from) && from <= i <= |code|
    requires RemapFrom(code, from, at, |code|) == at + (|code| - from)
    ensures RemapFrom(code, from, at, i) == at + (i - from)
    ensures from < |code| ==> code[from].op != OP_NOP
    decreases |code| - from
  {
    if from < |code| {
      var slots := Slots(code[from].op);
      RemapShrinks(code, from + slots, if code[from].op == OP_NOP then at else at + slots, |code|);
      if from + slots <= i {
        NothingDropped(code, from + slots, at + slots, i);
      }
    }
  }

  lemma SameInstruction(code: seq<Word>, ip: nat)
    requires WellFormed(code) && Boundary(code, ip) && ip < |code|
    requires forall i :: 0 <= i <= |code| ==> Remap(code, i) == i
    ensures ip + Slots(code[ip].op) <= |code|
    ensures Relocated(code, ip) == code[ip..ip + Slots(code[ip].op)]
  {
    hide Remap;
    hide Boundary;
    hide SetBranchOffset;
    hide FromPayload;
    assert GoodAt(code, ip);
    var w := code[ip];
    if Slots(w.op) == 2 {
      PayloadRoundTrip(0, code[ip + 1]);
      assert NewPayload(code, w.op, code[ip + 1]) == code[ip + 1];
      assert code[ip..ip + 2] == [w, code[ip + 1]];
    } else if IsBranch(w.op) {
      SetBranchOffsetSame(w);
      assert NewOffset(code, ip) == BranchOffset(w);
    }
  }

  lemma {:induction false} SameFrom(code: seq<Word>, ip: nat)
    requires WellFormed(code) && Boundary(code, ip) && Scans(code, ip)
    requires forall i :: 0 <= i <= |code| ==> Remap(code, i) == i
    requires RemapFrom(code, ip, ip, |code|) == |code|
    ensures StripFrom(code, ip) == code[ip..]
    decreases |code| - ip
  {
    hide Relocated;
    hide WellFormed;
    if ip < |code| {
      var slots := Slots(code[ip].op);
      NothingDropped(code, ip, ip, |code|);
      SameInstruction(code, ip);
      MeetsNext(code, 0, ip);
      SameFrom(code, ip + slots);
      assert code[ip..] == code[ip..ip + slots] + code[ip + slots..];
    }
  }

  /** Code that loses no slot is its own stripped code. */
  lemma StrippedSame(code: seq<Word>)
    requires WellFormed(code) && Remap(code, |code|) == |code|
    ensures Stripped(code) == code
  {
    forall i | 0 <= i <= |code| ensures Remap(code, i) == i {
      NothingDropped(code, 0, 0, i);
    }
    SameFrom(code, 0);
  }

  // ---- the pass -------------------------------------------------------------------------------------

  /** First loop: the new index of every slot, and the new slot count. */
  method FillRemap(code: array<Word>, count: nat, remap: array<nat>) returns (newCount: nat)
    requires count <= code.Length && count < remap.Length && (remap as object) != code
    requires Scans(code[..count], 0)
    modifies remap
    ensures forall i :: 0 <= i <= count ==> remap[i] == Remap(code[..count], i)
    ensures newCount == Remap(code[..count], count)
  {
    ghost var was := code[..count];
    newCount := 0;
    var ip := 0;
    while ip < count
      invariant 0 <= ip <= count && Boundary(was, ip) && newCount == Remap(was, ip)
      invariant forall i :: 0 <= i < ip ==> remap[i] == Remap(was, i)
      decreases count - ip
    {
      var op := code[ip].op;
      RemapStep(was, ip);
      MeetsNext(was, 0, ip);
      if op == OP_NOP {
        remap[ip] := newCount;
        ip := ip + 1;
      } else {
        var slots := Slots(op);
        for k := 0 to slots
          invariant forall i :: 0 <= i < ip + k ==> remap[i] == Remap(was, i)
        {
          remap[ip + k] := newCount + k;
        }
        newCount := newCount + slots;
        ip := ip + slots;
      }
    }
    remap[count] := newCount;
  }

  /** The slots of the instruction at `ip` in their relocated form; the asserted fits are the range
      assertions of the source. */
  method RelocateInstruction(code: array<Word>, count: nat, remap: array<nat>, newCount: nat, ip: nat,
                             ghost was: seq<Word>)
      returns (inst: Word, payload: Word)
    requires ip < count <= code.Length && count < remap.Length
    requires WellFormed(was) && |was| == count && Boundary(was, ip) && code[ip..count] == was[ip..]
    requires forall i :: 0 <= i <= count ==> remap[i] == Remap(was, i)
    requires newCount == Remap(was, count)
    ensures ip + Slots(was[ip].op) <= count
    ensures Relocated(was, ip) == if Slots(was[ip].op) == 2 then [inst, payload] else [inst]
  {
    inst, payload := code[ip], NOP_WORD;
    assert inst == code[ip..count][0];
    assert GoodAt(was, ip);
    var op := inst.op;
    if IsBranch(op) {
      var oldTarget := GetJumpTarget(ip, inst);
      var newTarget := if oldTarget <= count then remap[oldTarget] else newCount;
      var newOffset := newTarget - remap[ip] - 1;
      OffsetShrinks(was, ip);
      assert op != OP_JUMP ==> FitsBranch(op, newOffset);
      inst := SetBranchOffset(inst, newOffset);
    }
    if Slots(op) > 1 {
      payload := code[ip + 1];
      assert payload == code[ip..count][1];
      if IsCall(op) {
        var target := Payload(payload);
        if target <= count {
          RemapShrinks(was, 0, 0, target);
          payload := FromPayload(remap[target]);
        }
      }
    }
  }

  /** Writes a kept instruction at or below its old place. */
  method Place(code: array<Word>, count: nat, ip: nat, newIp: nat, inst: Word, payload: Word, slots: nat)
    requires newIp <= ip && ip + slots <= count <= code.Length && 1 <= slots <= 2
    modifies code
    ensures code[..newIp + slots] == old(code[..newIp]) + if slots == 2 then [inst, payload] else [inst]
    ensures code[ip + slots..count] == old(code[ip + slots..count])
  {
    code[newIp] := inst;
    if slots > 1 {
      code[newIp + 1] := payload;
    }
  }

  lemma StripStep(was: seq<Word>, ip: nat, done: seq<Word>)
    requires Scans(was, ip) && ip < |was|
    ensures Scans(was, ip + Slots(was[ip].op)) && ip + Slots(was[ip].op) <= |was|
    ensures var rest := StripFrom(was, ip + Slots(was[ip].op));
            done + StripFrom(was, ip) ==
            if was[ip].op == OP_NOP then done + rest else (done + Relocated(was, ip)) + rest
  {
  }

  /** One turn of the second loop: an instruction slides down over the gaps before it, in place. */
  method SlideOne(code: array<Word>, count: nat, remap: array<nat>, newCount: nat, ip: nat, ghost was: seq<Word>)
      returns (next: nat)
    requires ip < count <= code.Length && count < remap.Length && WellFormed(was) && |was| == count
    requires (remap as object) != code
    requires forall i :: 0 <= i <= count ==> remap[i] == Remap(was, i)
    requires newCount == Remap(was, count)
    requires Boundary(was, ip) && Scans(was, ip) && code[ip..count] == was[ip..] && Remap(was, ip) <= ip
    requires code[..Remap(was, ip)] + StripFrom(was, ip) == Stripped(was)
    modifies code
    ensures ip < next <= count && Boundary(was, next) && Scans(was, next)
    ensures code[next..count] == was[next..] && Remap(was, next) <= next
    ensures code[..Remap(was, next)] + StripFrom(was, next) == Stripped(was)
  {
    hide Remap;
    hide Relocated;
    hide StripFrom;
    hide Stripped;
    hide GoodAt;
    var op := code[ip].op;
    assert code[ip] == code[ip..count][0] == was[ip];
    ghost var done, rest := code[..Remap(was, ip)], code[ip..count];
    RemapStep(was, ip);
    MeetsNext(was, 0, ip);
    StripStep(was, ip, done);
    next := ip + Slots(op);
    RemapShrinks(was, 0, 0, next);
    assert code[next..count] == rest[Slots(op)..];
    if op != OP_NOP {
      var inst, payload := RelocateInstruction(code, count, remap, newCount, ip, was);
      Place(code, count, ip, remap[ip], inst, payload, Slots(op));
    }
  }

  /** Second loop: the kept instructions slide down over the gaps. */
  method SlideDown(code: array<Word>, count: nat, remap: array<nat>, newCount: nat)
    requires count <= code.Length && count < remap.Length && WellFormed(code[..count])
    requires (remap as object) != code
    requires forall i :: 0 <= i <= count ==> remap[i] == Remap(code[..count], i)
    requires newCount == Remap(code[..count], count)
    modifies code
    ensures newCount <= count && code[..newCount] == Stripped(old(code[..count]))
  {
    ghost var was := code[..count];
    RemapShrinks(was, 0, 0, 0);
    var ip := 0;
    while ip < count
      invariant 0 <= ip <= count && Boundary(was, ip) && Scans(was, ip)
      invariant code[ip..count] == was[ip..] && Remap(was, ip) <= ip
      invariant code[..Remap(was, ip)] + StripFrom(was, ip) == Stripped(was)
      decreases count - ip
    {
      ip := SlideOne(code, count, remap, newCount, ip, was);
    }
    StripLength(was, 0, 0);
  }

  /** The whole pass: afterwards the first `newCount` slots are the stripped code. */
  method StripNopsAndRelocate(code: array<Word>, count: nat, remap: array<nat>) returns (newCount: nat)
    requires count <= code.Length && count < remap.Length && (remap as object) != code
    requires WellFormed(code[..count])
    modifies code, remap
    ensures newCount <= count && code[..newCount] == Stripped(old(code[..count]))
  {
    if count == 0 { return 0; }
    newCount := FillRemap(code, count, remap);
    if newCount == count {
      StrippedSame(code[..count]);
      return;
    }
    SlideDown(code, count, remap, newCount);
  }

  // ---- the stripped code is well formed -------------------------------------------------------------

  /** Boundaries move to boundaries. */
  lemma {:induction false} BoundaryMoves(code: seq<Word>, from: nat, ip: nat)
    requires WellFormed(code) && Boundary(code, from) && Scans(code, from)
    requires Meets(code, from, ip)
    ensures Meets(Stripped(code), Remap(code, from), Remap(code, ip))
    decreases |code| - from
  {
    hide Relocated;
    hide GoodAt;
    if from < ip {
      var next := from + Slots(code[from].op);
      ScansAt(code, 0, from);
      RemapStep(code, from);
      MeetsNext(code, 0, from);
      RemapBetween(code, from, |code|);
      BoundaryMoves(code, next, ip);
      if code[from].op != OP_NOP {
        KeptAt(code, from);
        ScansAt(code, from, ip);
        MeetsOrder(code, next, ip);
        RemapBetween(code, next, ip);
      }
    }
  }

  /** A kept instruction keeps its opcode at its new place, inside the stripped code. */
  lemma KeptAt(code: seq<Word>, ip: nat)
    requires WellFormed(code) && Boundary(code, ip) && ip < |code| && code[ip].op != OP_NOP
    ensures ip + Slots(code[ip].op) <= |code|
    ensures Remap(code, ip) + Slots(code[ip].op) <= |Stripped(code)|
    ensures Stripped(code)[Remap(code, ip)] == Relocated(code, ip)[0]
    ensures Slots(code[ip].op) == 2 ==> Stripped(code)[Remap(code, ip) + 1] == Relocated(code, ip)[1]
    ensures Stripped(code)[Remap(code, ip)].op == code[ip].op
  {
    StrippedAt(code, ip);
    assert OccursAt(Stripped(code), Remap(code, ip), Relocated(code, ip));
    assert Stripped(code)[Remap(code, ip) + 0] == Relocated(code, ip)[0];
    if IsBranch(code[ip].op) {
      OffsetShrinks(code, ip);
      SetBranchOffsetReads(code[ip], NewOffset(code, ip));
    }
  }

  /** A boundary of the stripped code comes from a kept instruction or from the end. */
  lemma {:induction false} BoundaryComes(code: seq<Word>, from: nat, j: nat) returns (ip: nat)
    requires WellFormed(code) && Boundary(code, from) && Scans(code, from)
    requires Meets(Stripped(code), Remap(code, from), j) && j < |Stripped(code)|
    ensures Boundary(code, ip) && from <= ip < |code| && code[ip].op != OP_NOP && Remap(code, ip) == j
    decreases |code| - from
  {
    hide Relocated;
    hide GoodAt;
    StripLength(code, 0, 0);
    MeetsOrder(Stripped(code), Remap(code, from), j);
    if from == |code| {
      assert false;
    } else {
      RemapStep(code, from);
      MeetsNext(code, 0, from);
      var next := from + Slots(code[from].op);
      if code[from].op == OP_NOP {
        ip := BoundaryComes(code, next, j);
      } else {
        KeptAt(code, from);
        if Remap(code, from) == j { return from; }
        ip := BoundaryComes(code, next, j);
      }
    }
  }

  lemma {:induction false} StrippedScans(code: seq<Word>, from: nat)
    requires WellFormed(code) && Boundary(code, from) && Scans(code, from)
    ensures Scans(Stripped(code), Remap(code, from))
    decreases |code| - from
  {
    hide Relocated;
    hide GoodAt;
    StripLength(code, 0, 0);
    if from < |code| {
      RemapStep(code, from);
      MeetsNext(code, 0, from);
      StrippedScans(code, from + Slots(code[from].op));
      if code[from].op != OP_NOP {
        KeptAt(code, from);
      }
    }
  }

  lemma StrippedGoodAt(code: seq<Word>, ip: nat)
    requires WellFormed(code) && Boundary(code, ip) && ip < |code| && code[ip].op != OP_NOP
    ensures Remap(code, ip) < |Stripped(code)| && GoodAt(Stripped(code), Remap(code, ip))
  {
    hide Meets;
    hide StripFrom;
    hide RemapFrom;
    var stripped, at, w := Stripped(code), Remap(code, ip), code[ip];
    assert GoodAt(code, ip);
    KeptAt(code, ip);
    StripLength(code, 0, 0);
    if IsBranch(w.op) {
      var target := ip + 1 + BranchOffset(w);
      OffsetShrinks(code, ip);
      SetBranchOffsetReads(w, NewOffset(code, ip));
      TargetMoves(code, target);
      assert at + 1 + BranchOffset(stripped[at]) == Remap(code, target);
    } else if IsCall(w.op) {
      var target := Payload(code[ip + 1]);
      TargetMoves(code, target);
      RemapShrinks(code, 0, 0, target);
      PayloadRoundTrip(Remap(code, target), w);
      assert Payload(stripped[at + 1]) == Remap(code, target);
    }
  }

  lemma TargetMoves(code: seq<Word>, target: nat)
    requires WellFormed(code) && target <= |code| && Boundary(code, target)
    ensures Remap(code, target) <= |Stripped(code)|
    ensures Boundary(Stripped(code), Remap(code, target))
  {
    StripLength(code, 0, 0);
    RemapShrinks(code, 0, 0, 0);
    BoundaryMoves(code, 0, target);
    RemapBetween(code, target, |code|);
  }

  /** Well-formed code stays well formed, so that the optimiser may run again. */
  lemma StrippedWellFormed(code: seq<Word>)
    requires WellFormed(code)
    ensures WellFormed(Stripped(code)) && |Stripped(code)| <= |code|
  {
    hide GoodAt;
    StripLength(code, 0, 0);
    RemapShrinks(code, 0, 0, 0);
    RemapShrinks(code, 0, 0, |code|);
    StrippedScans(code, 0);
    forall j | 0 <= j < |Stripped(code)| && Boundary(Stripped(code), j)
      ensures GoodAt(Stripped(code), j)
    {
      var ip := BoundaryComes(code, 0, j);
      StrippedGoodAt(code, ip);
    }
  }
}
