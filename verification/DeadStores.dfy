/** `AcuOpt_EliminateDeadStores`: backward liveness per basic block, in place, and why the removed
    definitions and results cannot be noticed. */
module DeadStores {
  import opened Words
  import opened Bytecode
  import opened Layout
  import opened Vm
  import opened ContractVm
  import opened JumpTargets
  import opened DeadCode
  import Derived
  import opened DeadRegisters
  import Validator

  /** `AcuOpt_CanDCE`. */
  predicate CanDrop(w: Word) {
    || IsPureOpcode(w.op)
    || ((w.op == OP_DIV_S_IMM || w.op == OP_REM_S_IMM) && GetsC(w) != 0 && GetsC(w) != -1)
    || ((w.op == OP_DIV_U_IMM || w.op == OP_REM_U_IMM) && w.c != 0)
  }

  /** `AcuOpt_IsInstructionPure`. */
  predicate PureAt(code: seq<Word>, ip: nat)
    requires ip < |code|
  {
    if IsSyscall(code[ip].op) then ip + 1 < |code| && TabledPure(Payload(code[ip + 1]))
    else CanDrop(code[ip])
  }

  /** The instruction at `ip` is the last one of its basic block. */
  predicate BlockEnds(code: seq<Word>, marks: seq<bool>, ip: nat)
    requires |marks| == |code| + 1 && ip < |code|
  {
    var next := ip + Slots(code[ip].op);
    IsCondBranch(code[ip].op) || StopsAt(code, ip) || next >= |code| || marks[next]
  }

  /** The block's last instruction ends the activation or the program. */
  predicate LeavesAt(code: seq<Word>, ip: nat)
    requires ip < |code|
  {
    IsFunctionExit(code[ip].op) || (code[ip].op == OP_SYSCALL && ExitsAt(code, ip))
  }

  /** `AcuOpt_AddInstructionUses`: the registers an instruction is taken to read; an argument range
      that runs over the last register continues at the first. */
  predicate CountsAsUse(w: Word, r: u8) {
    if ReadsRange(w.op) then InRange(w.b, w.c, r) else InstReadsReg(w, r)
  }

  predicate InRange(base: u8, count: nat, r: u8) { (r - base) % REG_WINDOW < count }

  lemma InRangeNext(base: u8, count: nat, r: u8)
    requires count < REG_WINDOW
    ensures InRange(base, count + 1, r) <==> InRange(base, count, r) || r == (base + count) % REG_WINDOW
  {
  }

  lemma UsesIncludeReads(w: Word, r: u8)
    requires InstReadsReg(w, r)
    ensures CountsAsUse(w, r)
  {
  }

  predicate LiveOut(code: seq<Word>, marks: seq<bool>, ip: nat, r: u8)
    requires |marks| == |code| + 1 && ip < |code|
    decreases |code| - ip, 0
  {
    if BlockEnds(code, marks, ip) then !LeavesAt(code, ip)
    else LiveIn(code, marks, ip + Slots(code[ip].op), r)
  }

  /** The result of the instruction at `ip` is not used in its block, nor live at its end. */
  predicate Unused(code: seq<Word>, marks: seq<bool>, ip: nat)
    requires |marks| == |code| + 1 && ip < |code|
    decreases |code| - ip, 1
  {
    WritesA(code[ip].op) && !LiveOut(code, marks, ip, code[ip].a)
  }

  predicate LiveIn(code: seq<Word>, marks: seq<bool>, ip: nat, r: u8)
    requires |marks| == |code| + 1 && ip < |code|
    decreases |code| - ip, 2
  {
    var w := code[ip];
    if w.op == OP_NOP || (Unused(code, marks, ip) && PureAt(code, ip)) then LiveOut(code, marks, ip, r)
    else (LiveOut(code, marks, ip, r) && !(WritesA(w.op) && w.a == r)) || CountsAsUse(w, r)
  }

  /** The slots of the instruction at `ip` after the pass. */
  function StoreSwept(code: seq<Word>, marks: seq<bool>, ip: nat): (r: seq<Word>)
    requires |marks| == |code| + 1 && ip < |code| && ip + Slots(code[ip].op) <= |code|
    ensures |r| == Slots(code[ip].op)
  {
    var w := code[ip];
    if w.op == OP_NOP || !Unused(code, marks, ip) then code[ip..ip + Slots(w.op)]
    else if PureAt(code, ip) then if Slots(w.op) == 2 then [NOP_WORD, NOP_WORD] else [NOP_WORD]
    else if w.op == OP_CALL then [w.(op := OP_CALL_VOID, a := 0), code[ip + 1]]
    else if w.op == OP_SYSCALL then [w.(op := OP_SYSCALL_VOID, a := 0), code[ip + 1]]
    else code[ip..ip + Slots(w.op)]
  }

  function SweptFrom(code: seq<Word>, marks: seq<bool>, from: nat): (r: seq<Word>)
    requires |marks| == |code| + 1 && Scans(code, from)
    ensures |r| == |code| - from
    decreases |code| - from
  {
    if from >= |code| then []
    else StoreSwept(code, marks, from) + SweptFrom(code, marks, from + Slots(code[from].op))
  }

  function Swept(code: seq<Word>, marks: seq<bool>): (r: seq<Word>)
    requires |marks| == |code| + 1 && Scans(code, 0)
    ensures |r| == |code|
  {
    SweptFrom(code, marks, 0)
  }

  // ---- what the pass leaves at a boundary -----------------------------------------------------------

  lemma {:induction false} SweptAtFrom(code: seq<Word>, marks: seq<bool>, from: nat, i: nat)
    requires |marks| == |code| + 1 && Scans(code, from) && Meets(code, from, i) && i < |code|
    ensures i + Slots(code[i].op) <= |code|
    ensures SweptFrom(code, marks, from)[i - from..i - from + Slots(code[i].op)] == StoreSwept(code, marks, i)
    decreases |code| - from
  {
    hide StoreSwept;
    if from < i {
      var slots := Slots(code[from].op);
      MeetsOrder(code, from + slots, i);
      SweptAtFrom(code, marks, from + slots, i);
      var rest := SweptFrom(code, marks, from + slots);
      SliceAfter(StoreSwept(code, marks, from), rest, i - (from + slots), i - (from + slots) + Slots(code[i].op));
    }
  }

  lemma SweptAt(code: seq<Word>, marks: seq<bool>, i: nat)
    requires |marks| == |code| + 1 && Scans(code, 0) && Boundary(code, i) && i < |code|
    ensures i + Slots(code[i].op) <= |code|
    ensures Swept(code, marks)[i..i + Slots(code[i].op)] == StoreSwept(code, marks, i)
    ensures Swept(code, marks)[i] == StoreSwept(code, marks, i)[0]
    ensures Slots(code[i].op) == 2 ==> Swept(code, marks)[i + 1] == StoreSwept(code, marks, i)[1]
  {
    hide SweptFrom;
    hide StoreSwept;
    hide Scans;
    hide Meets;
    SweptAtFrom(code, marks, 0, i);
    var swept := StoreSwept(code, marks, i);
    assert Swept(code, marks)[i..i + Slots(code[i].op)] == swept;
    assert Swept(code, marks)[i] == swept[0];
    assert Slots(code[i].op) == 2 ==> Swept(code, marks)[i + 1] == swept[1];
  }

  // ---- the removed stores cannot be noticed ---------------------------------------------------------

  /** Live registers are linked to themselves. */
  function LiveLink(code: seq<Word>, marks: seq<bool>): Linkage
    requires |marks| == |code| + 1
  {
    (ip: int, l: u8, r: u8) => l == r && 0 <= ip < |code| && LiveIn(code, marks, ip, r)
  }

  /** The liveness equation: what is live behind an instruction that falls through is live after it. */
  lemma LiveFlows(code: seq<Word>, marks: seq<bool>, ip: nat, r: u8)
    requires |marks| == |code| + 1 && ip < |code| && FallsThrough(code, ip)
    requires ip + Slots(code[ip].op) < |code| && LiveIn(code, marks, ip + Slots(code[ip].op), r)
    ensures LiveOut(code, marks, ip, r)
  {
  }

  /** The pass drops no random number: the generator is tabled pure although it advances a seed. */
  predicate NoRandomDropped(code: seq<Word>, marks: seq<bool>, ip: nat)
    requires |marks| == |code| + 1 && ip < |code|
  {
    code[ip].op == OP_SYSCALL && ip + 1 < |code| && Payload(code[ip + 1]) == RANDOM_U64 ==>
      !Unused(code, marks, ip)
  }

  lemma DroppedIsSafe(c: Chunk, marks: seq<bool>, ip: nat)
    requires |marks| == |c.code| + 1 && ip < |c.code| && Validator.BoundaryValid(c, ip)
    requires WritesA(c.code[ip].op) && PureAt(c.code, ip) && c.code[ip].op != OP_SYSCALL
    ensures NeverFails(c, c.code[ip])
  {
  }

  lemma DroppedPair(c: Chunk, d: Chunk, marks: seq<bool>, ip: nat)
    requires |marks| == |c.code| + 1 && ip < |c.code| == |d.code| && Validator.BoundaryValid(c, ip)
    requires NoRandomDropped(c.code, marks, ip) && Unused(c.code, marks, ip) && PureAt(c.code, ip)
    requires c.code[ip].op != OP_NOP
    requires d.code[ip] == NOP_WORD && (Slots(c.code[ip].op) == 2 ==> d.code[ip + 1] == NOP_WORD)
    ensures PairAt(c, d, LiveLink(c.code, marks), ip)
  {
    var w, k := c.code[ip], LiveLink(c.code, marks);
    var next := ip + Slots(w.op);
    if w.op != OP_SYSCALL {
      DroppedIsSafe(c, marks, ip);
    }
    forall l: u8, r: u8 | k(next, l, r) && FallsThrough(c.code, ip) ensures r != w.a && k(ip, l, r) {
      LiveFlows(c.code, marks, ip, r);
    }
    assert Drops(k, ip, next, w.a);
    assert DroppedAt(c, d, k, ip);
  }

  lemma VoidedPair(c: Chunk, d: Chunk, marks: seq<bool>, ip: nat)
    requires |marks| == |c.code| + 1 && ip + 1 < |c.code| == |d.code|
    requires c.code[ip].op == OP_CALL || c.code[ip].op == OP_SYSCALL
    requires Unused(c.code, marks, ip) && !PureAt(c.code, ip) && d.code[ip + 1] == c.code[ip + 1]
    requires d.code[ip] ==
             c.code[ip].(op := if c.code[ip].op == OP_CALL then OP_CALL_VOID else OP_SYSCALL_VOID, a := 0)
    ensures PairAt(c, d, LiveLink(c.code, marks), ip)
  {
    var w, v, k := c.code[ip], d.code[ip], LiveLink(c.code, marks);
    assert Diagonal(k, Payload(c.code[ip + 1]));
    if w.b + w.c <= REG_WINDOW {
      VoidedArguments(c.code, marks, ip, v);
      if ComesBack(w, Payload(c.code[ip + 1])) {
        forall l: u8, r: u8 | k(ip + 2, l, r) ensures ReturnsLink(k, ip, w, v, l, r) {
          hide LiveIn;
          hide LiveOut;
          VoidedResult(c.code, marks, ip, r);
        }
      }
    }
    hide LiveLink;
    assert WideAt(c, d, k, ip);
  }

  lemma VoidedArguments(code: seq<Word>, marks: seq<bool>, ip: nat, v: Word)
    requires |marks| == |code| + 1 && ip < |code| && !PureAt(code, ip)
    requires code[ip].op == OP_CALL || code[ip].op == OP_SYSCALL
    requires v.b == code[ip].b && v.c == code[ip].c && v.b + v.c <= REG_WINDOW
    ensures ArgumentsLinked(LiveLink(code, marks), ip, code[ip], v)
  {
    hide LiveOut;
    var w := code[ip];
    forall i | 0 <= i < w.c ensures ArgumentLinked(LiveLink(code, marks), ip, w, v, i) {
      UsesIncludeReads(w, w.b + i);
    }
  }

  /** Behind a voided call its destination is dead, and the other live registers were live before. */
  lemma VoidedResult(code: seq<Word>, marks: seq<bool>, ip: nat, r: u8)
    requires |marks| == |code| + 1 && ip + 2 < |code| && !PureAt(code, ip) && FallsThrough(code, ip)
    requires code[ip].op == OP_CALL || code[ip].op == OP_SYSCALL
    requires Unused(code, marks, ip) && LiveIn(code, marks, ip + 2, r)
    ensures r != code[ip].a && LiveIn(code, marks, ip, r)
  {
    LiveFlows(code, marks, ip, r);
  }

  lemma KeptPair(c: Chunk, d: Chunk, marks: seq<bool>, ip: nat)
    requires |marks| == |c.code| + 1 && ip < |c.code| == |d.code| && GoodAt(c.code, ip)
    requires c.code[ip].op < ACU_OPCODE_COUNT && d.code[ip] == c.code[ip]
    requires Slots(c.code[ip].op) == 2 ==> d.code[ip + 1] == c.code[ip + 1]
    requires c.code[ip].op != OP_NOP ==> !(Unused(c.code, marks, ip) && PureAt(c.code, ip))
    ensures PairAt(c, d, LiveLink(c.code, marks), ip)
  {
    var w, k := c.code[ip], LiveLink(c.code, marks);
    var next := ip + Slots(w.op);
    forall r: u8 | InstReadsReg(w, r) ensures k(ip, r, r) {
      UsesIncludeReads(w, r);
    }
    forall r: u8 | FallsThrough(c.code, ip) && k(next, r, r) && !(WritesA(w.op) && w.a == r)
      ensures k(ip, r, r)
    {
      LiveFlows(c.code, marks, ip, r);
    }
    if IsBranch(w.op) {
      forall r: u8 ensures k(ip, r, r) {
        assert LiveOut(c.code, marks, ip, r);
      }
      assert FlowLinked(k, ip, ip + 1 + BranchOffset(w), w);
    }
    SamePair(c, d, k, ip);
  }

  lemma LivePair(c: Chunk, marks: seq<bool>, ip: nat)
    requires |marks| == |c.code| + 1 && WellFormed(c.code) && Boundary(c.code, ip) && ip < |c.code|
    requires Validator.BoundaryValid(c, ip) && NoRandomDropped(c.code, marks, ip)
    ensures PairAt(c, c.(code := Swept(c.code, marks)), LiveLink(c.code, marks), ip)
  {
    hide PairAt;
    hide Swept;
    var w, d := c.code[ip], c.(code := Swept(c.code, marks));
    assert GoodAt(c.code, ip);
    ScansAt(c.code, 0, ip);
    SweptAt(c.code, marks, ip);
    if w.op == OP_NOP || !Unused(c.code, marks, ip) {
      KeptPair(c, d, marks, ip);
    } else if PureAt(c.code, ip) {
      DroppedPair(c, d, marks, ip);
    } else if w.op == OP_CALL || w.op == OP_SYSCALL {
      VoidedPair(c, d, marks, ip);
    } else {
      KeptPair(c, d, marks, ip);
    }
  }

  /** Dead-store elimination preserves every run of validated code, whatever the marks are, provided
      it drops no random number. */
  lemma DeadStoresPreserveBehaviour(c: Chunk, e: World, marks: seq<bool>, s: Config)
    requires WellFormed(c.code) && Validator.ValidChunk(c) && |marks| == |c.code| + 1
    requires forall ip :: 0 <= ip < |c.code| && Boundary(c.code, ip) ==> NoRandomDropped(c.code, marks, ip)
    requires TerminatorsStop(e.host) && Starts(c, s)
    ensures CSame(c, s, c.(code := Swept(c.code, marks)), s, e)
  {
    hide Swept;
    hide Compatible;
    var k := LiveLink(c.code, marks);
    SweptCompatible(c, marks);
    StartsRelated(c, k, s);
    CompatibleCodeBehavesAlike(c, c.(code := Swept(c.code, marks)), e, k, s, s);
  }

  lemma SweptCompatible(c: Chunk, marks: seq<bool>)
    requires WellFormed(c.code) && Validator.ValidChunk(c) && |marks| == |c.code| + 1
    requires forall ip :: 0 <= ip < |c.code| && Boundary(c.code, ip) ==> NoRandomDropped(c.code, marks, ip)
    ensures Compatible(c, c.(code := Swept(c.code, marks)), LiveLink(c.code, marks))
  {
    hide Swept;
    var k := LiveLink(c.code, marks);
    var d := c.(code := Swept(c.code, marks));
    forall ip | 0 <= ip < |c.code| && Boundary(c.code, ip) ensures PairAt(c, d, k, ip) {
      assert Validator.BoundaryValid(c, ip);
      LivePair(c, marks, ip);
    }
  }

  /** The swept code is well formed, and the marks collected before cover it. */
  lemma SweptSound(code: seq<Word>, marks: seq<bool>)
    requires WellFormed(code) && Covers(code, marks)
    ensures WellFormed(Swept(code, marks)) && Covers(Swept(code, marks), marks)
  {
    hide Swept;
    hide Unused;
    hide PureAt;
    hide BranchOffset;
    var q := Swept(code, marks);
    forall k | 0 <= k < |code| && Boundary(code, k) ensures Derived.DerivedAt(code, q, k) {
      SweptAt(code, marks, k);
      ScansAt(code, 0, k);
    }
    Derived.DerivedSound(code, q, marks);
  }

  // ---- the pass -------------------------------------------------------------------------------------

  function OutSet(code: seq<Word>, marks: seq<bool>, ip: nat): set<u8>
    requires |marks| == |code| + 1 && ip < |code|
  {
    set r: u8 | 0 <= r < 0x100 && LiveOut(code, marks, ip, r)
  }

  function InSet(code: seq<Word>, marks: seq<bool>, ip: nat): set<u8>
    requires |marks| == |code| + 1 && ip < |code|
  {
    set r: u8 | 0 <= r < 0x100 && LiveIn(code, marks, ip, r)
  }

  function UseSet(w: Word): set<u8> {
    set r: u8 | 0 <= r < 0x100 && CountsAsUse(w, r)
  }

  predicate IsRegister(r: int) { 0 <= r < REG_WINDOW }

  /** `AcuRegSet_Fill`. */
  function AllRegisters(): set<u8> {
    set r: u8 | 0 <= r < 0x100 && IsRegister(r)
  }

  lemma InSetStep(code: seq<Word>, marks: seq<bool>, ip: nat)
    requires |marks| == |code| + 1 && ip < |code|
    ensures var w, out := code[ip], OutSet(code, marks, ip);
            InSet(code, marks, ip) ==
            if w.op == OP_NOP || (Unused(code, marks, ip) && PureAt(code, ip)) then out
            else (if WritesA(w.op) then out - {w.a} else out) + UseSet(w)
  {
    hide LiveOut;
    hide Unused;
    hide CountsAsUse;
    hide PureAt;
  }

  method AddInstructionUses(inst: Word, live: set<u8>) returns (r: set<u8>)
    ensures r == live + UseSet(inst)
  {
    r := live;
    if ReadsRange(inst.op) {
      for i := 0 to inst.c
        invariant r == live + set x: u8 | 0 <= x < 0x100 && InRange(inst.b, i, x)
      {
        var reg: u8 := (inst.b + i) % REG_WINDOW;
        forall x: u8 ensures InRange(inst.b, i + 1, x) <==> InRange(inst.b, i, x) || x == reg {
          InRangeNext(inst.b, i, x);
        }
        r := r + {reg};
      }
    } else {
      if ReadsA(inst.op) { r := r + {inst.a}; }
      if ReadsB(inst.op) { r := r + {inst.b}; }
      if ReadsC(inst.op) { r := r + {inst.c}; }
    }
  }

  /** `ips` lists the consecutive instructions from `start` up to `end`. */
  ghost predicate Chain(code: seq<Word>, ips: seq<nat>, start: nat, end: nat) {
    && (if ips == [] then end == start else ips[0] == start)
    && forall j :: 0 <= j < |ips| ==> ChainEntry(code, ips, end, j)
  }

  ghost predicate ChainEntry(code: seq<Word>, ips: seq<nat>, end: nat, j: nat)
    requires j < |ips|
  {
    && ips[j] < |code| && Boundary(code, ips[j]) && ips[j] + Slots(code[ips[j]].op) <= |code|
    && ips[j] + Slots(code[ips[j]].op) == if j + 1 < |ips| then ips[j + 1] else end
  }

  /** None of the listed instructions ends a block. */
  ghost predicate Inner(code: seq<Word>, marks: seq<bool>, ips: seq<nat>)
    requires |marks| == |code| + 1
  {
    forall j :: 0 <= j < |ips| ==> ips[j] < |code| && !BlockEnds(code, marks, ips[j])
  }

  /** The instructions of the basic block from `start` to `end`: only the last one ends it. */
  ghost predicate Block(code: seq<Word>, marks: seq<bool>, ips: seq<nat>, start: nat, end: nat)
    requires |marks| == |code| + 1
  {
    var n := |ips| - 1;
    n >= 0 && Chain(code, ips, start, end) && Inner(code, marks, ips[..n]) &&
    ips[n] < |code| && BlockEnds(code, marks, ips[n])
  }

  lemma ChainExtends(code: seq<Word>, ips: seq<nat>, start: nat, end: nat)
    requires Chain(code, ips, start, end) && Boundary(code, end) && end < |code|
    requires end + Slots(code[end].op) <= |code|
    ensures Chain(code, ips + [end], start, end + Slots(code[end].op))
  {
    var longer, next := ips + [end], end + Slots(code[end].op);
    forall j | 0 <= j < |longer| ensures ChainEntry(code, longer, next, j) {
      if j < |ips| {
        assert ChainEntry(code, ips, end, j);
      }
    }
  }

  /** The forward scan that lists the block beginning at `start`. */
  method CollectBlock(code: array<Word>, count: nat, isTarget: array<bool>, bbIps: array<nat>, start: nat,
                      ghost was: seq<Word>, ghost marks: seq<bool>)
      returns (num: nat, end: nat)
    requires start < count <= code.Length && count < isTarget.Length && count < bbIps.Length
    requires |was| == count && marks == isTarget[..count + 1] && code[start..count] == was[start..]
    requires Scans(was, 0) && Boundary(was, start)
    modifies bbIps
    ensures 1 <= num <= count && end <= count
    ensures Block(was, marks, bbIps[..num], start, end)
  {
    hide BlockEnds;
    hide StopsAt;
    hide Chain;
    hide Inner;
    hide Meets;
    hide Scans;
    num, end := 0, start;
    EmptyChain(was, marks, start);
    assert bbIps[..0] == [];
    while true
      invariant 0 <= num <= end - start && end < count && Boundary(was, end)
      invariant Chain(was, bbIps[..num], start, end) && Inner(was, marks, bbIps[..num])
      decreases count - end
    {
      var cur := end;
      assert code[start..count][cur - start] == was[start..][cur - start];
      var inst := code[cur];
      ScansAt(was, 0, cur);
      ScansFits(was, cur);
      MeetsNext(was, 0, cur);
      ghost var ips := bbIps[..num];
      ChainExtends(was, ips, start, cur);
      bbIps[num] := cur;
      num := num + 1;
      assert bbIps[..num] == ips + [cur] && (ips + [cur])[..num - 1] == ips;
      end := end + Slots(inst.op);
      StopsSameFrom(code[..count], was, start, cur);
      BlockEndsWhen(was, marks, cur);
      if IsCondBranch(inst.op) || StopsAt(code[..count], cur) { break; }
      if end >= count { break; }
      if isTarget[end] { break; }
      InnerExtends(was, marks, ips, cur);
    }
  }

  lemma ScansFits(code: seq<Word>, ip: nat)
    requires Scans(code, ip) && ip < |code|
    ensures ip + Slots(code[ip].op) <= |code|
  {
  }

  lemma InnerExtends(code: seq<Word>, marks: seq<bool>, ips: seq<nat>, ip: nat)
    requires |marks| == |code| + 1 && Inner(code, marks, ips) && ip < |code| && !BlockEnds(code, marks, ip)
    ensures Inner(code, marks, ips + [ip])
  {
  }

  lemma EmptyChain(code: seq<Word>, marks: seq<bool>, start: nat)
    requires |marks| == |code| + 1
    ensures Chain(code, [], start, start) && Inner(code, marks, [])
  {
  }

  lemma BlockEndsWhen(code: seq<Word>, marks: seq<bool>, ip: nat)
    requires |marks| == |code| + 1 && ip < |code|
    ensures BlockEnds(code, marks, ip) <==>
            IsCondBranch(code[ip].op) || StopsAt(code, ip) || ip + Slots(code[ip].op) >= |code| ||
            marks[ip + Slots(code[ip].op)]
  {
  }

  lemma StopsSameFrom(p: seq<Word>, was: seq<Word>, start: nat, ip: nat)
    requires |p| == |was| && start <= ip < |p| && p[start..] == was[start..]
    ensures StopsAt(p, ip) == StopsAt(was, ip)
  {
    assert p[ip..] == p[start..][ip - start..] == was[start..][ip - start..] == was[ip..];
    StopsSame(p, was, ip);
  }

  /** One instruction of the backward scan. */
  method SweepInstruction(code: array<Word>, count: nat, cur: nat, live: set<u8>,
                          ghost was: seq<Word>, ghost marks: seq<bool>)
      returns (changed: bool, newLive: set<u8>)
    requires |was| == count <= code.Length && |marks| == count + 1 && cur < count
    requires cur + Slots(was[cur].op) <= count
    requires code[cur..cur + Slots(was[cur].op)] == was[cur..cur + Slots(was[cur].op)]
    requires live == OutSet(was, marks, cur)
    modifies code
    ensures code[..cur] == old(code[..cur])
    ensures code[cur..cur + Slots(was[cur].op)] == StoreSwept(was, marks, cur)
    ensures code[cur + Slots(was[cur].op)..count] == old(code[cur + Slots(was[cur].op)..count])
    ensures newLive == InSet(was, marks, cur)
    ensures changed == (StoreSwept(was, marks, cur) != was[cur..cur + Slots(was[cur].op)])
  {
    hide LiveOut;
    hide CountsAsUse;
    changed, newLive := false, live;
    ghost var next := cur + Slots(was[cur].op);
    assert code[cur..next][0] == was[cur..next][0];
    assert next == cur + 2 ==> code[cur..next][1] == was[cur..next][1];
    InSetStep(was, marks, cur);
    var w := code[cur];
    if w.op == OP_NOP { return; }
    if WritesA(w.op) {
      assert Unused(was, marks, cur) <==> w.a !in live;
      if w.a !in live {
        PureSame(code[..count], was, cur);
        if PureAt(code[..count], cur) {
          code[cur] := NOP_WORD;
          if Slots(w.op) > 1 && cur + 1 < count {
            code[cur + 1] := NOP_WORD;
          }
          return true, live;
        }
        if w.op == OP_CALL {
          code[cur] := w.(op := OP_CALL_VOID, a := 0);
          changed := true;
        } else if w.op == OP_SYSCALL {
          code[cur] := w.(op := OP_SYSCALL_VOID, a := 0);
          changed := true;
        }
      }
      newLive := newLive - {w.a};
    }
    SameUses(w, code[cur]);
    newLive := AddInstructionUses(code[cur], newLive);
  }

  lemma PureSame(p: seq<Word>, was: seq<Word>, ip: nat)
    requires |p| == |was| && ip < |p| && ip + Slots(was[ip].op) <= |p|
    requires p[ip] == was[ip] && (Slots(was[ip].op) == 2 ==> p[ip + 1] == was[ip + 1])
    ensures PureAt(p, ip) == PureAt(was, ip)
  {
  }

  /** A sweep that differs somewhere differs in one of the two parts. */
  lemma SegmentSplit(code: seq<Word>, like: seq<Word>, lo: nat, mid: nat, hi: nat)
    requires lo <= mid <= hi <= |code| == |like|
    ensures Segment(code, like, lo, hi) <==> Segment(code, like, lo, mid) && Segment(code, like, mid, hi)
  {
    if Segment(code, like, lo, hi) {
      SegmentPart(code, like, lo, hi, lo, mid);
      SegmentPart(code, like, lo, hi, mid, hi);
    } else if Segment(code, like, lo, mid) && Segment(code, like, mid, hi) {
      SegmentJoin(code, like, lo, mid, hi);
    }
  }

  /** Voiding a call does not change what it reads. */
  lemma SameUses(w: Word, v: Word)
    requires v == w || (v == w.(op := OP_CALL_VOID, a := 0) && w.op == OP_CALL) ||
             (v == w.(op := OP_SYSCALL_VOID, a := 0) && w.op == OP_SYSCALL)
    ensures UseSet(v) == UseSet(w)
  {
  }

  /** Between `lo` and `hi` the code is what it is in `like`. */
  ghost predicate Segment(code: seq<Word>, like: seq<Word>, lo: nat, hi: nat) {
    lo <= hi <= |code| && |like| == |code| && code[lo..hi] == like[lo..hi]
  }

  lemma SegmentPart(code: seq<Word>, like: seq<Word>, lo: nat, hi: nat, a: nat, b: nat)
    requires Segment(code, like, lo, hi) && lo <= a <= b <= hi
    ensures Segment(code, like, a, b)
  {
    forall i | a <= i < b ensures code[i] == like[i] {
      assert code[lo..hi][i - lo] == like[lo..hi][i - lo];
    }
  }

  lemma SegmentKept(before: seq<Word>, code: seq<Word>, like: seq<Word>, lo: nat, hi: nat)
    requires |before| == |code| && Segment(before, like, lo, hi) && Segment(code, before, lo, hi)
    ensures Segment(code, like, lo, hi)
  {
  }

  lemma SegmentJoin(code: seq<Word>, like: seq<Word>, lo: nat, mid: nat, hi: nat)
    requires Segment(code, like, lo, mid) && Segment(code, like, mid, hi)
    ensures Segment(code, like, lo, hi)
  {
    assert code[lo..hi] == code[lo..mid] + code[mid..hi];
    assert like[lo..hi] == like[lo..mid] + like[mid..hi];
  }

  lemma {:induction false} ChainBounds(code: seq<Word>, ips: seq<nat>, start: nat, end: nat, j: nat)
    requires Chain(code, ips, start, end) && j < |ips|
    ensures start <= ips[j] && ips[j] < |code| && Boundary(code, ips[j])
    ensures ips[j] + Slots(code[ips[j]].op) == if j + 1 < |ips| then ips[j + 1] else end
    ensures ips[j] + Slots(code[ips[j]].op) <= |code|
    decreases j
  {
    assert ChainEntry(code, ips, end, j);
    if j > 0 {
      ChainBounds(code, ips, start, end, j - 1);
    }
  }

  /** Inside a block, what is live behind an instruction is what is live before the next one. */
  lemma OutIsNextIn(code: seq<Word>, marks: seq<bool>, ip: nat)
    requires |marks| == |code| + 1 && ip < |code| && !BlockEnds(code, marks, ip)
    ensures ip + Slots(code[ip].op) < |code|
    ensures OutSet(code, marks, ip) == InSet(code, marks, ip + Slots(code[ip].op))
  {
  }

  lemma LastOut(code: seq<Word>, marks: seq<bool>, ip: nat)
    requires |marks| == |code| + 1 && ip < |code| && BlockEnds(code, marks, ip)
    ensures OutSet(code, marks, ip) == if LeavesAt(code, ip) then {} else AllRegisters()
  {
  }

  lemma LeavesSame(p: seq<Word>, was: seq<Word>, ip: nat)
    requires Segment(p, was, ip, |p|) && ip < |p|
    ensures LeavesAt(p, ip) == LeavesAt(was, ip)
  {
    assert p[ip] == p[ip..|p|][0] == was[ip..|p|][0];
    assert ip + 1 < |p| ==> p[ip + 1] == p[ip..|p|][1] == was[ip..|p|][1];
  }

  /** The backward scan over one block. */
  method SweepBlock(code: array<Word>, count: nat, bbIps: array<nat>, num: nat, start: nat, end: nat,
                    ghost was: seq<Word>, ghost marks: seq<bool>)
      returns (changed: bool)
    requires |was| == count <= code.Length && |marks| == count + 1 && Scans(was, 0)
    requires 1 <= num <= bbIps.Length && Block(was, marks, bbIps[..num], start, end)
    requires Segment(code[..count], was, start, count)
    modifies code
    ensures start <= end <= count && code[..start] == old(code[..start])
    ensures Segment(code[..count], Swept(was, marks), start, end) && Segment(code[..count], was, end, count)
    ensures changed == !Segment(Swept(was, marks), was, start, end)
  {
    hide LiveOut;
    hide LiveIn;
    hide StoreSwept;
    hide Swept;
    hide Segment;
    hide BlockEnds;
    hide Chain;
    ghost var ips := bbIps[..num];
    changed := false;
    var last := bbIps[num - 1];
    ChainBounds(was, ips, start, end, num - 1);
    SegmentPart(code[..count], was, start, count, last, count);
    SegmentPart(code[..count], was, start, count, start, end);
    SegmentPart(code[..count], was, start, count, end, count);
    SegmentEmpty(code[..count], Swept(was, marks), end);
    SegmentEmpty(Swept(was, marks), was, end);
    LeavesSame(code[..count], was, last);
    LastOut(was, marks, last);
    var live: set<u8> := if LeavesAt(code[..count], last) then {} else AllRegisters();
    var idx := num;
    ghost var hi := end;
    while idx > 0
      invariant 0 <= idx <= num && start <= hi <= end
      invariant hi == if idx < num then ips[idx] else end
      invariant code[..start] == old(code[..start]) && bbIps[..num] == ips
      invariant Segment(code[..count], was, start, hi)
      invariant Segment(code[..count], Swept(was, marks), hi, end)
      invariant Segment(code[..count], was, end, count)
      invariant changed == !Segment(Swept(was, marks), was, hi, end)
      invariant idx > 0 ==> ips[idx - 1] < count && live == OutSet(was, marks, ips[idx - 1])
    {
      idx := idx - 1;
      var cur := bbIps[idx];
      assert cur == ips[idx];
      ChainBounds(was, ips, start, end, idx);
      var swept, before := SweepAt(code, count, cur, live, start, hi, end, was, marks);
      live := before;
      SegmentSplit(Swept(was, marks), was, cur, hi, end);
      changed := changed || swept;
      hi := cur;
      if idx > 0 {
        ChainBounds(was, ips, start, end, idx - 1);
        assert ips[..num - 1][idx - 1] == ips[idx - 1];
        OutIsNextIn(was, marks, ips[idx - 1]);
      }
    }
    ChainStart(was, ips, start, end);
  }

  lemma ChainStart(code: seq<Word>, ips: seq<nat>, start: nat, end: nat)
    requires Chain(code, ips, start, end) && ips != []
    ensures ips[0] == start
  {
  }

  lemma SegmentEmpty(code: seq<Word>, like: seq<Word>, i: nat)
    requires i <= |code| == |like|
    ensures Segment(code, like, i, i)
  {
  }

  /** The step of the backward scan at `cur`, with the segments of the code it moves on. */
  method SweepAt(code: array<Word>, count: nat, cur: nat, live: set<u8>, ghost start: nat, ghost hi: nat,
                 ghost end: nat, ghost was: seq<Word>, ghost marks: seq<bool>)
      returns (changed: bool, newLive: set<u8>)
    requires |was| == count <= code.Length && |marks| == count + 1 && Scans(was, 0)
    requires start <= cur < count && Boundary(was, cur) && cur + Slots(was[cur].op) == hi <= end <= count
    requires live == OutSet(was, marks, cur) && Segment(code[..count], was, start, hi)
    requires Segment(code[..count], Swept(was, marks), hi, end) && Segment(code[..count], was, end, count)
    modifies code
    ensures code[..start] == old(code[..start]) && newLive == InSet(was, marks, cur)
    ensures Segment(code[..count], was, start, cur)
    ensures Segment(code[..count], Swept(was, marks), cur, end)
    ensures Segment(code[..count], was, end, count)
    ensures changed == !Segment(Swept(was, marks), was, cur, hi)
  {
    hide LiveOut;
    hide LiveIn;
    hide StoreSwept;
    hide Swept;
    ghost var before := code[..count];
    SegmentPart(before, was, start, hi, cur, hi);
    ghost var slots, same := code[cur..hi], before[cur..hi];
    forall i | 0 <= i < hi - cur ensures slots[i] == same[i] {
      assert slots[i] == code[cur + i] && same[i] == before[cur + i];
    }
    assert slots == same;
    changed, newLive := SweepInstruction(code, count, cur, live, was, marks);
    ghost var after := code[..count];
    assert code[..start] == code[..cur][..start];
    assert after[..cur] == before[..cur] && after[hi..] == before[hi..];
    SweptAt(was, marks, cur);
    assert after[cur..hi] == Swept(was, marks)[cur..hi];
    SegmentPart(before, was, start, hi, start, cur);
    assert after[start..cur] == after[..cur][start..] == before[..cur][start..] == before[start..cur];
    SegmentKept(before, after, was, start, cur);
    assert after[hi..end] == after[hi..][..end - hi] == before[hi..][..end - hi] == before[hi..end];
    SegmentKept(before, after, Swept(was, marks), hi, end);
    SegmentJoin(after, Swept(was, marks), cur, hi, end);
    assert after[end..count] == after[hi..][end - hi..] == before[hi..][end - hi..] == before[end..count];
    SegmentKept(before, after, was, end, count);
  }

  /** The whole pass: block by block, afterwards the code is the swept code. */
  method EliminateDeadStores(code: array<Word>, count: nat, isTarget: array<bool>, bbIps: array<nat>)
      returns (changed: bool)
    requires count <= code.Length && count < isTarget.Length && count < bbIps.Length
    requires Scans(code[..count], 0)
    modifies code, bbIps
    ensures code[..count] == Swept(old(code[..count]), old(isTarget[..count + 1]))
    ensures changed == (code[..count] != old(code[..count]))
  {
    hide Swept;
    hide Segment;
    hide Block;
    hide Scans;
    ghost var was, marks := code[..count], isTarget[..count + 1];
    changed := false;
    var ip := 0;
    SegmentEmpty(was, Swept(was, marks), 0);
    SegmentEmpty(Swept(was, marks), was, 0);
    SegmentWhole(was);
    while ip < count
      invariant 0 <= ip <= count && Boundary(was, ip) && isTarget[..count + 1] == marks
      invariant Segment(code[..count], Swept(was, marks), 0, ip) && Segment(code[..count], was, ip, count)
      invariant changed == !Segment(Swept(was, marks), was, 0, ip)
      decreases count - ip
    {
      var start := ip;
      SegmentIs(code[..count], was, start, count);
      var num, end := CollectBlock(code, count, isTarget, bbIps, start, was, marks);
      BlockAdvances(was, marks, bbIps[..num], start, end);
      ghost var before := code[..count];
      assert before[..start] == code[..start];
      var swept := SweepBlock(code, count, bbIps, num, start, end, was, marks);
      assert code[..count][..start] == code[..start];
      SegmentPrefix(before, code[..count], Swept(was, marks), start);
      SegmentJoin(code[..count], Swept(was, marks), 0, start, end);
      SegmentSplit(Swept(was, marks), was, 0, start, end);
      changed := changed || swept;
      ip := end;
    }
    SegmentIs(code[..count], Swept(was, marks), 0, count);
    if !changed { SegmentIs(Swept(was, marks), was, 0, count); }
    if Swept(was, marks) == was { SegmentWhole(was); }
  }

  lemma SegmentWhole(code: seq<Word>)
    ensures Segment(code, code, 0, |code|)
  {
  }

  lemma SegmentIs(code: seq<Word>, like: seq<Word>, lo: nat, hi: nat)
    requires Segment(code, like, lo, hi)
    ensures lo <= hi <= |code| == |like| && code[lo..hi] == like[lo..hi]
  {
  }

  lemma SegmentPrefix(before: seq<Word>, code: seq<Word>, like: seq<Word>, hi: nat)
    requires Segment(before, like, 0, hi) && |code| == |before| && code[..hi] == before[..hi]
    ensures Segment(code, like, 0, hi)
  {
  }

  lemma BlockAdvances(code: seq<Word>, marks: seq<bool>, ips: seq<nat>, start: nat, end: nat)
    requires |marks| == |code| + 1 && Block(code, marks, ips, start, end)
    ensures start < end <= |code| && Boundary(code, end)
  {
    ChainBounds(code, ips, start, end, |ips| - 1);
    MeetsNext(code, 0, ips[|ips| - 1]);
  }
}