/** `AcuOpt_CollectJumpTargets`: the slots that are entered other than by falling through. */
module JumpTargets {
  import opened Words
  import opened Bytecode
  import opened Layout

  /** The instruction at `ip` transfers control to slot `i`, as a branch or a call. */
  predicate EntersAt(code: seq<Word>, ip: nat, i: int)
    requires ip < |code|
  {
    if IsBranch(code[ip].op) then GetJumpTarget(ip, code[ip]) == i
    else IsCall(code[ip].op) && ip + 1 < |code| && Payload(code[ip + 1]) == i
  }

  ghost predicate EnteredBefore(code: seq<Word>, end: int, i: int) {
    i == 0 || exists ip :: 0 <= ip < end && ip < |code| && Boundary(code, ip) && EntersAt(code, ip, i)
  }

  /** The start of the code, and whatever some instruction branches to or calls. */
  ghost predicate IsTarget(code: seq<Word>, i: int) { EnteredBefore(code, |code|, i) }

  /** `marks` misses no target of the code. */
  ghost predicate Covers(code: seq<Word>, marks: seq<bool>) {
    |marks| == |code| + 1 && forall i :: 0 <= i <= |code| && IsTarget(code, i) ==> marks[i]
  }

  lemma EnteredNext(code: seq<Word>, ip: nat, i: int)
    requires Boundary(code, ip) && ip < |code|
    ensures EnteredBefore(code, ip + Slots(code[ip].op), i) <==>
            EnteredBefore(code, ip, i) || EntersAt(code, ip, i)
  {
    if EnteredBefore(code, ip + Slots(code[ip].op), i) && i != 0 {
      var k :| 0 <= k < ip + Slots(code[ip].op) && k < |code| && Boundary(code, k) && EntersAt(code, k, i);
      if k > ip {
        NoBoundaryInside(code, 0, ip, k);
      }
    }
  }

  method CollectJumpTargets(code: array<Word>, count: nat, isTarget: array<bool>)
    requires count <= code.Length && count < isTarget.Length
    requires Scans(code[..count], 0)
    modifies isTarget
    ensures forall i :: 0 <= i <= count ==> isTarget[i] == (count > 0 && IsTarget(code[..count], i))
  {
    ghost var was := code[..count];
    for i := 0 to count + 1
      invariant forall k :: 0 <= k < i ==> !isTarget[k]
    {
      isTarget[i] := false;
    }
    if count == 0 { return; }
    isTarget[0] := true;

    var ip := 0;
    while ip < count
      invariant 0 <= ip <= count && Boundary(was, ip)
      invariant forall i :: 0 <= i <= count ==> isTarget[i] == EnteredBefore(was, ip, i)
      decreases count - ip
    {
      var inst := code[ip];
      ScansAt(was, 0, ip);
      if IsBranch(inst.op) {
        var target := GetJumpTarget(ip, inst);
        if target <= count {
          isTarget[target] := true;
        }
      } else if IsCall(inst.op) {
        if ip + 1 < count {
          var target := Payload(code[ip + 1]);
          if target <= count {
            isTarget[target] := true;
          }
        }
      }
      forall i | 0 <= i <= count
        ensures isTarget[i] == EnteredBefore(was, ip + Slots(inst.op), i)
      {
        EnteredNext(was, ip, i);
      }
      MeetsNext(was, 0, ip);
      ip := ip + Slots(inst.op);
    }
  }
}
