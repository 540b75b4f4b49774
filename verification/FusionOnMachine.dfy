/** Rules 7, 8 and 11 on the machine itself. They are no linkages from instruction to instruction, so the
    discipline of the rewritten code is shown at the site. */
module FusionOnMachine {
  import opened Words
  import opened Bytecode
  import opened Layout
  import opened Vm
  import opened JumpTargets
  import opened ContractVm
  import opened TableContract
  import opened DisciplineKept
  import opened DeadRegisters
  import opened FusedBranches
  import opened BranchFusion
  import JumpRules
  import TailCalls

  ghost predicate AgreeAt(facts: Facts, wants: Wants, facts': Facts, wants': Wants, i: int) {
    (forall r: u8 :: facts'(i, r) == facts(i, r)) && wants'(i) == wants(i)
  }

  /** The discipline at one instruction depends on its own slot and on where control goes. */
  lemma SameFactsKeep(code: seq<Word>, facts: Facts, wants: Wants, facts': Facts, wants': Wants, ip: nat)
    requires ip < |code| && KeepsAt(code, facts, wants, ip)
    requires AgreeAt(facts, wants, facts', wants', ip) && AgreeAt(facts, wants, facts', wants', ip + Slots(code[ip].op))
    requires IsBranch(code[ip].op) ==> AgreeAt(facts, wants, facts', wants', ip + 1 + BranchOffset(code[ip]))
    requires IsCall(code[ip].op) && ip + 1 < |code| ==> AgreeAt(facts, wants, facts', wants', Payload(code[ip + 1]))
    ensures KeepsAt(code, facts', wants', ip)
  {
    hide BranchOffset;
    hide Payload;
  }

  // ---- rules 8 and 11 -------------------------------------------------------------------------------

  /** What the fused code may look at: the result nowhere where it is dead; between the two instructions what
      may be looked at before them, and the result if it is still stored. */
  function SiteFacts(facts: Facts, reg: u8, dead: Places, ip: nat, stored: bool): Facts {
    (i: int, r: u8) =>
      if i == ip + 1 then (stored && r == reg) || (facts(ip, r) && (r != reg || !dead(ip)))
      else facts(i, r) && (r != reg || !dead(i))
  }

  function SiteWants(wants: Wants, ip: nat): Wants { (i: int) => if i == ip + 1 then wants(ip) else wants(i) }

  lemma PlacesHold(facts: Facts, reg: u8, dead: Places, i: int)
    ensures forall l: u8 :: HoldsOne(PlacesLink(reg, dead), facts, i, l) <==> facts(i, l) && (l != reg || !dead(i))
  {
    forall l: u8 | facts(i, l) && (l != reg || !dead(i)) ensures HoldsOne(PlacesLink(reg, dead), facts, i, l) {
      Through(PlacesLink(reg, dead), facts, i, l, l);
    }
  }

  lemma AwayAgrees(code: seq<Word>, facts: Facts, wants: Wants, reg: u8, dead: Places, ip: nat, stored: bool, i: int)
    requires Boundary(code, i) && i != ip + 1
    ensures AgreeAt(LinkedFacts(code, PlacesLink(reg, dead), facts), AnchoredWants(code, wants),
                    SiteFacts(facts, reg, dead, ip, stored), SiteWants(wants, ip), i)
  {
    AtBoundary(code, PlacesLink(reg, dead), facts, wants, i);
    PlacesHold(facts, reg, dead, i);
  }

  /** Away from the site. */
  lemma AwayKeeps(c: Chunk, d: Chunk, marks: seq<bool>, facts: Facts, wants: Wants, reg: u8, dead: Places, ip: nat,
                  stored: bool, i: nat)
    requires Disciplined(c.code, facts, wants) && PairSite(c.code, marks, ip) && DeadPlaces(c.code, reg, dead)
    requires Recoded(c, d) && PairsElsewhere(c, d, PlacesLink(reg, dead), ip)
    requires Boundary(c.code, i) && i < |c.code| && i != ip && i != ip + 1
    requires d.code[i] == c.code[i] && (Slots(c.code[i].op) == 2 && i + 1 < |c.code| ==> d.code[i + 1] == c.code[i + 1])
    ensures KeepsAt(d.code, SiteFacts(facts, reg, dead, ip, stored), SiteWants(wants, ip), i)
  {
    hide PairAt;
    hide KeepsAt;
    hide BranchOffset;
    hide Payload;
    var k := PlacesLink(reg, dead);
    assert PairAt(c, d, k, i);
    DisciplinedAt(c.code, facts, wants, i);
    SlotAfter(c.code, marks, ip);
    var w := c.code[i];
    SameCallWindow(c, d, k, facts, wants, i);
    if w.op == OP_NOP {
      DroppedKeeps(c, d, k, facts, wants, i);
    } else if Slots(w.op) == 2 {
      WideKeeps(c, d, k, facts, wants, i);
    } else {
      NarrowKeeps(c, d, k, facts, wants, i);
    }
    NotBetween(c.code, marks, ip, i, i + Slots(w.op));
    AwayAgrees(c.code, facts, wants, reg, dead, ip, stored, i);
    AwayAgrees(c.code, facts, wants, reg, dead, ip, stored, i + Slots(w.op));
    TargetsInside(c.code, marks, ip, i);
    if IsBranch(w.op) {
      NotBetween(c.code, marks, ip, i, i + 1 + BranchOffset(w));
      AwayAgrees(c.code, facts, wants, reg, dead, ip, stored, i + 1 + BranchOffset(w));
    }
    if IsCall(w.op) {
      NotBetween(c.code, marks, ip, i, Payload(c.code[i + 1]));
      AwayAgrees(c.code, facts, wants, reg, dead, ip, stored, Payload(c.code[i + 1]));
    }
    SameFactsKeep(d.code, LinkedFacts(c.code, k, facts), AnchoredWants(c.code, wants),
                  SiteFacts(facts, reg, dead, ip, stored), SiteWants(wants, ip), i);
  }

  lemma SameCallWindow(c: Chunk, d: Chunk, k: Linkage, facts: Facts, wants: Wants, i: nat)
    requires i < |c.code| == |d.code| && d.code[i] == c.code[i] && KeepsAt(c.code, facts, wants, i)
    requires forall j: int, l: u8, r: u8 :: k(j, l, r) ==> l == r
    ensures WindowKeptAt(c, d, k, facts, i)
  {
  }

  /** Behind the site the result is looked at only if it is still stored. */
  lemma BehindSite(code: seq<Word>, marks: seq<bool>, facts: Facts, wants: Wants, dead: Places, ip: nat, stored: bool,
                   to: int)
    requires Disciplined(code, facts, wants) && PairSite(code, marks, ip)
    requires IsRegCompare(code[ip].op) || IsImmCompare(code[ip].op)
    requires IsBoolJump(code[ip + 1].op) && (to == ip + 2 || to == GoesTo(code, ip)) && (stored || dead(to))
    requires to != ip + 1
    ensures Follows(SiteFacts(facts, code[ip].a, dead, ip, stored), SiteWants(wants, ip), ip + 1, to)
  {
    hide BranchOffset;
    SlotAfter(code, marks, ip);
    DisciplinedAt(code, facts, wants, ip);
    DisciplinedAt(code, facts, wants, ip + 1);
    assert Follows(facts, wants, ip + 1, to);
    assert Stores(facts, wants, ip, ip + 1, Some(code[ip].a));
  }

  /** The operands of the comparison may still be looked at. */
  lemma OperandsKnown(code: seq<Word>, marks: seq<bool>, facts: Facts, wants: Wants, dead: Places, ip: nat,
                      stored: bool, r: u8)
    requires Disciplined(code, facts, wants) && PairSite(code, marks, ip) && DeadPlaces(code, code[ip].a, dead)
    requires IsRegCompare(code[ip].op) || IsImmCompare(code[ip].op)
    requires InstReadsReg(code[ip], r)
    ensures SiteFacts(facts, code[ip].a, dead, ip, stored)(ip, r)
    ensures SiteFacts(facts, code[ip].a, dead, ip, stored)(ip + 1, r)
  {
    DisciplinedAt(code, facts, wants, ip);
    SiteFlow(code, marks, ip, code[ip].a, dead);
  }

  lemma Rule8IsDisciplined(c: Chunk, marks: seq<bool>, ip: nat, dead: Places, facts: Facts, wants: Wants)
      returns (facts': Facts, wants': Wants)
    requires Disciplined(c.code, facts, wants) && PairSite(c.code, marks, ip) && Rule8Applies(c.code, marks, ip)
    requires Rule8Safe(c.code, marks, ip, dead)
    ensures Disciplined(Rule8(c.code, marks, ip), facts', wants')
  {
    hide KeepsAt;
    hide BranchOffset;
    hide DeadAfter;
    hide PairAt;
    hide Rule8Safe;
    var q, reg := Rule8(c.code, marks, ip), c.code[ip].a;
    var d := c.(code := q);
    var places := Rule8Places(c.code, marks, ip, dead);
    var stored := q[ip] != NOP_WORD;
    facts', wants' := SiteFacts(facts, reg, places, ip, stored), SiteWants(wants, ip);
    Rule8Sound(c.code, marks, ip);
    SameAway(c, d, marks, reg, places, ip);
    forall i | 0 <= i < |q| && Boundary(q, i) ensures KeepsAt(q, facts', wants', i) {
      if i == ip || i == ip + 1 {
        Rule8SiteKeeps(c, marks, ip, places, facts, wants, stored);
      } else {
        if Slots(c.code[i].op) == 2 { SlotElsewhere(c.code, marks, ip, i); }
        AwayKeeps(c, d, marks, facts, wants, reg, places, ip, stored, i);
      }
    }
  }

  lemma SlotElsewhere(code: seq<Word>, marks: seq<bool>, ip: nat, i: nat)
    requires PairSite(code, marks, ip) && Boundary(code, i) && i < |code| && i != ip && i != ip + 1
    requires Slots(code[i].op) == 2
    ensures i + 1 != ip && i + 1 != ip + 1
  {
    if i < ip { NoBoundaryInside(code, 0, i, ip); }
  }

  lemma Rule8SiteKeeps(c: Chunk, marks: seq<bool>, ip: nat, places: Places, facts: Facts, wants: Wants, stored: bool)
    requires Disciplined(c.code, facts, wants) && PairSite(c.code, marks, ip) && Rule8Applies(c.code, marks, ip)
    requires DeadPlaces(c.code, c.code[ip].a, places) && stored == (Rule8(c.code, marks, ip)[ip] != NOP_WORD)
    requires stored || (places(ip + 2) && places(GoesTo(c.code, ip)))
    ensures ip + 1 < |c.code| && |marks| == |c.code| + 1
    ensures KeepsAt(Rule8(c.code, marks, ip), SiteFacts(facts, c.code[ip].a, places, ip, stored), SiteWants(wants, ip),
                    ip)
    ensures KeepsAt(Rule8(c.code, marks, ip), SiteFacts(facts, c.code[ip].a, places, ip, stored), SiteWants(wants, ip),
                    ip + 1)
  {
    hide BranchOffset;
    hide DeadAfter;
    hide EncodeAsBx;
    hide WellFormed;
    hide Covers;
    hide Boundary;
    PairInside(c.code, marks, ip);
    var code, q, w := c.code, Rule8(c.code, marks, ip), c.code[ip];
    SiteEnds(code, marks, ip);
    TargetUnmarked(code, marks, ip);
    ZeroFusedBranch(code, marks, ip);
    assert InstReadsReg(w, w.b);
    OperandsKnown(code, marks, facts, wants, places, ip, stored, w.b);
    BehindSite(code, marks, facts, wants, places, ip, stored, ip + 2);
    BehindSite(code, marks, facts, wants, places, ip, stored, GoesTo(code, ip));
    if stored { assert q[ip] == w; }
  }

  lemma ZeroFusedBranch(code: seq<Word>, marks: seq<bool>, ip: nat)
    requires PairSite(code, marks, ip) && Rule8Applies(code, marks, ip)
    ensures var v := Rule8(code, marks, ip)[ip + 1];
            IsBoolJump(v.op) && v.a == code[ip].b && ip + 2 + BranchOffset(v) == GoesTo(code, ip)
  {
    hide DeadAfter;
    SiteEnds(code, marks, ip);
    var v := ZeroFused(code, ip);
    FieldBx(Word(v.op, code[ip].b, 0, 0), Reach(code, ip));
    JumpRules.BoolOffset(v);
  }

  /** Rule 8 cannot be noticed on the machine itself under the same condition on the result register. */
  lemma Rule8OnMachine(c: Chunk, marks: seq<bool>, ip: nat, dead: Places, facts: Facts, wants: Wants, h: Host, e: World,
                       s: State)
    requires Disciplined(c.code, facts, wants) && PairSite(c.code, marks, ip) && Rule8Applies(c.code, marks, ip)
    requires Rule8Safe(c.code, marks, ip, dead)
    requires IsInitial(c, s) && KeepsPurity(h, e) && TerminatorsStop(e.host)
    ensures Unnoticed(c, c.(code := Rule8(c.code, marks, ip)), h, s)
  {
    hide Disciplined;
    hide KeepsPurity;
    hide PairSite;
    hide Rule8Safe;
    hide Rule8Applies;
    hide Rule8;
    FirstMatches(c, facts, wants, s);
    PairInside(c.code, marks, ip);
    var facts', wants' := Rule8IsDisciplined(c, marks, ip, dead, facts, wants);
    Rule8PreservesBehaviour(c, e, marks, ip, dead, FirstConfig(s));
    MachineFollows(c, c.(code := Rule8(c.code, marks, ip)), facts, wants, facts', wants', h, e, s);
  }

  lemma Rule11IsDisciplined(c: Chunk, marks: seq<bool>, ip: nat, dead: Places, facts: Facts, wants: Wants)
      returns (facts': Facts, wants': Wants)
    requires Disciplined(c.code, facts, wants) && PairSite(c.code, marks, ip) && Rule11Applies(c.code, marks, ip)
    requires Rule11Safe(c.code, ip, dead)
    ensures Disciplined(Rule11(c.code, ip), facts', wants')
  {
    hide KeepsAt;
    hide BranchOffset;
    hide DeadAfter;
    hide PairAt;
    var q, reg := Rule11(c.code, ip), c.code[ip].a;
    var d := c.(code := q);
    ScannedPlaces(c.code, marks, reg, dead);
    var places := (i: int) => dead(i) || (i >= 0 && DeadAfter(c.code, marks, i, reg));
    facts', wants' := SiteFacts(facts, reg, places, ip, false), SiteWants(wants, ip);
    Rule11Sound(c.code, marks, ip);
    SameAway(c, d, marks, reg, places, ip);
    forall i | 0 <= i < |q| && Boundary(q, i) ensures KeepsAt(q, facts', wants', i) {
      if i == ip || i == ip + 1 {
        Rule11SiteKeeps(c, marks, ip, places, facts, wants);
      } else {
        if Slots(c.code[i].op) == 2 { SlotElsewhere(c.code, marks, ip, i); }
        AwayKeeps(c, d, marks, facts, wants, reg, places, ip, false, i);
      }
    }
  }

  lemma Rule11SiteKeeps(c: Chunk, marks: seq<bool>, ip: nat, places: Places, facts: Facts, wants: Wants)
    requires Disciplined(c.code, facts, wants) && PairSite(c.code, marks, ip) && Rule11Applies(c.code, marks, ip)
    requires DeadPlaces(c.code, c.code[ip].a, places) && places(ip + 2) && places(GoesTo(c.code, ip))
    ensures KeepsAt(Rule11(c.code, ip), SiteFacts(facts, c.code[ip].a, places, ip, false), SiteWants(wants, ip), ip)
    ensures KeepsAt(Rule11(c.code, ip), SiteFacts(facts, c.code[ip].a, places, ip, false), SiteWants(wants, ip), ip + 1)
  {
    hide BranchOffset;
    hide DeadAfter;
    hide WellFormed;
    hide Covers;
    hide Boundary;
    hide GetInverted;
    var code, q, w := c.code, Rule11(c.code, ip), c.code[ip];
    SiteEnds(code, marks, ip);
    TargetUnmarked(code, marks, ip);
    FusedShape(code, marks, ip);
    var facts' := SiteFacts(facts, w.a, places, ip, false);
    forall r: u8 | InstReadsReg(q[ip], r) ensures facts'(ip, r) {
      OperandsKnown(code, marks, facts, wants, places, ip, false, r);
    }
    BehindSite(code, marks, facts, wants, places, ip, false, ip + 2);
    BehindSite(code, marks, facts, wants, places, ip, false, GoesTo(code, ip));
  }

  lemma FusedShape(code: seq<Word>, marks: seq<bool>, ip: nat)
    requires PairSite(code, marks, ip) && Rule11Applies(code, marks, ip)
    ensures var q := Rule11(code, ip);
            q[ip + 1] == NOP_WORD && IsBranch(q[ip].op) && ip + 1 + BranchOffset(q[ip]) == GoesTo(code, ip) &&
            forall r: u8 :: InstReadsReg(q[ip], r) ==> InstReadsReg(code[ip], r)
  {
    hide DeadAfter;
    SiteEnds(code, marks, ip);
    var w, jumpOnTrue := code[ip], code[ip + 1].op == OP_JUMP_IF_TRUE;
    var regs: Registers := seq(REG_WINDOW, _ => 0);
    FusedFields(w, jumpOnTrue, (Reach(code, ip) + 1) % 0x100, Reach(code, ip) + 1, regs, regs);
    assert IsImmCompare(w.op) ==> IsImmJump(Rule11(code, ip)[ip].op);
    assert IsRegCompare(w.op) ==> IsRegJump(Rule11(code, ip)[ip].op);
  }

  lemma Rule11OnMachine(c: Chunk, marks: seq<bool>, ip: nat, dead: Places, facts: Facts, wants: Wants, h: Host,
                        e: World, s: State)
    requires Disciplined(c.code, facts, wants) && PairSite(c.code, marks, ip) && Rule11Applies(c.code, marks, ip)
    requires Rule11Safe(c.code, ip, dead)
    requires IsInitial(c, s) && KeepsPurity(h, e) && TerminatorsStop(e.host)
    ensures Unnoticed(c, c.(code := Rule11(c.code, ip)), h, s)
  {
    hide Disciplined;
    hide KeepsPurity;
    hide PairSite;
    hide Rule11Safe;
    hide Rule11Applies;
    hide Rule11;
    FirstMatches(c, facts, wants, s);
    PairInside(c.code, marks, ip);
    var facts', wants' := Rule11IsDisciplined(c, marks, ip, dead, facts, wants);
    Rule11PreservesBehaviour(c, e, marks, ip, dead, FirstConfig(s));
    MachineFollows(c, c.(code := Rule11(c.code, ip)), facts, wants, facts', wants', h, e, s);
  }

  // ---- rule 7 ---------------------------------------------------------------------------------------

  /** Nothing comes to the slot of the return any more. */
  function TailFacts(facts: Facts, at: nat): Facts { (i: int, r: u8) => i == at + 2 || facts(i, r) }

  function TailWants(wants: Wants, at: nat): Wants { (i: int) => i != at + 2 && wants(i) }

  /** A tail call keeps the discipline: a caller that wants a value gets it from the callee, because the return
      would have looked at it. */
  lemma TailCallIsDisciplined(c: Chunk, marks: seq<bool>, at: nat, facts: Facts, wants: Wants)
    requires Disciplined(c.code, facts, wants) && Covers(c.code, marks) && Boundary(c.code, at)
    requires TailCalls.Rule7Applies(c.code, marks, at)
    ensures Disciplined(TailCalls.Rule7(c.code, at), TailFacts(facts, at), TailWants(wants, at))
  {
    hide BranchOffset;
    hide KeepsAt;
    hide Boundary;
    hide GoodAt;
    hide IsTarget;
    var code, q := c.code, TailCalls.Rule7(c.code, at);
    hide TailCalls.Rule7Applies;
    DisciplinedAt(code, facts, wants, at);
    TailCalls.Rule7Sound(code, marks, at);
    forall i | 0 <= i < |q| && Boundary(q, i) ensures KeepsAt(q, TailFacts(facts, at), TailWants(wants, at), i) {
      if i == at || i == at + 2 {
        TailSiteKeeps(c, marks, at, facts, wants);
      } else {
        TailElsewhere(c, marks, at, facts, wants, i);
      }
    }
  }

  lemma TailElsewhere(c: Chunk, marks: seq<bool>, at: nat, facts: Facts, wants: Wants, i: nat)
    requires Disciplined(c.code, facts, wants) && Covers(c.code, marks) && Boundary(c.code, at)
    requires TailCalls.Rule7Applies(c.code, marks, at)
    requires Boundary(c.code, i) && i < |c.code| && i != at && i != at + 2
    ensures KeepsAt(TailCalls.Rule7(c.code, at), TailFacts(facts, at), TailWants(wants, at), i)
  {
    hide BranchOffset;
    hide KeepsAt;
    hide Boundary;
    hide Payload;
    hide TailCalls.Rule7;
    var code, q := c.code, TailCalls.Rule7(c.code, at);
    DisciplinedAt(code, facts, wants, at);
    DisciplinedAt(code, facts, wants, i);
    TailCalls.SameWords(code, at, i);
    TailCalls.NotToTail(code, marks, at, i, i + Slots(code[i].op));
    if IsBranch(code[i].op) { NotToTailBranch(code, marks, at, i); }
    if IsCall(code[i].op) { TailCalls.NotToTail(code, marks, at, i, Payload(code[i + 1])); }
    SameInstructionKeeps(code, q, facts, wants, i);
    SameFactsKeep(q, facts, wants, TailFacts(facts, at), TailWants(wants, at), i);
  }

  lemma NotToTailBranch(code: seq<Word>, marks: seq<bool>, at: nat, i: nat)
    requires WellFormed(code) && Covers(code, marks) && Boundary(code, at) && TailCalls.Rule7Applies(code, marks, at)
    requires Boundary(code, i) && i < |code| && IsBranch(code[i].op)
    ensures i + 1 + BranchOffset(code[i]) != at + 2
  {
    assert GoodAt(code, i);
    TailCalls.NotToTail(code, marks, at, i, i + 1 + BranchOffset(code[i]));
  }

  lemma SameInstructionKeeps(p: seq<Word>, q: seq<Word>, facts: Facts, wants: Wants, i: nat)
    requires |q| == |p| && i < |p| && q[i] == p[i] && KeepsAt(p, facts, wants, i)
    requires Slots(p[i].op) == 2 ==> PayloadAt(q, i + 1) == PayloadAt(p, i + 1)
    ensures KeepsAt(q, facts, wants, i)
  {
  }

  lemma TailSiteKeeps(c: Chunk, marks: seq<bool>, at: nat, facts: Facts, wants: Wants)
    requires Disciplined(c.code, facts, wants) && Covers(c.code, marks) && Boundary(c.code, at)
    requires TailCalls.Rule7Applies(c.code, marks, at)
    ensures KeepsAt(TailCalls.Rule7(c.code, at), TailFacts(facts, at), TailWants(wants, at), at)
    ensures KeepsAt(TailCalls.Rule7(c.code, at), TailFacts(facts, at), TailWants(wants, at), at + 2)
  {
    hide Boundary;
    DisciplinedAt(c.code, facts, wants, at);
    DisciplinedAt(c.code, facts, wants, at + 2);
    TailCalls.NotToTail(c.code, marks, at, at, Payload(c.code[at + 1]));
  }

  /** Rule 7 cannot be noticed on the machine itself, unless the original runs out of call frames. */
  lemma TailCallOnMachine(c: Chunk, marks: seq<bool>, at: nat, waits: TailCalls.Wants, facts: Facts, wants: Wants,
                          h: Host, e: World, s: State)
    requires Disciplined(c.code, facts, wants) && TailCalls.TailSite(c, marks, at, waits)
    requires IsInitial(c, s) && KeepsPurity(h, e) && TerminatorsStop(e.host)
    requires !TailCalls.CallStackRunsOut(c, e, FirstConfig(s))
    ensures Unnoticed(c, c.(code := TailCalls.Rule7(c.code, at)), h, s)
  {
    hide Disciplined;
    hide KeepsPurity;
    hide TailCalls.Rule7;
    FirstMatches(c, facts, wants, s);
    TailCallIsDisciplined(c, marks, at, facts, wants);
    TailCalls.TailCallPreservesBehaviour(c, e, marks, at, waits, FirstConfig(s));
    MachineFollows(c, c.(code := TailCalls.Rule7(c.code, at)), facts, wants, TailFacts(facts, at), TailWants(wants, at),
                   h, e, s);
  }
}
