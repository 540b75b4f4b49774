/** The register passes on the machine itself: for disciplined code, each of them cannot be noticed there,
    and leaves disciplined code. */
module PassesOnMachine {
  import opened Words
  import opened Bytecode
  import opened Layout
  import opened Vm
  import opened JumpTargets
  import opened ContractVm
  import opened TableContract
  import opened DisciplineKept
  import opened DeadRegisters
  import opened Behaviour
  import Validator
  import DeadStores
  import ForwardMove
  import CopyPropagation
  import RegisterPasses
  import Optimizer

  // ---- windows --------------------------------------------------------------------------------------

  /** A call left with its window. */
  predicate SameWindowAt(c: Chunk, d: Chunk, ip: nat)
    requires ip < |c.code| == |d.code|
  {
    d.code[ip].op == OP_CALL || d.code[ip].op == OP_CALL_VOID ==>
      (c.code[ip].op == OP_CALL || c.code[ip].op == OP_CALL_VOID) && d.code[ip].b == c.code[ip].b
  }

  /** Registers keep their places, and calls their windows. */
  lemma SameWindows(c: Chunk, d: Chunk, k: Linkage, facts: Facts, wants: Wants)
    requires Disciplined(c.code, facts, wants) && |d.code| == |c.code|
    requires forall i: int, l: u8, r: u8 :: k(i, l, r) ==> l == r
    requires forall ip {:trigger SameWindowAt(c, d, ip)} ::
               0 <= ip < |c.code| && Boundary(c.code, ip) ==> SameWindowAt(c, d, ip)
    ensures WindowsKept(c, d, k, facts)
  {
    forall ip | 0 <= ip < |c.code| && Boundary(c.code, ip) ensures WindowKeptAt(c, d, k, facts, ip) {
      assert SameWindowAt(c, d, ip);
      DisciplinedAt(c.code, facts, wants, ip);
    }
  }

  // ---- dead stores ----------------------------------------------------------------------------------

  lemma SweptKeepsWindows(c: Chunk, marks: seq<bool>, facts: Facts, wants: Wants)
    requires Disciplined(c.code, facts, wants) && |marks| == |c.code| + 1
    ensures WindowsKept(c, c.(code := DeadStores.Swept(c.code, marks)), DeadStores.LiveLink(c.code, marks), facts)
  {
    hide DeadStores.Swept;
    var d := c.(code := DeadStores.Swept(c.code, marks));
    forall ip | 0 <= ip < |c.code| && Boundary(c.code, ip) ensures SameWindowAt(c, d, ip) {
      DeadStores.SweptAt(c.code, marks, ip);
    }
    SameWindows(c, d, DeadStores.LiveLink(c.code, marks), facts, wants);
  }

  /** No draw is dropped anywhere. */
  ghost predicate KeepsDraws(code: seq<Word>, marks: seq<bool>)
    requires |marks| == |code| + 1
  {
    forall ip :: 0 <= ip < |code| && Boundary(code, ip) ==> DeadStores.NoRandomDropped(code, marks, ip)
  }

  /** The swept code is disciplined; what it may look at is what was live. */
  lemma SweptIsDisciplined(c: Chunk, marks: seq<bool>, facts: Facts, wants: Wants)
    requires Disciplined(c.code, facts, wants) && Validator.ValidChunk(c)
    requires |marks| == |c.code| + 1 && KeepsDraws(c.code, marks)
    ensures Disciplined(DeadStores.Swept(c.code, marks),
                        LinkedFacts(c.code, DeadStores.LiveLink(c.code, marks), facts), AnchoredWants(c.code, wants))
  {
    hide DeadStores.Swept;
    hide Compatible;
    DeadStores.SweptCompatible(c, marks);
    SweptKeepsWindows(c, marks, facts, wants);
    KeepsDiscipline(c, c.(code := DeadStores.Swept(c.code, marks)), DeadStores.LiveLink(c.code, marks), facts, wants);
  }

  /** Dead-store elimination cannot be noticed on the machine itself if the code is disciplined and no draw
      is dropped. */
  lemma DeadStoresOnMachine(c: Chunk, marks: seq<bool>, facts: Facts, wants: Wants, h: Host, e: World, s: State)
    requires Disciplined(c.code, facts, wants) && Validator.ValidChunk(c)
    requires |marks| == |c.code| + 1 && KeepsDraws(c.code, marks)
    requires IsInitial(c, s) && KeepsPurity(h, e) && TerminatorsStop(e.host)
    ensures Unnoticed(c, c.(code := DeadStores.Swept(c.code, marks)), h, s)
  {
    hide DeadStores.Swept;
    hide Compatible;
    DeadStores.SweptCompatible(c, marks);
    SweptKeepsWindows(c, marks, facts, wants);
    CompatibleOnMachine(c, c.(code := DeadStores.Swept(c.code, marks)), DeadStores.LiveLink(c.code, marks), facts,
                        wants, h, e, s);
  }

  // ---- rule 4 ---------------------------------------------------------------------------------------

  /** The final register lies below the window of every call between definition and MOVE. */
  ghost predicate ClearOfWindows(code: seq<Word>, ip: nat, at: nat)
    requires at < |code|
  {
    forall i :: ip < i < at && Boundary(code, i) && (code[i].op == OP_CALL || code[i].op == OP_CALL_VOID) ==>
      code[at].a < code[i].b
  }

  lemma ForwardedKeepsWindows(c: Chunk, marks: seq<bool>, ip: nat, at: nat, facts: Facts, wants: Wants)
    requires Disciplined(c.code, facts, wants) && |marks| == |c.code| + 1
    requires ForwardMove.Site(c.code, marks, ip, at) && ClearOfWindows(c.code, ip, at)
    ensures WindowsKept(c, c.(code := ForwardMove.ForwardedCode(c.code, ip, at)),
                        ForwardMove.ForwardLink(c.code, marks, ip, at), facts)
  {
    hide DeadAfter;
    var k, d := ForwardMove.ForwardLink(c.code, marks, ip, at), c.(code := ForwardMove.ForwardedCode(c.code, ip, at));
    forall i | 0 <= i < |c.code| && Boundary(c.code, i) ensures WindowKeptAt(c, d, k, facts, i) {
      DisciplinedAt(c.code, facts, wants, i);
      ForwardMove.NotInside(c.code, i, at);
      ForwardMove.NotInside(c.code, i, ip);
    }
  }

  /** Rule 4 cannot be noticed there if moreover the final register is clear of the windows in between. */
  lemma ForwardingOnMachine(c: Chunk, marks: seq<bool>, ip: nat, at: nat, facts: Facts, wants: Wants, h: Host,
                            e: World, s: State)
    requires Disciplined(c.code, facts, wants) && Covers(c.code, marks)
    requires ForwardMove.Site(c.code, marks, ip, at) && ClearOfWindows(c.code, ip, at)
    requires IsInitial(c, s) && KeepsPurity(h, e) && TerminatorsStop(e.host)
    ensures Unnoticed(c, c.(code := ForwardMove.ForwardedCode(c.code, ip, at)), h, s)
    ensures Disciplined(ForwardMove.ForwardedCode(c.code, ip, at),
                        LinkedFacts(c.code, ForwardMove.ForwardLink(c.code, marks, ip, at), facts),
                        AnchoredWants(c.code, wants))
  {
    hide Compatible;
    hide ForwardMove.Site;
    hide ForwardMove.ForwardLink;
    DisciplinedCode(c.code, facts, wants);
    ForwardMove.ForwardedCompatible(c, marks, ip, at);
    ForwardedKeepsWindows(c, marks, ip, at, facts, wants);
    ForwardEnters(c.code, marks, ip, at);
    var d, k := c.(code := ForwardMove.ForwardedCode(c.code, ip, at)), ForwardMove.ForwardLink(c.code, marks, ip, at);
    KeepsDiscipline(c, d, k, facts, wants);
    CompatibleOnMachine(c, d, k, facts, wants, h, e, s);
  }

  lemma ForwardEnters(code: seq<Word>, marks: seq<bool>, ip: nat, at: nat)
    requires |marks| == |code| + 1 && ForwardMove.Site(code, marks, ip, at)
    ensures ip < at < |code| && Enters(ForwardMove.ForwardLink(code, marks, ip, at), 0)
  {
  }

  // ---- rule 9 ---------------------------------------------------------------------------------------

  /** The call at `i`, as the scan leaves it: what may be looked at behind it lies below its window, also
      where the source now stands for the copy. */
  ghost predicate CopyClearAt(code: seq<Word>, marks: seq<bool>, ip: nat, facts: Facts, i: nat)
    requires |marks| == |code| + 1 && ip < |code| && i < |code|
  {
    var w := code[i];
    var dst, src := code[ip].a, code[ip].b;
    var v := CopyPropagation.Substitute(w, dst, src);
    CopyPropagation.Visited(code, marks, ip + 1, dst, src, i) && (w.op == OP_CALL || w.op == OP_CALL_VOID) ==>
      StaysBelow(CopyPropagation.CopyLink(code, marks, ip), facts, i + 2, w, v)
  }

  ghost predicate CopyClear(code: seq<Word>, marks: seq<bool>, ip: nat, facts: Facts)
    requires |marks| == |code| + 1 && ip < |code|
  {
    forall i {:trigger CopyClearAt(code, marks, ip, facts, i)} ::
      0 <= i < |code| && Boundary(code, i) ==> CopyClearAt(code, marks, ip, facts, i)
  }

  lemma CopiedKeepsWindows(c: Chunk, marks: seq<bool>, ip: nat, facts: Facts, wants: Wants)
    requires Disciplined(c.code, facts, wants) && |marks| == |c.code| + 1 && Boundary(c.code, ip) && ip < |c.code|
    requires c.code[ip].op == OP_MOVE && Scans(c.code, ip + 1) && CopyClear(c.code, marks, ip, facts)
    ensures WindowsKept(c, c.(code := CopyPropagation.Copied(c.code, marks, ip)),
                        CopyPropagation.CopyLink(c.code, marks, ip), facts)
  {
    hide CopyPropagation.Copied;
    hide CopyPropagation.Substitute;
    var k, d := CopyPropagation.CopyLink(c.code, marks, ip), c.(code := CopyPropagation.Copied(c.code, marks, ip));
    forall i | 0 <= i < |c.code| && Boundary(c.code, i) ensures WindowKeptAt(c, d, k, facts, i) {
      DisciplinedAt(c.code, facts, wants, i);
      CopyPropagation.CopiedAt(c.code, marks, ip, i);
      CopyPropagation.SubstituteKeeps(c.code[i], c.code[ip].a, c.code[ip].b);
      assert CopyClearAt(c.code, marks, ip, facts, i);
      if CopyPropagation.Visited(c.code, marks, ip + 1, c.code[ip].a, c.code[ip].b, i + Slots(c.code[i].op)) {
        CopyPropagation.NextVisited(c.code, marks, ip, i);
      }
      hide CopyPropagation.Visited;
    }
  }

  /** The code after rule 9 is disciplined. */
  lemma Rule9IsDisciplined(c: Chunk, marks: seq<bool>, ip: nat, facts: Facts, wants: Wants)
      returns (facts': Facts, wants': Wants)
    requires Disciplined(c.code, facts, wants) && Covers(c.code, marks) && Boundary(c.code, ip) && ip < |c.code|
    requires c.code[ip].op == OP_MOVE && Scans(c.code, ip + 1)
    requires c.code[ip].a != c.code[ip].b ==> CopyClear(c.code, marks, ip, facts)
    ensures Disciplined(CopyPropagation.Rule9(c.code, marks, ip), facts', wants')
  {
    hide CopyPropagation.Copied;
    hide Compatible;
    hide Disciplined;
    DisciplinedCode(c.code, facts, wants);
    if c.code[ip].a == c.code[ip].b {
      CopyPropagation.SelfMoveCompatible(c, ip);
      RemovedKeepsWindows(c, ip, CopyPropagation.Identity(), facts, wants);
      KeepsDiscipline(c, c.(code := c.code[ip := NOP_WORD]), CopyPropagation.Identity(), facts, wants);
      return LinkedFacts(c.code, CopyPropagation.Identity(), facts), AnchoredWants(c.code, wants);
    }
    var q, k := CopyPropagation.Copied(c.code, marks, ip), CopyPropagation.CopyLink(c.code, marks, ip);
    CopyPropagation.CopiedCompatible(c, marks, ip);
    CopiedKeepsWindows(c, marks, ip, facts, wants);
    KeepsDiscipline(c, c.(code := q), k, facts, wants);
    facts', wants' := LinkedFacts(c.code, k, facts), AnchoredWants(c.code, wants);
    if DeadAfter(q, marks, ip + 1, c.code[ip].a) {
      var d, l := c.(code := q), DeadLink(q, marks, c.code[ip].a);
      DisciplinedCode(q, facts', wants');
      CopyPropagation.CopiedShape(c.code, marks, ip);
      SameShapeWellFormed(c.code, q);
      CopyPropagation.RemovedCompatible(d, marks, ip);
      RemovedKeepsWindows(d, ip, l, facts', wants');
      KeepsDiscipline(d, c.(code := q[ip := NOP_WORD]), l, facts', wants');
      facts', wants' := LinkedFacts(q, l, facts'), AnchoredWants(q, wants');
    }
  }

  lemma RemovedKeepsWindows(c: Chunk, ip: nat, k: Linkage, facts: Facts, wants: Wants)
    requires Disciplined(c.code, facts, wants) && Boundary(c.code, ip) && ip < |c.code|
    requires forall i: int, l: u8, r: u8 :: k(i, l, r) ==> l == r
    ensures WindowsKept(c, c.(code := c.code[ip := NOP_WORD]), k, facts)
  {
    var d := c.(code := c.code[ip := NOP_WORD]);
    forall i | 0 <= i < |c.code| && Boundary(c.code, i) ensures SameWindowAt(c, d, i) {
    }
    SameWindows(c, d, k, facts, wants);
  }

  /** Rule 9 cannot be noticed on the machine itself if the windows stay clear. */
  lemma Rule9OnMachine(c: Chunk, marks: seq<bool>, ip: nat, facts: Facts, wants: Wants, h: Host, e: World, s: State)
    requires Disciplined(c.code, facts, wants) && Covers(c.code, marks) && Boundary(c.code, ip) && ip < |c.code|
    requires c.code[ip].op == OP_MOVE && Scans(c.code, ip + 1)
    requires c.code[ip].a != c.code[ip].b ==> CopyClear(c.code, marks, ip, facts)
    requires IsInitial(c, s) && KeepsPurity(h, e) && TerminatorsStop(e.host)
    ensures Unnoticed(c, c.(code := CopyPropagation.Rule9(c.code, marks, ip)), h, s)
  {
    hide CopyPropagation.Rule9;
    hide Disciplined;
    hide KeepsPurity;
    DisciplinedCode(c.code, facts, wants);
    FirstMatches(c, facts, wants, s);
    var facts', wants' := Rule9IsDisciplined(c, marks, ip, facts, wants);
    CopyPropagation.Rule9PreservesBehaviour(c, e, marks, ip, FirstConfig(s));
    MachineFollows(c, c.(code := CopyPropagation.Rule9(c.code, marks, ip)), facts, wants, facts', wants', h, e, s);
  }

  // ---- a round --------------------------------------------------------------------------------------

  /** A round of register passes that leaves disciplined code cannot be noticed on the machine itself. */
  lemma RoundOnMachine(c: Chunk, q: seq<Word>, facts: Facts, wants: Wants, facts': Facts, wants': Wants, h: Host,
                       e: World, s: State)
    requires Disciplined(c.code, facts, wants) && Disciplined(q, facts', wants') && Validator.ValidChunk(c)
    requires RegisterPasses.PreservesValid(c.code, q)
    requires IsInitial(c, s) && KeepsPurity(h, e) && TerminatorsStop(e.host)
    ensures Unnoticed(c, c.(code := q), h, s)
  {
    hide Disciplined;
    hide KeepsPurity;
    FirstMatches(c, facts, wants, s);
    assert RegisterPasses.Keeps(c, q, e, FirstConfig(s));
    MachineFollows(c, c.(code := q), facts, wants, facts', wants', h, e, s);
  }

  // ---- joined with the passes on the machine --------------------------------------------------------

  /** Terminators do not come back from such a host either. */
  lemma HostStops(h: Host, e: World)
    requires KeepsPurity(h, e) && TerminatorsStop(e.host)
    ensures TerminatorsStop(h)
  {
    forall trace: seq<Event> | EndsInTerminator(trace) ensures h.reply(trace).status != 0 {
      var rest, last := trace[..|trace| - 1], trace[|trace| - 1];
      assert trace == rest + [last] && AnswersAlike(h, e, rest, last);
      assert EndsInTerminator(Noted(rest) + [last]);
    }
  }

  /** Exact behaviour before and after what cannot be noticed. */
  lemma UnnoticedBetween(c: Chunk, d: Chunk, f: Chunk, g: Chunk, h: Host, s: State)
    requires SameBehaviour(c, s, d, s, h) && Unnoticed(d, f, h, s) && SameBehaviour(f, s, g, s, h)
    ensures Unnoticed(c, g, h, s)
  {
    hide Ends;
    hide Roomy;
    forall o: Outcome ensures EndsExplained(c, g, h, s, o) && EndsExplained(g, c, h, s, o) {
      assert EndsAlike(c, s, d, s, h, o) && EndsAlike(f, s, g, s, h, o);
      assert EndsExplained(d, f, h, s, o) && EndsExplained(f, d, h, s, o);
      if Explained(f, h, s, o) {
        var p: Outcome :| Ends(f, h, s, p) && (SameObserved(o, p) || (Overflowed(p) && !Roomy(s)));
        assert EndsAlike(f, s, g, s, h, p);
      }
      if Explained(d, h, s, o) {
        var p: Outcome :| Ends(d, h, s, p) && (SameObserved(o, p) || (Overflowed(p) && !Roomy(s)));
        assert EndsAlike(c, s, d, s, h, p);
      }
    }
  }

  /** Dead code, jump rules, identities and stripping, then a round of register passes between disciplined
      programs, then the first again: `p` to `t` over `q` and `r`, on the machine itself. */
  lemma JoinedOnMachine(c: Chunk, q: seq<Word>, r: seq<Word>, t: seq<Word>, facts: Facts, wants: Wants, facts': Facts,
                        wants': Wants, h: Host, e: World, s: State)
    requires Optimizer.Preserves(c.code, q) && RegisterPasses.PreservesValid(q, r) && Optimizer.Preserves(r, t)
    requires Disciplined(q, facts, wants) && Disciplined(r, facts', wants') && Validator.ValidChunk(c.(code := q))
    requires IsInitial(c, s) && KeepsPurity(h, e) && TerminatorsStop(e.host)
    ensures Unnoticed(c, c.(code := t), h, s)
  {
    hide Disciplined;
    hide KeepsPurity;
    hide RegisterPasses.PreservesValid;
    hide Validator.ValidChunk;
    HostStops(h, e);
    var d, f := c.(code := q), c.(code := r);
    RoundOnMachine(d, r, facts, wants, facts', wants', h, e, s);
    assert Optimizer.PreservesRun(c, q, h, s) && Optimizer.PreservesRun(f, t, h, s);
    UnnoticedBetween(c, d, f, c.(code := t), h, s);
  }
}
