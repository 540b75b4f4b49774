/** Observable behaviour of a run and equality of behaviours. */
module Behaviour {
  import opened Vm

  /** The run from `s` ends with `o`: it stops with its final observables, or goes wrong. */
  ghost predicate Ends(c: Chunk, h: Host, s: State, o: Outcome) {
    !o.Go? && exists n: nat :: Run(c, h, s, n) == o
  }

  ghost predicate Diverges(c: Chunk, h: Host, s: State) {
    forall n: nat :: Run(c, h, s, n).Go?
  }

  ghost predicate EndsAlike(c: Chunk, s: State, d: Chunk, t: State, h: Host, o: Outcome) {
    Ends(c, h, s, o) <==> Ends(d, h, t, o)
  }

  /** Running `c` from `s` and `d` from `t` cannot be told apart: the same endings, and hence the
      same divergence. */
  ghost predicate SameBehaviour(c: Chunk, s: State, d: Chunk, t: State, h: Host) {
    forall o: Outcome :: EndsAlike(c, s, d, t, h, o)
  }

  lemma SameBehaviourDiverges(c: Chunk, s: State, d: Chunk, t: State, h: Host)
    requires SameBehaviour(c, s, d, t, h)
    ensures Diverges(c, h, s) <==> Diverges(d, h, t)
  {
    if !Diverges(c, h, s) {
      var n: nat :| !Run(c, h, s, n).Go?;
      assert EndsAlike(c, s, d, t, h, Run(c, h, s, n));
    }
    if !Diverges(d, h, t) {
      var n: nat :| !Run(d, h, t, n).Go?;
      assert EndsAlike(c, s, d, t, h, Run(d, h, t, n));
    }
  }

  lemma SameBehaviourTrans(c: Chunk, s: State, d: Chunk, t: State, e: Chunk, u: State, h: Host)
    requires SameBehaviour(c, s, d, t, h) && SameBehaviour(d, t, e, u, h)
    ensures SameBehaviour(c, s, e, u, h)
  {
    forall o: Outcome ensures EndsAlike(c, s, e, u, h, o) {
      assert EndsAlike(c, s, d, t, h, o) && EndsAlike(d, t, e, u, h, o);
    }
  }

  lemma SameBehaviourRefl(c: Chunk, s: State, h: Host)
    ensures SameBehaviour(c, s, c, s, h)
  {
    forall o: Outcome ensures EndsAlike(c, s, c, s, h, o) {
    }
  }
}
