/** What the SPDK thread still owes a bounced synchronous read after its
    completion flag is set, and the fact that runs only add to histories. */
module ProtocolTails {
  import opened Messages
  import opened Protocol
  import opened ProtocolInvariant
  import opened ProtocolSteps

  /** Calls and histories only grow, and the messages are the same ones. */
  ghost predicate Grows(s: State, s': State) {
    && s.calls <= s'.calls && |s'.mem.msgs| == |s.mem.msgs| && s'.mem.capacity == s.mem.capacity
    && |s.hist| <= |s'.hist|
    && forall r | 0 <= r < |s.hist| :: s.hist[r] <= s'.hist[r]
  }

  lemma StepGrows(s: State, step: Step)
    requires Enabled(s, step)
    ensures Grows(s, Apply(s, step))
  {
  }

  lemma {:induction false} RunGrows(s: State, steps: seq<Step>)
    requires Run(s, steps)
    ensures Grows(s, End(s, steps))
    decreases |steps|
  {
    if steps != [] {
      var s1 := Apply(s, steps[0]);
      StepGrows(s, steps[0]);
      RunGrows(s1, steps[1..]);
      GrowsOn(s, s1, End(s, steps));
    }
  }

  lemma GrowsOn(a: State, b: State, c: State)
    requires Grows(a, b) && Grows(b, c)
    ensures Grows(a, c)
  {
    forall r | 0 <= r < |a.hist|
      ensures a.hist[r] <= c.hist[r]
    {
      assert a.hist[r] <= b.hist[r] && b.hist[r] <= c.hist[r];
    }
  }

  /** A left-over belongs to a synchronous read that the device completed
      successfully through this message and whose flag is set. */
  ghost predicate TailOk(s: State, t: Tail) {
    && t.m < |s.mem.msgs| && t.r < |s.calls| && t.r < |s.hist|
    && !s.calls[t.r].async && IsReading(s.calls[t.r].kind)
    && TPublished(s.calls[t.r], t.m, FromDevice(true, 0)) <= s.hist[t.r]
  }

  ghost predicate TailsOk(s: State) { forall i | 0 <= i < |s.tails| :: TailOk(s, s.tails[i]) }

  lemma TailStaysOk(s: State, s': State, t: Tail)
    requires Grows(s, s') && TailOk(s, t)
    ensures TailOk(s', t)
  {
  }

  lemma NewTail(s: State, g: seq<Stage>, m: nat)
    requires Inv(s, g) && Enabled(s, PublishStep(m)) && s.mem.spdk[m].bounced && s.mem.spdk[m].ok
    ensures TailOk(Apply(s, PublishStep(m)), Tail(m, ReqOf(s, m)))
  {
    OwnerOf(s, g, m);
  }

  lemma StepTailsOk(s: State, g: seq<Stage>, step: Step)
    requires Inv(s, g) && Enabled(s, step) && TailsOk(s)
    ensures TailsOk(Apply(s, step))
  {
    var s' := Apply(s, step);
    StepGrows(s, step);
    forall i | 0 <= i < |s'.tails|
      ensures TailOk(s', s'.tails[i])
    {
      if s'.tails[i] in s.tails {
        TailStaysOk(s, s', s'.tails[i]);
      } else {
        OnlyPublishAdds(s, step, i);
        NewTail(s, g, step.m);
      }
    }
  }

  lemma OnlyPublishAdds(s: State, step: Step, i: nat)
    requires Enabled(s, step) && i < |Apply(s, step).tails| && Apply(s, step).tails[i] !in s.tails
    ensures step.PublishStep? && s.mem.spdk[step.m].bounced && s.mem.spdk[step.m].ok
    ensures Apply(s, step).tails[i] == Tail(step.m, ReqOf(s, step.m))
  {
  }

  lemma {:induction false} RunTailsOk(s: State, g: seq<Stage>, steps: seq<Step>)
    requires Inv(s, g) && TailsOk(s) && Run(s, steps)
    ensures TailsOk(End(s, steps))
    decreases |steps|
  {
    if steps != [] {
      StepTailsOk(s, g, steps[0]);
      var g' := StepKeeps(s, g, steps[0]);
      RunTailsOk(Apply(s, steps[0]), g', steps[1..]);
    }
  }

  lemma ReachableTails(s: State)
    requires Reachable(s)
    ensures TailsOk(s)
  {
    var s0, steps :| Init(s0) && Run(s0, steps) && End(s0, steps) == s;
    InitInv(s0);
    RunTailsOk(s0, [], steps);
  }

  /** The call has returned: its message is back in the pool. */
  predicate Returned(t: seq<Event>) { t != [] && t[|t| - 1].EFreed? }

  /** A left-over that names a message in the pool belongs to a call that has
      returned. */
  lemma TailOfPooled(s: State, g: seq<Stage>, t: Tail)
    requires Inv(s, g) && TailOk(s, t) && t.m in s.mem.pool
    ensures Returned(s.hist[t.r])
  {
    TailStage(s.calls[t.r], g[t.r], t.m);
  }

  lemma TailStage(c: Call, g: Stage, m: nat)
    requires Fits(c, g) && !c.async && TPublished(c, m, FromDevice(true, 0)) <= TraceOf(c, g)
    ensures g.SPublished? || g.SResult? || g.SGone?
    ensures g.m == m
    ensures g.SGone? ==> Returned(TraceOf(c, g))
  {
    var t, p := TraceOf(c, g), TPublished(c, m, FromDevice(true, 0));
    assert |p| == 5 && t[0] == p[0] && t[4] == p[4];
  }
}
