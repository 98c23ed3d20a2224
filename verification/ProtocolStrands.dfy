/** Stranded messages: they never come back, and all of them can be lost. */
module ProtocolStrands {
  import opened Descriptors
  import opened Messages
  import opened Protocol
  import opened ProtocolSteps
  import opened ProtocolResults
  import opened ProtocolTails
  import opened ProtocolRuns

  lemma StepLeavesStranded(s: State, step: Step, m: nat)
    requires Enabled(s, step) && Stranded(s, m)
    ensures Stranded(Apply(s, step), m)
  {
    match step {
      case DispatchStep(e) => DispatchLeaves(s, e, m);
      case SendStep(c) => SendLeaves(s, c, m);
      case _ =>
    }
  }

  lemma DispatchLeaves(s: State, e: Env, m: nat)
    requires Enabled(s, DispatchStep(e)) && Stranded(s, m)
    ensures Stranded(Apply(s, DispatchStep(e)), m)
  {
    TakeIsTakenMem(s.mem, e);
    assert s.mem.ring[0] in s.mem.ring;
  }

  lemma SendLeaves(s: State, c: nat, m: nat)
    requires Enabled(s, SendStep(c)) && Stranded(s, m)
    ensures Stranded(Apply(s, SendStep(c)), m)
  {
  }

  /** A stranded message is stranded in every continuation. */
  lemma {:induction false} StrandedForever(s: State, steps: seq<Step>, m: nat)
    requires Run(s, steps) && Stranded(s, m)
    ensures Stranded(End(s, steps), m)
    decreases |steps|
  {
    if steps != [] {
      StepLeavesStranded(s, steps[0], m);
      StrandedForever(Apply(s, steps[0]), steps[1..], m);
    }
  }

  ghost predicate AllStranded(s: State) { forall m: nat | m < |s.mem.msgs| :: Stranded(s, m) }

  /** Once every message is stranded, no continuation contains another call, not
      even the shutdown request: every allocation fails. */
  lemma {:induction false} NoCallsAnyMore(s: State, steps: seq<Step>)
    requires Reachable(s) && AllStranded(s) && Run(s, steps)
    ensures forall i | 0 <= i < |steps| :: !steps[i].AllocStep?
    ensures |End(s, steps).mem.pool| == 0 && End(s, steps).calls == s.calls
    decreases |steps|
  {
    PoolIsEmpty(s);
    if steps != [] {
      AllStay(s, steps[0]);
      ReachableStep(s, steps[0]);
      NoCallsAnyMore(Apply(s, steps[0]), steps[1..]);
    }
  }

  lemma AllStay(s: State, step: Step)
    requires AllStranded(s) && s.mem.pool == multiset{} && Enabled(s, step)
    ensures !step.AllocStep? && AllStranded(Apply(s, step)) && Apply(s, step).calls == s.calls
  {
    StepGrows(s, step);
    forall m: nat | m < |s.mem.msgs|
      ensures Stranded(Apply(s, step), m)
    {
      StepLeavesStranded(s, step, m);
    }
  }

  lemma PoolIsEmpty(s: State)
    requires Reachable(s) && AllStranded(s)
    ensures s.mem.pool == multiset{}
  {
    var g := ReachableInv(s);
    forall m: nat
      ensures m !in s.mem.pool
    {
      if m < |s.mem.msgs| {
        assert Stranded(s, m);
      }
    }
  }

  // ----------------------------------------------- losing the whole pool

  /** An asynchronous call that the dispatcher answers. */
  const SOME_BATCH := Call(BatchSubmit, true, 0, 0, Flags(O_RDONLY), 0, 0)

  const ANY_ENV := Env(true, 1, true, true, 0)

  /** Nothing under way, and what is not in the pool is stranded. */
  ghost predicate Idling(s: State, messages: nat, capacity: nat) {
    && Sized(s, messages, capacity) && s.mem.running && s.mem.ring == [] && s.mem.spdk == map[]
    && NobodyBusy(s)
  }

  lemma LoseOne(s: State, messages: nat, capacity: nat) returns (s': State)
    requires Idling(s, messages, capacity) && |s.mem.pool| > 0 && capacity > 0
    ensures Idling(s', messages, capacity) && |s'.mem.pool| == |s.mem.pool| - 1
  {
    var m := SomeFree(s);
    HistoryPerCall(s);
    var s1, s2 := SentShape(s, m);
    var s3 := LostShape(s2, m);
    ReachableStep(s, AllocStep(0, m, SOME_BATCH));
    ReachableStep(s1, SendStep(0));
    ReachableStep(s2, DispatchStep(ANY_ENV));
    ReachableStep(s3, MarkStep(m));
    s' := Apply(s3, MarkStep(m));
  }

  ghost predicate NobodyBusy(s: State) { forall c | c in s.clients :: s.clients[c].Idle? }

  lemma SentShape(s: State, m: nat) returns (s1: State, s2: State)
    requires s.mem.running && s.mem.ring == [] && s.mem.spdk == map[] && s.mem.capacity > 0
    requires |s.hist| == |s.calls| && m in s.mem.pool && m < |s.mem.msgs| && NobodyBusy(s)
    ensures Enabled(s, AllocStep(0, m, SOME_BATCH)) && s1 == Apply(s, AllocStep(0, m, SOME_BATCH))
    ensures Enabled(s1, SendStep(0)) && s2 == Apply(s1, SendStep(0))
    ensures |s2.mem.msgs| == |s.mem.msgs| && s2.mem.capacity == s.mem.capacity
    ensures s2.mem.pool == s.mem.pool - multiset{m}
    ensures s2.mem.running && s2.mem.ring == [m] && s2.mem.spdk == map[] && NobodyBusy(s2)
    ensures s2.mem.msgs[m].call == SOME_BATCH && ReqOf(s2, m) < |s2.hist|
  {
    s1 := Alloc1(s, 0, m, SOME_BATCH);
    s2 := Send1(s1, 0);
  }

  lemma LostShape(s2: State, m: nat) returns (s3: State)
    requires s2.mem.running && s2.mem.ring == [m] && s2.mem.spdk == map[] && NobodyBusy(s2)
    requires m < |s2.mem.msgs| && s2.mem.msgs[m].call == SOME_BATCH && ReqOf(s2, m) < |s2.hist|
    ensures Enabled(s2, DispatchStep(ANY_ENV)) && s3 == Apply(s2, DispatchStep(ANY_ENV))
    ensures Enabled(s3, MarkStep(m))
    ensures var s' := Apply(s3, MarkStep(m));
            && |s'.mem.msgs| == |s2.mem.msgs| && s'.mem.capacity == s2.mem.capacity && s'.mem.pool == s2.mem.pool
            && s'.mem.running && s'.mem.ring == [] && s'.mem.spdk == map[] && NobodyBusy(s')
  {
    s3 := Dispatch1(s2, ANY_ENV);
    assert s3.mem.spdk[m] == Marking;
  }

  lemma {:induction false} LoseAll(s: State, messages: nat, capacity: nat) returns (s': State)
    requires Idling(s, messages, capacity) && capacity > 0
    ensures Idling(s', messages, capacity) && |s'.mem.pool| == 0
    decreases |s.mem.pool|
  {
    if |s.mem.pool| == 0 {
      s' := s;
    } else {
      var s1 := LoseOne(s, messages, capacity);
      s' := LoseAll(s1, messages, capacity);
    }
  }

  /** A ring without room strands nothing. */
  ghost predicate NothingSent(s: State) {
    && s.mem.capacity == 0 && s.mem.ring == [] && s.mem.spdk == map[]
    && forall m: nat | m < |s.mem.msgs| && m !in s.mem.pool :: !s.mem.msgs[m].completed
  }

  lemma StaysUnsent(s: State, step: Step)
    requires NothingSent(s) && Enabled(s, step)
    ensures NothingSent(Apply(s, step))
  {
  }

  lemma {:induction false} RunsUnsent(s: State, steps: seq<Step>)
    requires NothingSent(s) && Run(s, steps)
    ensures NothingSent(End(s, steps))
    decreases |steps|
  {
    if steps != [] {
      StaysUnsent(s, steps[0]);
      RunsUnsent(Apply(s, steps[0]), steps[1..]);
    }
  }

  lemma ReachableUnsent(s: State)
    requires Reachable(s) && s.mem.capacity == 0
    ensures NothingSent(s)
  {
    var s0, steps :| Init(s0) && Run(s0, steps) && End(s0, steps) == s;
    SameRing(s0, steps);
    RunsUnsent(s0, steps);
  }

  lemma {:induction false} SameRing(s: State, steps: seq<Step>)
    requires Run(s, steps)
    ensures End(s, steps).mem.capacity == s.mem.capacity
    decreases |steps|
  {
    if steps != [] {
      SameRing(Apply(s, steps[0]), steps[1..]);
    }
  }

  /** The library can get into a state from which no call, not even a shutdown,
      can ever be made again exactly when its ring can hold a message at all. */
  lemma LossPossibleIff(messages: nat, capacity: nat)
    requires messages > 0
    ensures (exists s | Sized(s, messages, capacity) :: AllStranded(s)) <==> capacity > 0
  {
    if capacity > 0 {
      var table: Table := seq(MAX_OPEN, _ => FREE);
      var s0 := EmptyState(messages, capacity, table);
      EmptyIsInit(messages, capacity, table);
      ReachableInit(s0);
      var s := LoseAll(s0, messages, capacity);
      forall m: nat | m < |s.mem.msgs|
        ensures Stranded(s, m)
      {
        assert s.mem.pool == multiset{};
      }
    } else {
      forall s | Sized(s, messages, capacity)
        ensures !AllStranded(s)
      {
        ReachableUnsent(s);
        ExactlyOnePlace(s, 0);
        assert !Stranded(s, 0);
      }
    }
  }
}
