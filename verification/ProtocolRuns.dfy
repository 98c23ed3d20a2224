/** Runs that exist: when the ring can refuse a message, and what one poll of the
    poller does in terms of protocol steps. */
module ProtocolRuns {
  import opened Codes
  import opened Finite
  import opened Descriptors
  import opened Messages
  import opened Protocol
  import opened ProtocolInvariant
  import opened ProtocolSteps
  import opened ProtocolResults

  lemma {:induction false} AppendStep(s: State, steps: seq<Step>, step: Step)
    requires Run(s, steps) && Enabled(End(s, steps), step)
    ensures Run(s, steps + [step]) && End(s, steps + [step]) == Apply(End(s, steps), step)
    decreases |steps|
  {
    if steps == [] {
      assert ([step])[1..] == [];
      assert steps + [step] == [step];
    } else {
      AppendStep(Apply(s, steps[0]), steps[1..], step);
      assert (steps + [step])[1..] == steps[1..] + [step];
    }
  }

  lemma ReachableStep(s: State, step: Step)
    requires Reachable(s) && Enabled(s, step)
    ensures Reachable(Apply(s, step))
  {
    var s0, steps :| Init(s0) && Run(s0, steps) && End(s0, steps) == s;
    AppendStep(s0, steps, step);
  }

  lemma ReachableInit(s: State)
    requires Init(s)
    ensures Reachable(s)
  {
    assert Run(s, []) && End(s, []) == s;
  }

  // ---------------------------------------------------------- a full ring

  /** A run of the library with this many messages and this ring. */
  ghost predicate Sized(s: State, messages: nat, capacity: nat) {
    Reachable(s) && |s.mem.msgs| == messages && s.mem.capacity == capacity
  }

  const SOME_READ := Call(Read, true, 0, 0, Flags(O_RDONLY), 0, 1)

  function EmptyState(messages: nat, capacity: nat, table: Table): State {
    var mem := Mem(seq(messages, _ => Zeroed(SOME_READ, 0)), multiset(Below(messages)),
                   [], capacity, map[], table, true, 0, 0);
    State(mem, map[], [], [], [], [], [])
  }

  lemma EmptyIsInit(messages: nat, capacity: nat, table: Table)
    requires IsTable(table) && AllFree(table)
    ensures Init(EmptyState(messages, capacity, table))
  {
  }

  lemma HistoryPerCall(s: State)
    requires Reachable(s)
    ensures |s.hist| == |s.calls|
  {
    var g := ReachableInv(s);
  }

  lemma SomeFree(s: State) returns (m: nat)
    requires Reachable(s) && |s.mem.pool| > 0
    ensures m in s.mem.pool && m < |s.mem.msgs|
  {
    var g := ReachableInv(s);
    m :| m in s.mem.pool;
  }

  /** Client 0 sends one asynchronous read and is free again. */
  lemma OneMore(s: State, messages: nat, capacity: nat) returns (s': State)
    requires Sized(s, messages, capacity) && ClientOf(s, 0).Idle? && |s.mem.pool| > 0 && HasRoom(s.mem)
    ensures Sized(s', messages, capacity) && ClientOf(s', 0).Idle?
    ensures |s'.mem.ring| == |s.mem.ring| + 1 && |s'.mem.pool| == |s.mem.pool| - 1
  {
    var m := SomeFree(s);
    var s1 := Alloc1(s, 0, m, SOME_READ);
    ReachableStep(s, AllocStep(0, m, SOME_READ));
    HistoryPerCall(s);
    ReachableStep(s1, SendStep(0));
    s' := Apply(s1, SendStep(0));
  }

  lemma {:induction false} FillRing(s: State, messages: nat, capacity: nat, n: nat) returns (s': State)
    requires Sized(s, messages, capacity) && ClientOf(s, 0).Idle?
    requires |s.mem.ring| + n == capacity && n < |s.mem.pool|
    ensures Sized(s', messages, capacity) && ClientOf(s', 0).Idle?
    ensures |s'.mem.ring| == capacity && |s'.mem.pool| > 0
    decreases n
  {
    if n == 0 {
      s' := s;
    } else {
      var s1 := OneMore(s, messages, capacity);
      s' := FillRing(s1, messages, capacity, n - 1);
    }
  }

  lemma BusyPossible(messages: nat, capacity: nat) returns (s: State)
    requires capacity < messages
    ensures Sized(s, messages, capacity) && Enabled(s, SendStep(0)) && !HasRoom(s.mem)
  {
    var table: Table := seq(MAX_OPEN, _ => FREE);
    var s0 := EmptyState(messages, capacity, table);
    EmptyIsInit(messages, capacity, table);
    ReachableInit(s0);
    assert |s0.mem.pool| == messages;
    var s1 := FillRing(s0, messages, capacity, capacity);
    var m := SomeFree(s1);
    HistoryPerCall(s1);
    ReachableStep(s1, AllocStep(0, m, SOME_READ));
    s := Apply(s1, AllocStep(0, m, SOME_READ));
  }

  /** No send is ever answered with BUSY, in any run, exactly when the ring has
      room for all messages of the pool. */
  lemma NeverBusyIff(messages: nat, capacity: nat)
    ensures (forall s, c | Sized(s, messages, capacity) && Enabled(s, SendStep(c)) :: HasRoom(s.mem))
            <==> messages <= capacity
  {
    if messages <= capacity {
      forall s, c | Sized(s, messages, capacity) && Enabled(s, SendStep(c))
        ensures HasRoom(s.mem)
      {
        RingIsFifo(s);
        assert c in s.clients && s.clients[c].Holding?;
      }
    } else {
      var s := BusyPossible(messages, capacity);
    }
  }

  // ------------------------------------------------------- polls as runs

  lemma InvQueued(s: State)
    requires Reachable(s)
    ensures Queued(s.mem)
    ensures s.mem.ring != [] ==> InRange(s, s.mem.ring[0])
  {
    var g := ReachableInv(s);
    forall i | 0 <= i < |s.mem.ring|
      ensures s.mem.ring[i] < |s.mem.msgs| && s.mem.ring[i] !in s.mem.spdk && InRange(s, s.mem.ring[i])
    {
      assert s.mem.ring[i] in s.mem.ring;
      OwnerOf(s, g, s.mem.ring[i]);
    }
  }

  /** Steps of the poller: it takes a message off the ring and sets the flag of
      one that its handler has answered. */
  ghost predicate ByPoller(steps: seq<Step>) {
    forall i | 0 <= i < |steps| :: steps[i].DispatchStep? || steps[i].MarkStep?
  }

  /** One run after another. */
  lemma {:induction false} RunConcat(s: State, a: seq<Step>, b: seq<Step>)
    requires Run(s, a) && Run(End(s, a), b)
    ensures Run(s, a + b) && End(s, a + b) == End(End(s, a), b)
    decreases |a|
  {
    if a == [] {
      assert a + b == b;
    } else {
      RunConcat(Apply(s, a[0]), a[1..], b);
      assert (a + b)[1..] == a[1..] + b;
    }
  }

  /** A run that continues a reachable state ends in one. */
  lemma {:induction false} ReachableRun(s: State, steps: seq<Step>)
    requires Reachable(s) && Run(s, steps)
    ensures Reachable(End(s, steps))
    decreases |steps|
  {
    if steps != [] {
      ReachableStep(s, steps[0]);
      ReachableRun(Apply(s, steps[0]), steps[1..]);
    }
  }

  /** One turn of the dispatch loop is one or two protocol steps. */
  lemma PollOnceIsRun(s: State, e: Env) returns (steps: seq<Step>)
    requires Reachable(s) && s.mem.running && s.mem.ring != [] && e.blockSize > 0
    ensures Queued(s.mem) && Run(s, steps) && ByPoller(steps) && End(s, steps).mem == PollOnce(s.mem, e)
  {
    InvQueued(s);
    var m, s1 := s.mem.ring[0], Apply(s, DispatchStep(e));
    var none: seq<Step> := [];
    assert Run(s, none) && End(s, none) == s;
    AppendStep(s, none, DispatchStep(e));
    steps := none + [DispatchStep(e)];
    if s1.mem.spdk[m].Marking? {
      TakeIsTakenMem(s.mem, e);
      AppendStep(s, steps, MarkStep(m));
      steps := steps + [MarkStep(m)];
    }
  }

  /** A whole poll, turbo or standard, is a run of the protocol that continues the
      state it starts in, so whatever is proved of runs and of reachable states
      holds for the state in which the poller returns. */
  lemma {:induction false} PollIsRun(s: State, env: nat -> Env, i: nat, n: nat) returns (steps: seq<Step>)
    requires Reachable(s) && GoodEnv(env) && i <= n && s.mem.running
    ensures Queued(s.mem) && Run(s, steps) && ByPoller(steps) && End(s, steps).mem == PollLoop(s.mem, env, i, n)
    decreases n - i
  {
    InvQueued(s);
    if i == n || s.mem.ring == [] {
      steps := [];
    } else {
      steps := PollOnceIsRun(s, env(i));
      var s1 := End(s, steps);
      ReachableRun(s, steps);
      if !s.mem.msgs[s.mem.ring[0]].call.kind.Shutdown? {
        StillRunning(s.mem, env(i));
        var rest := PollIsRun(s1, env, i + 1, n);
        RunConcat(s, steps, rest);
        steps := steps + rest;
      }
    }
  }

  lemma StillRunning(m: Mem, e: Env)
    requires m.ring != [] && m.ring[0] < |m.msgs| && e.blockSize > 0 && m.running
    requires !m.msgs[m.ring[0]].call.kind.Shutdown?
    ensures PollOnce(m, e).running
  {
  }
}
