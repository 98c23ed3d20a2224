/** No run gets stuck: whatever has happened, the requests under way come to
    their end within a bounded number of steps once no new ones are made. */
module ProtocolProgress {
  import opened Finite
  import opened Messages
  import opened Protocol
  import opened ProtocolInvariant
  import opened ProtocolSteps
  import opened ProtocolHistories
  import opened ProtocolTails
  import ProtocolRuns

  /** The longest complete history has seven events. */
  const LONGEST: nat := 7

  function Left(t: seq<Event>): nat { if |t| <= LONGEST then LONGEST - |t| else 0 }

  /** Events that the requests of these histories can still see. */
  function Remaining(hist: seq<seq<Event>>): nat {
    if hist == [] then 0 else Remaining(hist[..|hist| - 1]) + Left(hist[|hist| - 1])
  }

  lemma {:induction false} RemainingDrops(hist: seq<seq<Event>>, r: nat, t: seq<Event>)
    requires r < |hist| && |hist[r]| < |t| <= LONGEST
    ensures Remaining(hist[r := t]) < Remaining(hist)
  {
    var last := |hist| - 1;
    if r < last {
      RemainingDrops(hist[..last], r, t);
      assert hist[r := t][..last] == hist[..last][r := t];
    } else {
      assert hist[r := t][..last] == hist[..last];
    }
  }

  lemma SoFarIsShort(c: Call, t: seq<Event>)
    requires SoFar(c, t)
    ensures |t| <= LONGEST
  {
  }

  /** Steps that record an event of a request already under way. */
  predicate Eventful(step: Step) {
    step.SendStep? || step.DispatchStep? || step.MarkStep? || step.DeviceStep? || step.PublishStep?
    || step.AsyncFreeStep? || step.ResultStep? || step.ReleaseStep?
  }

  lemma EventfulRecords(s: State, step: Step) returns (r: nat)
    requires Enabled(s, step) && Eventful(step)
    ensures r < |s.hist| && Apply(s, step).calls == s.calls
    ensures Apply(s, step).hist == s.hist[r := Apply(s, step).hist[r]] && |s.hist[r]| < |Apply(s, step).hist[r]|
  {
    match step
    case SendStep(c) => r := ClientOf(s, c).r;
    case DispatchStep(_) => r := ReqOf(s, s.mem.ring[0]);
    case MarkStep(m) => r := ReqOf(s, m);
    case DeviceStep(m, _, _) => r := ReqOf(s, m);
    case PublishStep(m) => r := ReqOf(s, m);
    case AsyncFreeStep(m) => r := ReqOf(s, m);
    case ResultStep(c) => r := ClientOf(s, c).r;
    case ReleaseStep(c) => r := ClientOf(s, c).r;
  }

  lemma EventfulDrops(s: State, step: Step)
    requires Reachable(s) && Enabled(s, step) && Eventful(step)
    ensures Remaining(Apply(s, step).hist) < Remaining(s.hist)
  {
    var r := EventfulRecords(s, step);
    ProtocolRuns.ReachableStep(s, step);
    var g := ReachableInv(s);
    HistoriesSoFar(Apply(s, step), r);
    SoFarIsShort(s.calls[r], Apply(s, step).hist[r]);
    RemainingDrops(s.hist, r, Apply(s, step).hist[r]);
  }

  // --------------------------------------------------- something can move

  function HalfWritten(s: State): set<nat> { set m | m in s.mem.spdk && s.mem.spdk[m].StatusWritten? }

  function Spinning(s: State): set<nat> { set c | c in s.clients && s.clients[c].Waiting? }

  /** Steps that record nothing: a byte count written, a flag seen. */
  function Silent(s: State): nat { |HalfWritten(s)| + |Spinning(s)| }

  /** What is left to do: every event may bring one silent step, or the rest of
      one bounced read, with it. */
  function Measure(s: State): nat { 2 * Remaining(s.hist) + Silent(s) + |s.tails| }

  /** Any step but a new call. */
  predicate Moves(step: Step) { !step.AllocStep? && !step.AllocFails? }

  lemma SilentDrops(s: State, step: Step)
    requires Enabled(s, step) && (step.BytesStep? || step.ObserveStep? || step.TailStep?)
    ensures Measure(Apply(s, step)) < Measure(s)
  {
    var s' := Apply(s, step);
    if step.BytesStep? {
      assert step.m in HalfWritten(s);
      assert HalfWritten(s') == HalfWritten(s) - {step.m} && Spinning(s') == Spinning(s);
    } else if step.ObserveStep? {
      assert step.c in Spinning(s);
      assert Spinning(s') == Spinning(s) - {step.c} && HalfWritten(s') == HalfWritten(s);
    } else {
      assert Spinning(s') == Spinning(s) && HalfWritten(s') == HalfWritten(s);
    }
  }

  lemma ClientEvents(s: State, step: Step)
    requires Enabled(s, step) && (step.SendStep? || step.ResultStep? || step.ReleaseStep?)
    ensures Silent(Apply(s, step)) <= Silent(s) + 1 && Apply(s, step).tails == s.tails
  {
    var s' := Apply(s, step);
    assert HalfWritten(s') == HalfWritten(s);
    SubsetSize(Spinning(s'), Spinning(s) + {step.c});
  }

  lemma HandlerEvents(s: State, step: Step, m: nat)
    requires Enabled(s, step) && BySpdk(s, step, m)
    ensures Silent(Apply(s, step)) + |Apply(s, step).tails| <= Silent(s) + |s.tails| + 1
  {
    var s' := Apply(s, step);
    assert Spinning(s') == Spinning(s);
    if step.DeviceStep? {
      SubsetSize(HalfWritten(s'), HalfWritten(s) + {m});
    } else {
      SubsetSize(HalfWritten(s'), HalfWritten(s));
    }
  }

  /** A step of the SPDK thread with message `m`. */
  predicate BySpdk(s: State, step: Step, m: nat)
    requires Enabled(s, step)
  {
    match step
    case MarkStep(k) => k == m
    case DeviceStep(k, _, _) => k == m
    case PublishStep(k) => k == m
    case AsyncFreeStep(k) => k == m
    case _ => false
  }

  lemma DispatchEvents(s: State, e: Env)
    requires Enabled(s, DispatchStep(e))
    ensures var s' := Apply(s, DispatchStep(e)); Silent(s') <= Silent(s) && s'.tails == s.tails
  {
    var s' := Apply(s, DispatchStep(e));
    TakeIsTakenMem(s.mem, e);
    assert Spinning(s') == Spinning(s);
    SubsetSize(HalfWritten(s'), HalfWritten(s));
  }

  /** Every step but a new call leaves less to do. */
  lemma MoveDrops(s: State, step: Step)
    requires Reachable(s) && Enabled(s, step) && Moves(step)
    ensures Measure(Apply(s, step)) < Measure(s)
  {
    if Eventful(step) {
      EventfulDrops(s, step);
      match step
      case DispatchStep(e) => DispatchEvents(s, e);
      case MarkStep(m) => HandlerEvents(s, step, m);
      case DeviceStep(m, _, _) => HandlerEvents(s, step, m);
      case PublishStep(m) => HandlerEvents(s, step, m);
      case AsyncFreeStep(m) => HandlerEvents(s, step, m);
      case _ => ClientEvents(s, step);
    } else {
      SilentDrops(s, step);
    }
  }

  const PLAIN_ENV := Env(true, 1, true, true, 0)

  function HandlerStep(m: nat, p: Phase): Step {
    match p
    case Marking => MarkStep(m)
    case AtDevice(_) => DeviceStep(m, true, true)
    case StatusWritten(_, _) => BytesStep(m)
    case BytesWritten(_, _) => PublishStep(m)
    case CalledBack(_) => AsyncFreeStep(m)
  }

  function ClientStep(c: nat, pc: Client): Step
    requires !pc.Idle?
  {
    match pc
    case Holding(_, _) => SendStep(c)
    case Waiting(_, _) => ObserveStep(c)
    case Seen(_, _) => ResultStep(c)
    case Releasing(_, _) => ReleaseStep(c)
  }

  lemma HandlerCanMove(s: State, g: seq<Stage>, m: nat)
    requires Inv(s, g) && m in s.mem.spdk
    ensures Enabled(s, HandlerStep(m, s.mem.spdk[m])) && Moves(HandlerStep(m, s.mem.spdk[m]))
  {
    OwnerOf(s, g, m);
  }

  lemma ClientCanMove(s: State, g: seq<Stage>, c: nat)
    requires Inv(s, g) && c in s.clients && !s.clients[c].Idle?
    requires s.mem.ring == [] && s.mem.spdk == map[]
    ensures Enabled(s, ClientStep(c, s.clients[c])) && Moves(ClientStep(c, s.clients[c]))
  {
    CallerOf(s, g, c);
  }

  lemma RingCanMove(s: State, g: seq<Stage>)
    requires Inv(s, g) && s.mem.ring != [] && s.mem.running
    ensures Enabled(s, DispatchStep(PLAIN_ENV)) && Moves(DispatchStep(PLAIN_ENV))
  {
    assert s.mem.ring[0] in s.mem.ring;
    OwnerOf(s, g, s.mem.ring[0]);
  }

  /** Nothing at all is left to do. */
  ghost predicate Quiescent(s: State) { AtRest(s) && s.tails == [] }

  lemma SomeStep(s: State, g: seq<Stage>) returns (step: Step)
    requires Inv(s, g) && TailsOk(s) && s.mem.running && !Quiescent(s)
    ensures Enabled(s, step) && Moves(step)
  {
    if m :| m in s.mem.spdk {
      HandlerCanMove(s, g, m);
      step := HandlerStep(m, s.mem.spdk[m]);
    } else if s.mem.ring != [] {
      RingCanMove(s, g);
      step := DispatchStep(PLAIN_ENV);
    } else if s.tails != [] {
      step := TailStep(0);
    } else {
      var c :| c in s.clients && !s.clients[c].Idle?;
      ClientCanMove(s, g, c);
      step := ClientStep(c, s.clients[c]);
    }
  }

  /** While the poller runs, a state in which no step but a new call is possible
      is one in which nothing is left to do, and the other way round. */
  lemma StopsOnlyAtRest(s: State)
    requires Reachable(s) && s.mem.running
    ensures Quiescent(s) <==> forall step | Enabled(s, step) :: !Moves(step)
  {
    if Quiescent(s) {
      NothingToDo(s);
    } else {
      var g := ReachableInv(s);
      ReachableTails(s);
      var step := SomeStep(s, g);
    }
  }

  lemma NothingToDo(s: State)
    requires Quiescent(s)
    ensures forall step | Enabled(s, step) :: !Moves(step)
  {
  }

  ghost predicate NoShutdown(s: State) {
    forall r | 0 <= r < |s.calls| :: !s.calls[r].kind.Shutdown?
  }

  lemma StaysRunning(s: State, step: Step)
    requires Reachable(s) && Enabled(s, step) && s.mem.running && NoShutdown(s)
    ensures Apply(s, step).mem.running
  {
    if step.DispatchStep? {
      var g := ReachableInv(s);
      OldestCall(s, g);
      TakeRunning(s.mem, step.e);
    }
  }

  lemma TakeRunning(a: Mem, e: Env)
    requires a.ring != [] && a.ring[0] < |a.msgs| && e.blockSize > 0
    ensures Take(a, e).running == (a.running && !a.msgs[a.ring[0]].call.kind.Shutdown?)
  {
  }

  lemma OldestCall(s: State, g: seq<Stage>)
    requires Inv(s, g) && s.mem.ring != [] && s.mem.ring[0] < |s.mem.msgs|
    ensures ReqOf(s, s.mem.ring[0]) < |s.calls| && s.mem.msgs[s.mem.ring[0]].call == s.calls[ReqOf(s, s.mem.ring[0])]
  {
    assert s.mem.ring[0] in s.mem.ring;
    OwnerOf(s, g, s.mem.ring[0]);
  }

  ghost predicate NoNewCalls(steps: seq<Step>) { forall i | 0 <= i < |steps| :: Moves(steps[i]) }

  /** From every reachable state in which nobody has asked for a shutdown: every
      continuation without new calls, whatever devices and schedulers do, is at
      most as long as the measure says; it can stop only where nothing is left to
      do; and there every request's history is complete. So no interleaving can
      reach a deadlock, or lose a request that is still to be answered, as long as
      user callbacks return: one that makes a synchronous call would wait on the
      SPDK thread for that thread itself, and is not part of this model. */
  lemma {:induction false} EveryRunDrains(s: State, steps: seq<Step>)
    requires Reachable(s) && s.mem.running && NoShutdown(s) && Run(s, steps) && NoNewCalls(steps)
    ensures |steps| <= Measure(s)
    ensures var e := End(s, steps);
            && Reachable(e) && e.calls == s.calls && e.mem.running
            && (Quiescent(e) <==> forall step | Enabled(e, step) :: !Moves(step))
            && (Quiescent(e) ==>
                  |e.hist| == |s.calls| && forall r | 0 <= r < |s.calls| :: Finished(s.calls[r], e.hist[r]))
    decreases |steps|
  {
    if steps == [] {
      StopsOnlyAtRest(s);
      if Quiescent(s) {
        AllFinished(s);
      }
    } else {
      var s1 := Apply(s, steps[0]);
      MoveDrops(s, steps[0]);
      StaysRunning(s, steps[0]);
      ProtocolRuns.ReachableStep(s, steps[0]);
      SameCalls(s, steps[0]);
      EveryRunDrains(s1, steps[1..]);
    }
  }

  lemma SameCalls(s: State, step: Step)
    requires Enabled(s, step) && Moves(step)
    ensures Apply(s, step).calls == s.calls
  {
  }

  lemma AllFinished(s: State)
    requires Reachable(s) && AtRest(s)
    ensures |s.hist| == |s.calls| && forall r | 0 <= r < |s.calls| :: Finished(s.calls[r], s.hist[r])
  {
    var g := ReachableInv(s);
    forall r | 0 <= r < |s.calls|
      ensures Finished(s.calls[r], s.hist[r])
    {
      QuiescentHistories(s, r);
    }
  }

  /** And such a continuation to the end exists. */
  lemma {:induction false} CanDrain(s: State) returns (steps: seq<Step>)
    requires Reachable(s) && s.mem.running && NoShutdown(s)
    ensures Run(s, steps) && NoNewCalls(steps) && Quiescent(End(s, steps))
    decreases Measure(s)
  {
    if Quiescent(s) {
      steps := [];
    } else {
      var g := ReachableInv(s);
      ReachableTails(s);
      var step := SomeStep(s, g);
      MoveDrops(s, step);
      StaysRunning(s, step);
      ProtocolRuns.ReachableStep(s, step);
      SameCalls(s, step);
      var rest := CanDrain(Apply(s, step));
      steps := [step] + rest;
      assert steps[1..] == rest;
    }
  }
}
