/** The two counters of the global context. */
module ProtocolCounters {
  import opened Messages
  import opened Protocol
  import opened ProtocolInvariant
  import opened ProtocolSteps

  /** How many of these requests were reads or writes. */
  function Transfers(calls: seq<Call>, requests: seq<nat>): nat {
    if requests == [] then 0 else
      var last := requests[|requests| - 1];
      Transfers(calls, requests[..|requests| - 1]) + if last < |calls| && IsIo(calls[last].kind) then 1 else 0
  }

  lemma {:induction false} TransfersGrow(calls: seq<Call>, more: seq<Call>, requests: seq<nat>)
    requires forall i | 0 <= i < |requests| :: requests[i] < |calls|
    ensures Transfers(calls + more, requests) == Transfers(calls, requests)
  {
    if requests != [] {
      TransfersGrow(calls, more, requests[..|requests| - 1]);
    }
  }

  ghost predicate CountersOk(s: State) {
    && (forall i | 0 <= i < |s.polled| :: s.polled[i] < |s.calls|)
    && s.mem.processed == |s.polled| % 0x1_0000_0000_0000_0000
    && s.mem.ioOps == Transfers(s.calls, s.polled) % 0x1_0000_0000_0000_0000
  }

  lemma DispatchCounts(s: State, g: seq<Stage>, e: Env)
    requires Inv(s, g) && CountersOk(s) && Enabled(s, DispatchStep(e))
    ensures CountersOk(Apply(s, DispatchStep(e)))
  {
    var m, s' := s.mem.ring[0], Apply(s, DispatchStep(e));
    assert m in s.mem.ring;
    OwnerOf(s, g, m);
    TakeCounts(s.mem, e);
    OneMoreCounted(s, s', ReqOf(s, m));
  }

  lemma OneMoreCounted(s: State, s': State, r: nat)
    requires CountersOk(s) && r < |s.calls| && s'.calls == s.calls && s'.polled == s.polled + [r]
    requires s'.mem.processed == (s.mem.processed + 1) % 0x1_0000_0000_0000_0000
    requires s'.mem.ioOps == if IsIo(s.calls[r].kind) then (s.mem.ioOps + 1) % 0x1_0000_0000_0000_0000 else s.mem.ioOps
    ensures CountersOk(s')
  {
    assert s'.polled[..|s.polled|] == s.polled;
  }

  lemma TakeCounts(a: Mem, e: Env)
    requires a.ring != [] && a.ring[0] < |a.msgs| && e.blockSize > 0
    ensures Take(a, e).processed == (a.processed + 1) % 0x1_0000_0000_0000_0000
    ensures Take(a, e).ioOps ==
              if IsIo(a.msgs[a.ring[0]].call.kind) then (a.ioOps + 1) % 0x1_0000_0000_0000_0000 else a.ioOps
  {
  }

  lemma OthersCount(s: State, step: Step)
    requires CountersOk(s) && Enabled(s, step) && !step.DispatchStep?
    ensures CountersOk(Apply(s, step))
  {
    if step.AllocStep? {
      TransfersGrow(s.calls, [step.call], s.polled);
    }
  }

  lemma {:induction false} RunCounts(s: State, g: seq<Stage>, steps: seq<Step>)
    requires Inv(s, g) && CountersOk(s) && Run(s, steps)
    ensures CountersOk(End(s, steps))
    decreases |steps|
  {
    if steps != [] {
      if steps[0].DispatchStep? { DispatchCounts(s, g, steps[0].e); } else { OthersCount(s, steps[0]); }
      var g' := StepKeeps(s, g, steps[0]);
      RunCounts(Apply(s, steps[0]), g', steps[1..]);
    }
  }

  /** In every run one counter is the number of messages the dispatcher has taken
      off the ring, and the other the number of reads and writes among them, both
      modulo 2^64. */
  lemma CountersExact(s: State)
    requires Reachable(s)
    ensures s.mem.processed == |s.polled| % 0x1_0000_0000_0000_0000
    ensures s.mem.ioOps == Transfers(s.calls, s.polled) % 0x1_0000_0000_0000_0000
  {
    var s0, steps :| Init(s0) && Run(s0, steps) && End(s0, steps) == s;
    InitInv(s0);
    RunCounts(s0, [], steps);
  }
}
