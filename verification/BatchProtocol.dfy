/** What the batch context assumes of the requests below it, derived from the
    message protocol: a request that was taken calls back at most once or is
    stranded, never both, and a refused one does neither. */
module BatchProtocol {
  import opened Messages
  import opened Protocol
  import opened ProtocolInvariant
  import opened ProtocolSteps
  import opened ProtocolTails
  import opened ProtocolHistories
  import ProtocolRuns

  /** An asynchronous request as its submitter sees it. */
  datatype Fate = Unsent | Refused | Taken | Reported(status: int) | Lost(status: int)

  function FateOf(t: seq<Event>): Fate {
    if |t| < 2 then Unsent
    else if t[1].EBusy? then Refused
    else if |t| >= 5 && t[4].ECallback? then Reported(t[4].status)
    else if |t| >= 4 && t[3].EPublished? then Lost(t[3].status)
    else Taken
  }

  /** How a fate can change: the steps `Accept` and `Fail`, `Callback` and `Strand`
      of the batch context. */
  predicate FateMoves(a: Fate, b: Fate) {
    || a == b
    || (a.Unsent? && (b.Taken? || b.Refused?))
    || (a.Taken? && (b.Reported? || b.Lost?))
  }

  lemma TraceMoves(t: seq<Event>, t': seq<Event>, c: Call)
    requires t != [] && t <= t' && |t'| <= |t| + 2 && c.async && SoFar(c, t')
    ensures FateMoves(FateOf(t), FateOf(t'))
  {
    if m :| t' <= RefusedTrace(m) {
    } else if m, ok :| t' <= CalledTrace(m, ok) {
    } else {
      var m, status :| t' <= StrandedTrace(m, status);
    }
  }

  /** The fate of an asynchronous request, told from the events of its history. */
  lemma FatesMean(s: State, r: nat)
    requires Reachable(s) && r < |s.calls| && s.calls[r].async
    ensures r < |s.hist|
    ensures var f, t := FateOf(s.hist[r]), s.hist[r];
            && (forall st :: f == Reported(st) <==> ECallback(st) in t)
            && (forall st :: f == Lost(st) <==> EPublished(st, 0) in t)
            && (f.Refused? <==> EBusy in t)
            && (f.Unsent? <==> EBusy !in t && ESent !in t)
  {
    HistoriesSoFar(s, r);
    var g := ReachableInv(s);
    Stages(s.calls[r], g[r], g[r]);
    TraceMeans(s.hist[r], s.calls[r]);
  }

  lemma TraceMeans(t: seq<Event>, c: Call)
    requires t != [] && c.async && SoFar(c, t)
    ensures var f := FateOf(t);
            && (forall st :: f == Reported(st) <==> ECallback(st) in t)
            && (forall st :: f == Lost(st) <==> EPublished(st, 0) in t)
            && (f.Refused? <==> EBusy in t)
            && (f.Unsent? <==> EBusy !in t && ESent !in t)
  {
    if m :| t <= RefusedTrace(m) {
      assert |t| >= 2 ==> t[1] == EBusy;
    } else if m, ok :| t <= CalledTrace(m, ok) {
      assert |t| >= 2 ==> t[1] == ESent;
      assert |t| >= 5 ==> t[4].ECallback?;
    } else {
      var m, status :| t <= StrandedTrace(m, status);
      assert |t| >= 2 ==> t[1] == ESent;
      assert |t| >= 4 ==> t[3] == EPublished(status, 0);
    }
  }

  lemma AtMostTwoEvents(s: State, step: Step, r: nat)
    requires Enabled(s, step) && r < |s.hist|
    ensures |Apply(s, step).hist[r]| <= |s.hist[r]| + 2
  {
  }

  lemma StepMovesFate(s: State, step: Step, r: nat)
    requires Reachable(s) && Enabled(s, step) && r < |s.calls| && s.calls[r].async
    ensures r < |s.hist| && r < |Apply(s, step).hist|
    ensures FateMoves(FateOf(s.hist[r]), FateOf(Apply(s, step).hist[r]))
  {
    var g := ReachableInv(s);
    var g' := StepKeeps(s, g, step);
    StepGrows(s, step);
    assert s.hist[r] <= Apply(s, step).hist[r];
    AtMostTwoEvents(s, step, r);
    Stages(s.calls[r], g[r], g'[r]);
    assert Apply(s, step).calls[r] == s.calls[r];
    TraceMoves(s.hist[r], Apply(s, step).hist[r], s.calls[r]);
  }

  lemma Stages(c: Call, g: Stage, g': Stage)
    requires c.async && WellFormed(c) && Fits(c, g')
    ensures TraceOf(c, g) != [] && SoFar(c, TraceOf(c, g'))
  {
    AsyncStage(c, g');
  }

  /** Asynchronous requests that were taken and have no fate yet; and lost ones. */
  function InFlight(s: State): set<nat> {
    set r: nat | r < |s.calls| && r < |s.hist| && s.calls[r].async && FateOf(s.hist[r]).Taken?
  }

  function Stranded(s: State): set<nat> {
    set r: nat | r < |s.calls| && r < |s.hist| && s.calls[r].async && FateOf(s.hist[r]).Lost?
  }

  /** The one request whose history a step can add to. */
  function Subject(s: State, step: Step): nat
    requires Enabled(s, step)
  {
    match step
    case AllocStep(_, _, _) => |s.hist|
    case AllocFails(_) => |s.hist|
    case SendStep(c) => ClientOf(s, c).r
    case DispatchStep(_) => ReqOf(s, s.mem.ring[0])
    case MarkStep(m) => ReqOf(s, m)
    case DeviceStep(m, _, _) => ReqOf(s, m)
    case BytesStep(m) => ReqOf(s, m)
    case PublishStep(m) => ReqOf(s, m)
    case AsyncFreeStep(m) => ReqOf(s, m)
    case ObserveStep(_) => |s.hist|
    case ResultStep(c) => ClientOf(s, c).r
    case ReleaseStep(c) => ClientOf(s, c).r
    case TailStep(_) => |s.hist|
  }

  lemma OnlySubject(s: State, step: Step, r: nat)
    requires Enabled(s, step) && r < |s.hist| && r != Subject(s, step)
    ensures r < |Apply(s, step).hist| && Apply(s, step).hist[r] == s.hist[r]
  {
  }

  /** What a protocol step is to the sets of the batch context: nothing; or a
      request taken (`Accept`); or one in flight that calls back (`Callback`) or
      is lost (`Strand`). */
  ghost predicate BatchStep(s: State, s': State, r: nat) {
    || (InFlight(s') == InFlight(s) && Stranded(s') == Stranded(s))
    || (r !in InFlight(s) + Stranded(s) && InFlight(s') == InFlight(s) + {r} && Stranded(s') == Stranded(s))
    || (r in InFlight(s) && InFlight(s') == InFlight(s) - {r} && Stranded(s') == Stranded(s))
    || (r in InFlight(s) && InFlight(s') == InFlight(s) - {r} && Stranded(s') == Stranded(s) + {r})
  }

  /** Every step of every run does to the requests in flight and the stranded ones
      what one step of the batch context's own step system does, or nothing. */
  lemma StepsAreBatchSteps(s: State, step: Step)
    requires Reachable(s) && Enabled(s, step)
    ensures BatchStep(s, Apply(s, step), Subject(s, step))
  {
    var r, s' := Subject(s, step), Apply(s, step);
    var g := ReachableInv(s);
    var g' := StepKeeps(s, g, step);
    StepGrows(s, step);
    NewIsUnsent(s, step);
    forall q: nat | q < |s.calls| && q != r
      ensures s'.hist[q] == s.hist[q] && s'.calls[q] == s.calls[q]
    {
      OnlySubject(s, step, q);
    }
    if r < |s.calls| && s.calls[r].async {
      StepMovesFate(s, step, r);
    }
    SetsFollow(s, s', r);
  }

  lemma NewIsUnsent(s: State, step: Step)
    requires Enabled(s, step) && |s.hist| == |s.calls|
    ensures forall q: nat | |s.calls| <= q < |Apply(s, step).hist| :: FateOf(Apply(s, step).hist[q]).Unsent?
  {
  }

  lemma SetsFollow(s: State, s': State, r: nat)
    requires |s.hist| == |s.calls| <= |s'.calls| == |s'.hist|
    requires forall q: nat | q < |s.calls| :: s'.calls[q] == s.calls[q] && (q != r ==> s'.hist[q] == s.hist[q])
    requires forall q: nat | |s.calls| <= q < |s'.hist| :: FateOf(s'.hist[q]).Unsent?
    requires r < |s.calls| && s.calls[r].async ==> FateMoves(FateOf(s.hist[r]), FateOf(s'.hist[r]))
    ensures BatchStep(s, s', r)
  {
    assert InFlight(s') - {r} == InFlight(s) - {r} && Stranded(s') - {r} == Stranded(s) - {r};
    if r < |s.calls| && s.calls[r].async {
      var a, b := FateOf(s.hist[r]), FateOf(s'.hist[r]);
      assert (r in InFlight(s) <==> a.Taken?) && (r in InFlight(s') <==> b.Taken?);
      assert (r in Stranded(s) <==> a.Lost?) && (r in Stranded(s') <==> b.Lost?);
    }
  }

  /** In every continuation a request that has called back, was lost or was
      refused stays so: there is never a second callback. */
  lemma {:induction false} FatesAreFinal(s: State, steps: seq<Step>, r: nat)
    requires Reachable(s) && Run(s, steps) && r < |s.calls| && s.calls[r].async && r < |s.hist|
    requires !FateOf(s.hist[r]).Unsent? && !FateOf(s.hist[r]).Taken?
    ensures r < |End(s, steps).hist| && FateOf(End(s, steps).hist[r]) == FateOf(s.hist[r])
    decreases |steps|
  {
    if steps != [] {
      StepMovesFate(s, steps[0], r);
      StepGrows(s, steps[0]);
      ProtocolRuns.ReachableStep(s, steps[0]);
      FatesAreFinal(Apply(s, steps[0]), steps[1..], r);
    }
  }
}
