/** The descriptor table in the protocol's runs: every run drives it as the
    steps of its own model do. */
module ProtocolDescriptors {
  import opened Codes
  import opened Descriptors
  import opened Messages
  import opened Protocol
  import opened ProtocolInvariant
  import opened ProtocolSteps
  import opened ProtocolTails

  /** The message of an open that waits for its completion. */
  predicate OpeningAt(s: State, m: nat) {
    m in s.mem.spdk && m < |s.mem.msgs| && s.mem.spdk[m].AtDevice? && s.mem.msgs[m].call.kind.Open?
  }

  /** Request `r` is an open whose handler claimed slot `fd` and whose completion
      was a success or a failure. */
  ghost predicate SettledAs(s: State, r: nat, fd: nat, ok: bool) {
    r < |s.calls| && r < |s.hist| && s.calls[r].kind.Open? && exists m :: TDone(m, ok, fd) <= s.hist[r]
  }

  /** Request `r` is an open in flight that claimed slot `fd`. */
  ghost predicate InFlight(s: State, r: nat, fd: int) {
    exists m: nat :: OpeningAt(s, m) && ReqOf(s, m) == r && s.mem.msgs[m].resultFd == fd
  }

  ghost predicate FlightsAre(s: State, opening: map<nat, nat>) {
    forall r: nat, fd: int :: InFlight(s, r, fd) <==> r in opening && opening[r] == fd
  }

  ghost predicate AllSettled(s: State, owned: map<nat, nat>, leaked: set<nat>) {
    && (forall fd | fd in owned :: SettledAs(s, owned[fd], fd, true))
    && (forall fd | fd in leaked :: exists r :: SettledAs(s, r, fd, false))
  }

  /** The table model `o` is in the protocol state: same table, the opens in
      flight with the slots they claimed, every descriptor in someone's hands is
      the one that its open returns, and every leaked slot is that of a failed
      open. */
  ghost predicate Mirrors(s: State, o: Opens) {
    o.table == s.mem.table && FlightsAre(s, o.opening) && AllSettled(s, o.owned, o.leaked)
  }

  // ------------------------------------------------- the account of a run

  /** A step of the table's own model, where it is possible. */
  function Tried(o: Opens, step: OpenStep): Opens { if CanStep(o, step) then TakeStep(o, step) else o }

  /** What a protocol step is to the table. */
  function Accounted(o: Opens, s: State, step: Step): Opens
    requires Enabled(s, step)
  {
    match step
    case DispatchStep(e) =>
      var msg := s.mem.msgs[s.mem.ring[0]];
      if msg.call.kind.Open? && e.found then Tried(o, Begin(msg.req, msg.call.flags, e.submitOk))
      else if msg.call.kind.Close? then TakeStep(o, Shut(msg.call.fd))
      else o
    case DeviceStep(m, ok, channelOk) => if OpeningAt(s, m) then Tried(o, Finish(ReqOf(s, m), ok, channelOk)) else o
    case _ => o
  }

  /** The opens, returned descriptors and leaked slots after a run, told from its
      dispatched opens and closes and the completions of opens alone. */
  ghost function Account(o: Opens, s: State, steps: seq<Step>): Opens
    requires Run(s, steps)
    decreases |steps|
  {
    if steps == [] then o else Account(Accounted(o, s, steps[0]), Apply(s, steps[0]), steps[1..])
  }

  function NoneYet(s: State): Opens { Opens(s.mem.table, map[], map[], {}) }

  /** The dispatcher handles a close of `fd`. */
  predicate ClosesSlot(s: State, step: Step, fd: int) {
    && step.DispatchStep? && s.mem.ring != [] && s.mem.ring[0] < |s.mem.msgs|
    && s.mem.msgs[s.mem.ring[0]].call.kind.Close? && s.mem.msgs[s.mem.ring[0]].call.fd == fd
  }

  /** During the run, and after request `r` has completed, slot `fd` was closed. */
  ghost predicate ClosedSince(s: State, steps: seq<Step>, r: nat, fd: nat, ok: bool)
    requires Run(s, steps)
    decreases |steps|
  {
    && steps != []
    && (|| (ClosesSlot(s, steps[0], fd) && SettledAs(s, r, fd, ok))
        || ClosedSince(Apply(s, steps[0]), steps[1..], r, fd, ok))
  }

  /** The dispatcher closes a number whose open has not completed. */
  predicate ClosesEarly(s: State, step: Step) {
    && step.DispatchStep? && s.mem.ring != [] && s.mem.ring[0] < |s.mem.msgs|
    && s.mem.msgs[s.mem.ring[0]].call.kind.Close?
    && exists m | m in s.mem.spdk :: OpeningAt(s, m) && s.mem.msgs[m].resultFd == s.mem.msgs[s.mem.ring[0]].call.fd
  }

  ghost predicate CleanRun(s: State, steps: seq<Step>)
    requires Run(s, steps)
    decreases |steps|
  {
    steps != [] ==> !ClosesEarly(s, steps[0]) && CleanRun(Apply(s, steps[0]), steps[1..])
  }

  lemma SettledGrows(s: State, s': State, r: nat, fd: nat, ok: bool)
    requires Grows(s, s') && SettledAs(s, r, fd, ok)
    ensures SettledAs(s', r, fd, ok)
  {
    var m :| TDone(m, ok, fd) <= s.hist[r];
    assert s.hist[r] <= s'.hist[r];
    assert TDone(m, ok, fd) <= s'.hist[r];
  }

  lemma AllSettledGrows(s: State, s': State, owned: map<nat, nat>, leaked: set<nat>)
    requires Grows(s, s') && AllSettled(s, owned, leaked)
    ensures AllSettled(s', owned, leaked)
  {
    forall fd | fd in owned
      ensures SettledAs(s', owned[fd], fd, true)
    {
      SettledGrows(s, s', owned[fd], fd, true);
    }
    forall fd | fd in leaked
      ensures exists r :: SettledAs(s', r, fd, false)
    {
      var r :| SettledAs(s, r, fd, false);
      SettledGrows(s, s', r, fd, false);
    }
  }

  /** Opens in flight use messages that belong to different requests. */
  lemma Apart(s: State, g: seq<Stage>, m: nat, k: nat)
    requires Inv(s, g) && m < |s.mem.msgs| && k < |s.mem.msgs| && m !in s.mem.pool && k !in s.mem.pool && m != k
    ensures ReqOf(s, m) != ReqOf(s, k)
  {
    OwnerOf(s, g, m);
    OwnerOf(s, g, k);
  }

  /** Nothing about message `k` changes that matters here. */
  ghost predicate SameAt(s: State, s': State, k: nat) {
    && (OpeningAt(s', k) <==> OpeningAt(s, k))
    && (OpeningAt(s, k) ==> ReqOf(s', k) == ReqOf(s, k) && s'.mem.msgs[k].resultFd == s.mem.msgs[k].resultFd)
  }

  lemma SameFlights(s: State, s': State)
    requires forall k: nat :: SameAt(s, s', k)
    ensures forall r: nat, fd: int :: InFlight(s', r, fd) <==> InFlight(s, r, fd)
  {
    forall r: nat, fd: int
      ensures InFlight(s', r, fd) <==> InFlight(s, r, fd)
    {
      if InFlight(s, r, fd) {
        var m: nat :| OpeningAt(s, m) && ReqOf(s, m) == r && s.mem.msgs[m].resultFd == fd;
        assert SameAt(s, s', m);
      }
      if InFlight(s', r, fd) {
        var m: nat :| OpeningAt(s', m) && ReqOf(s', m) == r && s'.mem.msgs[m].resultFd == fd;
        assert SameAt(s, s', m);
      }
    }
  }

  /** Message `m` enters the opens in flight. */
  lemma MoreFlights(s: State, s': State, m: nat)
    requires OpeningAt(s', m) && !OpeningAt(s, m) && forall k: nat | k != m :: SameAt(s, s', k)
    ensures forall r: nat, fd: int ::
              InFlight(s', r, fd) <==> InFlight(s, r, fd) || (r == ReqOf(s', m) && fd == s'.mem.msgs[m].resultFd)
  {
    forall r: nat, fd: int
      ensures InFlight(s', r, fd) <==> InFlight(s, r, fd) || (r == ReqOf(s', m) && fd == s'.mem.msgs[m].resultFd)
    {
      if InFlight(s, r, fd) {
        var k: nat :| OpeningAt(s, k) && ReqOf(s, k) == r && s.mem.msgs[k].resultFd == fd;
        assert SameAt(s, s', k);
      }
      if InFlight(s', r, fd) {
        var k: nat :| OpeningAt(s', k) && ReqOf(s', k) == r && s'.mem.msgs[k].resultFd == fd;
        assert k != m ==> SameAt(s, s', k);
      }
    }
  }

  /** Message `m` leaves them. */
  lemma FewerFlights(s: State, g: seq<Stage>, s': State, m: nat)
    requires Inv(s, g) && OpeningAt(s, m) && !OpeningAt(s', m) && forall k: nat | k != m :: SameAt(s, s', k)
    ensures forall r: nat, fd: int :: InFlight(s', r, fd) <==> InFlight(s, r, fd) && r != ReqOf(s, m)
  {
    forall k: nat | OpeningAt(s, k) && k != m
      ensures ReqOf(s, k) != ReqOf(s, m)
    {
      Apart(s, g, m, k);
    }
    forall r: nat, fd: int
      ensures InFlight(s', r, fd) <==> InFlight(s, r, fd) && r != ReqOf(s, m)
    {
      if InFlight(s, r, fd) && r != ReqOf(s, m) {
        var k: nat :| OpeningAt(s, k) && ReqOf(s, k) == r && s.mem.msgs[k].resultFd == fd;
        assert SameAt(s, s', k);
      }
      if InFlight(s', r, fd) {
        var k: nat :| OpeningAt(s', k) && ReqOf(s', k) == r && s'.mem.msgs[k].resultFd == fd;
        assert SameAt(s, s', k);
      }
    }
  }

  // ------------------------------------------------------------ dispatching

  lemma TakeFrame(a: Mem, e: Env, h: Handled)
    requires a.ring != [] && a.ring[0] < |a.msgs| && e.blockSize > 0 && h == Handle(a.table, a.msgs[a.ring[0]].call, e)
    ensures var b, m := Take(a, e), a.ring[0];
            && b.table == h.table && |b.msgs| == |a.msgs| && m in b.spdk
            && b.msgs == a.msgs[m := b.msgs[m]] && b.spdk == a.spdk[m := b.spdk[m]]
            && b.msgs[m].resultFd == h.fd && b.msgs[m].req == a.msgs[m].req && b.msgs[m].call == a.msgs[m].call
            && (b.spdk[m].AtDevice? <==> h.verdict.Submit?)
  {
  }

  lemma OnRingOnly(s: State, g: seq<Stage>)
    requires Inv(s, g) && s.mem.ring != []
    ensures s.mem.ring[0] < |s.mem.msgs| && s.mem.ring[0] !in s.mem.spdk && s.mem.ring[0] !in s.mem.pool
    ensures ReqOf(s, s.mem.ring[0]) < |s.hist| && |s.hist[ReqOf(s, s.mem.ring[0])]| == 2
  {
    assert s.mem.ring[0] in s.mem.ring;
    OwnerOf(s, g, s.mem.ring[0]);
  }

  /** The effect of dispatching message `m` to a handler with result `h`, seen
      from the opens in flight. */
  ghost predicate Dispatched(s: State, s': State, m: nat, h: Handled) {
    && m < |s.mem.msgs| && m < |s'.mem.msgs| && s'.mem.table == h.table && !OpeningAt(s, m)
    && s'.mem.msgs[m].resultFd == h.fd && ReqOf(s', m) == ReqOf(s, m)
    && (OpeningAt(s', m) <==> s.mem.msgs[m].call.kind.Open? && h.verdict.Submit?)
    && (forall k: nat | k != m :: SameAt(s, s', k))
  }

  lemma DispatchFrame(s: State, g: seq<Stage>, e: Env, h: Handled)
    requires Inv(s, g) && Enabled(s, DispatchStep(e)) && h == Handle(s.mem.table, s.mem.msgs[s.mem.ring[0]].call, e)
    ensures Dispatched(s, Apply(s, DispatchStep(e)), s.mem.ring[0], h)
  {
    OnRingOnly(s, g);
    TakeFrame(s.mem, e, h);
    MemFrame(s, Apply(s, DispatchStep(e)), s.mem.ring[0], h);
  }

  lemma MemFrame(s: State, s': State, m: nat, h: Handled)
    requires m < |s.mem.msgs| && m !in s.mem.spdk && |s'.mem.msgs| == |s.mem.msgs| && m in s'.mem.spdk
    requires s'.mem.table == h.table
    requires s'.mem.msgs == s.mem.msgs[m := s'.mem.msgs[m]] && s'.mem.spdk == s.mem.spdk[m := s'.mem.spdk[m]]
    requires s'.mem.msgs[m].resultFd == h.fd && s'.mem.msgs[m].req == s.mem.msgs[m].req
    requires s'.mem.msgs[m].call == s.mem.msgs[m].call && (s'.mem.spdk[m].AtDevice? <==> h.verdict.Submit?)
    ensures Dispatched(s, s', m, h)
  {
  }

  /** A request on the ring is no open in flight and owns no descriptor yet. */
  lemma FreshRequest(s: State, g: seq<Stage>, o: Opens)
    requires Inv(s, g) && Mirrors(s, o) && s.mem.ring != [] && InRange(s, s.mem.ring[0])
    ensures ReqOf(s, s.mem.ring[0]) !in o.opening && ReqOf(s, s.mem.ring[0]) !in o.owned.Values
  {
    var r := ReqOf(s, s.mem.ring[0]);
    OnRingOnly(s, g);
    forall k: nat | OpeningAt(s, k)
      ensures ReqOf(s, k) != r
    {
      Apart(s, g, s.mem.ring[0], k);
    }
    assert forall fd: int :: !InFlight(s, r, fd);
    assert forall q | q in o.opening :: InFlight(s, q, o.opening[q]);
    forall fd | fd in o.owned
      ensures o.owned[fd] != r
    {
      assert SettledAs(s, o.owned[fd], fd, true);
      var k :| TDone(k, true, fd) <= s.hist[o.owned[fd]];
      assert |s.hist[o.owned[fd]]| >= |TDone(k, true, fd)| == 4;
    }
  }

  lemma DispatchOpen(s: State, g: seq<Stage>, o: Opens, e: Env)
    requires Inv(s, g) && Mirrors(s, o) && Partition(o) && Enabled(s, DispatchStep(e))
    requires s.mem.msgs[s.mem.ring[0]].call.kind.Open? && e.found
    ensures var o' := Accounted(o, s, DispatchStep(e)); Mirrors(Apply(s, DispatchStep(e)), o') && Partition(o')
  {
    var m, s' := s.mem.ring[0], Apply(s, DispatchStep(e));
    var r, call := ReqOf(s, m), s.mem.msgs[m].call;
    FreshRequest(s, g, o);
    BeginKeeps(o, r, call.flags, e.submitOk);
    StepGrows(s, DispatchStep(e));
    AllSettledGrows(s, s', o.owned, o.leaked);
    DispatchFrame(s, g, e, Handle(s.mem.table, call, e));
    BeginFlights(s, s', o, call, e, r, m);
  }

  lemma BeginFlights(s: State, s': State, o: Opens, call: Call, e: Env, r: nat, m: nat)
    requires FlightsAre(s, o.opening) && o.table == s.mem.table && e.blockSize > 0 && call.kind.Open? && e.found
    requires CanStep(o, Begin(r, call.flags, e.submitOk)) && m < |s'.mem.msgs|
    requires Dispatched(s, s', m, Handle(s.mem.table, call, e)) && s.mem.msgs[m].call == call && ReqOf(s, m) == r
    ensures var o' := TakeStep(o, Begin(r, call.flags, e.submitOk));
            s'.mem.table == o'.table && FlightsAre(s', o'.opening) && o'.owned == o.owned && o'.leaked == o.leaked
  {
    HandlersStepTable(o, call, e, r);
    if Handle(s.mem.table, call, e).verdict.Submit? {
      MoreFlights(s, s', m);
    } else {
      assert SameAt(s, s', m);
      SameFlights(s, s');
    }
  }

  lemma DispatchOther(s: State, g: seq<Stage>, o: Opens, e: Env)
    requires Inv(s, g) && Mirrors(s, o) && Partition(o) && Enabled(s, DispatchStep(e))
    requires !(s.mem.msgs[s.mem.ring[0]].call.kind.Open? && e.found) && !ClosesEarly(s, DispatchStep(e))
    ensures var o' := Accounted(o, s, DispatchStep(e)); Mirrors(Apply(s, DispatchStep(e)), o') && Partition(o')
  {
    var m, s' := s.mem.ring[0], Apply(s, DispatchStep(e));
    var call := s.mem.msgs[m].call;
    StepGrows(s, DispatchStep(e));
    AllSettledGrows(s, s', o.owned, o.leaked);
    DispatchFrame(s, g, e, Handle(s.mem.table, call, e));
    ShutFlights(s, s', o, call, e, m);
    if call.kind.Close? {
      NotPremature(s, o, e);
      ShutKeeps(o, call.fd);
    }
  }

  lemma ShutFlights(s: State, s': State, o: Opens, call: Call, e: Env, m: nat)
    requires FlightsAre(s, o.opening) && o.table == s.mem.table && e.blockSize > 0 && !(call.kind.Open? && e.found)
    requires Dispatched(s, s', m, Handle(s.mem.table, call, e)) && s.mem.msgs[m].call == call
    ensures FlightsAre(s', o.opening)
    ensures s'.mem.table == if call.kind.Close? then TakeStep(o, Shut(call.fd)).table else o.table
  {
    assert SameAt(s, s', m);
    SameFlights(s, s');
  }

  lemma NotPremature(s: State, o: Opens, e: Env)
    requires FlightsAre(s, o.opening) && Enabled(s, DispatchStep(e)) && !ClosesEarly(s, DispatchStep(e))
    requires s.mem.msgs[s.mem.ring[0]].call.kind.Close?
    ensures !Premature(o, Shut(s.mem.msgs[s.mem.ring[0]].call.fd))
  {
    forall r | r in o.opening
      ensures o.opening[r] != s.mem.msgs[s.mem.ring[0]].call.fd
    {
      assert InFlight(s, r, o.opening[r]);
    }
  }

  // ----------------------------------------------------- completing an open

  lemma DeviceFrame(s: State, m: nat, ok: bool, channelOk: bool)
    requires Enabled(s, DeviceStep(m, ok, channelOk)) && OpeningAt(s, m) && !s.mem.msgs[m].call.async
    requires 0 <= s.mem.msgs[m].resultFd < |s.mem.table|
    ensures var s' := Apply(s, DeviceStep(m, ok, channelOk));
            && !OpeningAt(s', m) && (forall k: nat | k != m :: SameAt(s, s', k))
            && s'.mem.table == Completed(s.mem.table, s.mem.msgs[m].resultFd, ok, channelOk)
  {
  }

  lemma DeviceOpen(s: State, g: seq<Stage>, o: Opens, m: nat, ok: bool, channelOk: bool)
    requires Inv(s, g) && Mirrors(s, o) && Partition(o) && Enabled(s, DeviceStep(m, ok, channelOk)) && OpeningAt(s, m)
    ensures var o' := Accounted(o, s, DeviceStep(m, ok, channelOk));
            Mirrors(Apply(s, DeviceStep(m, ok, channelOk)), o') && Partition(o')
  {
    var s', r := Apply(s, DeviceStep(m, ok, channelOk)), ReqOf(s, m);
    SyncOpen(s, g, m);
    FlightSlot(s, o, m);
    FinishKeeps(o, r, ok, channelOk);
    StepGrows(s, DeviceStep(m, ok, channelOk));
    AllSettledGrows(s, s', o.owned, o.leaked);
    DoneTrace(s, g, m, ok, channelOk);
    DeviceFrame(s, m, ok, channelOk);
    FewerFlights(s, g, s', m);
    FinishMirrors(s, s', o, m, ok, channelOk);
  }

  lemma FlightSlot(s: State, o: Opens, m: nat)
    requires Mirrors(s, o) && Partition(o) && OpeningAt(s, m)
    ensures ReqOf(s, m) in o.opening && o.opening[ReqOf(s, m)] == s.mem.msgs[m].resultFd < |s.mem.table|
  {
    assert InFlight(s, ReqOf(s, m), s.mem.msgs[m].resultFd);
  }

  lemma FinishMirrors(s: State, s': State, o: Opens, m: nat, ok: bool, channelOk: bool)
    requires FlightsAre(s, o.opening) && o.table == s.mem.table && m < |s.mem.msgs|
    requires AllSettled(s', o.owned, o.leaked)
    requires var r := ReqOf(s, m);
             && r in o.opening && o.opening[r] < |o.table|
             && s'.mem.table == Completed(s.mem.table, o.opening[r], ok, channelOk)
             && (forall q: nat, fd: int :: InFlight(s', q, fd) <==> InFlight(s, q, fd) && q != r)
             && SettledAs(s', r, o.opening[r], ok && channelOk)
    ensures Mirrors(s', TakeStep(o, Finish(ReqOf(s, m), ok, channelOk)))
  {
  }

  lemma SyncOpen(s: State, g: seq<Stage>, m: nat)
    requires Inv(s, g) && OpeningAt(s, m)
    ensures !s.mem.msgs[m].call.async && ReqOf(s, m) < |s.calls| && s.calls[ReqOf(s, m)] == s.mem.msgs[m].call
  {
    OwnerOf(s, g, m);
  }

  lemma DoneTrace(s: State, g: seq<Stage>, m: nat, ok: bool, channelOk: bool)
    requires Inv(s, g) && Enabled(s, DeviceStep(m, ok, channelOk)) && OpeningAt(s, m) && s.mem.msgs[m].resultFd >= 0
    ensures SettledAs(Apply(s, DeviceStep(m, ok, channelOk)), ReqOf(s, m), s.mem.msgs[m].resultFd, ok && channelOk)
  {
    SyncOpen(s, g, m);
    OpenCompletes(s, g, m, ok, channelOk);
  }

  // ------------------------------------------------------------------- runs

  lemma ClientFrame(s: State, step: Step)
    requires PoolApart(s) && Enabled(s, step)
    requires step.AllocStep? || step.AllocFails? || step.SendStep? || step.ObserveStep? || step.ResultStep?
             || step.ReleaseStep? || step.TailStep?
    ensures Apply(s, step).mem.table == s.mem.table && forall k: nat :: SameAt(s, Apply(s, step), k)
  {
    if step.AllocStep? {
      AllocatedFrame(s, step.c, step.m, step.call);
    } else {
      assert Apply(s, step).mem.msgs == s.mem.msgs && Apply(s, step).mem.spdk == s.mem.spdk;
    }
  }

  lemma AllocatedFrame(s: State, c: nat, m: nat, call: Call)
    requires PoolApart(s) && Enabled(s, AllocStep(c, m, call))
    ensures forall k: nat :: SameAt(s, Alloc1(s, c, m, call), k)
  {
    assert m !in s.mem.spdk;
  }

  lemma HandlerFrame(s: State, step: Step)
    requires Enabled(s, step)
    requires step.MarkStep? || step.DeviceStep? || step.BytesStep? || step.PublishStep? || step.AsyncFreeStep?
    requires !OpeningAt(s, step.m)
    ensures Apply(s, step).mem.table == s.mem.table && forall k: nat :: SameAt(s, Apply(s, step), k)
  {
    forall k: nat
      ensures SameAt(s, Apply(s, step), k)
    {
      if k == step.m {
        assert !OpeningAt(Apply(s, step), k);
      }
    }
  }

  lemma StepMirrors(s: State, g: seq<Stage>, o: Opens, step: Step)
    requires Inv(s, g) && Mirrors(s, o) && Partition(o) && Enabled(s, step) && !ClosesEarly(s, step)
    ensures Mirrors(Apply(s, step), Accounted(o, s, step)) && Partition(Accounted(o, s, step))
  {
    if step.DispatchStep? {
      if s.mem.msgs[s.mem.ring[0]].call.kind.Open? && step.e.found {
        DispatchOpen(s, g, o, step.e);
      } else {
        DispatchOther(s, g, o, step.e);
      }
    } else if step.DeviceStep? && OpeningAt(s, step.m) {
      DeviceOpen(s, g, o, step.m, step.ok, step.channelOk);
    } else {
      OtherMirrors(s, o, step);
    }
  }

  lemma OtherMirrors(s: State, o: Opens, step: Step)
    requires PoolApart(s) && Mirrors(s, o) && Enabled(s, step) && !step.DispatchStep?
    requires step.DeviceStep? ==> !OpeningAt(s, step.m)
    ensures Mirrors(Apply(s, step), o)
  {
    if step.MarkStep? || step.DeviceStep? || step.BytesStep? || step.PublishStep? || step.AsyncFreeStep? {
      HandlerFrame(s, step);
    } else {
      ClientFrame(s, step);
    }
    SameFlights(s, Apply(s, step));
    StepGrows(s, step);
    AllSettledGrows(s, Apply(s, step), o.owned, o.leaked);
  }

  lemma {:induction false} RunMirrors(s: State, g: seq<Stage>, o: Opens, steps: seq<Step>)
    requires Inv(s, g) && Mirrors(s, o) && Partition(o) && Run(s, steps) && CleanRun(s, steps)
    ensures Mirrors(End(s, steps), Account(o, s, steps)) && Partition(Account(o, s, steps))
    decreases |steps|
  {
    if steps != [] {
      StepMirrors(s, g, o, steps[0]);
      var g1 := StepKeeps(s, g, steps[0]);
      RunMirrors(Apply(s, steps[0]), g1, Accounted(o, s, steps[0]), steps[1..]);
    }
  }

  // ------------------------------------------- the account misses nothing

  /** The account still has the slot of request `r`. */
  predicate Kept(o: Opens, r: nat, fd: nat, ok: bool) {
    if ok then fd in o.owned && o.owned[fd] == r else fd in o.leaked
  }

  /** An open settles only through its own completion. */
  lemma NewlySettled(s: State, g: seq<Stage>, step: Step, r: nat, fd: nat, ok: bool)
    requires Inv(s, g) && Enabled(s, step) && !SettledAs(s, r, fd, ok) && SettledAs(Apply(s, step), r, fd, ok)
    ensures step.DeviceStep? && OpeningAt(s, step.m) && ReqOf(s, step.m) == r && s.mem.msgs[step.m].resultFd == fd
    ensures ok == (step.ok && step.channelOk)
  {
    SettledByDevice(s, g, step, r, fd, ok);
    ByCompletion(s, g, step.m, step.ok, step.channelOk, fd, ok);
  }

  lemma SettledByDevice(s: State, g: seq<Stage>, step: Step, r: nat, fd: nat, ok: bool)
    requires Inv(s, g) && Enabled(s, step) && SettledAs(Apply(s, step), r, fd, ok)
    ensures SettledAs(s, r, fd, ok) || (step.DeviceStep? && ReqOf(s, step.m) == r)
  {
    var s' := Apply(s, step);
    var k :| TDone(k, ok, fd) <= s'.hist[r];
    OldRequest(s, step, r);
    if !(step.DeviceStep? && ReqOf(s, step.m) == r) {
      OtherEvents(s, step, r);
      DoneStays(s.hist[r], s'.hist[r], k, fd, ok);
    }
  }

  lemma DoneStays(t: seq<Event>, t': seq<Event>, k: nat, fd: nat, ok: bool)
    requires TDone(k, ok, fd) <= t' && (t' == t || (|t'| == |t| + 1 && t' == t + [t'[|t|]] && !t'[|t|].EDone?))
    ensures TDone(k, ok, fd) <= t
  {
    assert t'[3] == EDone(ok);
  }

  lemma ByCompletion(s: State, g: seq<Stage>, m: nat, deviceOk: bool, channelOk: bool, fd: nat, ok: bool)
    requires Inv(s, g) && Enabled(s, DeviceStep(m, deviceOk, channelOk))
    requires SettledAs(Apply(s, DeviceStep(m, deviceOk, channelOk)), ReqOf(s, m), fd, ok)
    ensures OpeningAt(s, m) && s.mem.msgs[m].resultFd == fd && ok == (deviceOk && channelOk)
  {
    var r, s' := ReqOf(s, m), Apply(s, DeviceStep(m, deviceOk, channelOk));
    assert s'.calls == s.calls;
    OpenCompletes(s, g, m, deviceOk, channelOk);
    var k :| TDone(k, ok, fd) <= s'.hist[r];
    DoneSays(k, ok, fd, m, deviceOk && channelOk, s.mem.msgs[m].resultFd);
  }

  lemma DoneSays(k: nat, ok: bool, fd: int, m: nat, ok': bool, fd': int)
    requires TDone(k, ok, fd) <= TDone(m, ok', fd')
    ensures ok == ok' && fd == fd'
  {
    assert TDone(m, ok', fd')[2] == ETaken(fd) && TDone(m, ok', fd')[3] == EDone(ok);
  }

  /** A new request has one event. */
  lemma OldRequest(s: State, step: Step, r: nat)
    requires Enabled(s, step) && r < |Apply(s, step).hist| && |Apply(s, step).hist[r]| > 1
    ensures r < |s.hist| && (r < |s.calls| ==> Apply(s, step).calls[r] == s.calls[r])
  {
  }

  /** No step but a completion of its own adds a completion to a history. */
  lemma OtherEvents(s: State, step: Step, r: nat)
    requires Enabled(s, step) && r < |s.hist| && !(step.DeviceStep? && ReqOf(s, step.m) == r)
    ensures var t, t' := s.hist[r], Apply(s, step).hist[r];
            t' == t || (t' == t + [t'[|t|]] && !t'[|t|].EDone?)
  {
  }

  lemma OpenCompletes(s: State, g: seq<Stage>, m: nat, ok: bool, channelOk: bool)
    requires Inv(s, g) && Enabled(s, DeviceStep(m, ok, channelOk))
    requires ReqOf(s, m) < |s.calls| && s.calls[ReqOf(s, m)].kind.Open?
    ensures OpeningAt(s, m)
    ensures Apply(s, DeviceStep(m, ok, channelOk)).hist[ReqOf(s, m)]
            == TDone(m, ok && channelOk, s.mem.msgs[m].resultFd)
  {
    OwnerOf(s, g, m);
  }

  lemma KeptOn(s: State, o: Opens, step: Step, r: nat, fd: nat, ok: bool)
    requires Partition(o) && Enabled(s, step) && Kept(o, r, fd, ok) && !ClosesSlot(s, step, fd)
    ensures Kept(Accounted(o, s, step), r, fd, ok)
  {
  }

  lemma StepKept(s: State, g: seq<Stage>, o: Opens, step: Step, r: nat, fd: nat, ok: bool)
    requires Inv(s, g) && Mirrors(s, o) && Partition(o) && Enabled(s, step)
    requires SettledAs(s, r, fd, ok) ==> Kept(o, r, fd, ok)
    ensures SettledAs(Apply(s, step), r, fd, ok) ==>
              || Kept(Accounted(o, s, step), r, fd, ok)
              || (ClosesSlot(s, step, fd) && SettledAs(s, r, fd, ok))
  {
    if SettledAs(s, r, fd, ok) {
      if !ClosesSlot(s, step, fd) {
        KeptOn(s, o, step, r, fd, ok);
      }
    } else if SettledAs(Apply(s, step), r, fd, ok) {
      NewlySettled(s, g, step, r, fd, ok);
      NewlyKept(s, o, step, r, fd, ok);
    }
  }

  lemma NewlyKept(s: State, o: Opens, step: Step, r: nat, fd: nat, ok: bool)
    requires Mirrors(s, o) && Partition(o) && Enabled(s, step)
    requires step.DeviceStep? && OpeningAt(s, step.m) && ReqOf(s, step.m) == r && s.mem.msgs[step.m].resultFd == fd
    requires ok == (step.ok && step.channelOk)
    ensures Kept(Accounted(o, s, step), r, fd, ok)
  {
    FlightSlot(s, o, step.m);
  }

  lemma {:induction false} RunKept(s: State, g: seq<Stage>, o: Opens, steps: seq<Step>, r: nat, fd: nat, ok: bool)
    requires Inv(s, g) && Mirrors(s, o) && Partition(o) && Run(s, steps) && CleanRun(s, steps)
    requires SettledAs(s, r, fd, ok) ==> Kept(o, r, fd, ok)
    ensures SettledAs(End(s, steps), r, fd, ok) ==>
              Kept(Account(o, s, steps), r, fd, ok) || ClosedSince(s, steps, r, fd, ok)
    decreases |steps|
  {
    if steps != [] {
      var s1, o1 := Apply(s, steps[0]), Accounted(o, s, steps[0]);
      StepKept(s, g, o, steps[0], r, fd, ok);
      if !(ClosesSlot(s, steps[0], fd) && SettledAs(s, r, fd, ok)) {
        StepMirrors(s, g, o, steps[0]);
        var g1 := StepKeeps(s, g, steps[0]);
        RunKept(s1, g1, o1, steps[1..], r, fd, ok);
      }
    }
  }

  lemma InitMirrors(s: State)
    requires Init(s)
    ensures Inv(s, []) && Mirrors(s, NoneYet(s)) && Partition(NoneYet(s))
  {
    InitInv(s);
    assert UsedSlots(s.mem.table) == {};
  }

  /** In every run of the library from initialisation, with any interleaving, in
      which the dispatcher never closes a number whose open is still under way,
      the account of the run is the table's: every returned descriptor in it is
      the one its own open claimed, and usable; opens in flight have slots of
      their own; and a further open is refused exactly when opens in flight,
      returned descriptors and slots leaked by failed opens have used up all
      256. */
  lemma DescriptorsInRuns(s: State, steps: seq<Step>)
    requires Init(s) && Run(s, steps) && CleanRun(s, steps)
    ensures var e, o := End(s, steps), Account(NoneYet(s), s, steps);
            && Mirrors(e, o) && Partition(o)
            && (forall r, q | r in o.opening && q in o.opening && r != q :: o.opening[r] != o.opening[q])
            && (forall r | r in o.opening :: o.opening[r] !in o.owned)
            && (FirstFree(e.mem.table, 0) == NOMEM <==> |o.opening| + |o.owned| + |o.leaked| == 256)
  {
    InitMirrors(s);
    RunMirrors(s, [], NoneYet(s), steps);
    OpenRefusedIff(Account(NoneYet(s), s, steps));
  }

  /** In such a run an open that has succeeded, in whatever state its caller is,
      leaves its number usable, and one that failed leaves its slot in use and
      unusable, until a close of that number is dispatched. */
  lemma SettledSlots(s: State, steps: seq<Step>, r: nat, fd: nat)
    requires Init(s) && Run(s, steps) && CleanRun(s, steps)
    ensures var e, o := End(s, steps), Account(NoneYet(s), s, steps);
            && (SettledAs(e, r, fd, true) && !ClosedSince(s, steps, r, fd, true) ==>
                  Ready(e.mem.table, fd) && fd in o.owned && o.owned[fd] == r)
            && (SettledAs(e, r, fd, false) && !ClosedSince(s, steps, r, fd, false) ==>
                  Valid(e.mem.table, fd) && !Ready(e.mem.table, fd) && fd in o.leaked)
  {
    InitMirrors(s);
    RunMirrors(s, [], NoneYet(s), steps);
    RunKept(s, [], NoneYet(s), steps, r, fd, true);
    RunKept(s, [], NoneYet(s), steps, r, fd, false);
  }

  // ------------------------------------------------- the flags of an open

  function FlagsOf(calls: seq<Call>): seq<Flags> { seq(|calls|, i requires 0 <= i < |calls| => calls[i].flags) }

  lemma FlagsGrow(o: Opens, calls: seq<Call>, calls': seq<Call>)
    requires FlagsKept(o, FlagsOf(calls)) && calls <= calls'
    ensures FlagsKept(o, FlagsOf(calls'))
  {
  }

  lemma StepFlags(s: State, g: seq<Stage>, o: Opens, step: Step)
    requires Inv(s, g) && Mirrors(s, o) && Partition(o) && Enabled(s, step) && !ClosesEarly(s, step)
    requires FlagsKept(o, FlagsOf(s.calls))
    ensures FlagsKept(Accounted(o, s, step), FlagsOf(Apply(s, step).calls))
  {
    var o' := Accounted(o, s, step);
    PartsApart(o);
    match step {
      case DispatchStep(e) => DispatchFlags(s, g, o, e);
      case DeviceStep(m, ok, channelOk) =>
        if OpeningAt(s, m) {
          FlightSlot(s, o, m);
          FinishFlags(o, ReqOf(s, m), ok, channelOk, FlagsOf(s.calls));
        }
      case _ =>
    }
    StepGrows(s, step);
    FlagsGrow(o', s.calls, Apply(s, step).calls);
  }

  lemma DispatchFlags(s: State, g: seq<Stage>, o: Opens, e: Env)
    requires Inv(s, g) && Mirrors(s, o) && Partition(o) && Enabled(s, DispatchStep(e))
    requires !ClosesEarly(s, DispatchStep(e)) && SlotsApart(o)
    requires FlagsKept(o, FlagsOf(s.calls))
    ensures FlagsKept(Accounted(o, s, DispatchStep(e)), FlagsOf(s.calls))
  {
    var msg := s.mem.msgs[s.mem.ring[0]];
    if msg.call.kind.Open? && e.found {
      FreshRequest(s, g, o);
      RingCall(s, g);
      BeginFlags(o, msg.req, msg.call.flags, e.submitOk, FlagsOf(s.calls));
    } else if msg.call.kind.Close? {
      NotPremature(s, o, e);
      ShutFlags(o, msg.call.fd, FlagsOf(s.calls));
    }
  }

  lemma RingCall(s: State, g: seq<Stage>)
    requires Inv(s, g) && s.mem.ring != [] && s.mem.ring[0] < |s.mem.msgs|
    ensures ReqOf(s, s.mem.ring[0]) < |s.calls| && s.calls[ReqOf(s, s.mem.ring[0])] == s.mem.msgs[s.mem.ring[0]].call
  {
    assert s.mem.ring[0] in s.mem.ring;
    OwnerOf(s, g, s.mem.ring[0]);
  }

  lemma {:induction false} RunFlags(s: State, g: seq<Stage>, o: Opens, steps: seq<Step>)
    requires Inv(s, g) && Mirrors(s, o) && Partition(o) && Run(s, steps) && CleanRun(s, steps)
    requires FlagsKept(o, FlagsOf(s.calls))
    ensures FlagsKept(Account(o, s, steps), FlagsOf(End(s, steps).calls))
    decreases |steps|
  {
    if steps != [] {
      StepFlags(s, g, o, steps[0]);
      StepMirrors(s, g, o, steps[0]);
      var g1 := StepKeeps(s, g, steps[0]);
      RunFlags(Apply(s, steps[0]), g1, Accounted(o, s, steps[0]), steps[1..]);
    }
  }

  /** In such a run the slot of every returned descriptor holds the flags of its own
      open, until a close of that number is dispatched: a read on it is refused
      exactly if that open had the write-only bit, and a write never is. */
  lemma FlagsInRuns(s: State, steps: seq<Step>, r: nat, fd: nat, c: Call, env: Env)
    requires Init(s) && Run(s, steps) && CleanRun(s, steps) && env.blockSize > 0
    requires SettledAs(End(s, steps), r, fd, true) && !ClosedSince(s, steps, r, fd, true)
    ensures var e := End(s, steps);
            && fd < |e.mem.table| && r < |e.calls| && e.mem.table[fd].flags == e.calls[r].flags
            && (c.fd == fd && IsReading(c.kind) ==>
                  (Handle(e.mem.table, c, env).verdict == Answer(INVALID) <==> e.calls[r].flags.bits & 1 != 0))
            && (c.fd == fd && IsIo(c.kind) && !IsReading(c.kind) ==>
                  Handle(e.mem.table, c, env).verdict != Answer(INVALID))
  {
    AccountFlags(s, steps);
    SettledSlots(s, steps, r, fd);
    ReadyAnswers(End(s, steps).mem.table, c, env, fd);
  }

  lemma AccountFlags(s: State, steps: seq<Step>)
    requires Init(s) && Run(s, steps) && CleanRun(s, steps)
    ensures var e, o := End(s, steps), Account(NoneYet(s), s, steps);
            && o.table == e.mem.table
            && forall fd | fd in o.owned ::
                 && o.owned[fd] < |e.calls| && fd < |e.mem.table|
                 && e.mem.table[fd].flags == e.calls[o.owned[fd]].flags
  {
    InitMirrors(s);
    RunFlags(s, [], NoneYet(s), steps);
    RunMirrors(s, [], NoneYet(s), steps);
  }

  lemma ReadyAnswers(t: Table, c: Call, env: Env, fd: nat)
    requires Ready(t, fd) && env.blockSize > 0
    ensures c.fd == fd && IsReading(c.kind) ==>
              (Handle(t, c, env).verdict == Answer(INVALID) <==> t[fd].flags.bits & 1 != 0)
    ensures c.fd == fd && IsIo(c.kind) && !IsReading(c.kind) ==> Handle(t, c, env).verdict != Answer(INVALID)
  {
    if IsIo(c.kind) {
      IoAnswers(t, c, env);
    }
  }

  /** In such a run a trim or write-zeros reaches the device layer with a null
      handle exactly when it names the slot of an open in flight or of one that
      failed. */
  lemma NullHandleInRuns(s: State, steps: seq<Step>, c: Call, env: Env)
    requires Init(s) && Run(s, steps) && CleanRun(s, steps) && env.blockSize > 0
    ensures var t, o := End(s, steps).mem.table, Account(NoneYet(s), s, steps);
            CallsDevice(t, c, env) && !t[c.fd].desc <==>
              (c.kind.Trim? || c.kind.WriteZeros?) && (c.fd in o.opening.Values || c.fd in o.leaked)
  {
    DescriptorsInRuns(s, steps);
    NullHandleIff(End(s, steps).mem.table, c, env);
    NoHandleIff(Account(NoneYet(s), s, steps), c.fd);
  }

  // ------------------------------------------------------- a caller's rule

  /** After the run, `fd` is a number that an open has got and that has not been
      closed since. */
  ghost predicate StillOpen(s: State, steps: seq<Step>, fd: int)
    requires Run(s, steps)
  {
    fd >= 0 && exists r :: SettledAs(End(s, steps), r, fd, true) && !ClosedSince(s, steps, r, fd, true)
  }

  /** Every close that is dispatched names such a number. */
  ghost predicate Polite(s: State, steps: seq<Step>) {
    forall i, fd | 0 <= i < |steps| && Run(s, steps[..i]) && ClosesSlot(End(s, steps[..i]), steps[i], fd) ::
      StillOpen(s, steps[..i], fd)
  }

  lemma {:induction false} RunFront(s: State, steps: seq<Step>, step: Step)
    requires Run(s, steps + [step])
    ensures Run(s, steps) && Enabled(End(s, steps), step)
    decreases |steps|
  {
    if steps != [] {
      assert (steps + [step])[1..] == steps[1..] + [step];
      RunFront(Apply(s, steps[0]), steps[1..], step);
    }
  }

  lemma {:induction false} CleanAppend(s: State, steps: seq<Step>, step: Step)
    requires Run(s, steps) && CleanRun(s, steps) && Run(s, steps + [step]) && !ClosesEarly(End(s, steps), step)
    ensures CleanRun(s, steps + [step])
    decreases |steps|
  {
    if steps != [] {
      assert (steps + [step])[1..] == steps[1..] + [step];
      CleanAppend(Apply(s, steps[0]), steps[1..], step);
    }
  }

  /** If every close names a descriptor that an open returned and that has not
      been closed since, then no close hits an open in flight, and all of the
      above holds. */
  lemma {:induction false} PoliteIsClean(s: State, steps: seq<Step>)
    requires Init(s) && Run(s, steps) && Polite(s, steps)
    ensures CleanRun(s, steps)
    decreases |steps|
  {
    if steps != [] {
      var n := |steps| - 1;
      var front, last := steps[..n], steps[n];
      assert steps == front + [last];
      RunFront(s, front, last);
      PoliteFront(s, steps);
      PoliteIsClean(s, front);
      PoliteStep(s, front, last, steps);
      CleanAppend(s, front, last);
    }
  }

  lemma PoliteFront(s: State, steps: seq<Step>)
    requires steps != [] && Polite(s, steps)
    ensures Polite(s, steps[..|steps| - 1])
  {
    var front := steps[..|steps| - 1];
    forall i, fd | 0 <= i < |front| && Run(s, front[..i]) && ClosesSlot(End(s, front[..i]), front[i], fd)
      ensures StillOpen(s, front[..i], fd)
    {
      assert front[..i] == steps[..i];
    }
  }

  lemma PoliteStep(s: State, front: seq<Step>, last: Step, steps: seq<Step>)
    requires Init(s) && Run(s, front) && CleanRun(s, front) && steps == front + [last] && Polite(s, steps)
    ensures !ClosesEarly(End(s, front), last)
  {
    var e, o := End(s, front), Account(NoneYet(s), s, front);
    if last.DispatchStep? && e.mem.ring != [] && e.mem.ring[0] < |e.mem.msgs|
       && e.mem.msgs[e.mem.ring[0]].call.kind.Close? {
      var fd := e.mem.msgs[e.mem.ring[0]].call.fd;
      assert steps[..|front|] == front && ClosesSlot(e, last, fd);
      assert StillOpen(s, front, fd);
      var r :| SettledAs(e, r, fd, true) && !ClosedSince(s, front, r, fd, true);
      SettledSlots(s, front, r, fd);
      DescriptorsInRuns(s, front);
      NotInFlight(e, o, fd);
    }
  }

  lemma NotInFlight(e: State, o: Opens, fd: nat)
    requires Mirrors(e, o) && Partition(o) && fd in o.owned
    ensures forall m: nat | OpeningAt(e, m) :: e.mem.msgs[m].resultFd != fd
  {
    forall m: nat | OpeningAt(e, m)
      ensures e.mem.msgs[m].resultFd != fd
    {
      FlightSlot(e, o, m);
    }
  }
}
