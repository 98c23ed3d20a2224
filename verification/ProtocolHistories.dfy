/** What happens to one request, from allocation to the end, in every run. */
module ProtocolHistories {
  import opened Codes
  import opened Descriptors
  import opened Messages
  import opened Protocol
  import opened ProtocolInvariant
  import opened ProtocolSteps
  import BlockIo
  import ProtocolResults

  // ------------------------------------------------------ complete histories

  /** Refused by a full ring: nothing was sent, the message went back. */
  function RefusedTrace(m: nat): seq<Event> { [EAlloc(m), EBusy, EFreed] }

  /** Asynchronous and taken by the device: the callback ran once, with the
      device's verdict, and then the message went back. */
  function CalledTrace(m: nat, ok: bool): seq<Event> {
    [EAlloc(m), ESent, ETaken(0), EDone(ok), ECallback(StatusOf(ok)), EFreed]
  }

  /** Asynchronous and answered by its handler: marked complete, and no more. */
  function StrandedTrace(m: nat, status: int): seq<Event> {
    [EAlloc(m), ESent, EAnswered(status, 0), EPublished(status, 0)]
  }

  /** Synchronous and taken by the device: the caller gets the device's verdict,
      or the byte count of this very request, or the slot that the handler of
      this very open claimed when it passed the request on. */
  function DeviceTrace(c: Call, m: nat, ok: bool, fd: int): seq<Event> {
    var bytes := if ok then Transferred(c) else 0;
    [EAlloc(m), ESent, ETaken(fd), EDone(ok), EPublished(StatusOf(ok), bytes),
     EResult(Value(c, StatusOf(ok), bytes, fd)), EFreed]
  }

  /** What the caller of an answered request gets: the answer, or the number of
      devices that a listing found. */
  function AnswerValue(c: Call, status: int, fd: int): int {
    if c.kind.ListBdevs? && status == SUCCESS then fd else status
  }

  /** Synchronous and answered by its handler. */
  function AnswerTrace(c: Call, m: nat, status: int, fd: int): seq<Event> {
    [EAlloc(m), ESent, EAnswered(status, fd), EPublished(status, 0), EResult(AnswerValue(c, status, fd)), EFreed]
  }

  /** A history so far, and a finished one. */
  ghost predicate SoFar(c: Call, t: seq<Event>) {
    || (exists m :: t <= RefusedTrace(m))
    || (c.async && exists m, ok :: t <= CalledTrace(m, ok))
    || (c.async && exists m, status :: t <= StrandedTrace(m, status))
    || (!c.async && exists m, ok, fd :: t <= DeviceTrace(c, m, ok, fd))
    || (!c.async && exists m, status, fd :: t <= AnswerTrace(c, m, status, fd))
  }

  ghost predicate Finished(c: Call, t: seq<Event>) {
    || (exists m :: t == RefusedTrace(m))
    || (c.async && exists m, ok :: t == CalledTrace(m, ok))
    || (c.async && exists m, status :: t == StrandedTrace(m, status))
    || (!c.async && exists m, ok, fd :: t == DeviceTrace(c, m, ok, fd))
    || (!c.async && exists m, status, fd :: t == AnswerTrace(c, m, status, fd))
  }

  lemma AsyncStage(c: Call, g: Stage)
    requires c.async && WellFormed(c) && Fits(c, g)
    ensures SoFar(c, TraceOf(c, g))
    ensures !Live(g) || g.SPublished? ==> Finished(c, TraceOf(c, g))
  {
    var t := TraceOf(c, g);
    match g
    case SHeld(m) => assert t <= RefusedTrace(m);
    case SBusy(m) => assert t <= RefusedTrace(m);
    case SGoneBusy(m) => assert t == RefusedTrace(m);
    case SQueued(m) => assert t <= CalledTrace(m, true);
    case SAtDevice(m, _) => assert t <= CalledTrace(m, true);
    case SCalled(m, ok) => assert t <= CalledTrace(m, ok);
    case SGoneCalled(m, ok) => assert t == CalledTrace(m, ok);
    case SAnswered(m, st, _) => assert t <= StrandedTrace(m, st);
    case SPublished(m, src) => assert t == StrandedTrace(m, src.status);
  }

  lemma SyncStage(c: Call, g: Stage)
    requires !c.async && Fits(c, g)
    ensures SoFar(c, TraceOf(c, g))
    ensures !Live(g) ==> Finished(c, TraceOf(c, g))
  {
    var t := TraceOf(c, g);
    match g
    case SHeld(m) => assert t <= RefusedTrace(m);
    case SBusy(m) => assert t <= RefusedTrace(m);
    case SGoneBusy(m) => assert t == RefusedTrace(m);
    case SQueued(m) => assert t <= DeviceTrace(c, m, true, 0);
    case SAtDevice(m, fd) => assert t <= DeviceTrace(c, m, true, fd);
    case SDone(m, ok, fd) => assert t <= DeviceTrace(c, m, ok, fd);
    case SAnswered(m, st, fd) => assert t <= AnswerTrace(c, m, st, fd);
    case _ => SourceStage(c, g);
  }

  lemma SourceStage(c: Call, g: Stage)
    requires !c.async && Fits(c, g) && (g.SPublished? || g.SResult? || g.SGone?)
    ensures SoFar(c, TraceOf(c, g))
    ensures !Live(g) ==> Finished(c, TraceOf(c, g))
  {
    match g.src
    case FromDevice(ok, fd) =>
      DeviceStage(c, g);
      assert TraceOf(c, g) <= DeviceTrace(c, g.m, ok, fd);
    case Direct(st, fd) =>
      AnswerStage(c, g);
      assert TraceOf(c, g) <= AnswerTrace(c, g.m, st, fd);
  }

  lemma DeviceStage(c: Call, g: Stage)
    requires (g.SPublished? || g.SResult? || g.SGone?) && g.src.FromDevice?
    ensures var t, full := TraceOf(c, g), DeviceTrace(c, g.m, g.src.ok, g.src.fd);
            t == full[..if g.SPublished? then 5 else if g.SResult? then 6 else 7]
  {
  }

  lemma AnswerStage(c: Call, g: Stage)
    requires Fits(c, g) && (g.SPublished? || g.SResult? || g.SGone?) && g.src.Direct?
    ensures var t, full := TraceOf(c, g), AnswerTrace(c, g.m, g.src.status, g.src.fd);
            t == full[..if g.SPublished? then 4 else if g.SResult? then 5 else 6]
  {
  }

  /** In every run, at every moment, the history of every request is the
      beginning of one of the five complete ones. In particular a callback runs
      at most once, with that request's own status, and before the message goes
      back; and a synchronous caller returns its own request's status and byte
      count. */
  lemma HistoriesSoFar(s: State, r: nat)
    requires Reachable(s) && r < |s.calls|
    ensures r < |s.hist| && SoFar(s.calls[r], s.hist[r])
  {
    var g := ReachableInv(s);
    if s.calls[r].async { AsyncStage(s.calls[r], g[r]); } else { SyncStage(s.calls[r], g[r]); }
  }

  /** What a call that a device has completed returns, told from the call and the
      events of its history alone. */
  ghost predicate DeviceResult(c: Call, t: seq<Event>, ok: bool, v: int) {
    if !ok then v == IO_ERROR
    else match c.kind
      case Open => ETaken(v) in t
      case Flush => v == 0
      case Read => v == c.count
      case Write => v == c.count
      case Readv => v == c.count
      case Writev => v == c.count
      case _ => false
  }

  /** What the events of a history say about each other. */
  ghost predicate ResultsMean(c: Call, t: seq<Event>) {
    && (forall v, ok | EResult(v) in t && EDone(ok) in t :: DeviceResult(c, t, ok, v))
    && (forall v, st, n | EResult(v) in t && EAnswered(st, n) in t ::
          v == if c.kind.ListBdevs? && st == 0 then n else st)
    && (forall v | EResult(v) in t ::
          (EDone(true) in t || EDone(false) in t) != (exists st, n :: EAnswered(st, n) in t))
    && (forall v | EResult(v) in t && GoesToDevice(c.kind) && v >= 0 :: EDone(true) in t)
    && (forall st | ECallback(st) in t :: (st == 0 && EDone(true) in t) || (st == IO_ERROR && EDone(false) in t))
  }

  /** In every run: a call whose device reported failure returns IO_ERROR; on
      success a read or write returns the count it asked for, a flush returns 0 and
      an open the slot that its own handler claimed; a call that was answered
      returns the answer, or the count of a listing; an open, read, write or flush
      returns something else than an error only if the device completed it with
      success; and a callback gets the device's verdict. */
  lemma CallResults(s: State, r: nat)
    requires Reachable(s) && r < |s.calls|
    ensures r < |s.hist| && ResultsMean(s.calls[r], s.hist[r])
  {
    var g := ReachableInv(s);
    StageResults(s.calls[r], g[r]);
  }

  lemma StageResults(c: Call, g: Stage)
    requires WellFormed(c) && Fits(c, g)
    ensures ResultsMean(c, TraceOf(c, g))
  {
    if g.SResult? || g.SGone? {
      if g.src.FromDevice? {
        DeviceStage(c, g);
        DeviceMeans(c, g.m, g.src.ok, g.src.fd, TraceOf(c, g));
      } else {
        AnswerStage(c, g);
        AnswerMeans(c, g.m, g.src.status, g.src.fd, TraceOf(c, g));
      }
    } else if g.SCalled? || g.SGoneCalled? {
      CallbackMeans(c, g.m, g.ok, TraceOf(c, g));
    } else {
      NoResultYet(c, g);
    }
  }

  lemma NoResultYet(c: Call, g: Stage)
    requires !g.SResult? && !g.SGone? && !g.SCalled? && !g.SGoneCalled?
    ensures forall e | e in TraceOf(c, g) :: !e.EResult? && !e.ECallback?
  {
  }

  lemma DeviceMeans(c: Call, m: nat, ok: bool, fd: int, t: seq<Event>)
    requires SourceFits(c, FromDevice(ok, fd)) && t <= DeviceTrace(c, m, ok, fd) && |t| >= 6
    ensures ResultsMean(c, t)
  {
    assert t[2] == ETaken(fd) && t[3] == EDone(ok) && t[5].EResult?;
    assert t[..6] == DeviceTrace(c, m, ok, fd)[..6];
  }

  lemma AnswerMeans(c: Call, m: nat, st: int, fd: int, t: seq<Event>)
    requires SourceFits(c, Direct(st, fd)) && t <= AnswerTrace(c, m, st, fd) && |t| >= 5
    ensures ResultsMean(c, t)
  {
    assert t[2] == EAnswered(st, fd) && t[4].EResult?;
  }

  lemma CallbackMeans(c: Call, m: nat, ok: bool, t: seq<Event>)
    requires t <= CalledTrace(m, ok) && |t| >= 5
    ensures ResultsMean(c, t)
  {
    assert t[3] == EDone(ok) && t[4].ECallback?;
  }

  /** The outcome `o` of a handler that moves bytes is what the call returned. */
  ghost predicate Reports(o: BlockIo.Outcome, ok: bool, v: int) {
    o.Overrun? || if ok then o.Done? && o.bytes == v else o == BlockIo.Failed(v)
  }

  /** A read or write that a device has completed returns what the handler that
      moves its bytes reports, for every device on which that one's request is
      taken. */
  lemma ReturnsWhatIoReports(s: State, r: nat, v: int, ok: bool,
                             slot: Slot, numBlocks: nat, bs: nat, offset: nat, io: BlockIo.Env)
    requires Reachable(s) && r < |s.calls| && r < |s.hist| && EDone(ok) in s.hist[r] && EResult(v) in s.hist[r]
    requires IsIo(s.calls[r].kind) && bs > 0 && io.deviceOk == ok
    ensures var c := s.calls[r];
            && (IsReading(c.kind) && BlockIo.TakesRead(slot, numBlocks, bs, c.addr, c.count, offset, io) ==>
                  Reports(BlockIo.FlagOutcome(slot, numBlocks, bs, c.addr, c.count, offset, io), ok, v))
            && (!IsReading(c.kind) && BlockIo.TakesWrite(slot, numBlocks, bs, c.count, offset, io) ==>
                  Reports(BlockIo.WriteOutcome(slot, numBlocks, bs, c.count, offset, io), ok, v))
  {
    CallResults(s, r);
    assert DeviceResult(s.calls[r], s.hist[r], ok, v);
  }

  /** The dispatcher has no case for a batch submission: in every run such a
      message is either refused by a full ring or answered INVALID and then
      stranded; it never reaches a device and nobody is called back. */
  lemma BatchSubmitStrands(s: State, r: nat)
    requires Reachable(s) && r < |s.calls| && s.calls[r].kind.BatchSubmit?
    ensures r < |s.hist| && exists m :: s.hist[r] <= RefusedTrace(m) || s.hist[r] <= StrandedTrace(m, INVALID)
  {
    var g := ReachableInv(s);
    BatchStage(s.calls[r], g[r]);
  }

  lemma BatchStage(c: Call, g: Stage)
    requires c.kind.BatchSubmit? && WellFormed(c) && Fits(c, g)
    ensures exists m :: TraceOf(c, g) <= RefusedTrace(m) || TraceOf(c, g) <= StrandedTrace(m, INVALID)
  {
    var m, t := g.m, TraceOf(c, g);
    match g
    case SHeld(_) => assert t <= RefusedTrace(m);
    case SBusy(_) => assert t <= RefusedTrace(m);
    case SGoneBusy(_) => assert t <= RefusedTrace(m);
    case SQueued(_) => assert t <= StrandedTrace(m, INVALID);
    case SAnswered(_, _, _) => assert t <= StrandedTrace(m, INVALID);
    case SPublished(_, _) => assert t <= StrandedTrace(m, INVALID);
  }

  /** A message is stranded exactly when its request was asynchronous and a
      handler answered it instead of passing it to a device. */
  lemma StrandedIffAnswered(s: State, m: nat)
    requires Reachable(s) && m < |s.mem.msgs| && m !in s.mem.pool
    ensures ReqOf(s, m) < |s.hist|
    ensures ProtocolResults.Stranded(s, m) <==>
              s.mem.msgs[m].call.async && s.hist[ReqOf(s, m)] == StrandedTrace(m, s.mem.msgs[m].status)
  {
    var g := ReachableInv(s);
    OwnerOf(s, g, m);
    ProtocolResults.PlaceOf(s, g, m);
    if s.mem.msgs[m].call.async {
      StrandedStage(s.calls[ReqOf(s, m)], g[ReqOf(s, m)], s.mem.msgs[m].status);
    }
  }

  lemma StrandedStage(c: Call, g: Stage, status: int)
    requires c.async && WellFormed(c) && Live(g) && Fits(c, g) && (g.SPublished? ==> SourceStatus(g.src) == status)
    ensures TraceOf(c, g) == StrandedTrace(g.m, status) <==> g.SPublished?
  {
    if TraceOf(c, g) == StrandedTrace(g.m, status) {
      assert |TraceOf(c, g)| == 4 && TraceOf(c, g)[3].EPublished?;
    }
  }

  /** No request is under way: ring and SPDK thread empty, no client in a call. */
  ghost predicate AtRest(s: State) {
    s.mem.ring == [] && s.mem.spdk == map[] && forall c | c in s.clients :: s.clients[c].Idle?
  }

  /** Once no request is under way every request's history is complete: each
      request the device took was called back or returned exactly once, and the
      only ones whose message did not go back are the asynchronous ones that a
      handler answered. */
  lemma QuiescentHistories(s: State, r: nat)
    requires Reachable(s) && AtRest(s) && r < |s.calls|
    ensures r < |s.hist| && Finished(s.calls[r], s.hist[r])
  {
    var g := ReachableInv(s);
    if Live(g[r]) {
      assert RequestOk(s, s.calls[r], r, g[r]);
      assert ClientOf(s, s.calls[r].client).Idle?;
    }
    if s.calls[r].async { AsyncStage(s.calls[r], g[r]); } else { SyncStage(s.calls[r], g[r]); }
  }

  /** From the setting of the flag until the synchronous caller puts the message
      back, no step of anyone else changes the message, takes it or
      sends it anywhere. */
  lemma PublishedIsStable(s: State, step: Step, c: nat)
    requires Reachable(s) && Enabled(s, step)
    requires c in s.clients && InCall(s.clients[c])
    requires s.clients[c].m < |s.mem.msgs| && s.mem.msgs[s.clients[c].m].completed
    requires !StepOf(step, c)
    ensures var m, s' := s.clients[c].m, Apply(s, step);
            && |s'.mem.msgs| == |s.mem.msgs| && s'.mem.msgs[m] == s.mem.msgs[m]
            && c in s'.clients && s'.clients[c] == s.clients[c]
            && m !in s'.mem.pool && m !in s'.mem.ring && m !in s'.mem.spdk
  {
    var g := ReachableInv(s);
    CallerOf(s, g, c);
    var g' := StepKeeps(s, g, step);
    Untouched(s, step, c);
    CallerOf(Apply(s, step), g', c);
  }

  /** The caller has sent its message and not yet put it back. */
  predicate InCall(pc: Client) { pc.Waiting? || pc.Seen? || pc.Releasing? }

  /** The caller's own next steps. */
  predicate StepOf(step: Step, c: nat) { step in {ObserveStep(c), ResultStep(c), ReleaseStep(c)} }

  /** Message and caller as they are in a call that has not yet returned. */
  ghost predicate Same(s: State, s': State, c: nat) {
    && c in s.clients && !s.clients[c].Idle? && s.clients[c].m < |s.mem.msgs| == |s'.mem.msgs|
    && s'.mem.msgs[s.clients[c].m] == s.mem.msgs[s.clients[c].m]
    && c in s'.clients && s'.clients[c] == s.clients[c]
  }

  lemma UntouchedByDispatch(s: State, e: Env, c: nat)
    requires Enabled(s, DispatchStep(e)) && c in s.clients && !s.clients[c].Idle?
    requires s.clients[c].m < |s.mem.msgs| && s.clients[c].m !in s.mem.ring
    ensures Same(s, Apply(s, DispatchStep(e)), c)
  {
    TakeIsTakenMem(s.mem, e);
    assert s.mem.ring[0] in s.mem.ring;
  }

  lemma Untouched(s: State, step: Step, c: nat)
    requires Enabled(s, step) && c in s.clients && InCall(s.clients[c])
    requires var m := s.clients[c].m;
             m < |s.mem.msgs| && m !in s.mem.pool && m !in s.mem.ring && m !in s.mem.spdk
    requires !StepOf(step, c)
    ensures Same(s, Apply(s, step), c)
  {
    match step {
      case DispatchStep(e) => UntouchedByDispatch(s, e, c);
      case AllocStep(_, m, _) => assert m != s.clients[c].m;
      case MarkStep(m) => assert m != s.clients[c].m;
      case DeviceStep(m, _, _) => assert m != s.clients[c].m;
      case BytesStep(m) => assert m != s.clients[c].m;
      case PublishStep(m) => assert m != s.clients[c].m;
      case _ => assert Apply(s, step).mem.msgs == s.mem.msgs;
    }
  }
}
