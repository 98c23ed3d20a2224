/** Every step of the message protocol keeps the invariant, and so does every
    run. */
module ProtocolSteps {
  import opened Codes
  import opened Descriptors
  import opened Messages
  import opened Protocol
  import opened ProtocolInvariant

  /** A client is not affected when its request moves on in the SPDK thread. */
  lemma ClientStays(s: State, g: seq<Stage>, r: nat, st: Stage)
    requires Inv(s, g) && r < |g| && (AtSpdk(g[r]) || g[r].SQueued?) && Live(st) && st.m == g[r].m
    ensures ClientOk(s.calls, g[r := st], s.calls[r].client, ClientOf(s, s.calls[r].client))
  {
    var c := s.calls[r].client;
    if c in s.clients {
      assert ClientOk(s.calls, g, c, s.clients[c]);
    }
  }

  /** The completion flag is set on a message whose fields are final. */
  lemma Completes(s: State, s': State, g: seq<Stage>, m: nat, src: Source)
    requires Inv(s, g) && m in s.mem.spdk && InRange(s, m) && ReqOf(s, m) < |g|
    requires s'.mem == Mark(s.mem, m)
    requires s'.clients == s.clients && s'.calls == s.calls && s'.sent == s.sent && s'.polled == s.polled
    requires var msg := s.mem.msgs[m];
             && msg.status == SourceStatus(src) && msg.bytes == SourceBytes(msg.call, src)
             && msg.resultFd == src.fd
             && s'.hist == s.hist[msg.req := s.hist[msg.req] + [EPublished(msg.status, msg.bytes)]]
             && TraceOf(msg.call, g[msg.req]) == TSource(m, src)
             && Fits(msg.call, SPublished(m, src))
    ensures Inv(s', g[ReqOf(s, m) := SPublished(m, src)])
  {
    OwnerOf(s, g, m);
    var r := ReqOf(s, m);
    ClientStays(s, g, r, SPublished(m, src));
    MarksQuietly(s.mem, m);
    MarkedRequest(s, s', g, m, src);
    Quiet(s, s', g, r, SPublished(m, src));
  }

  lemma MarksQuietly(a: Mem, m: nat)
    requires m < |a.msgs|
    ensures QuietMem(a, Mark(a, m), m)
  {
  }

  /** The request of a message that has just been marked complete. */
  lemma MarkedRequest(s: State, s': State, g: seq<Stage>, m: nat, src: Source)
    requires Inv(s, g) && m in s.mem.spdk && InRange(s, m) && ReqOf(s, m) < |g|
    requires s'.mem == Mark(s.mem, m) && s'.clients == s.clients
    requires var msg := s.mem.msgs[m];
             && msg.status == SourceStatus(src) && msg.bytes == SourceBytes(msg.call, src)
             && msg.resultFd == src.fd
    ensures RequestOk(s', s.calls[ReqOf(s, m)], ReqOf(s, m), SPublished(m, src))
  {
    OwnerOf(s, g, m);
  }

  lemma MarkKeeps(s: State, g: seq<Stage>, m: nat) returns (g': seq<Stage>)
    requires Inv(s, g) && Enabled(s, MarkStep(m))
    ensures Inv(Apply(s, MarkStep(m)), g')
  {
    OwnerOf(s, g, m);
    var r := ReqOf(s, m);
    var src := if g[r].SDone? then FromDevice(g[r].ok, g[r].fd) else Direct(g[r].status, g[r].fd);
    g' := g[r := SPublished(m, src)];
    Completes(s, Mark1(s, m), g, m, src);
  }

  lemma PublishKeeps(s: State, g: seq<Stage>, m: nat)
    requires Inv(s, g) && Enabled(s, PublishStep(m))
    ensures Inv(Apply(s, PublishStep(m)),
                g[ReqOf(s, m) := SPublished(m, FromDevice(s.mem.spdk[m].ok, s.mem.msgs[m].resultFd))])
  {
    OwnerOf(s, g, m);
    Completes(s, Publish1(s, m), g, m, FromDevice(s.mem.spdk[m].ok, s.mem.msgs[m].resultFd));
  }

  /** Writing one message and its phase leaves pool and ring alone. */
  lemma WritesQuietly(a: Mem, b: Mem, m: nat, msg: Msg, p: Phase)
    requires m < |a.msgs| && m in a.spdk && msg.req == a.msgs[m].req
    requires b.msgs == a.msgs[m := msg] && b.spdk == a.spdk[m := p] && b.ring == a.ring && b.pool == a.pool
    ensures QuietMem(a, b, m)
  {
  }

  /** A message stays in the SPDK thread's hands and its request moves on: what
      the code wrote to the message and its phase has to fit the new stage. */
  lemma MovesOn(s: State, s': State, g: seq<Stage>, m: nat, msg: Msg, p: Phase, st: Stage, es: seq<Event>)
    requires Inv(s, g) && m in s.mem.spdk && InRange(s, m) && ReqOf(s, m) < |g|
    requires msg.req == s.mem.msgs[m].req && msg.call == s.mem.msgs[m].call
    requires s'.mem.msgs == s.mem.msgs[m := msg] && s'.mem.spdk == s.mem.spdk[m := p]
    requires s'.mem.ring == s.mem.ring && s'.mem.pool == s.mem.pool
    requires s'.clients == s.clients && s'.calls == s.calls && s'.sent == s.sent && s'.polled == s.polled
    requires s'.hist == s.hist[msg.req := s.hist[msg.req] + es]
    requires AtSpdk(st) && st.m == m && Fields(msg, st) && PhaseFits(msg, p, st) && Fits(msg.call, st)
    requires TraceOf(msg.call, st) == TraceOf(msg.call, g[msg.req]) + es
    ensures Inv(s', g[ReqOf(s, m) := st])
  {
    OwnerOf(s, g, m);
    var r := ReqOf(s, m);
    WritesQuietly(s.mem, s'.mem, m, msg, p);
    ClientStays(s, g, r, st);
    Quiet(s, s', g, r, st);
  }

  lemma DeviceAsync(s: State, g: seq<Stage>, m: nat, ok: bool, channelOk: bool)
    requires Inv(s, g) && Enabled(s, DeviceStep(m, ok, channelOk)) && s.mem.msgs[m].call.async
    ensures Inv(Device1(s, m, ok, channelOk), g[ReqOf(s, m) := SCalled(m, ok)])
  {
    OwnerOf(s, g, m);
    var msg := s.mem.msgs[m];
    AsyncCall(msg.call, ok, channelOk);
    assert s.mem.msgs[m := msg] == s.mem.msgs;
    MovesOn(s, Device1(s, m, ok, channelOk), g, m, msg, CalledBack(ok), SCalled(m, ok),
            [EDone(ok), ECallback(StatusOf(ok))]);
  }

  lemma AsyncCall(c: Call, ok: bool, channelOk: bool)
    requires c.async && WellFormed(c)
    ensures !c.kind.Open? && Succeeds(c, ok, channelOk) == ok
  {
  }

  lemma DeviceSync(s: State, g: seq<Stage>, m: nat, deviceOk: bool, channelOk: bool)
    requires Inv(s, g) && Enabled(s, DeviceStep(m, deviceOk, channelOk)) && !s.mem.msgs[m].call.async
    ensures Inv(Device1(s, m, deviceOk, channelOk),
                g[ReqOf(s, m) := SDone(m, Succeeds(s.mem.msgs[m].call, deviceOk, channelOk), s.mem.msgs[m].resultFd)])
  {
    OwnerOf(s, g, m);
    var s', ok := Device1(s, m, deviceOk, channelOk), Succeeds(s.mem.msgs[m].call, deviceOk, channelOk);
    MovesOn(s, s', g, m, s.mem.msgs[m].(status := StatusOf(ok)), s'.mem.spdk[m],
            SDone(m, ok, s.mem.msgs[m].resultFd), [EDone(ok)]);
  }

  lemma DeviceKeeps(s: State, g: seq<Stage>, m: nat, ok: bool, channelOk: bool) returns (g': seq<Stage>)
    requires Inv(s, g) && Enabled(s, DeviceStep(m, ok, channelOk))
    ensures Inv(Apply(s, DeviceStep(m, ok, channelOk)), g')
  {
    OwnerOf(s, g, m);
    var msg := s.mem.msgs[m];
    if msg.call.async {
      DeviceAsync(s, g, m, ok, channelOk);
      g' := g[msg.req := SCalled(m, ok)];
    } else {
      DeviceSync(s, g, m, ok, channelOk);
      g' := g[msg.req := SDone(m, Succeeds(msg.call, ok, channelOk), msg.resultFd)];
    }
  }

  lemma BytesKeeps(s: State, g: seq<Stage>, m: nat)
    requires Inv(s, g) && Enabled(s, BytesStep(m))
    ensures Inv(Apply(s, BytesStep(m)), g)
  {
    OwnerOf(s, g, m);
    var s', r := Bytes1(s, m), ReqOf(s, m);
    assert s.hist[r] + [] == s.hist[r];
    assert g[r := g[r]] == g && s.hist[r := s.hist[r]] == s.hist;
    assert TraceOf(s.calls[r], g[r]) + [] == TraceOf(s.calls[r], g[r]);
    MovesOn(s, s', g, m, s'.mem.msgs[m], s'.mem.spdk[m], g[r], []);
  }

  lemma ResultKeeps(s: State, g: seq<Stage>, c: nat)
    requires Inv(s, g) && Enabled(s, ResultStep(c))
    ensures var pc := ClientOf(s, c);
            && pc.r < |g| && g[pc.r].SPublished?
            && Inv(Apply(s, ResultStep(c)), g[pc.r := SResult(pc.m, g[pc.r].src)])
  {
    CallerOf(s, g, c);
    var pc := ClientOf(s, c);
    Quiet(s, Result1(s, c), g, pc.r, SResult(pc.m, g[pc.r].src));
  }

  lemma ObserveKeeps(s: State, g: seq<Stage>, c: nat)
    requires Inv(s, g) && Enabled(s, ObserveStep(c))
    ensures Inv(Apply(s, ObserveStep(c)), g)
  {
    CallerOf(s, g, c);
    var r := ClientOf(s, c).r;
    assert g[r := g[r]] == g && s.hist[r := s.hist[r]] == s.hist;
    Quiet(s, Apply(s, ObserveStep(c)), g, r, g[r]);
  }

  /** After the callback no client is in the request's call any more. */
  lemma CallerAway(s: State, g: seq<Stage>, r: nat, st: Stage)
    requires Inv(s, g) && r < |g| && g[r].SCalled?
    ensures ClientOk(s.calls, g[r := st], s.calls[r].client, ClientOf(s, s.calls[r].client))
  {
    var c := s.calls[r].client;
    if c in s.clients {
      assert ClientOk(s.calls, g, c, s.clients[c]);
    }
  }

  lemma AsyncFreeKeeps(s: State, g: seq<Stage>, m: nat)
    requires Inv(s, g) && Enabled(s, AsyncFreeStep(m))
    ensures Inv(Apply(s, AsyncFreeStep(m)), g[ReqOf(s, m) := SGoneCalled(m, s.mem.spdk[m].ok)])
  {
    OwnerOf(s, g, m);
    var r, st, s' := ReqOf(s, m), SGoneCalled(m, s.mem.spdk[m].ok), AsyncFree1(s, m);
    CallerAway(s, g, r, st);
    assert FreeingMem(s.mem, s'.mem, m);
    Freeing(s, s', g, r, st);
  }

  lemma ReleaseKeeps(s: State, g: seq<Stage>, c: nat)
    requires Inv(s, g) && Enabled(s, ReleaseStep(c))
    ensures var pc := ClientOf(s, c);
            && pc.r < |g| && (g[pc.r].SBusy? || g[pc.r].SResult?)
            && Inv(Apply(s, ReleaseStep(c)),
                   g[pc.r := if g[pc.r].SBusy? then SGoneBusy(pc.m) else SGone(pc.m, g[pc.r].src)])
  {
    CallerOf(s, g, c);
    var pc := ClientOf(s, c);
    assert s.mem.spdk - {pc.m} == s.mem.spdk;
    Freeing(s, Release1(s, c), g, pc.r,
            if g[pc.r].SBusy? then SGoneBusy(pc.m) else SGone(pc.m, g[pc.r].src));
  }

  // ------------------------------------------------------- ring and pool

  lemma EnqueueFrame(s: State, s': State, m: nat, r: nat)
    requires PoolApart(s) && Fifo(s) && m < |s.mem.msgs| && m !in s.mem.pool && m !in s.mem.ring
    requires s'.mem == Enqueue(s.mem, m) && s'.sent == s.sent + [r] && s'.polled == s.polled
    requires s.mem.msgs[m].req == r
    ensures PoolApart(s') && Fifo(s') && SameMessages(s, s', m)
  {
    assert s'.mem.ring[|s.mem.ring|] == m;
    assert forall k | k in s'.mem.ring :: k == m || k in s.mem.ring;
    assert forall k | k in s.mem.ring :: k in s'.mem.ring;
  }

  lemma SendKeeps(s: State, g: seq<Stage>, c: nat)
    requires Inv(s, g) && Enabled(s, SendStep(c))
    ensures var pc := ClientOf(s, c);
            && pc.r < |g|
            && Inv(Apply(s, SendStep(c)), g[pc.r := if HasRoom(s.mem) then SQueued(pc.m) else SBusy(pc.m)])
  {
    CallerOf(s, g, c);
    var pc := ClientOf(s, c);
    if HasRoom(s.mem) {
      SendQueues(s, g, c);
    } else {
      Quiet(s, Send1(s, c), g, pc.r, SBusy(pc.m));
    }
  }

  lemma SendQueues(s: State, g: seq<Stage>, c: nat)
    requires Inv(s, g) && Enabled(s, SendStep(c)) && HasRoom(s.mem) && ClientOf(s, c).r < |g|
    ensures Inv(Send1(s, c), g[ClientOf(s, c).r := SQueued(ClientOf(s, c).m)])
  {
    CallerOf(s, g, c);
    var pc := ClientOf(s, c);
    var s' := Send1(s, c);
    EnqueueFrame(s, s', pc.m, pc.r);
    MovesFrame(s, s', c, pc.r);
    assert pc.m in s'.mem.ring by { assert s'.mem.ring[|s.mem.ring|] == pc.m; }
    Advance(s, s', g, pc.r, SQueued(pc.m));
  }

  /** Taking the oldest message off the ring changes nothing but that message,
      which passes into the SPDK thread's hands with its request. */
  ghost predicate TakenMem(a: Mem, b: Mem)
    requires a.ring != [] && a.ring[0] < |a.msgs|
  {
    var m := a.ring[0];
    && b.ring == a.ring[1..] && b.pool == a.pool
    && |b.msgs| == |a.msgs| && b.msgs == a.msgs[m := b.msgs[m]]
    && b.msgs[m] == a.msgs[m].(status := b.msgs[m].status, resultFd := b.msgs[m].resultFd)
    && m in b.spdk && b.spdk == a.spdk[m := b.spdk[m]]
    && (b.spdk[m].Marking? || (b.spdk[m].AtDevice? && (b.spdk[m].bounced ==> IsReading(a.msgs[m].call.kind))))
    && SlotFits(a.msgs[m].call, b.msgs[m].resultFd)
    && (b.spdk[m].Marking? ==> AnswerFits(a.msgs[m].call, b.msgs[m].status))
    && (b.spdk[m].AtDevice? ==> GoesToDevice(a.msgs[m].call.kind))
  }

  lemma TakeIsTakenMem(a: Mem, e: Env)
    requires a.ring != [] && a.ring[0] < |a.msgs| && e.blockSize > 0
    ensures TakenMem(a, Take(a, e))
  {
  }

  lemma TakenMessages(s: State, s': State)
    requires PoolApart(s) && s.mem.ring != [] && s.mem.ring[0] < |s.mem.msgs| && TakenMem(s.mem, s'.mem)
    ensures PoolApart(s') && SameMessages(s, s', s.mem.ring[0]) && s.mem.ring[0] !in s'.mem.ring
  {
    assert s.mem.ring == [s.mem.ring[0]] + s'.mem.ring;
  }

  lemma TakenFifo(s: State, s': State)
    requires Fifo(s) && s.mem.ring != [] && s.mem.ring[0] < |s.mem.msgs| && TakenMem(s.mem, s'.mem)
    requires s'.sent == s.sent && s'.polled == s.polled + [ReqOf(s, s.mem.ring[0])]
    ensures Fifo(s')
  {
    assert s.sent[|s.polled|] == ReqOf(s, s.mem.ring[0]);
    assert s'.polled == s.sent[..|s.polled| + 1];
    forall i | 0 <= i < |s'.mem.ring|
      ensures s'.mem.ring[i] < |s'.mem.msgs| && s'.sent[|s'.polled| + i] == s'.mem.msgs[s'.mem.ring[i]].req
    {
      assert s'.mem.ring[i] == s.mem.ring[i + 1];
    }
  }

  function StageTaken(mem: Mem, m: nat): Stage
    requires m < |mem.msgs| && m in mem.spdk
  {
    if mem.spdk[m].Marking? then SAnswered(m, mem.msgs[m].status, mem.msgs[m].resultFd)
    else SAtDevice(m, mem.msgs[m].resultFd)
  }

  function EventTaken(mem: Mem, m: nat): Event
    requires m < |mem.msgs| && m in mem.spdk
  {
    if mem.spdk[m].Marking? then EAnswered(mem.msgs[m].status, mem.msgs[m].resultFd) else ETaken(mem.msgs[m].resultFd)
  }

  lemma TakenKeeps(s: State, s': State, g: seq<Stage>)
    requires Inv(s, g) && s.mem.ring != [] && InRange(s, s.mem.ring[0]) && TakenMem(s.mem, s'.mem)
    requires var m := s.mem.ring[0];
             && s'.clients == s.clients && s'.calls == s.calls && s'.sent == s.sent
             && s'.polled == s.polled + [ReqOf(s, m)]
             && s'.hist == s.hist[ReqOf(s, m) := s.hist[ReqOf(s, m)] + [EventTaken(s'.mem, m)]]
    ensures Inv(s', g[ReqOf(s, s.mem.ring[0]) := StageTaken(s'.mem, s.mem.ring[0])])
  {
    var m := s.mem.ring[0];
    OwnerOf(s, g, m);
    var r, st := ReqOf(s, m), StageTaken(s'.mem, m);
    TakenMessages(s, s');
    TakenFifo(s, s');
    ClientStays(s, g, r, st);
    Advance(s, s', g, r, st);
  }

  lemma DispatchKeeps(s: State, g: seq<Stage>, e: Env) returns (g': seq<Stage>)
    requires Inv(s, g) && Enabled(s, DispatchStep(e))
    ensures Inv(Apply(s, DispatchStep(e)), g')
  {
    var m := s.mem.ring[0];
    var s' := Dispatch1(s, e);
    TakeIsTakenMem(s.mem, e);
    TakenKeeps(s, s', g);
    g' := g[ReqOf(s, m) := StageTaken(s'.mem, m)];
  }

  // --------------------------------------------------------- allocation

  lemma AllocFrame(s: State, s': State, m: nat)
    requires PoolApart(s) && Fifo(s) && m in s.mem.pool && m < |s.mem.msgs|
    requires s'.mem.ring == s.mem.ring && s'.mem.spdk == s.mem.spdk && s'.mem.pool == s.mem.pool - multiset{m}
    requires |s'.mem.msgs| == |s.mem.msgs| && s'.mem.msgs == s.mem.msgs[m := s'.mem.msgs[m]]
    requires s'.sent == s.sent && s'.polled == s.polled
    ensures PoolApart(s') && Fifo(s') && SameMessages(s, s', m)
    ensures m !in s'.mem.pool && m !in s'.mem.ring && m !in s'.mem.spdk
  {
  }

  lemma AllocRequests(s: State, g: seq<Stage>, c: nat, m: nat, call: Call)
    requires Inv(s, g) && Enabled(s, AllocStep(c, m, call))
    ensures Requests(Alloc1(s, c, m, call), g + [SHeld(m)])
  {
    var s', g' := Alloc1(s, c, m, call), g + [SHeld(m)];
    AllocFrame(s, s', m);
    forall r | 0 <= r < |g'| && Live(g'[r])
      ensures RequestOk(s', s'.calls[r], r, g'[r])
    {
      if r < |g| {
        AllocOther(s, s', g, c, m, r);
      }
    }
  }

  lemma AllocOther(s: State, s': State, g: seq<Stage>, c: nat, m: nat, r: nat)
    requires Inv(s, g) && r < |g| && Live(g[r]) && m in s.mem.pool && SameMessages(s, s', m)
    requires ClientOf(s, c).Idle? && c in s'.clients && s'.clients == s.clients[c := s'.clients[c]]
    ensures RequestOk(s', s.calls[r], r, g[r])
  {
    assert RequestOk(s, s.calls[r], r, g[r]);
    assert g[r].m != m;
    assert ClientFits(s.calls[r], ClientOf(s', s.calls[r].client), r, g[r]);
  }

  lemma AllocKeeps(s: State, g: seq<Stage>, c: nat, m: nat, call: Call)
    requires Inv(s, g) && Enabled(s, AllocStep(c, m, call))
    ensures Inv(Apply(s, AllocStep(c, m, call)), g + [SHeld(m)])
  {
    var s', g' := Alloc1(s, c, m, call), g + [SHeld(m)];
    AllocFrame(s, s', m);
    AllocRequests(s, g, c, m, call);
    assert Owned(s', g');
    forall d | d in s'.clients
      ensures ClientOk(s'.calls, g', d, s'.clients[d])
    {
      if d != c {
        assert ClientOk(s.calls, g, d, s.clients[d]);
      }
    }
  }

  lemma TailKeeps(s: State, g: seq<Stage>, i: nat)
    requires Inv(s, g) && Enabled(s, TailStep(i))
    ensures Inv(Apply(s, TailStep(i)), g)
  {
    var s' := Tail1(s, i);
    forall r | 0 <= r < |g| && Live(g[r])
      ensures RequestOk(s', s'.calls[r], r, g[r])
    {
      assert RequestOk(s, s.calls[r], r, g[r]);
    }
  }

  // --------------------------------------------------------------- runs

  lemma StepKeeps(s: State, g: seq<Stage>, step: Step) returns (g': seq<Stage>)
    requires Inv(s, g) && Enabled(s, step)
    ensures Inv(Apply(s, step), g')
  {
    match step {
      case AllocStep(c, m, call) => AllocKeeps(s, g, c, m, call); g' := g + [SHeld(m)];
      case AllocFails(_) => g' := g;
      case SendStep(c) =>
        SendKeeps(s, g, c);
        var pc := ClientOf(s, c);
        g' := g[pc.r := if HasRoom(s.mem) then SQueued(pc.m) else SBusy(pc.m)];
      case DispatchStep(e) => g' := DispatchKeeps(s, g, e);
      case MarkStep(m) => g' := MarkKeeps(s, g, m);
      case DeviceStep(m, ok, channelOk) => g' := DeviceKeeps(s, g, m, ok, channelOk);
      case BytesStep(m) => BytesKeeps(s, g, m); g' := g;
      case PublishStep(m) =>
        OwnerOf(s, g, m);
        PublishKeeps(s, g, m);
        g' := g[ReqOf(s, m) := SPublished(m, FromDevice(s.mem.spdk[m].ok, s.mem.msgs[m].resultFd))];
      case AsyncFreeStep(m) =>
        OwnerOf(s, g, m);
        AsyncFreeKeeps(s, g, m);
        g' := g[ReqOf(s, m) := SGoneCalled(m, s.mem.spdk[m].ok)];
      case ObserveStep(c) => ObserveKeeps(s, g, c); g' := g;
      case ResultStep(c) =>
        ResultKeeps(s, g, c);
        var pc := ClientOf(s, c);
        g' := g[pc.r := SResult(pc.m, g[pc.r].src)];
      case ReleaseStep(c) =>
        ReleaseKeeps(s, g, c);
        var pc := ClientOf(s, c);
        g' := g[pc.r := if g[pc.r].SBusy? then SGoneBusy(pc.m) else SGone(pc.m, g[pc.r].src)];
      case TailStep(i) => TailKeeps(s, g, i); g' := g;
    }
  }

  lemma {:induction false} RunKeeps(s: State, g: seq<Stage>, steps: seq<Step>) returns (g': seq<Stage>)
    requires Inv(s, g) && Run(s, steps)
    ensures Inv(End(s, steps), g')
    decreases |steps|
  {
    if steps == [] {
      g' := g;
    } else {
      var g1 := StepKeeps(s, g, steps[0]);
      g' := RunKeeps(Apply(s, steps[0]), g1, steps[1..]);
    }
  }

  /** Every reachable state satisfies the invariant. */
  lemma ReachableInv(s: State) returns (g: seq<Stage>)
    requires Reachable(s)
    ensures Inv(s, g)
  {
    var s0, steps :| Init(s0) && Run(s0, steps) && End(s0, steps) == s;
    InitInv(s0);
    g := RunKeeps(s0, [], steps);
  }
}
