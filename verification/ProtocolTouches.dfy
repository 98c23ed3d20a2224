/** Who can still read a message after its completion flag is set. */
module ProtocolTouches {
  import opened Codes
  import opened Finite
  import opened Descriptors
  import opened Messages
  import opened Protocol
  import opened ProtocolInvariant
  import opened ProtocolSteps
  import opened ProtocolTails
  import opened ProtocolResults
  import ProtocolRuns
  import BlockIo

  /** A read from a number that can be a descriptor, through a bounce buffer. */
  predicate BouncedRead(c: Call, bs: nat)
    requires bs > 0
  {
    IsReading(c.kind) && c.count > 0 && 0 <= c.fd < 256 && (c.addr % bs != 0 || c.count % bs != 0)
  }

  predicate BouncedSyncRead(c: Call, bs: nat)
    requires bs > 0
  {
    !c.async && BouncedRead(c, bs)
  }

  /** Every device in the run has blocks of this size. */
  ghost predicate BlockSize(steps: seq<Step>, bs: nat) {
    forall i | 0 <= i < |steps| && steps[i].DispatchStep? :: steps[i].e.blockSize == bs
  }

  ghost predicate ReachableWith(s: State, bs: nat) {
    exists s0, steps :: Init(s0) && Run(s0, steps) && BlockSize(steps, bs) && End(s0, steps) == s
  }

  predicate Bounced(p: Phase) { (p.AtDevice? || p.StatusWritten? || p.BytesWritten?) && p.bounced }

  /** Left-over reads belong to bounced synchronous reads; bounced requests in the
      SPDK thread are reads. */
  ghost predicate TailsBounced(s: State, bs: nat)
    requires bs > 0
  {
    && (forall i | 0 <= i < |s.tails| :: s.tails[i].r < |s.calls| && BouncedSyncRead(s.calls[s.tails[i].r], bs))
    && (forall m | m in s.mem.spdk && Bounced(s.mem.spdk[m]) ::
          m < |s.mem.msgs| && BouncedRead(s.mem.msgs[m].call, bs))
    && IsTable(s.mem.table)
  }

  lemma SubmitBounced(t: Table, c: Call, e: Env)
    requires e.blockSize > 0 && IsTable(t) && WellFormed(c)
    ensures IsTable(Handle(t, c, e).table)
    ensures Handle(t, c, e).verdict == Submit(true) ==> BouncedRead(c, e.blockSize)
  {
  }

  lemma DispatchTails(s: State, g: seq<Stage>, e: Env)
    requires Inv(s, g) && Enabled(s, DispatchStep(e)) && TailsBounced(s, e.blockSize)
    ensures TailsBounced(Apply(s, DispatchStep(e)), e.blockSize)
  {
    var m, s' := s.mem.ring[0], Dispatch1(s, e);
    TakeIsTakenMem(s.mem, e);
    assert m in s.mem.ring;
    OwnerOf(s, g, m);
    SubmitBounced(s.mem.table, s.mem.msgs[m].call, e);
    forall k | k in s'.mem.spdk && Bounced(s'.mem.spdk[k])
      ensures k < |s'.mem.msgs| && BouncedRead(s'.mem.msgs[k].call, e.blockSize)
    {
      if k != m { assert k in s.mem.spdk && s.mem.spdk[k] == s'.mem.spdk[k]; }
    }
  }

  /** Bounced requests of `s'` are bounced requests of `s` for the same call. */
  ghost predicate NoNewBounce(a: Mem, b: Mem) {
    forall k | k in b.spdk && Bounced(b.spdk[k]) && k < |a.msgs| ::
      k < |b.msgs| && k in a.spdk && Bounced(a.spdk[k]) && b.msgs[k].call == a.msgs[k].call
  }

  lemma PublishTails(s: State, g: seq<Stage>, m: nat, bs: nat)
    requires bs > 0 && Inv(s, g) && Enabled(s, PublishStep(m)) && TailsBounced(s, bs)
    ensures TailsBounced(Apply(s, PublishStep(m)), bs)
  {
    if s.mem.spdk[m].bounced {
      BouncedOwner(s, g, m, bs);
    }
    Published(s, Apply(s, PublishStep(m)), m, bs);
  }

  lemma BouncedOwner(s: State, g: seq<Stage>, m: nat, bs: nat)
    requires bs > 0 && Inv(s, g) && Enabled(s, PublishStep(m)) && TailsBounced(s, bs) && s.mem.spdk[m].bounced
    ensures ReqOf(s, m) < |s.calls| && BouncedSyncRead(s.calls[ReqOf(s, m)], bs)
  {
    OwnerOf(s, g, m);
  }

  lemma Published(s: State, s': State, m: nat, bs: nat)
    requires bs > 0 && TailsBounced(s, bs) && m < |s.mem.msgs| && m in s.mem.spdk && s'.calls == s.calls
    requires s'.mem == Mark(s.mem, m)
    requires s'.tails == s.tails || s'.tails == s.tails + [Tail(m, ReqOf(s, m))]
    requires s'.tails != s.tails ==> ReqOf(s, m) < |s.calls| && BouncedSyncRead(s.calls[ReqOf(s, m)], bs)
    ensures TailsBounced(s', bs)
  {
  }

  lemma TailTails(s: State, i: nat, bs: nat)
    requires bs > 0 && Enabled(s, TailStep(i)) && TailsBounced(s, bs)
    ensures TailsBounced(Apply(s, TailStep(i)), bs)
  {
  }

  lemma StillBounced(s: State, s': State, bs: nat)
    requires bs > 0 && TailsBounced(s, bs) && s'.tails == s.tails
    requires s.calls <= s'.calls && |s'.mem.msgs| == |s.mem.msgs|
    requires forall k | k in s'.mem.spdk :: k < |s.mem.msgs|
    requires NoNewBounce(s.mem, s'.mem) && |s'.mem.table| == |s.mem.table|
    ensures TailsBounced(s', bs)
  {
  }

  ghost predicate OnlyShrinks(s: State, s': State) {
    && NoNewBounce(s.mem, s'.mem) && |s'.mem.msgs| == |s.mem.msgs| && s'.mem.spdk.Keys <= s.mem.spdk.Keys
    && s.calls <= s'.calls && s'.tails == s.tails && |s'.mem.table| == |s.mem.table|
  }

  predicate ByClient(step: Step) {
    step.AllocStep? || step.AllocFails? || step.SendStep? || step.ObserveStep? || step.ResultStep? || step.ReleaseStep?
  }

  lemma ClientShrinks(s: State, step: Step)
    requires PoolApart(s) && Enabled(s, step) && ByClient(step)
    ensures OnlyShrinks(s, Apply(s, step))
  {
    var s' := Apply(s, step);
    assert s'.mem.spdk == s.mem.spdk;
    if step.AllocStep? {
      assert step.m !in s.mem.spdk;
    } else {
      assert s'.mem.msgs == s.mem.msgs;
    }
  }

  lemma NoBounceAdded(a: Mem, b: Mem, m: nat)
    requires m < |a.msgs| == |b.msgs| && m in a.spdk
    requires b.msgs == a.msgs[m := b.msgs[m]] && b.msgs[m].call == a.msgs[m].call
    requires b.spdk == a.spdk - {m} ||
             (m in b.spdk && b.spdk == a.spdk[m := b.spdk[m]] && (Bounced(b.spdk[m]) ==> Bounced(a.spdk[m])))
    ensures NoNewBounce(a, b) && b.spdk.Keys <= a.spdk.Keys
  {
  }

  lemma HandlerShrinks(s: State, step: Step)
    requires PoolApart(s) && Enabled(s, step)
    requires step.MarkStep? || step.DeviceStep? || step.BytesStep? || step.AsyncFreeStep?
    ensures OnlyShrinks(s, Apply(s, step))
  {
    NoBounceAdded(s.mem, Apply(s, step).mem, step.m);
  }

  lemma OtherTails(s: State, g: seq<Stage>, step: Step, bs: nat)
    requires bs > 0 && Inv(s, g) && Enabled(s, step) && TailsBounced(s, bs)
    requires !step.DispatchStep? && !step.PublishStep? && !step.TailStep?
    ensures TailsBounced(Apply(s, step), bs)
  {
    if ByClient(step) { ClientShrinks(s, step); } else { HandlerShrinks(s, step); }
    StillBounced(s, Apply(s, step), bs);
  }

  lemma StepTails(s: State, g: seq<Stage>, step: Step, bs: nat)
    requires bs > 0 && Inv(s, g) && Enabled(s, step) && TailsBounced(s, bs)
    requires step.DispatchStep? ==> step.e.blockSize == bs
    ensures TailsBounced(Apply(s, step), bs)
  {
    match step {
      case DispatchStep(e) => DispatchTails(s, g, e);
      case PublishStep(m) => PublishTails(s, g, m, bs);
      case TailStep(i) => TailTails(s, i, bs);
      case _ => OtherTails(s, g, step, bs);
    }
  }

  lemma {:induction false} RunTails(s: State, g: seq<Stage>, steps: seq<Step>, bs: nat)
    requires bs > 0 && Inv(s, g) && Run(s, steps) && BlockSize(steps, bs) && TailsBounced(s, bs)
    ensures TailsBounced(End(s, steps), bs)
    decreases |steps|
  {
    if steps != [] {
      StepTails(s, g, steps[0], bs);
      var g' := StepKeeps(s, g, steps[0]);
      RunTails(Apply(s, steps[0]), g', steps[1..], bs);
    }
  }

  lemma TailsAreBounced(s: State, bs: nat)
    requires bs > 0 && ReachableWith(s, bs)
    ensures TailsBounced(s, bs)
  {
    var s0, steps :| Init(s0) && Run(s0, steps) && BlockSize(steps, bs) && End(s0, steps) == s;
    InitInv(s0);
    RunTails(s0, [], steps, bs);
  }

  // --------------------------------------------------- the hazard is real

  lemma StepWith(s: State, step: Step, bs: nat)
    requires ReachableWith(s, bs) && Enabled(s, step) && (step.DispatchStep? ==> step.e.blockSize == bs)
    ensures ReachableWith(Apply(s, step), bs)
  {
    var s0, steps :| Init(s0) && Run(s0, steps) && BlockSize(steps, bs) && End(s0, steps) == s;
    ProtocolRuns.AppendStep(s0, steps, step);
    assert BlockSize(steps + [step], bs);
  }

  /** The caller of `m`, and the message itself, as a synchronous request goes
      through its completion. */
  ghost predicate Under(s: State, m: nat, r: nat, c: nat, call: Call) {
    && m < |s.mem.msgs| && r < |s.hist| && r < |s.calls| && s.calls[r] == call
    && s.mem.msgs[m].req == r && s.mem.msgs[m].call == call
    && !call.async && !call.kind.Open? && |s.hist| == |s.calls|
    && ClientOf(s, c) == Waiting(m, r) && OthersIdle(s, c)
  }

  /** No client but `c` is in a call. */
  ghost predicate OthersIdle(s: State, c: nat) { forall d | d in s.clients && d != c :: s.clients[d].Idle? }

  /** From the device to the completion flag, leaving a read of the message
      behind. */
  lemma ToPublished(s: State, m: nat, r: nat, c: nat, call: Call, bs: nat) returns (s': State)
    requires ReachableWith(s, bs) && Under(s, m, r, c, call)
    requires m in s.mem.spdk && s.mem.spdk[m] == AtDevice(true)
    ensures ReachableWith(s', bs) && Under(s', m, r, c, call)
    ensures s'.mem.msgs[m].completed && s'.tails == s.tails + [Tail(m, r)]
  {
    var s1, s2 := CompletionShape(s, m, r, c, call);
    StepWith(s, DeviceStep(m, true, true), bs);
    StepWith(s1, BytesStep(m), bs);
    StepWith(s2, PublishStep(m), bs);
    s' := Publish1(s2, m);
  }

  lemma CompletionShape(s: State, m: nat, r: nat, c: nat, call: Call) returns (s1: State, s2: State)
    requires Under(s, m, r, c, call) && m in s.mem.spdk && s.mem.spdk[m] == AtDevice(true)
    ensures Enabled(s, DeviceStep(m, true, true)) && s1 == Apply(s, DeviceStep(m, true, true))
    ensures Enabled(s1, BytesStep(m)) && s2 == Apply(s1, BytesStep(m))
    ensures Enabled(s2, PublishStep(m))
    ensures var s' := Publish1(s2, m);
            Under(s', m, r, c, call) && s'.mem.msgs[m].completed && s'.tails == s.tails + [Tail(m, r)]
  {
    s1 := Device1(s, m, true, true);
    s2 := Bytes1(s1, m);
  }

  /** The caller sees the flag, takes its result and puts the message back. */
  lemma ToReleased(s: State, m: nat, r: nat, c: nat, call: Call, bs: nat) returns (s': State)
    requires ReachableWith(s, bs) && Under(s, m, r, c, call) && s.mem.msgs[m].completed
    ensures ReachableWith(s', bs) && m < |s'.mem.msgs| && m in s'.mem.pool
    ensures s'.tails == s.tails && s'.calls == s.calls
    ensures r < |s'.hist| == |s'.calls| && Returned(s'.hist[r]) && forall d | d in s'.clients :: s'.clients[d].Idle?
  {
    var s1, s2 := ReturnShape(s, m, r, c, call);
    StepWith(s, ObserveStep(c), bs);
    StepWith(s1, ResultStep(c), bs);
    StepWith(s2, ReleaseStep(c), bs);
    s' := Release1(s2, c);
  }

  lemma ReturnShape(s: State, m: nat, r: nat, c: nat, call: Call) returns (s1: State, s2: State)
    requires Under(s, m, r, c, call) && s.mem.msgs[m].completed
    ensures Enabled(s, ObserveStep(c)) && s1 == Apply(s, ObserveStep(c))
    ensures Enabled(s1, ResultStep(c)) && s2 == Apply(s1, ResultStep(c))
    ensures Enabled(s2, ReleaseStep(c))
    ensures var s' := Release1(s2, c);
            && m < |s'.mem.msgs| && m in s'.mem.pool
            && s'.tails == s.tails && s'.calls == s.calls
            && r < |s'.hist| == |s'.calls| && Returned(s'.hist[r]) && forall d | d in s'.clients :: s'.clients[d].Idle?
  {
    s1 := Apply(s, ObserveStep(c));
    s2 := Result1(s1, c);
  }

  // ------------------------------------------------- opening devices first

  function OpenCall(c: nat): Call { Call(Open, false, c, 0, Flags(O_RDONLY), 0, 0) }

  const OPENED: Slot := Slot(true, true, true, true, Flags(O_RDONLY))

  /** The first `n` slots hold open devices, the others are free. */
  ghost predicate Holds(t: Table, n: nat) {
    IsTable(t) && n <= |t| && forall i | 0 <= i < |t| :: t[i] == if i < n then OPENED else FREE
  }

  /** A library with one message, at rest. */
  ghost predicate Resting(s: State, n: nat, c: nat) {
    && |s.mem.msgs| == 1 && s.mem.capacity == 1 && s.mem.pool == multiset{0} && s.mem.ring == [] && s.mem.spdk == map[]
    && s.mem.running && Holds(s.mem.table, n) && ClientOf(s, c).Idle? && |s.hist| == |s.calls| && OthersIdle(s, c)
  }

  /** The client has sent a synchronous call as request `r`. */
  ghost predicate Sent(s: State, n: nat, r: nat, c: nat, call: Call) {
    && |s.mem.msgs| == 1 && s.mem.capacity == 1 && s.mem.pool == multiset{} && s.mem.ring == [0] && s.mem.spdk == map[]
    && s.mem.running && Holds(s.mem.table, n) && |s.hist| == |s.calls| && r < |s.calls| && s.calls[r] == call
    && s.mem.msgs[0] == Zeroed(call, r) && ClientOf(s, c) == Waiting(0, r) && OthersIdle(s, c)
  }

  lemma SendShape(s: State, n: nat, call: Call) returns (s1: State, s2: State)
    requires Resting(s, n, call.client) && WellFormed(call) && !call.async
    ensures Enabled(s, AllocStep(call.client, 0, call)) && s1 == Apply(s, AllocStep(call.client, 0, call))
    ensures Enabled(s1, SendStep(call.client)) && s2 == Apply(s1, SendStep(call.client))
    ensures Sent(s2, n, |s.calls|, call.client, call)
  {
    s1 := Alloc1(s, call.client, 0, call);
    s2 := Send1(s1, call.client);
  }

  lemma ToSent(s: State, n: nat, call: Call, bs: nat) returns (s': State)
    requires ReachableWith(s, bs) && Resting(s, n, call.client) && WellFormed(call) && !call.async
    ensures ReachableWith(s', bs) && Sent(s', n, |s.calls|, call.client, call)
  {
    var s1, s2 := SendShape(s, n, call);
    StepWith(s, AllocStep(call.client, 0, call), bs);
    StepWith(s1, SendStep(call.client), bs);
    s' := s2;
  }

  function FriendlyEnv(bs: nat): Env { Env(true, bs, true, true, 0) }

  lemma LowestFree(t: Table, n: nat, i: nat)
    requires Holds(t, n) && n < MAX_OPEN && i <= n
    ensures FirstFree(t, i) == n
  {
    assert !t[n].inUse;
  }

  /** The open has been answered and its flag is set. */
  ghost predicate Answered(s: State, n: nat, r: nat, c: nat) {
    && |s.mem.msgs| == 1 && s.mem.capacity == 1 && s.mem.pool == multiset{} && s.mem.ring == [] && s.mem.spdk == map[]
    && s.mem.running && Holds(s.mem.table, n) && |s.hist| == |s.calls| && r < |s.calls|
    && s.mem.msgs[0].req == r && s.mem.msgs[0].completed && ClientOf(s, c) == Waiting(0, r) && OthersIdle(s, c)
  }

  lemma OpenShape(s: State, n: nat, r: nat, c: nat, bs: nat) returns (s1: State, s2: State)
    requires Sent(s, n, r, c, OpenCall(c)) && n < MAX_OPEN && bs > 0
    ensures Enabled(s, DispatchStep(FriendlyEnv(bs))) && s1 == Apply(s, DispatchStep(FriendlyEnv(bs)))
    ensures Enabled(s1, DeviceStep(0, true, true)) && s2 == Apply(s1, DeviceStep(0, true, true))
    ensures Enabled(s2, MarkStep(0)) && Answered(Apply(s2, MarkStep(0)), n + 1, r, c)
  {
    LowestFree(s.mem.table, n, 0);
    s1 := Dispatch1(s, FriendlyEnv(bs));
    assert s1.mem.spdk == map[0 := AtDevice(false)] && s1.mem.msgs[0].resultFd == n;
    s2 := Device1(s1, 0, true, true);
    assert s2.mem.spdk == map[0 := Marking];
    assert Holds(s2.mem.table, n + 1);
  }

  lemma ToAnswered(s: State, n: nat, r: nat, c: nat, bs: nat) returns (s': State)
    requires ReachableWith(s, bs) && Sent(s, n, r, c, OpenCall(c)) && n < MAX_OPEN && bs > 0
    ensures ReachableWith(s', bs) && Answered(s', n + 1, r, c)
  {
    var s1, s2 := OpenShape(s, n, r, c, bs);
    StepWith(s, DispatchStep(FriendlyEnv(bs)), bs);
    StepWith(s1, DeviceStep(0, true, true), bs);
    StepWith(s2, MarkStep(0), bs);
    s' := Apply(s2, MarkStep(0));
  }

  lemma BackShape(s: State, n: nat, r: nat, c: nat) returns (s1: State, s2: State)
    requires Answered(s, n, r, c)
    ensures Enabled(s, ObserveStep(c)) && s1 == Apply(s, ObserveStep(c))
    ensures Enabled(s1, ResultStep(c)) && s2 == Apply(s1, ResultStep(c))
    ensures Enabled(s2, ReleaseStep(c)) && Resting(Apply(s2, ReleaseStep(c)), n, c)
  {
    s1 := Apply(s, ObserveStep(c));
    s2 := Result1(s1, c);
  }

  /** One more device is opened, by the whole open call. */
  lemma OpenOne(s: State, n: nat, c: nat, bs: nat) returns (s': State)
    requires ReachableWith(s, bs) && Resting(s, n, c) && n < MAX_OPEN && bs > 0
    ensures ReachableWith(s', bs) && Resting(s', n + 1, c)
  {
    var s1 := ToSent(s, n, OpenCall(c), bs);
    var s2 := ToAnswered(s1, n, |s.calls|, c, bs);
    var s3, s4 := BackShape(s2, n + 1, |s.calls|, c);
    StepWith(s2, ObserveStep(c), bs);
    StepWith(s3, ResultStep(c), bs);
    StepWith(s4, ReleaseStep(c), bs);
    s' := Apply(s4, ReleaseStep(c));
  }

  /** From initialisation: the first `n` slots opened one after the other. */
  lemma {:induction false} ToOpened(n: nat, c: nat, bs: nat) returns (s: State)
    requires n <= MAX_OPEN && bs > 0
    ensures ReachableWith(s, bs) && Resting(s, n, c)
  {
    if n == 0 {
      var table: Table := seq(MAX_OPEN, _ => FREE);
      s := ProtocolRuns.EmptyState(1, 1, table);
      ProtocolRuns.EmptyIsInit(1, 1, table);
      assert Run(s, []) && BlockSize([], bs) && End(s, []) == s;
      assert Below(1) == {0};
    } else {
      var s1 := ToOpened(n - 1, c, bs);
      s := OpenOne(s1, n - 1, c, bs);
    }
  }

  /** From initialisation to the bounced read's data at the device. */
  lemma ToDevice(call: Call, bs: nat) returns (s: State, r: nat)
    requires bs > 0 && BouncedSyncRead(call, bs)
    ensures ReachableWith(s, bs) && Under(s, 0, r, call.client, call)
    ensures 0 in s.mem.spdk && s.mem.spdk[0] == AtDevice(true)
  {
    var s1 := ToOpened(call.fd + 1, call.client, bs);
    var s2 := ToSent(s1, call.fd + 1, call, bs);
    r := |s1.calls|;
    var e := FriendlyEnv(bs);
    TakenBounced(s2.mem.table, call, bs);
    StepWith(s2, DispatchStep(e), bs);
    s := Apply(s2, DispatchStep(e));
  }

  lemma TakenBounced(t: Table, call: Call, bs: nat)
    requires bs > 0 && BouncedSyncRead(call, bs) && Holds(t, call.fd + 1)
    ensures Handle(t, call, FriendlyEnv(bs)).verdict == Submit(true)
  {
    assert t[call.fd] == OPENED;
    assert ReadAllowed(Flags(O_RDONLY));
  }

  /** With blocks of size `bs`, some run gets to where the SPDK thread reads the
      message of a call that the caller has put back, exactly when the call is a
      synchronous read that needs a bounce buffer: writes, flushes, direct reads
      and asynchronous requests are never read again. */
  lemma StaleReadIff(call: Call, bs: nat)
    requires bs > 0
    ensures (exists s, i :: ReachableWith(s, bs) && 0 <= i < |s.tails| && Enabled(s, TailStep(i))
                            && s.tails[i].r < |s.calls| && s.calls[s.tails[i].r] == call
                            && s.tails[i].m in s.mem.pool)
            <==> BouncedSyncRead(call, bs)
  {
    if BouncedSyncRead(call, bs) {
      var s1, r := ToDevice(call, bs);
      var s2 := ToPublished(s1, 0, r, call.client, call, bs);
      var s3 := ToReleased(s2, 0, r, call.client, call, bs);
      assert s3.tails[|s1.tails|] == Tail(0, r) && Enabled(s3, TailStep(|s1.tails|));
    } else {
      forall s, i | ReachableWith(s, bs) && 0 <= i < |s.tails| && s.tails[i].r < |s.calls|
        ensures s.calls[s.tails[i].r] != call
      {
        TailsAreBounced(s, bs);
      }
    }
  }

  /** With blocks of size `bs`, some run lets a call return while the copy of its
      data into the caller's buffer is still to be done, exactly when the call is
      a synchronous read that needs a bounce buffer. */
  lemma EarlyReturnIff(call: Call, bs: nat)
    requires bs > 0
    ensures (exists s, i :: ReachableWith(s, bs) && 0 <= i < |s.tails|
                            && s.tails[i].r < |s.calls| && s.calls[s.tails[i].r] == call
                            && s.tails[i].r < |s.hist| && Returned(s.hist[s.tails[i].r]))
            <==> BouncedSyncRead(call, bs)
  {
    if BouncedSyncRead(call, bs) {
      var s1, r := ToDevice(call, bs);
      var s2 := ToPublished(s1, 0, r, call.client, call, bs);
      var s3 := ToReleased(s2, 0, r, call.client, call, bs);
      assert s3.tails[|s1.tails|] == Tail(0, r);
    } else {
      forall s, i | ReachableWith(s, bs) && 0 <= i < |s.tails| && s.tails[i].r < |s.calls|
        ensures s.calls[s.tails[i].r] != call
      {
        TailsAreBounced(s, bs);
      }
    }
  }

  /** The rest of request `r` will read message `m` while that belongs to another
      request, which made the call `other`. */
  ghost predicate ReadsOther(s: State, t: Tail, call: Call, other: Call) {
    && t.r < |s.calls| && s.calls[t.r] == call
    && t.m < |s.mem.msgs| && t.m !in s.mem.pool && ReqOf(s, t.m) != t.r && s.mem.msgs[t.m].call == other
  }

  /** With blocks of size `bs`, some run lets the SPDK thread finish a call with
      the buffer and the count of another call, which has got the same message
      since, exactly when the first is a synchronous read that needs a bounce
      buffer; the other can be any call at all. */
  lemma ReusedReadIff(call: Call, other: Call, bs: nat)
    requires bs > 0
    ensures (exists s, i :: ReachableWith(s, bs) && 0 <= i < |s.tails|
                            && Enabled(s, TailStep(i)) && ReadsOther(s, s.tails[i], call, other))
            <==> BouncedSyncRead(call, bs) && WellFormed(other)
  {
    if BouncedSyncRead(call, bs) && WellFormed(other) {
      var s, i := ToReused(call, other, bs);
    } else {
      forall s, i | ReachableWith(s, bs) && 0 <= i < |s.tails|
        ensures !ReadsOther(s, s.tails[i], call, other)
      {
        TailsAreBounced(s, bs);
        WithoutSize(s, bs);
        UsedIsWellFormed(s, s.tails[i].m);
      }
    }
  }

  lemma ToReused(call: Call, other: Call, bs: nat) returns (s: State, i: nat)
    requires bs > 0 && BouncedSyncRead(call, bs) && WellFormed(other)
    ensures ReachableWith(s, bs) && i < |s.tails| && Enabled(s, TailStep(i)) && ReadsOther(s, s.tails[i], call, other)
  {
    var s1, r := ToDevice(call, bs);
    var s2 := ToPublished(s1, 0, r, call.client, call, bs);
    var s3 := ToReleased(s2, 0, r, call.client, call, bs);
    i := |s1.tails|;
    assert s3.tails[i] == Tail(0, r) && s3.calls[r] == call;
    PooledOnce(s3, 0, bs);
    ReuseShape(s3, i, r, call, other);
    StepWith(s3, AllocStep(other.client, 0, other), bs);
    s := Alloc1(s3, other.client, 0, other);
  }

  lemma ReuseShape(s: State, i: nat, r: nat, call: Call, other: Call)
    requires i < |s.tails| && s.tails[i] == Tail(0, r) && r < |s.calls| && s.calls[r] == call && WellFormed(other)
    requires 0 < |s.mem.msgs| && s.mem.pool[0] == 1 && forall d | d in s.clients :: s.clients[d].Idle?
    ensures Enabled(s, AllocStep(other.client, 0, other))
    ensures var s' := Alloc1(s, other.client, 0, other);
            s'.tails == s.tails && Enabled(s', TailStep(i)) && ReadsOther(s', s.tails[i], call, other)
  {
  }

  lemma PooledOnce(s: State, m: nat, bs: nat)
    requires ReachableWith(s, bs) && m in s.mem.pool
    ensures s.mem.pool[m] == 1
  {
    WithoutSize(s, bs);
    var g := ReachableInv(s);
  }

  lemma UsedIsWellFormed(s: State, m: nat)
    requires Reachable(s)
    ensures m < |s.mem.msgs| && m !in s.mem.pool ==> WellFormed(s.mem.msgs[m].call)
  {
    var g := ReachableInv(s);
    if m < |s.mem.msgs| && m !in s.mem.pool {
      OwnerOf(s, g, m);
    }
  }

  /** The exact exception to the safety of frees: a step that puts a message back
      leaves references to it only with the rest of bounced synchronous reads
      whose calls have returned. */
  lemma FreedExceptBounced(s: State, step: Step, bs: nat)
    requires bs > 0 && ReachableWith(s, bs) && Enabled(s, step) && Freed(s, step).Some?
    ensures var s', m := Apply(s, step), Freed(s, step).value;
            forall i | 0 <= i < |s'.tails| && s'.tails[i].m == m ::
              && s'.tails[i].r < |s'.calls| && BouncedSyncRead(s'.calls[s'.tails[i].r], bs)
              && s'.tails[i].r < |s'.hist| && Returned(s'.hist[s'.tails[i].r])
  {
    TailsAreBounced(s, bs);
    WithoutSize(s, bs);
    FreesAreSafe(s, step);
    assert Apply(s, step).tails == s.tails && Apply(s, step).calls == s.calls;
  }

  lemma WithoutSize(s: State, bs: nat)
    requires ReachableWith(s, bs)
    ensures Reachable(s)
  {
  }
}
