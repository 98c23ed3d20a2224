/** The message protocol as a step system: any number of clients, the SPDK thread
    and device completions, interleaved in every possible way. Each step is one
    access to shared memory (or a group of accesses to memory that no other
    party can reach at that moment). */
module Protocol {
  import opened Codes
  import opened Finite
  import opened Descriptors
  import opened Messages

  /** Where a client thread is in a call that uses message `m` for request `r`:
      filling it in, spinning on its completion flag, past the spin, or about to
      put it back. */
  datatype Client =
    | Idle
    | Holding(m: nat, r: nat)
    | Waiting(m: nat, r: nat)
    | Seen(m: nat, r: nat)
    | Releasing(m: nat, r: nat)

  /** What happens to one request. */
  datatype Event =
    | EAlloc(m: nat)
    | EBusy
    | ESent
    | EAnswered(status: int, fd: int)
    | ETaken(fd: int)
    | EDone(ok: bool)
    | ECallback(status: int)
    | EPublished(status: int, bytes: int)
    | EResult(value: int)
    | EFreed

  /** The rest of a bounced synchronous read after its completion flag is set:
      the handler still has to read the message to find the caller's buffer. */
  datatype Tail = Tail(m: nat, r: nat)

  /** `calls` and `hist` are indexed by request; `sent` and `polled` list
      requests in the order in which the ring took and gave them. */
  datatype State = State(
    mem: Mem,
    clients: map<nat, Client>,
    calls: seq<Call>,
    hist: seq<seq<Event>>,
    sent: seq<nat>,
    polled: seq<nat>,
    tails: seq<Tail>)

  datatype Step =
    | AllocStep(c: nat, m: nat, call: Call)
    | AllocFails(c: nat)
    | SendStep(c: nat)
    | DispatchStep(e: Env)
    | MarkStep(m: nat)
    | DeviceStep(m: nat, ok: bool, channelOk: bool)
    | BytesStep(m: nat)
    | PublishStep(m: nat)
    | AsyncFreeStep(m: nat)
    | ObserveStep(c: nat)
    | ResultStep(c: nat)
    | ReleaseStep(c: nat)
    | TailStep(i: nat)

  function ClientOf(s: State, c: nat): Client { if c in s.clients then s.clients[c] else Idle }

  function ReqOf(s: State, m: nat): nat
    requires m < |s.mem.msgs|
  {
    s.mem.msgs[m].req
  }

  function Record(s: State, r: nat, es: seq<Event>): State
    requires r < |s.hist|
  {
    s.(hist := s.hist[r := s.hist[r] + es])
  }

  /** Bytes a successful request reports: a flush moves none. */
  function Transferred(c: Call): nat { if IsIo(c.kind) then c.count else 0 }

  /** Calls whose success is a number that their handler put into the message: a
      descriptor, or how many devices were listed. */
  predicate HasResult(k: Kind) { k.Open? || k.ListBdevs? }

  /** What the public call returns for the published fields. */
  function Value(c: Call, status: int, bytes: int, fd: int): int {
    if status != SUCCESS then status
    else if IsIo(c.kind) then bytes
    else if HasResult(c.kind) then fd
    else status
  }

  /** Message ids and request numbers that a step looks up are in range. */
  predicate InRange(s: State, m: nat) {
    m < |s.mem.msgs| && s.mem.msgs[m].req < |s.hist|
  }

  predicate Enabled(s: State, step: Step) {
    match step
    case AllocStep(c, m, call) =>
      ClientOf(s, c).Idle? && m in s.mem.pool && m < |s.mem.msgs| && WellFormed(call) && call.client == c
    case AllocFails(c) => ClientOf(s, c).Idle? && |s.mem.pool| == 0
    case SendStep(c) => ClientOf(s, c).Holding? && InRange(s, ClientOf(s, c).m) && ClientOf(s, c).r < |s.hist|
    case DispatchStep(e) => s.mem.running && s.mem.ring != [] && InRange(s, s.mem.ring[0]) && e.blockSize > 0
    case MarkStep(m) => m in s.mem.spdk && s.mem.spdk[m].Marking? && InRange(s, m)
    case DeviceStep(m, _, _) => m in s.mem.spdk && s.mem.spdk[m].AtDevice? && InRange(s, m)
    case BytesStep(m) => m in s.mem.spdk && s.mem.spdk[m].StatusWritten? && InRange(s, m)
    case PublishStep(m) => m in s.mem.spdk && s.mem.spdk[m].BytesWritten? && InRange(s, m)
    case AsyncFreeStep(m) => m in s.mem.spdk && s.mem.spdk[m].CalledBack? && InRange(s, m)
    case ObserveStep(c) =>
      ClientOf(s, c).Waiting? && ClientOf(s, c).m < |s.mem.msgs| && s.mem.msgs[ClientOf(s, c).m].completed
    case ResultStep(c) => ClientOf(s, c).Seen? && InRange(s, ClientOf(s, c).m) && ClientOf(s, c).r < |s.hist|
    case ReleaseStep(c) => ClientOf(s, c).Releasing? && ClientOf(s, c).r < |s.hist|
    case TailStep(i) => i < |s.tails| && s.tails[i].m < |s.mem.msgs|
  }

  function SetMsg(mem: Mem, m: nat, msg: Msg): Mem
    requires m < |mem.msgs|
  {
    mem.(msgs := mem.msgs[m := msg])
  }

  function Alloc1(s: State, c: nat, m: nat, call: Call): State
    requires m < |s.mem.msgs|
  {
    var r := |s.calls|;
    s.(mem := Alloc(s.mem, m, call, r), clients := s.clients[c := Holding(m, r)],
       calls := s.calls + [call], hist := s.hist + [[EAlloc(m)]])
  }

  function Send1(s: State, c: nat): State
    requires Enabled(s, SendStep(c))
  {
    var m, r := ClientOf(s, c).m, ClientOf(s, c).r;
    if HasRoom(s.mem) then
      var next := if s.mem.msgs[m].call.async then Idle else Waiting(m, r);
      Record(s, r, [ESent]).(mem := Enqueue(s.mem, m), clients := s.clients[c := next], sent := s.sent + [r])
    else
      Record(s, r, [EBusy]).(clients := s.clients[c := Releasing(m, r)])
  }

  function Dispatch1(s: State, e: Env): State
    requires Enabled(s, DispatchStep(e))
  {
    var m := s.mem.ring[0];
    var r := ReqOf(s, m);
    var mem := Take(s.mem, e);
    var msg := mem.msgs[m];
    var event := if mem.spdk[m].Marking? then EAnswered(msg.status, msg.resultFd) else ETaken(msg.resultFd);
    Record(s, r, [event]).(mem := mem, polled := s.polled + [r])
  }

  /** Whether a completion is a success: an open also needs an I/O channel. */
  predicate Succeeds(c: Call, ok: bool, channelOk: bool) { ok && (c.kind.Open? ==> channelOk) }

  /** A device completion: an asynchronous request's callback runs at once; an
      open changes its slot; otherwise the status is written. */
  function Device1(s: State, m: nat, deviceOk: bool, channelOk: bool): State
    requires Enabled(s, DeviceStep(m, deviceOk, channelOk))
  {
    var msg := s.mem.msgs[m];
    var b := s.mem.spdk[m].bounced;
    var ok := Succeeds(msg.call, deviceOk, channelOk);
    if msg.call.async then
      Record(s, msg.req, [EDone(ok), ECallback(StatusOf(ok))]).(mem := s.mem.(spdk := s.mem.spdk[m := CalledBack(ok)]))
    else
      var written := SetMsg(s.mem, m, msg.(status := StatusOf(ok)));
      var mem :=
        if !msg.call.kind.Open? then written.(spdk := s.mem.spdk[m := StatusWritten(ok, b)])
        else written.(spdk := s.mem.spdk[m := Marking],
                      table := if 0 <= msg.resultFd < |s.mem.table|
                               then Completed(s.mem.table, msg.resultFd, deviceOk, channelOk)
                               else s.mem.table);
      Record(s, msg.req, [EDone(ok)]).(mem := mem)
  }

  function Bytes1(s: State, m: nat): State
    requires Enabled(s, BytesStep(m))
  {
    var msg, p := s.mem.msgs[m], s.mem.spdk[m];
    var mem := SetMsg(s.mem, m, msg.(bytes := if p.ok then Transferred(msg.call) else 0));
    s.(mem := mem.(spdk := s.mem.spdk[m := BytesWritten(p.ok, p.bounced)]))
  }

  function Publish1(s: State, m: nat): State
    requires Enabled(s, PublishStep(m))
  {
    var msg, p := s.mem.msgs[m], s.mem.spdk[m];
    Record(s, msg.req, [EPublished(msg.status, msg.bytes)]).(
      mem := Mark(s.mem, m),
      tails := s.tails + if p.bounced && p.ok then [Tail(m, msg.req)] else [])
  }

  function Mark1(s: State, m: nat): State
    requires Enabled(s, MarkStep(m))
  {
    var msg := s.mem.msgs[m];
    Record(s, msg.req, [EPublished(msg.status, msg.bytes)]).(mem := Mark(s.mem, m))
  }

  function AsyncFree1(s: State, m: nat): State
    requires Enabled(s, AsyncFreeStep(m))
  {
    Record(s, ReqOf(s, m), [EFreed]).(mem := Free(s.mem.(spdk := s.mem.spdk - {m}), m))
  }

  function Result1(s: State, c: nat): State
    requires Enabled(s, ResultStep(c))
  {
    var m, r := ClientOf(s, c).m, ClientOf(s, c).r;
    var msg := s.mem.msgs[m];
    Record(s, r, [EResult(Value(msg.call, msg.status, msg.bytes, msg.resultFd))]).(
      clients := s.clients[c := Releasing(m, r)])
  }

  function Release1(s: State, c: nat): State
    requires Enabled(s, ReleaseStep(c))
  {
    var m, r := ClientOf(s, c).m, ClientOf(s, c).r;
    Record(s, r, [EFreed]).(mem := Free(s.mem, m), clients := s.clients[c := Idle])
  }

  function Tail1(s: State, i: nat): State
    requires Enabled(s, TailStep(i))
  {
    s.(tails := s.tails[..i] + s.tails[i + 1..])
  }

  function Apply(s: State, step: Step): State
    requires Enabled(s, step)
  {
    match step
    case AllocStep(c, m, call) => Alloc1(s, c, m, call)
    case AllocFails(_) => s
    case SendStep(c) => Send1(s, c)
    case DispatchStep(e) => Dispatch1(s, e)
    case MarkStep(m) => Mark1(s, m)
    case DeviceStep(m, ok, channelOk) => Device1(s, m, ok, channelOk)
    case BytesStep(m) => Bytes1(s, m)
    case PublishStep(m) => Publish1(s, m)
    case AsyncFreeStep(m) => AsyncFree1(s, m)
    case ObserveStep(c) => s.(clients := s.clients[c := Seen(ClientOf(s, c).m, ClientOf(s, c).r)])
    case ResultStep(c) => Result1(s, c)
    case ReleaseStep(c) => Release1(s, c)
    case TailStep(i) => Tail1(s, i)
  }

  /** After initialisation: all messages in the pool, all slots free, everything
      else empty. */
  ghost predicate Init(s: State) {
    && s.mem.pool == multiset(Below(|s.mem.msgs|)) && IsTable(s.mem.table) && AllFree(s.mem.table)
    && s.mem.ring == [] && s.mem.spdk == map[] && s.mem.running
    && s.clients == map[] && s.calls == [] && s.hist == [] && s.sent == [] && s.polled == []
    && s.tails == [] && s.mem.processed == s.mem.ioOps == 0
  }

  ghost predicate Run(s: State, steps: seq<Step>)
    decreases |steps|
  {
    steps != [] ==> Enabled(s, steps[0]) && Run(Apply(s, steps[0]), steps[1..])
  }

  function End(s: State, steps: seq<Step>): State
    requires Run(s, steps)
    decreases |steps|
  {
    if steps == [] then s else End(Apply(s, steps[0]), steps[1..])
  }

  ghost predicate Reachable(s: State) {
    exists s0, steps :: Init(s0) && Run(s0, steps) && End(s0, steps) == s
  }
}
