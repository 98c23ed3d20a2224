/** The invariant of the message protocol. It is stated with a stage for every
    request, which says where its message is and what has happened to it. */
module ProtocolInvariant {
  import opened Codes
  import opened Descriptors
  import opened Messages
  import opened Protocol

  /** Where a published status came from. */
  datatype Source = FromDevice(ok: bool, fd: int) | Direct(status: int, fd: int)

  /** The stage of a request; `m` is the message it uses or, in the three last
      stages, the one it has given back; `fd` is the slot an open claimed, or
      what a listing found. */
  datatype Stage =
    | SHeld(m: nat)
    | SBusy(m: nat)
    | SQueued(m: nat)
    | SAtDevice(m: nat, fd: int)
    | SDone(m: nat, ok: bool, fd: int)
    | SCalled(m: nat, ok: bool)
    | SAnswered(m: nat, status: int, fd: int)
    | SPublished(m: nat, src: Source)
    | SResult(m: nat, src: Source)
    | SGoneBusy(m: nat)
    | SGoneCalled(m: nat, ok: bool)
    | SGone(m: nat, src: Source)

  predicate Live(g: Stage) { !g.SGoneBusy? && !g.SGoneCalled? && !g.SGone? }

  function SourceStatus(src: Source): int {
    match src case FromDevice(ok, _) => StatusOf(ok) case Direct(st, _) => st
  }

  function SourceBytes(c: Call, src: Source): int {
    if src.FromDevice? && src.ok then Transferred(c) else 0
  }

  // --------------------------------------------------------------- traces

  function TSent(m: nat): seq<Event> { [EAlloc(m)] + [ESent] }
  function TTaken(m: nat, fd: int): seq<Event> { TSent(m) + [ETaken(fd)] }
  function TDone(m: nat, ok: bool, fd: int): seq<Event> { TTaken(m, fd) + [EDone(ok)] }
  function TCalled(m: nat, ok: bool): seq<Event> { TTaken(m, 0) + [EDone(ok), ECallback(StatusOf(ok))] }
  function TAnswered(m: nat, status: int, fd: int): seq<Event> { TSent(m) + [EAnswered(status, fd)] }
  function TSource(m: nat, src: Source): seq<Event> {
    match src case FromDevice(ok, fd) => TDone(m, ok, fd) case Direct(st, fd) => TAnswered(m, st, fd)
  }
  function TPublished(c: Call, m: nat, src: Source): seq<Event> {
    TSource(m, src) + [EPublished(SourceStatus(src), SourceBytes(c, src))]
  }
  function TResult(c: Call, m: nat, src: Source): seq<Event> {
    TPublished(c, m, src) + [EResult(Value(c, SourceStatus(src), SourceBytes(c, src), src.fd))]
  }

  /** The whole history of a request at a stage. */
  function TraceOf(c: Call, g: Stage): seq<Event> {
    match g
    case SHeld(m) => [EAlloc(m)]
    case SBusy(m) => [EAlloc(m)] + [EBusy]
    case SQueued(m) => TSent(m)
    case SAtDevice(m, fd) => TTaken(m, fd)
    case SDone(m, ok, fd) => TDone(m, ok, fd)
    case SCalled(m, ok) => TCalled(m, ok)
    case SAnswered(m, st, fd) => TAnswered(m, st, fd)
    case SPublished(m, src) => TPublished(c, m, src)
    case SResult(m, src) => TResult(c, m, src)
    case SGoneBusy(m) => [EAlloc(m)] + [EBusy] + [EFreed]
    case SGoneCalled(m, ok) => TCalled(m, ok) + [EFreed]
    case SGone(m, src) => TResult(c, m, src) + [EFreed]
  }

  /** Stages a request of this kind can be in: only an asynchronous one is
      called back, only a synchronous one is completed through its message, a
      batch submission never gets to a device, and only an open has a slot. */
  predicate Fits(c: Call, g: Stage) {
    match g
    case SAtDevice(_, fd) => GoesToDevice(c.kind) && SlotFits(c, fd)
    case SDone(_, _, fd) => !c.async && GoesToDevice(c.kind) && SlotFits(c, fd)
    case SCalled(_, _) => c.async && GoesToDevice(c.kind)
    case SGoneCalled(_, _) => c.async && GoesToDevice(c.kind)
    case SAnswered(_, st, fd) => AnswerFits(c, st) && SlotFits(c, fd)
    case SPublished(_, src) => (c.async ==> src.Direct?) && SourceFits(c, src)
    case SResult(_, src) => !c.async && SourceFits(c, src)
    case SGone(_, src) => !c.async && SourceFits(c, src)
    case _ => true
  }

  predicate SlotFits(c: Call, fd: int) { !HasResult(c.kind) ==> fd == 0 }

  /** The calls that a device layer completes. */
  predicate GoesToDevice(k: Kind) { k.Open? || IsIo(k) || k.Flush? }

  /** Those are answered at once with errors only. */
  predicate AnswerFits(c: Call, status: int) {
    && (c.kind.BatchSubmit? ==> status == INVALID)
    && (GoesToDevice(c.kind) ==> status < 0)
  }

  predicate SourceFits(c: Call, src: Source) {
    match src
    case FromDevice(_, fd) => GoesToDevice(c.kind) && SlotFits(c, fd)
    case Direct(status, fd) => AnswerFits(c, status) && SlotFits(c, fd)
  }

  // ------------------------------------------------------------ invariant

  /** What the message's fields are at a stage. */
  predicate Fields(msg: Msg, g: Stage) {
    match g
    case SHeld(_) => !msg.completed && msg.status == SUCCESS && msg.bytes == 0
    case SBusy(_) => !msg.completed
    case SQueued(_) => !msg.completed && msg.status == SUCCESS && msg.bytes == 0
    case SAtDevice(_, fd) => !msg.completed && msg.bytes == 0 && msg.resultFd == fd
    case SDone(_, ok, fd) => !msg.completed && msg.status == StatusOf(ok) && msg.resultFd == fd
    case SCalled(_, _) => !msg.completed
    case SAnswered(_, st, fd) => !msg.completed && msg.status == st && msg.bytes == 0 && msg.resultFd == fd
    case SPublished(_, src) =>
      && msg.completed && msg.status == SourceStatus(src) && msg.bytes == SourceBytes(msg.call, src)
      && msg.resultFd == src.fd
    case _ => true
  }

  /** What the SPDK thread has recorded about the message at a stage. */
  predicate PhaseFits(msg: Msg, p: Phase, g: Stage) {
    match g
    case SAtDevice(_, _) => p.AtDevice? && (p.bounced ==> IsReading(msg.call.kind))
    case SDone(_, ok, fd) =>
      if msg.call.kind.Open? then p.Marking? && msg.bytes == 0
      else
        || (p.StatusWritten? && p.ok == ok && (p.bounced ==> IsReading(msg.call.kind)))
        || (p.BytesWritten? && p.ok == ok && (p.bounced ==> IsReading(msg.call.kind))
            && msg.bytes == SourceBytes(msg.call, FromDevice(ok, fd)))
    case SCalled(_, ok) => p == CalledBack(ok)
    case SAnswered(_, _, _) => p.Marking?
    case _ => false
  }

  /** What the client whose call it is is doing at a stage. */
  predicate ClientFits(c: Call, pc: Client, r: nat, g: Stage) {
    match g
    case SHeld(m) => pc == Holding(m, r)
    case SBusy(m) => pc == Releasing(m, r)
    case SResult(m, _) => pc == Releasing(m, r)
    case SPublished(m, _) => c.async || pc == Waiting(m, r) || pc == Seen(m, r)
    case _ => Live(g) && (c.async || pc == Waiting(g.m, r))
  }

  predicate AtSpdk(g: Stage) { g.SAtDevice? || g.SDone? || g.SCalled? || g.SAnswered? }

  ghost predicate Histories(s: State, g: seq<Stage>) {
    && |s.calls| == |s.hist| == |g|
    && forall r | 0 <= r < |g| ::
         WellFormed(s.calls[r]) && Fits(s.calls[r], g[r]) && s.hist[r] == TraceOf(s.calls[r], g[r])
  }

  /** A live request owns its message, and the message is where the stage says
      it is. */
  ghost predicate RequestOk(s: State, c: Call, r: nat, g: Stage) {
    && g.m < |s.mem.msgs| && g.m !in s.mem.pool
    && s.mem.msgs[g.m].req == r && s.mem.msgs[g.m].call == c
    && Fields(s.mem.msgs[g.m], g)
    && ClientFits(c, ClientOf(s, c.client), r, g)
    && (g.SQueued? <==> g.m in s.mem.ring)
    && (AtSpdk(g) <==> g.m in s.mem.spdk)
    && (AtSpdk(g) ==> PhaseFits(s.mem.msgs[g.m], s.mem.spdk[g.m], g))
  }

  ghost predicate Requests(s: State, g: seq<Stage>)
    requires |s.calls| == |g|
  {
    forall r | 0 <= r < |g| && Live(g[r]) :: RequestOk(s, s.calls[r], r, g[r])
  }

  /** A message outside the pool belongs to a live request. */
  ghost predicate Owned(s: State, g: seq<Stage>) {
    forall m: nat | m < |s.mem.msgs| && m !in s.mem.pool ::
      s.mem.msgs[m].req < |g| && Live(g[s.mem.msgs[m].req]) && g[s.mem.msgs[m].req].m == m
  }

  /** The pool holds each of its messages once, and none of them is also on the
      ring, with the SPDK thread or in a client's hands. */
  ghost predicate PoolApart(s: State) {
    && (forall m | m in s.mem.pool :: m < |s.mem.msgs| && s.mem.pool[m] == 1)
    && (forall m | m in s.mem.spdk :: m < |s.mem.msgs| && m !in s.mem.pool)
    && (forall m | m in s.mem.ring :: m < |s.mem.msgs| && m !in s.mem.pool)
    && (forall i, j | 0 <= i < j < |s.mem.ring| :: s.mem.ring[i] != s.mem.ring[j])
  }

  /** A client in a call holds the message of its own live request. */
  ghost predicate ClientOk(calls: seq<Call>, g: seq<Stage>, c: nat, pc: Client)
    requires |calls| == |g|
  {
    !pc.Idle? ==>
      && pc.r < |g| && Live(g[pc.r]) && g[pc.r].m == pc.m && calls[pc.r].client == c
      && (calls[pc.r].async ==> pc.Holding? || pc.Releasing?)
      && (pc.Holding? ==> g[pc.r].SHeld?)
      && (pc.Seen? ==> g[pc.r].SPublished?)
      && (pc.Releasing? ==> g[pc.r].SBusy? || g[pc.r].SResult?)
  }

  ghost predicate Clients(s: State, g: seq<Stage>)
    requires |s.calls| == |g|
  {
    forall c | c in s.clients :: ClientOk(s.calls, g, c, s.clients[c])
  }

  /** What the ring holds is what it took and has not given out, in order. */
  ghost predicate Fifo(s: State) {
    && |s.sent| == |s.polled| + |s.mem.ring|
    && s.polled <= s.sent
    && forall i | 0 <= i < |s.mem.ring| ::
         s.mem.ring[i] < |s.mem.msgs| && s.sent[|s.polled| + i] == s.mem.msgs[s.mem.ring[i]].req
  }

  ghost predicate Inv(s: State, g: seq<Stage>) {
    Histories(s, g) && Requests(s, g) && Owned(s, g) && PoolApart(s) && Clients(s, g) && Fifo(s)
  }

  lemma InitInv(s: State)
    requires Init(s)
    ensures Inv(s, [])
  {
  }

  // ---------------------------------------------- one request moves on

  /** Nothing about other messages changes between `s` and `s'`. */
  ghost predicate SameMessages(s: State, s': State, m: nat) {
    && |s'.mem.msgs| == |s.mem.msgs|
    && (forall k: nat | k < |s.mem.msgs| && k != m ::
          && s'.mem.msgs[k] == s.mem.msgs[k]
          && (k in s'.mem.pool <==> k in s.mem.pool)
          && (k in s'.mem.ring <==> k in s.mem.ring)
          && (k in s'.mem.spdk <==> k in s.mem.spdk)
          && (k in s.mem.spdk ==> s'.mem.spdk[k] == s.mem.spdk[k]))
  }

  /** Only client `c` may have moved, and only if it is in the call of `r`. */
  ghost predicate SameClients(s: State, s': State, c: nat, r: nat) {
    && s'.clients.Keys <= s.clients.Keys + {c}
    && s.clients.Keys <= s'.clients.Keys
    && (forall d | d in s.clients && d != c :: s'.clients[d] == s.clients[d])
    && (ClientOf(s', c) == ClientOf(s, c) || (!ClientOf(s, c).Idle? && ClientOf(s, c).r == r))
  }

  lemma OthersKeepRequests(s: State, s': State, g: seq<Stage>, r: nat, st: Stage)
    requires Inv(s, g) && r < |g| && Live(g[r]) && s'.calls == s.calls
    requires SameMessages(s, s', g[r].m) && SameClients(s, s', s.calls[r].client, r)
    requires Live(st) ==> RequestOk(s', s.calls[r], r, st)
    ensures Requests(s', g[r := st])
  {
    var g' := g[r := st];
    forall q | 0 <= q < |g'| && Live(g'[q])
      ensures RequestOk(s', s'.calls[q], q, g'[q])
    {
      if q != r {
        assert RequestOk(s, s.calls[q], q, g[q]) && RequestOk(s, s.calls[r], r, g[r]);
        assert g[q].m != g[r].m;
        var d := s.calls[q].client;
        if ClientOf(s', d) != ClientOf(s, d) {
          assert d == s.calls[r].client && ClientOf(s, d).r == r;
          assert ClientFits(s.calls[q], ClientOf(s', d), q, g[q]);
        }
      }
    }
  }

  lemma OthersKeepOwned(s: State, s': State, g: seq<Stage>, r: nat, st: Stage)
    requires Inv(s, g) && r < |g| && Live(g[r]) && st.m == g[r].m
    requires SameMessages(s, s', g[r].m)
    requires Live(st) ==> RequestOk(s', s.calls[r], r, st)
    requires !Live(st) ==> g[r].m in s'.mem.pool
    ensures Owned(s', g[r := st])
  {
    var g' := g[r := st];
    forall m: nat | m < |s'.mem.msgs| && m !in s'.mem.pool
      ensures s'.mem.msgs[m].req < |g'| && Live(g'[s'.mem.msgs[m].req]) && g'[s'.mem.msgs[m].req].m == m
    {
      if m != g[r].m {
        assert m !in s.mem.pool && s'.mem.msgs[m] == s.mem.msgs[m];
        assert s.mem.msgs[m].req != r;
      }
    }
  }

  lemma OthersKeepClients(s: State, s': State, g: seq<Stage>, r: nat, st: Stage)
    requires Inv(s, g) && r < |g| && Live(g[r]) && s'.calls == s.calls
    requires SameClients(s, s', s.calls[r].client, r)
    requires ClientOk(s.calls, g[r := st], s.calls[r].client, ClientOf(s', s.calls[r].client))
    ensures Clients(s', g[r := st])
  {
    var g' := g[r := st];
    forall c | c in s'.clients
      ensures ClientOk(s'.calls, g', c, s'.clients[c])
    {
      if c != s.calls[r].client {
        assert ClientOk(s.calls, g, c, s.clients[c]);
      }
    }
  }

  /** Everything a step has to show when one request moves to stage `st`. */
  lemma Advance(s: State, s': State, g: seq<Stage>, r: nat, st: Stage)
    requires Inv(s, g) && r < |g| && Live(g[r]) && st.m == g[r].m
    requires s'.calls == s.calls && s'.hist == s.hist[r := TraceOf(s.calls[r], st)] && Fits(s.calls[r], st)
    requires SameMessages(s, s', g[r].m) && SameClients(s, s', s.calls[r].client, r)
    requires Live(st) ==> RequestOk(s', s.calls[r], r, st)
    requires !Live(st) ==> g[r].m in s'.mem.pool
    requires ClientOk(s.calls, g[r := st], s.calls[r].client, ClientOf(s', s.calls[r].client))
    requires PoolApart(s') && Fifo(s')
    ensures Inv(s', g[r := st])
  {
    OthersKeepRequests(s, s', g, r, st);
    OthersKeepOwned(s, s', g, r, st);
    OthersKeepClients(s, s', g, r, st);
  }

  /** A message outside the pool, seen from its request. */
  lemma OwnerOf(s: State, g: seq<Stage>, m: nat)
    requires Inv(s, g) && m < |s.mem.msgs| && m !in s.mem.pool
    ensures ReqOf(s, m) < |g| && Live(g[ReqOf(s, m)]) && g[ReqOf(s, m)].m == m
    ensures RequestOk(s, s.calls[ReqOf(s, m)], ReqOf(s, m), g[ReqOf(s, m)])
  {
  }

  /** A client in a call, seen from its request. */
  lemma CallerOf(s: State, g: seq<Stage>, c: nat)
    requires Inv(s, g) && !ClientOf(s, c).Idle?
    ensures var pc := ClientOf(s, c);
            && ClientOk(s.calls, g, c, pc)
            && pc.m < |s.mem.msgs| && pc.m !in s.mem.pool && ReqOf(s, pc.m) == pc.r
            && RequestOk(s, s.calls[pc.r], pc.r, g[pc.r])
  {
  }

  // ------------------------------------------------- two kinds of steps

  /** Pool and ring are as they were; message `m` keeps its request; nothing
      enters the SPDK thread's hands. */
  ghost predicate QuietMem(a: Mem, b: Mem, m: nat)
    requires m < |a.msgs|
  {
    && b.ring == a.ring && b.pool == a.pool
    && |b.msgs| == |a.msgs| && b.msgs == a.msgs[m := b.msgs[m]] && b.msgs[m].req == a.msgs[m].req
    && b.spdk - {m} == a.spdk - {m} && b.spdk.Keys <= a.spdk.Keys
  }

  ghost predicate ClientMoves(s: State, s': State, c: nat, r: nat) {
    || s'.clients == s.clients
    || (!ClientOf(s, c).Idle? && ClientOf(s, c).r == r && s'.clients == s.clients[c := ClientOf(s', c)])
  }

  lemma QuietFrame(s: State, s': State, m: nat)
    requires m < |s.mem.msgs| && QuietMem(s.mem, s'.mem, m)
    ensures SameMessages(s, s', m)
  {
    forall k: nat | k < |s.mem.msgs| && k != m
      ensures k in s'.mem.spdk <==> k in s.mem.spdk
      ensures k in s.mem.spdk ==> s'.mem.spdk[k] == s.mem.spdk[k]
    {
      assert k in s'.mem.spdk <==> k in s'.mem.spdk - {m};
      assert k in s.mem.spdk <==> k in s.mem.spdk - {m};
      if k in s.mem.spdk {
        assert (s'.mem.spdk - {m})[k] == (s.mem.spdk - {m})[k];
      }
    }
  }

  lemma MovesFrame(s: State, s': State, c: nat, r: nat)
    requires ClientMoves(s, s', c, r)
    ensures SameClients(s, s', c, r)
  {
  }

  lemma QuietPool(s: State, s': State, m: nat)
    requires PoolApart(s) && Fifo(s) && m < |s.mem.msgs| && QuietMem(s.mem, s'.mem, m)
    requires s'.sent == s.sent && s'.polled == s.polled
    ensures PoolApart(s') && Fifo(s')
  {
  }

  /** A step that leaves pool and ring alone. */
  lemma Quiet(s: State, s': State, g: seq<Stage>, r: nat, st: Stage)
    requires Inv(s, g) && r < |g| && Live(g[r]) && Live(st) && st.m == g[r].m < |s.mem.msgs|
    requires s'.calls == s.calls && s'.hist == s.hist[r := TraceOf(s.calls[r], st)] && Fits(s.calls[r], st)
    requires s'.sent == s.sent && s'.polled == s.polled
    requires QuietMem(s.mem, s'.mem, g[r].m) && ClientMoves(s, s', s.calls[r].client, r)
    requires RequestOk(s', s.calls[r], r, st)
    requires ClientOk(s.calls, g[r := st], s.calls[r].client, ClientOf(s', s.calls[r].client))
    ensures Inv(s', g[r := st])
  {
    QuietFrame(s, s', g[r].m);
    MovesFrame(s, s', s.calls[r].client, r);
    QuietPool(s, s', g[r].m);
    Advance(s, s', g, r, st);
  }

  /** A message goes back to the pool; it is nowhere else. */
  ghost predicate FreeingMem(a: Mem, b: Mem, m: nat) {
    && b.ring == a.ring && b.msgs == a.msgs && b.pool == a.pool + multiset{m}
    && b.spdk == a.spdk - {m} && m !in a.ring
  }

  lemma FreeingPool(s: State, s': State, m: nat)
    requires PoolApart(s) && Fifo(s) && m < |s.mem.msgs| && m !in s.mem.pool && FreeingMem(s.mem, s'.mem, m)
    requires s'.sent == s.sent && s'.polled == s.polled
    ensures PoolApart(s') && Fifo(s') && SameMessages(s, s', m) && m in s'.mem.pool
  {
  }

  lemma Freeing(s: State, s': State, g: seq<Stage>, r: nat, st: Stage)
    requires Inv(s, g) && r < |g| && Live(g[r]) && !Live(st) && st.m == g[r].m < |s.mem.msgs|
    requires g[r].m !in s.mem.pool
    requires s'.calls == s.calls && s'.hist == s.hist[r := TraceOf(s.calls[r], st)] && Fits(s.calls[r], st)
    requires s'.sent == s.sent && s'.polled == s.polled
    requires FreeingMem(s.mem, s'.mem, g[r].m) && ClientMoves(s, s', s.calls[r].client, r)
    requires ClientOk(s.calls, g[r := st], s.calls[r].client, ClientOf(s', s.calls[r].client))
    ensures Inv(s', g[r := st])
  {
    FreeingPool(s, s', g[r].m);
    MovesFrame(s, s', s.calls[r].client, r);
    Advance(s, s', g, r, st);
  }
}
