/** The message layer: pooled messages, the ring between clients and the SPDK
    thread, and the poller that takes messages off the ring and runs their
    handlers. */
module Messages {
  import opened Codes
  import opened Blocks
  import opened Descriptors
  import BlockIo

  datatype Kind =
    | Open | Close | Read | Write | Readv | Writev | BatchSubmit | Flush
    | ListBdevs | GetInfo | QosSetLimits | QosGetLimits | GetPerfStats | ResetPerfStats
    | Trim | WriteZeros | Shutdown

  /** What a caller asks for; `async` says that nobody waits for the message. */
  datatype Call = Call(kind: Kind, async: bool, client: nat, fd: int, flags: Flags, addr: nat, count: nat)

  predicate IsIo(k: Kind) { k.Read? || k.Write? || k.Readv? || k.Writev? }

  predicate IsReading(k: Kind) { k.Read? || k.Readv? }

  /** The calls that get past the public functions' own argument tests. Only reads
      and writes have an asynchronous form, a batch submission has no other, and
      nothing reads or writes zero bytes. */
  predicate WellFormed(c: Call) {
    && (c.async ==> IsIo(c.kind) || c.kind.BatchSubmit?)
    && (c.kind.BatchSubmit? ==> c.async)
    && (IsIo(c.kind) ==> c.count > 0)
  }

  /** A pool element; `req` numbers the call that uses it. */
  datatype Msg = Msg(call: Call, req: nat, completed: bool, status: int, bytes: int, resultFd: int)

  /** How far the SPDK thread has got with a message it has taken:
      status written but not yet marked; waiting for the device; status, then
      byte count written by the completion; user callback run. */
  datatype Phase =
    | Marking
    | AtDevice(bounced: bool)
    | StatusWritten(ok: bool, bounced: bool)
    | BytesWritten(ok: bool, bounced: bool)
    | CalledBack(ok: bool)

  /** The shared memory of the library. The pool is a multiset because nothing
      stops the code from putting an element back twice. */
  datatype Mem = Mem(
    msgs: seq<Msg>, pool: multiset<nat>, ring: seq<nat>, capacity: nat,
    spdk: map<nat, Phase>, table: Table, running: bool, processed: nat, ioOps: nat)

  // ---------------------------------------------------- pool and ring

  function Zeroed(c: Call, req: nat): Msg { Msg(c, req, false, SUCCESS, 0, 0) }

  function Alloc(m: Mem, id: nat, c: Call, req: nat): Mem
    requires id < |m.msgs|
  {
    m.(pool := m.pool - multiset{id}, msgs := m.msgs[id := Zeroed(c, req)])
  }

  function Free(m: Mem, id: nat): Mem { m.(pool := m.pool + multiset{id}) }

  function Enqueue(m: Mem, id: nat): Mem { m.(ring := m.ring + [id]) }

  predicate HasRoom(m: Mem) { |m.ring| < m.capacity }

  // ------------------------------------------------------------- handlers

  /** The environment's part in one handler: whether the named device exists,
      its block size, whether a DMA buffer can be had, whether the device layer
      takes the request, and what the handlers outside this model answer or, for a
      listing, how many devices it finds. */
  datatype Env = Env(found: bool, blockSize: nat, allocOk: bool, submitOk: bool, other: int)

  /** A handler either answers at once or hands the request to the device. */
  datatype Verdict = Answer(status: int) | Submit(bounced: bool)

  datatype Handled = Handled(table: Table, verdict: Verdict, fd: int)

  function HandleOpen(t: Table, c: Call, e: Env): Handled {
    if !e.found then Handled(t, Answer(NODEV), 0) else
      var fd := FirstFree(t, 0);
      if fd < 0 then Handled(t, Answer(fd), 0)
      else if !e.submitOk then Handled(Put(Claim(t, fd, c.flags), fd), Answer(IO_ERROR), fd)
      else Handled(Claim(t, fd, c.flags), Submit(false), fd)
  }

  function HandleIo(t: Table, c: Call, e: Env): Verdict
    requires e.blockSize > 0
  {
    if !Valid(t, c.fd) || !BlockIo.Admits(t[c.fd], IsReading(c.kind)) then Answer(INVALID)
    else
      var bounce := !IsReading(c.kind) || BlockIo.NeedsBounce(c.addr, c.count, e.blockSize);
      if bounce && !e.allocOk then Answer(NOMEM)
      else if !e.submitOk then Answer(IO_ERROR)
      else Submit(IsReading(c.kind) && bounce)
  }

  function Handle(t: Table, c: Call, e: Env): Handled
    requires e.blockSize > 0
  {
    match c.kind
    case Open => HandleOpen(t, c, e)
    case Close => if Valid(t, c.fd) then Handled(Clear(t, c.fd), Answer(SUCCESS), 0) else Handled(t, Answer(INVALID), 0)
    case Read => Handled(t, HandleIo(t, c, e), 0)
    case Write => Handled(t, HandleIo(t, c, e), 0)
    case Readv => Handled(t, HandleIo(t, c, e), 0)
    case Writev => Handled(t, HandleIo(t, c, e), 0)
    case Flush =>
      Handled(t,
              if !Ready(t, c.fd) then Answer(INVALID) else if !e.submitOk then Answer(IO_ERROR) else Submit(false), 0)
    case BatchSubmit => Handled(t, Answer(INVALID), 0)
    case ListBdevs => Handled(t, Answer(SUCCESS), if e.other < 0 then 0 else e.other)
    case GetInfo => Handled(t, Answer(if Valid(t, c.fd) && t[c.fd].bdev then SUCCESS else INVALID), 0)
    case QosSetLimits => Handled(t, Answer(if Valid(t, c.fd) then e.other else INVALID), 0)
    case QosGetLimits => Handled(t, Answer(if Valid(t, c.fd) then SUCCESS else INVALID), 0)
    case GetPerfStats => Handled(t, Answer(if Valid(t, c.fd) then SUCCESS else INVALID), 0)
    case ResetPerfStats => Handled(t, Answer(if Valid(t, c.fd) then SUCCESS else INVALID), 0)
    case Trim => Handled(t, Answer(if !Valid(t, c.fd) then INVALID else StatusOf(e.submitOk)), 0)
    case WriteZeros => Handled(t, Answer(if !Valid(t, c.fd) then INVALID else StatusOf(e.submitOk)), 0)
    case Shutdown => Handled(t, Answer(SUCCESS), 0)
  }

  /** The handlers change the descriptor table exactly as the steps of its own
      model do: an open begins, a close shuts, nothing else touches it. */
  lemma HandlersStepTable(o: Opens, c: Call, e: Env, r: nat)
    requires e.blockSize > 0 && CanStep(o, Begin(r, c.flags, e.submitOk))
    ensures c.kind.Open? && e.found ==>
              var h, o' := Handle(o.table, c, e), TakeStep(o, Begin(r, c.flags, e.submitOk));
              && h.table == o'.table
              && (h.verdict.Submit? <==> r in o'.opening)
              && (h.verdict.Submit? ==> h.fd == o'.opening[r])
    ensures c.kind.Open? && !e.found ==> Handle(o.table, c, e) == Handled(o.table, Answer(NODEV), 0)
    ensures c.kind.Close? ==>
              && Handle(o.table, c, e).table == TakeStep(o, Shut(c.fd)).table
              && Handle(o.table, c, e).verdict == Answer(if Valid(o.table, c.fd) then SUCCESS else INVALID)
    ensures !c.kind.Open? && !c.kind.Close? ==> Handle(o.table, c, e).table == o.table
  {
  }

  // What each handler answers, stated on the fields of the slots alone.

  ghost predicate InUse(t: Table, fd: int) { 0 <= fd < |t| && t[fd].inUse }

  ghost predicate Attached(t: Table, fd: int) { InUse(t, fd) && t[fd].bdev && t[fd].desc && t[fd].channel }

  /** An open is answered NODEV exactly if there is no such device, NOMEM exactly if
      all slots are in use, IO_ERROR exactly if the device layer refuses it, and is
      passed on otherwise, with the lowest free slot. */
  lemma OpenAnswers(t: Table, c: Call, e: Env)
    requires e.blockSize > 0 && c.kind.Open?
    ensures var h, full := Handle(t, c, e), forall i | 0 <= i < |t| :: t[i].inUse;
            && (h.verdict == Answer(NODEV) <==> !e.found)
            && (h.verdict == Answer(NOMEM) <==> e.found && full)
            && (h.verdict == Answer(IO_ERROR) <==> e.found && !full && !e.submitOk)
            && (h.verdict == Submit(false) <==> e.found && !full && e.submitOk)
            && (h.verdict == Submit(false) ==>
                  && 0 <= h.fd < |t| == |h.table| && !t[h.fd].inUse && (forall i | 0 <= i < h.fd :: t[i].inUse)
                  && h.table[h.fd] == t[h.fd].(inUse := true, bdev := true, flags := c.flags))
  {
  }

  /** A flush is answered INVALID exactly if its slot is not in use or lacks
      device, handle or channel, IO_ERROR exactly if the device layer refuses it,
      and is passed on otherwise. */
  lemma FlushAnswers(t: Table, c: Call, e: Env)
    requires e.blockSize > 0 && c.kind.Flush?
    ensures var v := Handle(t, c, e).verdict;
            && (v == Answer(INVALID) <==> !Attached(t, c.fd))
            && (v == Answer(IO_ERROR) <==> Attached(t, c.fd) && !e.submitOk)
            && (v == Submit(false) <==> Attached(t, c.fd) && e.submitOk)
  {
  }

  /** A read or write is answered INVALID exactly if its slot is not attached or,
      for a read, has the write-only bit; NOMEM exactly if it then needs a DMA
      buffer and gets none; IO_ERROR exactly if the device layer refuses it. */
  lemma IoAnswers(t: Table, c: Call, e: Env)
    requires e.blockSize > 0 && IsIo(c.kind)
    ensures var v := Handle(t, c, e).verdict;
            var reading := c.kind.Read? || c.kind.Readv?;
            var admitted := Attached(t, c.fd) && (reading ==> t[c.fd].flags.bits & 1 == 0);
            var buffer := !reading || c.addr % e.blockSize != 0 || c.count % e.blockSize != 0;
            && (v == Answer(INVALID) <==> !admitted)
            && (v == Answer(NOMEM) <==> admitted && buffer && !e.allocOk)
            && (v == Answer(IO_ERROR) <==> admitted && (buffer ==> e.allocOk) && !e.submitOk)
            && (v == Submit(reading && buffer) <==> admitted && (buffer ==> e.allocOk) && e.submitOk)
  {
    if InUse(t, c.fd) {
      MaskZero(t[c.fd].flags.bits);
    }
  }

  lemma MaskZero(flags: bv32)
    ensures flags & 0 == 0
  {
  }

  /** The handlers that answer at once. */
  lemma DirectAnswers(t: Table, c: Call, e: Env)
    requires e.blockSize > 0
    ensures var h := Handle(t, c, e);
            match c.kind
            case Close => h.verdict == Answer(if InUse(t, c.fd) then SUCCESS else INVALID)
            case GetInfo => h.verdict == Answer(if InUse(t, c.fd) && t[c.fd].bdev then SUCCESS else INVALID)
            case GetPerfStats => h.verdict == Answer(if InUse(t, c.fd) then SUCCESS else INVALID)
            case ResetPerfStats => h.verdict == Answer(if InUse(t, c.fd) then SUCCESS else INVALID)
            case QosGetLimits => h.verdict == Answer(if InUse(t, c.fd) then SUCCESS else INVALID)
            case QosSetLimits => !InUse(t, c.fd) ==> h.verdict == Answer(INVALID)
            case Trim =>
              h.verdict == Answer(if !InUse(t, c.fd) then INVALID else if e.submitOk then SUCCESS else IO_ERROR)
            case WriteZeros =>
              h.verdict == Answer(if !InUse(t, c.fd) then INVALID else if e.submitOk then SUCCESS else IO_ERROR)
            case ListBdevs => h.verdict == Answer(SUCCESS) && h.fd >= 0 && (e.other >= 0 ==> h.fd == e.other)
            case BatchSubmit => h.verdict == Answer(INVALID)
            case _ => true
  {
  }

  /** The handler of `c` gets as far as calling the device layer with the handle of
      its slot. */
  predicate CallsDevice(t: Table, c: Call, e: Env)
    requires e.blockSize > 0
  {
    if IsIo(c.kind) then
      && Valid(t, c.fd) && BlockIo.Admits(t[c.fd], IsReading(c.kind))
      && (!IsReading(c.kind) || BlockIo.NeedsBounce(c.addr, c.count, e.blockSize) ==> e.allocOk)
    else if c.kind.Flush? then Ready(t, c.fd)
    else (c.kind.Trim? || c.kind.WriteZeros?) && Valid(t, c.fd)
  }

  /** A handler passes a null handle to the device layer exactly when it is that of
      a trim or write-zeros on a slot in use that has none: those two test nothing
      but whether the slot is in use, and otherwise report what the device layer
      says. Reads, writes and flushes never do. */
  lemma NullHandleIff(t: Table, c: Call, e: Env)
    requires e.blockSize > 0
    ensures CallsDevice(t, c, e) && !t[c.fd].desc <==>
              (c.kind.Trim? || c.kind.WriteZeros?) && Valid(t, c.fd) && !t[c.fd].desc
    ensures IsIo(c.kind) || c.kind.Flush? ==> (Handle(t, c, e).verdict.Submit? <==> CallsDevice(t, c, e) && e.submitOk)
    ensures c.kind.Trim? || c.kind.WriteZeros? ==>
              Handle(t, c, e).verdict == Answer(if CallsDevice(t, c, e) then StatusOf(e.submitOk) else INVALID)
  {
  }

  /** The dispatcher agrees with the handlers that move the bytes, where its
      environment's answer to the submission is that of the device layer, range
      test included: a read or write is handed to the device exactly when they
      would, with a bounce buffer exactly when they use one, and otherwise gets
      the answer they give. A write past its padded buffer is undefined there. */
  lemma DispatchAgreesWithIo(t: Table, c: Call, e: Env, numBlocks: nat, offset: nat, io: BlockIo.Env)
    requires e.blockSize > 0 && IsIo(c.kind) && e.allocOk == io.allocOk
    requires e.submitOk <==> io.submitOk
                             && FirstBlock(offset, e.blockSize) + NumBlocks32(c.count, e.blockSize) <= numBlocks
    ensures var v, bs := Handle(t, c, e).verdict, e.blockSize;
            if !Valid(t, c.fd) then v == Answer(INVALID)
            else if IsReading(c.kind) then
              && (v.Submit? <==> BlockIo.TakesRead(t[c.fd], numBlocks, bs, c.addr, c.count, offset, io))
              && (v.Submit? ==> (v.bounced <==> BlockIo.NeedsBounce(c.addr, c.count, bs)))
              && (v.Answer? ==> BlockIo.FlagOutcome(t[c.fd], numBlocks, bs, c.addr, c.count, offset, io)
                                == BlockIo.Failed(v.status))
            else
              && (v.Submit? <==> BlockIo.TakesWrite(t[c.fd], numBlocks, bs, c.count, offset, io))
              && (v.Submit? ==> !v.bounced)
              && (v.Answer? ==>
                    BlockIo.WriteOutcome(t[c.fd], numBlocks, bs, c.count, offset, io)
                    in {BlockIo.Failed(v.status), BlockIo.Overrun})
  {
  }

  // --------------------------------------------------------------- poller

  ghost predicate Queued(m: Mem) {
    && (forall i | 0 <= i < |m.ring| :: m.ring[i] < |m.msgs| && m.ring[i] !in m.spdk)
    && (forall i, j | 0 <= i < j < |m.ring| :: m.ring[i] != m.ring[j])
  }

  function Wrap(x: nat): nat { x % TWO64 }

  /** Take the oldest message off the ring and run its handler up to the point
      where it has written an answer's status or submitted to the device. */
  function Take(m: Mem, e: Env): Mem
    requires m.ring != [] && m.ring[0] < |m.msgs| && e.blockSize > 0
  {
    var id := m.ring[0];
    var c := m.msgs[id].call;
    var h := Handle(m.table, c, e);
    var m1 := m.(ring := m.ring[1..], table := h.table, processed := Wrap(m.processed + 1),
                 ioOps := if IsIo(c.kind) then Wrap(m.ioOps + 1) else m.ioOps,
                 running := m.running && !c.kind.Shutdown?);
    match h.verdict
    case Answer(status) =>
      m1.(spdk := m.spdk[id := Marking], msgs := m.msgs[id := m.msgs[id].(status := status, resultFd := h.fd)])
    case Submit(bounced) =>
      m1.(spdk := m.spdk[id := AtDevice(bounced)], msgs := m.msgs[id := m.msgs[id].(resultFd := h.fd)])
  }

  /** Set the completion flag: the last thing done to an answered message. */
  function Mark(m: Mem, id: nat): Mem
    requires id < |m.msgs|
  {
    m.(spdk := m.spdk - {id}, msgs := m.msgs[id := m.msgs[id].(completed := true)])
  }

  /** One turn of the dispatch loop. */
  function PollOnce(m: Mem, e: Env): Mem
    requires m.ring != [] ==> m.ring[0] < |m.msgs|
    requires e.blockSize > 0
  {
    if m.ring == [] then m else
      var m1 := Take(m, e);
      if m1.spdk[m.ring[0]].Marking? then Mark(m1, m.ring[0]) else m1
  }

  lemma PollOnceQueued(m: Mem, e: Env)
    requires Queued(m) && e.blockSize > 0
    ensures Queued(PollOnce(m, e)) && |PollOnce(m, e).msgs| == |m.msgs|
  {
  }

  /** The effect of one turn, field by field, without the intermediate state in
      which an answered message is in the SPDK thread's hands. */
  lemma PollOnceFields(m: Mem, b: Mem, e: Env, h: Handled)
    requires m.ring != [] && m.ring[0] < |m.msgs| && m.ring[0] !in m.spdk && e.blockSize > 0
    requires var c := m.msgs[m.ring[0]].call;
             && h == Handle(m.table, c, e)
             && b.pool == m.pool && b.capacity == m.capacity && b.ring == m.ring[1..] && b.table == h.table
             && b.processed == Wrap(m.processed + 1) && b.ioOps == (if IsIo(c.kind) then Wrap(m.ioOps + 1) else m.ioOps)
             && b.running == (m.running && !c.kind.Shutdown?)
    requires Settled(m, b, m.ring[0], h)
    ensures b == PollOnce(m, e)
  {
    assert m.spdk[m.ring[0] := Marking] - {m.ring[0]} == m.spdk;
  }

  /** What the end of a handler does to its message. */
  ghost predicate Settled(m: Mem, b: Mem, id: nat, h: Handled)
    requires id < |m.msgs|
  {
    match h.verdict
    case Answer(status) =>
      && b.msgs == m.msgs[id := m.msgs[id].(status := status, resultFd := h.fd, completed := true)]
      && b.spdk == m.spdk
    case Submit(bounced) =>
      && b.msgs == m.msgs[id := m.msgs[id].(resultFd := h.fd)]
      && b.spdk == m.spdk[id := AtDevice(bounced)]
  }

  ghost predicate GoodEnv(env: nat -> Env) { forall i :: env(i).blockSize > 0 }

  /** The poll of standard mode, `n` times, while the thread runs. */
  ghost function StandardPolls(m: Mem, env: nat -> Env, i: nat, n: nat): Mem
    requires Queued(m) && GoodEnv(env) && i <= n
    decreases n - i
  {
    if i == n || !m.running then m else
      PollOnceQueued(m, env(i));
      StandardPolls(PollOnce(m, env(i)), env, i + 1, n)
  }

  /** The dispatch loop of one poll with room for `n` messages: it also stops at
      an empty ring and right after a shutdown message. */
  ghost function PollLoop(m: Mem, env: nat -> Env, i: nat, n: nat): Mem
    requires Queued(m) && GoodEnv(env) && i <= n
    decreases n - i
  {
    if i == n || m.ring == [] then m else
      PollOnceQueued(m, env(i));
      var m1 := PollOnce(m, env(i));
      if m.msgs[m.ring[0]].call.kind.Shutdown? then m1 else PollLoop(m1, env, i + 1, n)
  }

  /** One turn of the loop. */
  lemma LoopTurn(m: Mem, env: nat -> Env, i: nat, n: nat)
    requires Queued(m) && GoodEnv(env) && i < n && m.ring != []
    ensures Queued(PollOnce(m, env(i)))
    ensures PollLoop(m, env, i, n) ==
              if m.msgs[m.ring[0]].call.kind.Shutdown? then PollOnce(m, env(i))
              else PollLoop(PollOnce(m, env(i)), env, i + 1, n)
  {
    PollOnceQueued(m, env(i));
  }

  /** Messages that one poll takes in turbo mode. */
  const TURBO_BATCH: nat := 32

  lemma {:induction false} IdlePolls(m: Mem, env: nat -> Env, i: nat, n: nat)
    requires Queued(m) && GoodEnv(env) && i <= n && (m.ring == [] || !m.running)
    ensures StandardPolls(m, env, i, n) == m
    decreases n - i
  {
    if i < n && m.running {
      IdlePolls(m, env, i + 1, n);
    }
  }

  lemma {:induction false} LoopIsPolls(m: Mem, env: nat -> Env, i: nat, n: nat)
    requires Queued(m) && GoodEnv(env) && i <= n && m.running
    ensures PollLoop(m, env, i, n) == StandardPolls(m, env, i, n)
    decreases n - i
  {
    if m.ring == [] {
      IdlePolls(m, env, i, n);
    } else if i < n {
      PollOnceQueued(m, env(i));
      var m1 := PollOnce(m, env(i));
      if m.msgs[m.ring[0]].call.kind.Shutdown? {
        IdlePolls(m1, env, i + 1, n);
      } else {
        LoopIsPolls(m1, env, i + 1, n);
      }
    }
  }

  /** One turbo poll does to the ring, the messages, the descriptor table, the
      counters and the device queue what 32 standard polls in a row do, for
      every ring content; polls after a shutdown or on an empty ring do nothing. */
  lemma TurboIsStandardPolls(m: Mem, env: nat -> Env)
    requires Queued(m) && GoodEnv(env) && m.running
    ensures PollLoop(m, env, 0, 32) == StandardPolls(m, env, 0, 32)
    ensures PollLoop(m, env, 0, 1) == StandardPolls(m, env, 0, 1)
  {
    LoopIsPolls(m, env, 0, TURBO_BATCH);
    LoopIsPolls(m, env, 0, 1);
  }

  // ------------------------------------------------------ the code's own form

  /** The global context, changed in place. */
  class Context {
    const msgs: array<Msg>
    const capacity: nat
    var pool: multiset<nat>
    var ring: seq<nat>
    var spdk: map<nat, Phase>
    var table: Table
    var running: bool
    var processed: nat
    var ioOps: nat

    ghost function View(): Mem
      reads this, msgs
    {
      Mem(msgs[..], pool, ring, capacity, spdk, table, running, processed, ioOps)
    }

    /** `xpdk_msg_alloc`, and the caller's filling in of the parameters: some
        free element, wiped. */
    method MsgAlloc(c: Call, req: nat) returns (id: Option<nat>)
      requires forall k | k in pool :: k < msgs.Length
      modifies this`pool, msgs
      ensures id == None <==> |old(pool)| == 0
      ensures id == None ==> View() == old(View())
      ensures id.Some? ==> id.value in old(pool) && View() == Alloc(old(View()), id.value, c, req)
    {
      if |pool| == 0 {
        return None;
      }
      var k :| k in pool;
      pool := pool - multiset{k};
      msgs[k] := Zeroed(c, req);
      return Some(k);
    }

    /** `xpdk_msg_free`. */
    method MsgFree(id: nat)
      modifies this`pool
      ensures View() == Free(old(View()), id)
    {
      pool := pool + multiset{id};
    }

    /** `xpdk_msg_send_async`, and the first half of `xpdk_msg_send_sync`. */
    method Send(id: nat) returns (rc: int)
      modifies this`ring
      ensures rc == if HasRoom(old(View())) then SUCCESS else BUSY
      ensures View() == if rc == SUCCESS then Enqueue(old(View()), id) else old(View())
    {
      if |ring| >= capacity {
        return BUSY;
      }
      ring := ring + [id];
      return SUCCESS;
    }

    /** `xpdk_msg_process_poller`: the dispatch loop, one message per poll in
        standard mode and up to 32 in turbo mode. */
    method Poll(turbo: bool, env: nat -> Env) returns (busy: bool)
      requires Queued(View()) && GoodEnv(env)
      modifies this, msgs
      ensures View() == PollLoop(old(View()), env, 0, if turbo then 32 else 1)
      ensures busy <==> old(ring) != []
      ensures Queued(View())
    {
      var maxBatch := if turbo then TURBO_BATCH else 1;
      var count := 0;
      var i := 0;
      while i < maxBatch
        invariant 0 <= i <= maxBatch
        invariant Queued(View())
        invariant PollLoop(old(View()), env, 0, maxBatch) == PollLoop(View(), env, i, maxBatch)
        invariant count > 0 <==> i > 0
        invariant i > 0 ==> old(ring) != []
        invariant i == 0 ==> ring == old(ring)
      {
        if ring == [] {
          break;
        }
        LoopTurn(View(), env, i, maxBatch);
        count := count + 1;
        var stop := Dispatch(env(i));
        if stop {
          return true;
        }
        i := i + 1;
      }
      busy := count > 0;
    }

    /** The body of the loop after the dequeue test. */
    method Dispatch(e: Env) returns (stop: bool)
      requires ring != [] && Queued(View()) && e.blockSize > 0
      modifies this, msgs
      ensures View() == PollOnce(old(View()), e)
      ensures stop <==> old(msgs[ring[0]].call.kind.Shutdown?)
    {
      var id := ring[0];
      ring := ring[1..];
      processed := Wrap(processed + 1);
      var c := msgs[id].call;
      if IsIo(c.kind) {
        ioOps := Wrap(ioOps + 1);
      }
      stop := c.kind.Shutdown?;
      if stop {
        running := false;
      }
      var h := Handle(table, c, e);
      table := h.table;
      Settle(id, h);
      PollOnceFields(old(View()), View(), e, h);
    }

    /** The end of a handler: either an answer in the message, or a request in
        the device's hands. */
    method Settle(id: nat, h: Handled)
      requires id < msgs.Length
      modifies this`spdk, msgs
      ensures Settled(old(View()), View(), id, h)
    {
      match h.verdict
      case Answer(status) =>
        msgs[id] := msgs[id].(status := status, resultFd := h.fd);
        msgs[id] := msgs[id].(completed := true);
      case Submit(bounced) =>
        msgs[id] := msgs[id].(resultFd := h.fd);
        spdk := spdk[id := AtDevice(bounced)];
    }
  }
}
