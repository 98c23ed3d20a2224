/** The batch context: two fixed arrays used as queues and shifted in place. Each
    method below is one critical section of the code, so it runs under the lock
    and nothing interleaves with it. */
module BatchContext {
  import opened Codes

  datatype IoType = ReadIo | WriteIo | FlushIo

  /** One batched operation; `id` stands for the caller's user context. */
  datatype BatchIo = BatchIo(op: IoType, fd: int, count: nat, offset: nat, id: nat, status: int)

  const NO_IO := BatchIo(FlushIo, 0, 0, 0, 0, 0)

  /** The largest queue a context may ask for. */
  const MAX_QUEUE: int := 1024

  /** What a context holds, as values: the two queues and their capacity. */
  datatype Queues = Queues(max: nat, pending: seq<BatchIo>, completed: seq<BatchIo>)

  function Reserved(q: Queues, io: BatchIo): Queues { q.(pending := q.pending + [io]) }

  function RolledBack(q: Queues): Queues
    requires q.pending != []
  {
    q.(pending := q.pending[..|q.pending| - 1])
  }

  function CalledBack(q: Queues, status: int): Queues
    requires q.pending != []
  {
    q.(pending := q.pending[1..], completed := q.completed + [q.pending[0].(status := status)])
  }

  function Drained(q: Queues, n: nat): Queues
    requires n <= |q.completed|
  {
    q.(completed := q.completed[n..])
  }

  /** How many entries one call of `xpdk_batch_process_completions` takes. */
  function Quota(q: Queues, max: int): (n: nat)
    ensures n <= |q.completed|
  {
    if max <= 0 then 0 else if max < |q.completed| then max else |q.completed|
  }

  class BatchCtx {
    const maxIos: nat
    var pendingIos: int
    var completedIos: int
    const pendingQueue: array<BatchIo>
    const completedQueue: array<BatchIo>

    ghost predicate Valid()
      reads this
    {
      && pendingQueue != completedQueue
      && pendingQueue.Length == completedQueue.Length == maxIos > 0
      && 0 <= pendingIos <= maxIos
      && 0 <= completedIos <= maxIos
    }

    ghost function Pending(): seq<BatchIo>
      requires Valid()
      reads this, pendingQueue
    {
      pendingQueue[..pendingIos]
    }

    ghost function Completed(): seq<BatchIo>
      requires Valid()
      reads this, completedQueue
    {
      completedQueue[..completedIos]
    }

    ghost function View(): Queues
      requires Valid()
      reads this, pendingQueue, completedQueue
    {
      Queues(maxIos, Pending(), Completed())
    }

    constructor (maxIos: nat)
      requires 0 < maxIos <= MAX_QUEUE
      ensures Valid() && View() == Queues(maxIos, [], [])
      ensures fresh(pendingQueue) && fresh(completedQueue)
    {
      this.maxIos := maxIos;
      pendingIos, completedIos := 0, 0;
      pendingQueue := new BatchIo[maxIos](_ => NO_IO);
      completedQueue := new BatchIo[maxIos](_ => NO_IO);
    }

    /** First critical section of `xpdk_batch_submit_one`: reserve an entry. */
    method Reserve(io: BatchIo) returns (rc: int)
      requires Valid()
      modifies this`pendingIos, pendingQueue
      ensures Valid()
      ensures rc == if |old(View()).pending| == maxIos then BUSY else SUCCESS
      ensures View() == if rc == BUSY then old(View()) else Reserved(old(View()), io)
      ensures Completed() == old(Completed()) && Pending() == old(Pending()) + if rc == BUSY then [] else [io]
    {
      if pendingIos >= maxIos {
        return BUSY;
      }
      pendingQueue[pendingIos] := io;
      pendingIos := pendingIos + 1;
      return SUCCESS;
    }

    /** Second critical section, entered when the submission failed: the counter
        goes down by one, which drops the last entry, whoever put it there. */
    method RollBack()
      requires Valid() && Pending() != []
      modifies this`pendingIos
      ensures Valid() && View() == RolledBack(old(View()))
      ensures Pending() == old(Pending())[..old(pendingIos) - 1] && Completed() == old(Completed())
    {
      pendingIos := pendingIos - 1;
    }

    /** memmove of `n` entries from index `from` to the front of a queue. */
    method ShiftDown(queue: array<BatchIo>, from: nat, n: nat)
      requires from + n <= queue.Length
      modifies queue
      ensures queue[..n] == old(queue[from..from + n])
    {
      ghost var was := queue[..];
      var i := 0;
      while i < n
        invariant 0 <= i <= n
        invariant forall k | 0 <= k < i :: queue[k] == was[from..][k]
        invariant forall k | i <= k < queue.Length :: queue[k] == was[k]
      {
        assert queue[from + i] == was[from + i];
        queue[i] := queue[from + i];
        i := i + 1;
      }
      assert was[from..from + n] == old(queue[from..from + n]);
      assert forall k | 0 <= k < n :: queue[..n][k] == was[from..from + n][k];
    }

    /** `xpdk_batch_completion_callback`: the first pending entry, if there is
        one, takes the reported status and moves to the completed queue. (The
        scan over pending entries always stops at index 0.)
        `overrun` marks the unchecked append past the end of that queue. */
    method CompletionCallback(status: int) returns (found: bool, overrun: bool)
      requires Valid()
      modifies this`pendingIos, this`completedIos, pendingQueue, completedQueue
      ensures Valid()
      ensures found <==> old(View()).pending != []
      ensures overrun <==> found && |old(View()).completed| == maxIos
      ensures View() == if found && !overrun then CalledBack(old(View()), status) else old(View())
      ensures found && !overrun ==>
                && Pending() == old(Pending())[1..]
                && Completed() == old(Completed()) + [old(Pending())[0].(status := status)]
    {
      found, overrun := pendingIos > 0, false;
      if !found {
        return;
      }
      if completedIos >= completedQueue.Length {
        overrun := true;
        return;
      }
      completedQueue[completedIos] := pendingQueue[0];
      completedQueue[completedIos] := completedQueue[completedIos].(status := status);
      completedIos := completedIos + 1;
      ghost var done := Completed();
      assert done == old(Completed()) + [old(Pending())[0].(status := status)];
      ShiftDown(pendingQueue, 1, pendingIos - 1);
      pendingIos := pendingIos - 1;
      assert Completed() == done;
    }

    /** `xpdk_batch_process_completions` without a global callback: the oldest
        completed entries, at most `max` of them, leave the queue. */
    method ProcessCompletions(max: int) returns (processed: nat)
      requires Valid()
      modifies this`completedIos, completedQueue
      ensures Valid()
      ensures processed == Quota(old(View()), max) && View() == Drained(old(View()), processed)
      ensures max <= 0 ==> processed == 0
      ensures max > 0 ==> processed <= max
      ensures processed < max ==> |Completed()| == 0
      ensures processed <= |old(Completed())| && Completed() == old(Completed())[processed..]
      ensures Pending() == old(Pending())
    {
      ghost var was := completedQueue[..];
      ghost var done := Completed();
      processed := 0;
      while completedIos > 0 && processed < max
        invariant 0 <= completedIos <= old(completedIos)
        invariant processed == old(completedIos) - completedIos
        invariant processed <= max || processed == 0
        invariant completedQueue[..] == was
      {
        processed := processed + 1;
        completedIos := completedIos - 1;
      }
      assert done[processed..] == completedQueue[processed..processed + completedIos];
      if completedIos > 0 && processed > 0 {
        ShiftDown(completedQueue, processed, completedIos);
      }
    }
  }

  /** `xpdk_batch_init`: a context exactly for sizes 1 to 1024, if memory, mutex
      and condition variable can be had. */
  method BatchInit(maxIos: int, memoryOk: bool, mutexOk: bool, condOk: bool) returns (ctx: BatchCtx?)
    ensures ctx != null <==> 1 <= maxIos <= 1024 && memoryOk && mutexOk && condOk
    ensures ctx != null ==> ctx.Valid() && ctx.View() == Queues(maxIos, [], []) && fresh(ctx)
  {
    if maxIos <= 0 || maxIos > MAX_QUEUE {
      return null;
    }
    if !memoryOk || !mutexOk || !condOk {
      return null;
    }
    ctx := new BatchCtx(maxIos);
  }
}
