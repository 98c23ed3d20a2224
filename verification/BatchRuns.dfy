/** The batch context under concurrency: any number of submitting threads, each
    of which reserves under the lock, submits without it and rolls back under it
    again, interleaved with completion callbacks and with processing. */
module BatchRuns {
  import opened Codes
  import opened BatchContext

  /** A completion callback that ran: the request it belongs to, its status. */
  datatype Call = Call(id: nat, status: int)

  /** The queues, the submitters between their two critical sections, and the
      requests below them. A stranded request was taken by the message layer
      but will never call back. `next` numbers reservations in order, and
      `submitted` has what each of them asked for; the remaining fields record
      what has happened. */
  datatype Batch = Batch(
    q: Queues,
    subs: map<nat, nat>,
    inFlight: set<nat>,
    stranded: set<nat>,
    next: nat,
    submitted: seq<BatchIo>,
    accepted: seq<nat>,
    rolled: set<nat>,
    calls: seq<Call>,
    processed: seq<BatchIo>,
    misdirected: bool,
    overrun: bool)

  datatype Step =
    | Reserve(t: nat, io: BatchIo)
    | Accept(t: nat)
    | Fail(t: nat)
    | Strand(id: nat)
    | Callback(id: nat, status: int)
    | Process(max: int)

  function Init(max: nat): Batch {
    Batch(Queues(max, [], []), map[], {}, {}, 0, [], [], {}, [], [], false, false)
  }

  /** A flush is reserved like any other entry, but its submission always fails. */
  predicate Enabled(s: Batch, step: Step) {
    && !s.overrun
    && match step
       case Reserve(t, _) => t !in s.subs && |s.q.pending| < s.q.max
       case Accept(t) => t in s.subs && s.subs[t] < |s.submitted| && !s.submitted[s.subs[t]].op.FlushIo?
       case Fail(t) => t in s.subs && s.q.pending != []
       case Strand(id) => id in s.inFlight
       case Callback(id, _) => id in s.inFlight
       case Process(_) => true
  }

  function Apply(s: Batch, step: Step): Batch
    requires Enabled(s, step)
  {
    match step
    case Reserve(t, io) =>
      s.(q := Reserved(s.q, io.(id := s.next)), subs := s.subs[t := s.next], next := s.next + 1,
         submitted := s.submitted + [io.(id := s.next)])
    case Accept(t) =>
      s.(subs := s.subs - {t}, inFlight := s.inFlight + {s.subs[t]}, accepted := s.accepted + [s.subs[t]])
    case Fail(t) =>
      s.(q := RolledBack(s.q), subs := s.subs - {t}, rolled := s.rolled + {s.subs[t]},
         misdirected := s.misdirected || s.q.pending[|s.q.pending| - 1].id != s.subs[t])
    case Strand(id) =>
      s.(inFlight := s.inFlight - {id}, stranded := s.stranded + {id})
    case Callback(id, status) =>
      var s' := s.(inFlight := s.inFlight - {id}, calls := s.calls + [Call(id, status)]);
      if s.q.pending == [] then s'
      else if |s.q.completed| >= s.q.max then s'.(overrun := true)
      else s'.(q := CalledBack(s.q, status))
    case Process(max) =>
      var n := Quota(s.q, max);
      s.(q := Drained(s.q, n), processed := s.processed + s.q.completed[..n])
  }

  /** A run; `limit` bounds the requests the client lets be outstanding, that
      is, submitted and not yet processed; `threads` are those that submit. */
  ghost predicate Run(s: Batch, steps: seq<Step>, limit: nat, threads: set<nat>)
    decreases |steps|
  {
    steps != [] ==>
      && Enabled(s, steps[0])
      && (steps[0].Reserve? ==> steps[0].t in threads && |s.q.pending| + |s.q.completed| < limit)
      && Run(Apply(s, steps[0]), steps[1..], limit, threads)
  }

  function End(s: Batch, steps: seq<Step>, limit: nat, threads: set<nat>): Batch
    requires Run(s, steps, limit, threads)
    decreases |steps|
  {
    if steps == [] then s else End(Apply(s, steps[0]), steps[1..], limit, threads)
  }

  // ------------------------------------- what holds with any number of threads

  /** Requests between reservation and resolution are numbered apart. */
  ghost predicate Distinct(s: Batch) {
    && (forall t | t in s.subs :: s.subs[t] < s.next && s.subs[t] !in s.inFlight && s.subs[t] !in s.stranded)
    && (forall t, u | t in s.subs && u in s.subs && s.subs[t] == s.subs[u] :: t == u)
    && (forall id | id in s.inFlight :: id < s.next && id !in s.stranded)
    && (forall id | id in s.stranded :: id < s.next)
  }

  /** The pending counter is the number of submissions not yet resolved. */
  ghost predicate Counted(s: Batch) {
    && Distinct(s)
    && |s.q.pending| == |s.subs| + |s.inFlight| + |s.stranded| + (if s.overrun then 1 else 0)
    && |s.q.pending| <= s.q.max
    && |s.q.completed| <= s.q.max
  }

  lemma AddKey(m: map<nat, nat>, k: nat, v: nat)
    requires k !in m
    ensures |m[k := v]| == |m| + 1
  {
    assert m[k := v].Keys == m.Keys + {k};
    assert |m[k := v].Keys| == |m.Keys| + 1;
  }

  lemma RemoveKey(m: map<nat, nat>, k: nat)
    requires k in m
    ensures |m - {k}| == |m| - 1
  {
    assert (m - {k}).Keys == m.Keys - {k};
    assert |(m - {k}).Keys| == |m.Keys| - 1;
  }

  lemma ReserveCounted(s: Batch, t: nat, io: BatchIo)
    requires Counted(s) && Enabled(s, Reserve(t, io))
    ensures Counted(Apply(s, Reserve(t, io)))
  {
    AddKey(s.subs, t, s.next);
  }

  lemma AcceptCounted(s: Batch, t: nat)
    requires Counted(s) && Enabled(s, Accept(t))
    ensures Counted(Apply(s, Accept(t)))
  {
    RemoveKey(s.subs, t);
    assert forall u | u in s.subs && u != t :: s.subs[u] != s.subs[t];
  }

  lemma FailCounted(s: Batch, t: nat)
    requires Counted(s) && Enabled(s, Fail(t))
    ensures Counted(Apply(s, Fail(t)))
  {
    RemoveKey(s.subs, t);
  }

  lemma StrandCounted(s: Batch, id: nat)
    requires Counted(s) && Enabled(s, Strand(id))
    ensures Counted(Apply(s, Strand(id)))
  {
    assert |s.inFlight - {id}| == |s.inFlight| - 1;
    assert |s.stranded + {id}| == |s.stranded| + 1;
  }

  lemma CallbackCounted(s: Batch, id: nat, status: int)
    requires Counted(s) && Enabled(s, Callback(id, status))
    ensures Counted(Apply(s, Callback(id, status)))
  {
    assert |s.inFlight - {id}| == |s.inFlight| - 1;
  }

  lemma ProcessCounted(s: Batch, max: int)
    requires Counted(s) && Enabled(s, Process(max))
    ensures Counted(Apply(s, Process(max)))
  {
  }

  lemma StepCounted(s: Batch, step: Step)
    requires Counted(s) && Enabled(s, step)
    ensures Counted(Apply(s, step))
  {
    match step {
      case Reserve(t, io) => ReserveCounted(s, t, io);
      case Accept(t) => AcceptCounted(s, t);
      case Fail(t) => FailCounted(s, t);
      case Strand(id) => StrandCounted(s, id);
      case Callback(id, status) => CallbackCounted(s, id, status);
      case Process(max) => ProcessCounted(s, max);
    }
  }

  lemma {:induction false} RunCounted(s: Batch, steps: seq<Step>, limit: nat, threads: set<nat>)
    requires Counted(s) && Run(s, steps, limit, threads)
    ensures Counted(End(s, steps, limit, threads))
    ensures End(s, steps, limit, threads).q.max == s.q.max
    decreases |steps|
  {
    if steps != [] {
      StepCounted(s, steps[0]);
      RunCounted(Apply(s, steps[0]), steps[1..], limit, threads);
    }
  }

  /** Under every interleaving of submitters, roll-backs, completions and
      processing: the counter stays between 0 and the capacity, equals the
      submissions not yet resolved (so the wait for it to reach zero ends only
      when there are none), and every callback finds an entry. */
  lemma PendingIsUnresolved(max: nat, steps: seq<Step>, limit: nat, threads: set<nat>)
    requires Run(Init(max), steps, limit, threads)
    requires !End(Init(max), steps, limit, threads).overrun
    ensures var e := End(Init(max), steps, limit, threads);
            && |e.q.pending| == |e.subs| + |e.inFlight| + |e.stranded| <= max
            && (e.q.pending == [] <==> e.subs == map[] && e.inFlight == {} && e.stranded == {})
            && forall id | id in e.inFlight :: e.q.pending != []
  {
    RunCounted(Init(max), steps, limit, threads);
  }

  /** Once a request is stranded, the wait in the clean-up call never ends: in
      every continuation something is pending. */
  lemma {:induction false} StrandedBlocksCleanup(s: Batch, steps: seq<Step>, limit: nat, threads: set<nat>)
    requires Counted(s) && s.stranded != {} && Run(s, steps, limit, threads)
    ensures End(s, steps, limit, threads).q.pending != []
    decreases |steps|
  {
    if steps != [] {
      StepCounted(s, steps[0]);
      StrandedBlocksCleanup(Apply(s, steps[0]), steps[1..], limit, threads);
    }
  }

  /** An entry is what its submitter asked for, but for the status. */
  ghost predicate Intact(io: BatchIo, submitted: seq<BatchIo>) {
    io.id < |submitted| && io.(status := 0) == submitted[io.id].(status := 0)
  }

  ghost predicate Entries(s: Batch) {
    && |s.submitted| == s.next
    && (forall i | 0 <= i < |s.submitted| :: s.submitted[i].id == i)
    && (forall i | 0 <= i < |s.q.pending| ::
          s.q.pending[i].id < s.next && s.q.pending[i] == s.submitted[s.q.pending[i].id])
    && (forall i | 0 <= i < |s.q.completed| :: Intact(s.q.completed[i], s.submitted))
    && (forall i | 0 <= i < |s.processed| :: Intact(s.processed[i], s.submitted))
    && (forall i | 0 <= i < |s.accepted| :: s.accepted[i] < s.next && !s.submitted[s.accepted[i]].op.FlushIo?)
  }

  lemma StepEntries(s: Batch, step: Step)
    requires Entries(s) && Enabled(s, step)
    ensures Entries(Apply(s, step))
  {
  }

  /** Under every interleaving each pending, completed and processed entry has
      exactly the operation, descriptor, count and offset it was submitted with,
      and no flush is ever accepted. */
  lemma {:induction false} EntriesStayIntact(s: Batch, steps: seq<Step>, limit: nat, threads: set<nat>)
    requires Entries(s) && Run(s, steps, limit, threads)
    ensures Entries(End(s, steps, limit, threads))
    decreases |steps|
  {
    if steps != [] {
      StepEntries(s, steps[0]);
      EntriesStayIntact(Apply(s, steps[0]), steps[1..], limit, threads);
    }
  }

  /** One call to process completions takes the oldest ones: none if asked for none,
      at most as many as asked for, and fewer only if it takes all. */
  lemma ProcessTakes(s: Batch, max: int)
    requires Enabled(s, Process(max))
    ensures var s' := Apply(s, Process(max));
            var n := |s'.processed| - |s.processed|;
            && 0 <= n <= |s.q.completed|
            && s'.processed == s.processed + s.q.completed[..n] && s'.q.completed == s.q.completed[n..]
            && s'.q.pending == s.q.pending
            && (max <= 0 ==> n == 0) && (max > 0 ==> n <= max) && (n < max ==> s'.q.completed == [])
  {
  }

  // ------------------------------------------- capacity of the completed queue

  lemma {:induction false} WithinLimit(s: Batch, steps: seq<Step>, limit: nat, threads: set<nat>)
    requires Counted(s) && Run(s, steps, limit, threads) && limit <= s.q.max
    requires !s.overrun && |s.q.pending| + |s.q.completed| <= limit
    ensures !End(s, steps, limit, threads).overrun
    decreases |steps|
  {
    if steps != [] {
      StepCounted(s, steps[0]);
      WithinLimit(Apply(s, steps[0]), steps[1..], limit, threads);
    }
  }

  const SOME_READ := NO_IO.(op := ReadIo)

  /** One request from reservation to completion, with nothing else going on. */
  function Round(t: nat, id: nat): seq<Step> {
    [Reserve(t, SOME_READ), Accept(t), Callback(id, SUCCESS)]
  }

  function Rounds(t: nat, from: nat, n: nat): seq<Step>
    decreases n
  {
    if n == 0 then [] else Round(t, from) + Rounds(t, from + 1, n - 1)
  }

  ghost predicate Settled(s: Batch) {
    s.q.pending == [] && s.subs == map[] && s.inFlight == {} && !s.overrun && |s.submitted| == s.next
  }

  lemma OneRound(s: Batch, t: nat, rest: seq<Step>, limit: nat, threads: set<nat>) returns (s3: Batch)
    requires Settled(s) && t in threads && |s.q.completed| < limit && 0 < s.q.max
    ensures s3.overrun <==> |s.q.completed| >= s.q.max
    ensures s3.q.max == s.q.max && s3.next == s.next + 1
    ensures !s3.overrun ==> Settled(s3) && |s3.q.completed| == |s.q.completed| + 1
    ensures Run(s, Round(t, s.next) + rest, limit, threads) <==> Run(s3, rest, limit, threads)
    ensures Run(s3, rest, limit, threads) ==>
              End(s, Round(t, s.next) + rest, limit, threads) == End(s3, rest, limit, threads)
  {
    var a, b, c := Reserve(t, SOME_READ), Accept(t), Callback(s.next, SUCCESS);
    var s1 := Apply(s, a);
    var s2 := Apply(s1, b);
    s3 := Apply(s2, c);
    assert Round(t, s.next) + rest == [a] + ([b] + ([c] + rest));
    OneStep(s, a, [b] + ([c] + rest), limit, threads);
    OneStep(s1, b, [c] + rest, limit, threads);
    OneStep(s2, c, rest, limit, threads);
    assert s1.subs - {t} == map[];
  }

  lemma OneStep(s: Batch, step: Step, rest: seq<Step>, limit: nat, threads: set<nat>)
    requires Enabled(s, step)
    requires step.Reserve? ==> step.t in threads && |s.q.pending| + |s.q.completed| < limit
    ensures Run(s, [step] + rest, limit, threads) <==> Run(Apply(s, step), rest, limit, threads)
    ensures Run(s, [step] + rest, limit, threads) ==>
              End(s, [step] + rest, limit, threads) == End(Apply(s, step), rest, limit, threads)
  {
    assert ([step] + rest)[1..] == rest;
  }

  lemma {:induction false} FillAndOverrun(s: Batch, t: nat, n: nat, limit: nat, threads: set<nat>)
    requires Settled(s) && t in threads && 0 < s.q.max < limit
    requires |s.q.completed| + n == s.q.max
    ensures Run(s, Rounds(t, s.next, n + 1), limit, threads)
    ensures End(s, Rounds(t, s.next, n + 1), limit, threads).overrun
    decreases n
  {
    var s3 := OneRound(s, t, Rounds(t, s.next + 1, n), limit, threads);
    if n > 0 {
      FillAndOverrun(s3, t, n - 1, limit, threads);
    }
  }

  /** No completion is ever written past the end of the completed queue exactly
      when the client keeps the requests submitted and not yet processed at or
      below the capacity of the context. */
  lemma CompletedQueueSafeIff(max: nat, limit: nat, threads: set<nat>)
    requires 0 < max && threads != {}
    ensures (forall steps | Run(Init(max), steps, limit, threads) :: !End(Init(max), steps, limit, threads).overrun)
            <==> limit <= max
  {
    if limit <= max {
      forall steps | Run(Init(max), steps, limit, threads)
        ensures !End(Init(max), steps, limit, threads).overrun
      {
        WithinLimit(Init(max), steps, limit, threads);
      }
    } else {
      var t :| t in threads;
      FillAndOverrun(Init(max), t, max, limit, threads);
      assert !(!End(Init(max), Rounds(t, 0, max + 1), limit, threads).overrun);
    }
  }

  // -------------------------------------------- order and statuses of requests

  /** Numbers of the first `n` reservations that were not rolled back. */
  function Kept(n: nat, rolled: set<nat>): seq<nat> {
    if n == 0 then [] else Kept(n - 1, rolled) + if n - 1 in rolled then [] else [n - 1]
  }

  lemma {:induction false} KeptFrame(n: nat, rolled: set<nat>, id: nat)
    requires n <= id
    ensures Kept(n, rolled + {id}) == Kept(n, rolled)
  {
    if n > 0 {
      KeptFrame(n - 1, rolled, id);
    }
  }

  function Ids(ios: seq<BatchIo>): seq<nat> { seq(|ios|, i requires 0 <= i < |ios| => ios[i].id) }

  /** Entries whose completion has been reported, oldest first. */
  function Finished(s: Batch): seq<BatchIo> { s.processed + s.q.completed }

  /** At most one submitter is between its critical sections; then the queues,
      read in order, are the submissions that were not rolled back, and the
      k-th reported entry carries the k-th callback's status. */
  ghost predicate Ordered(s: Batch) {
    && !s.misdirected
    && |s.subs| <= 1
    && Ids(Finished(s) + s.q.pending) == Kept(s.next, s.rolled)
    && Kept(s.next, s.rolled) == s.accepted + (if s.subs == map[] then [] else [s.next - 1])
    && (forall t | t in s.subs :: s.subs[t] == s.next - 1 && s.next - 1 !in s.rolled)
    && (forall id | id in s.rolled :: id < s.next)
    && (!s.overrun ==>
          && |Finished(s)| == |s.calls|
          && forall k | 0 <= k < |s.calls| :: Finished(s)[k].status == s.calls[k].status)
  }

  lemma OnlyKey(m: map<nat, nat>, k: nat)
    requires k in m && |m| <= 1
    ensures m - {k} == map[]
  {
    RemoveKey(m, k);
  }

  lemma IdsConcat(a: seq<BatchIo>, b: seq<BatchIo>)
    ensures Ids(a + b) == Ids(a) + Ids(b)
  {
  }

  lemma ReserveOrdered(s: Batch, t: nat, io: BatchIo)
    requires Counted(s) && Ordered(s) && Enabled(s, Reserve(t, io)) && s.subs == map[]
    ensures Ordered(Apply(s, Reserve(t, io)))
  {
    var s' := Apply(s, Reserve(t, io));
    AddKey(s.subs, t, s.next);
    assert Finished(s') + s'.q.pending == (Finished(s) + s.q.pending) + [io.(id := s.next)];
    IdsConcat(Finished(s) + s.q.pending, [io.(id := s.next)]);
  }

  lemma AcceptOrdered(s: Batch, t: nat)
    requires Counted(s) && Ordered(s) && Enabled(s, Accept(t))
    ensures Ordered(Apply(s, Accept(t)))
  {
    var s' := Apply(s, Accept(t));
    OnlyKey(s.subs, t);
    assert s'.subs == map[] && s.subs != map[];
    assert Finished(s') + s'.q.pending == Finished(s) + s.q.pending;
  }

  lemma FailOrdered(s: Batch, t: nat)
    requires Counted(s) && Ordered(s) && Enabled(s, Fail(t))
    ensures Ordered(Apply(s, Fail(t)))
  {
    var s' := Apply(s, Fail(t));
    OnlyKey(s.subs, t);
    KeptRolled(s.next, s.rolled);
    LastDropped(Finished(s), s.q.pending, Kept(s.next - 1, s.rolled), s.next - 1);
    assert s'.subs == map[] && s.subs != map[] && Finished(s') == Finished(s);
    SameFronts(s.accepted, Kept(s.next - 1, s.rolled), s.next - 1);
  }

  lemma SameFronts(a: seq<nat>, b: seq<nat>, last: nat)
    requires a + [last] == b + [last]
    ensures a == b
  {
    assert a == (a + [last])[..|a|] && b == (b + [last])[..|b|];
  }

  lemma KeptRolled(n: nat, rolled: set<nat>)
    requires n > 0 && n - 1 !in rolled
    ensures Kept(n, rolled) == Kept(n - 1, rolled) + [n - 1]
    ensures Kept(n, rolled + {n - 1}) == Kept(n - 1, rolled)
  {
    KeptFrame(n - 1, rolled, n - 1);
  }

  /** The last number goes with the last pending entry. */
  lemma LastDropped(done: seq<BatchIo>, pending: seq<BatchIo>, kept: seq<nat>, id: nat)
    requires pending != [] && Ids(done + pending) == kept + [id]
    ensures pending[|pending| - 1].id == id && Ids(done + pending[..|pending| - 1]) == kept
  {
    var all := done + pending;
    assert Ids(all)[|all| - 1] == pending[|pending| - 1].id;
    assert done + pending[..|pending| - 1] == all[..|all| - 1];
    assert Ids(all[..|all| - 1]) == Ids(all)[..|all| - 1];
  }

  lemma CallbackOrdered(s: Batch, id: nat, status: int)
    requires Counted(s) && Ordered(s) && Enabled(s, Callback(id, status))
    ensures Ordered(Apply(s, Callback(id, status)))
  {
    var s' := Apply(s, Callback(id, status));
    if !s'.overrun {
      var first := s.q.pending[0];
      assert Finished(s') == Finished(s) + [first.(status := status)];
      assert Ids(Finished(s') + s'.q.pending) == Ids(Finished(s) + s.q.pending);
    }
  }

  lemma ProcessOrdered(s: Batch, max: int)
    requires Counted(s) && Ordered(s) && Enabled(s, Process(max))
    ensures Ordered(Apply(s, Process(max)))
  {
    assert Finished(Apply(s, Process(max))) == Finished(s);
  }

  lemma StepOrdered(s: Batch, step: Step)
    requires Counted(s) && Ordered(s) && Enabled(s, step)
    requires step.Reserve? ==> s.subs == map[]
    ensures Ordered(Apply(s, step))
  {
    match step {
      case Reserve(t, io) => ReserveOrdered(s, t, io);
      case Accept(t) => AcceptOrdered(s, t);
      case Fail(t) => FailOrdered(s, t);
      case Strand(_) =>
      case Callback(id, status) => CallbackOrdered(s, id, status);
      case Process(max) => ProcessOrdered(s, max);
    }
  }

  /** A reservation cannot happen while another is open, either because only one
      thread submits or because the context has room for one request only. */
  ghost predicate OneAtATime(max: nat, threads: set<nat>) { |threads| <= 1 || max == 1 }

  lemma NoSecondReservation(s: Batch, t: nat, io: BatchIo, threads: set<nat>)
    requires Counted(s) && Enabled(s, Reserve(t, io)) && OneAtATime(s.q.max, threads)
    requires t in threads && s.subs.Keys <= threads
    ensures s.subs == map[]
  {
    if u :| u in s.subs {
      assert |s.subs| > 0;
      if |threads| <= 1 {
        PairSize(threads, t, u);
      }
    }
  }

  lemma PairSize(threads: set<nat>, t: nat, u: nat)
    requires t in threads && u in threads && t != u
    ensures |threads| >= 2
  {
    assert |threads - {t} - {u}| == |threads| - 2;
  }

  lemma {:induction false} RunOrdered(s: Batch, steps: seq<Step>, limit: nat, threads: set<nat>)
    requires Counted(s) && Ordered(s) && Run(s, steps, limit, threads)
    requires OneAtATime(s.q.max, threads) && s.subs.Keys <= threads
    ensures Counted(End(s, steps, limit, threads)) && Ordered(End(s, steps, limit, threads))
    decreases |steps|
  {
    if steps != [] {
      if steps[0].Reserve? {
        NoSecondReservation(s, steps[0].t, steps[0].io, threads);
      }
      StepCounted(s, steps[0]);
      StepOrdered(s, steps[0]);
      SameCapacity(s, steps[0], threads);
      RunOrdered(Apply(s, steps[0]), steps[1..], limit, threads);
    }
  }

  lemma SameCapacity(s: Batch, step: Step, threads: set<nat>)
    requires Enabled(s, step) && s.subs.Keys <= threads && (step.Reserve? ==> step.t in threads)
    ensures Apply(s, step).q.max == s.q.max && Apply(s, step).subs.Keys <= threads
  {
  }

  /** With one submitting thread, or room for one request: in every run no
      roll-back hits another request; processed, completed and pending entries
      are together the submissions not rolled back, in order; the k-th finished
      entry is the k-th accepted one and carries the k-th callback's status, so
      it carries its own status if the device completes in order. All else in a
      finished entry is as submitted, and none of them is a flush. */
  lemma QueuesKeepOrder(max: nat, steps: seq<Step>, limit: nat, threads: set<nat>)
    requires 0 < max && Run(Init(max), steps, limit, threads) && OneAtATime(max, threads)
    ensures var e := End(Init(max), steps, limit, threads);
            && !e.misdirected
            && Ids(e.processed + e.q.completed + e.q.pending) == Kept(e.next, e.rolled)
            && (!e.overrun ==>
                  && |e.calls| == |Finished(e)| <= |e.accepted|
                  && |e.submitted| == e.next
                  && forall k | 0 <= k < |e.calls| ::
                       && Finished(e)[k].id == e.accepted[k] < e.next
                       && Finished(e)[k] == e.submitted[e.accepted[k]].(status := e.calls[k].status)
                       && !Finished(e)[k].op.FlushIo?)
  {
    RunOrdered(Init(max), steps, limit, threads);
    EntriesStayIntact(Init(max), steps, limit, threads);
    if !End(Init(max), steps, limit, threads).overrun {
      FinishedAreAccepted(End(Init(max), steps, limit, threads));
      FinishedAreIntact(End(Init(max), steps, limit, threads));
    }
  }

  lemma FinishedAreIntact(s: Batch)
    requires Entries(s) && Ordered(s) && !s.overrun && |s.calls| <= |s.accepted|
    requires forall k | 0 <= k < |Finished(s)| :: Finished(s)[k].id == s.accepted[k]
    ensures forall k | 0 <= k < |s.calls| ::
              && Finished(s)[k] == s.submitted[s.accepted[k]].(status := s.calls[k].status)
              && !Finished(s)[k].op.FlushIo?
  {
    forall k | 0 <= k < |s.calls|
      ensures Intact(Finished(s)[k], s.submitted)
    {
      assert k < |s.processed| || Finished(s)[k] == s.q.completed[k - |s.processed|];
    }
  }

  lemma FinishedAreAccepted(s: Batch)
    requires Counted(s) && Ordered(s) && !s.overrun
    ensures |Finished(s)| <= |s.accepted|
    ensures forall k | 0 <= k < |Finished(s)| :: Finished(s)[k].id == s.accepted[k]
  {
    var all := Finished(s) + s.q.pending;
    assert |Ids(all)| == |all|;
    forall k | 0 <= k < |Finished(s)|
      ensures k < |s.accepted| && Finished(s)[k].id == s.accepted[k]
    {
      assert Ids(all)[k] == all[k].id;
    }
  }

  /** Every finished request has had its own callback, and carries the status
      that one reported. */
  ghost predicate OwnStatuses(s: Batch) {
    forall k | 0 <= k < |Finished(s)| ::
      && (exists j | 0 <= j < |s.calls| :: s.calls[j].id == Finished(s)[k].id)
      && (forall j | 0 <= j < |s.calls| && s.calls[j].id == Finished(s)[k].id ::
            s.calls[j].status == Finished(s)[k].status)
  }

  /** The device called back in the order in which the requests were accepted. */
  ghost predicate InOrder(s: Batch) {
    |s.calls| <= |s.accepted| && forall k | 0 <= k < |s.calls| :: s.calls[k].id == s.accepted[k]
  }

  /** The same steps, with the status of every callback chosen anew. */
  function Restated(steps: seq<Step>, status: nat -> int): seq<Step> {
    seq(|steps|, i requires 0 <= i < |steps| => RestatedStep(steps[i], status))
  }

  function RestatedStep(step: Step, status: nat -> int): Step {
    if step.Callback? then Callback(step.id, status(step.id)) else step
  }

  /** Two runs that differ in statuses only. */
  ghost predicate Alike(s: Batch, t: Batch) {
    && t.q.max == s.q.max && |t.q.pending| == |s.q.pending| && |t.q.completed| == |s.q.completed|
    && t.subs == s.subs && t.inFlight == s.inFlight && t.next == s.next && t.overrun == s.overrun
    && t.submitted == s.submitted
    && t.accepted == s.accepted && |t.calls| == |s.calls|
    && forall k | 0 <= k < |s.calls| :: t.calls[k].id == s.calls[k].id
  }

  ghost predicate Reports(t: Batch, status: nat -> int) {
    forall k | 0 <= k < |t.calls| :: t.calls[k].status == status(t.calls[k].id)
  }

  lemma RestatedStepAlike(s: Batch, t: Batch, step: Step, status: nat -> int)
    requires Alike(s, t) && Reports(t, status) && Enabled(s, step)
    ensures Enabled(t, RestatedStep(step, status))
    ensures var t' := Apply(t, RestatedStep(step, status)); Alike(Apply(s, step), t') && Reports(t', status)
  {
  }

  lemma {:induction false} RestatedRun(s: Batch, t: Batch, steps: seq<Step>, status: nat -> int,
                                       limit: nat, threads: set<nat>)
    requires Alike(s, t) && Reports(t, status) && Run(s, steps, limit, threads)
    ensures Run(t, Restated(steps, status), limit, threads)
    ensures var e, f := End(s, steps, limit, threads), End(t, Restated(steps, status), limit, threads);
            Alike(e, f) && Reports(f, status)
    decreases |steps|
  {
    var others := Restated(steps, status);
    if steps != [] {
      RestatedStepAlike(s, t, steps[0], status);
      RestatedRun(Apply(s, steps[0]), Apply(t, others[0]), steps[1..], status, limit, threads);
      assert others[1..] == Restated(steps[1..], status);
    }
  }

  /** With one submitting thread, or room for one request: completions in order
      give every finished request its own status. */
  lemma InOrderIsEnough(max: nat, steps: seq<Step>, limit: nat, threads: set<nat>)
    requires 0 < max && Run(Init(max), steps, limit, threads) && OneAtATime(max, threads)
    requires var e := End(Init(max), steps, limit, threads); !e.overrun && InOrder(e)
    ensures OwnStatuses(End(Init(max), steps, limit, threads))
  {
    var e := End(Init(max), steps, limit, threads);
    QueuesKeepOrder(max, steps, limit, threads);
    AcceptedOnce(max, steps, limit, threads);
    forall k | 0 <= k < |Finished(e)|
      ensures e.calls[k].id == Finished(e)[k].id && e.calls[k].status == Finished(e)[k].status
    {
    }
  }

  /** No request is accepted twice. */
  lemma AcceptedOnce(max: nat, steps: seq<Step>, limit: nat, threads: set<nat>)
    requires 0 < max && Run(Init(max), steps, limit, threads) && OneAtATime(max, threads)
    ensures var a := End(Init(max), steps, limit, threads).accepted;
            forall i, j | 0 <= i < j < |a| :: a[i] != a[j]
  {
    RunOrdered(Init(max), steps, limit, threads);
    var e := End(Init(max), steps, limit, threads);
    KeptRises(e.next, e.rolled);
    assert e.accepted <= Kept(e.next, e.rolled);
  }

  lemma {:induction false} KeptRises(n: nat, rolled: set<nat>)
    ensures forall i | 0 <= i < |Kept(n, rolled)| :: Kept(n, rolled)[i] < n
    ensures forall i, j | 0 <= i < j < |Kept(n, rolled)| :: Kept(n, rolled)[i] < Kept(n, rolled)[j]
  {
    if n > 0 {
      KeptRises(n - 1, rolled);
    }
  }

  /** A run whose completions are out of order gives some finished request the
      status of another, for suitable statuses. */
  lemma OutOfOrderMixesUp(max: nat, steps: seq<Step>, limit: nat, threads: set<nat>) returns (status: nat -> int)
    requires 0 < max && Run(Init(max), steps, limit, threads) && OneAtATime(max, threads)
    requires var e := End(Init(max), steps, limit, threads); !e.overrun && !InOrder(e)
    ensures Run(Init(max), Restated(steps, status), limit, threads)
    ensures !OwnStatuses(End(Init(max), Restated(steps, status), limit, threads))
  {
    var e := End(Init(max), steps, limit, threads);
    QueuesKeepOrder(max, steps, limit, threads);
    var k :| 0 <= k < |e.calls| && e.calls[k].id != e.accepted[k];
    status := id => if id == e.calls[k].id then SUCCESS else IO_ERROR;
    RestatedRun(Init(max), Init(max), steps, status, limit, threads);
    QueuesKeepOrder(max, Restated(steps, status), limit, threads);
    var f := End(Init(max), Restated(steps, status), limit, threads);
    assert Finished(f)[k].id == e.accepted[k] && Finished(f)[k].status == f.calls[k].status == SUCCESS;
    forall j | 0 <= j < |f.calls| && f.calls[j].id == Finished(f)[k].id
      ensures f.calls[j].status != Finished(f)[k].status
    {
    }
  }

  /** Given the order in which a run's steps happen, every finished request gets
      its own status whatever the statuses are, exactly when the device called
      back in the order in which the requests were accepted. */
  lemma OwnStatusIff(max: nat, steps: seq<Step>, limit: nat, threads: set<nat>)
    requires 0 < max && Run(Init(max), steps, limit, threads) && OneAtATime(max, threads)
    requires !End(Init(max), steps, limit, threads).overrun
    ensures forall status :: Run(Init(max), Restated(steps, status), limit, threads)
    ensures (forall status :: OwnStatuses(End(Init(max), Restated(steps, status), limit, threads)))
            <==> InOrder(End(Init(max), steps, limit, threads))
  {
    var e := End(Init(max), steps, limit, threads);
    forall status
      ensures Run(Init(max), Restated(steps, status), limit, threads)
      ensures InOrder(e) ==> OwnStatuses(End(Init(max), Restated(steps, status), limit, threads))
    {
      RestatedRun(Init(max), Init(max), steps, status, limit, threads);
      if InOrder(e) {
        InOrderIsEnough(max, Restated(steps, status), limit, threads);
      }
    }
    if !InOrder(e) {
      var status := OutOfOrderMixesUp(max, steps, limit, threads);
    }
  }

  /** Roll-backs remove exactly the failing request in every run exactly when at
      most one thread submits or the context holds a single request. */
  lemma RollBacksRightIff(max: nat, threads: set<nat>)
    requires 0 < max
    ensures (forall steps, limit | Run(Init(max), steps, limit, threads) ::
               !End(Init(max), steps, limit, threads).misdirected)
            <==> OneAtATime(max, threads)
  {
    if OneAtATime(max, threads) {
      forall steps, limit | Run(Init(max), steps, limit, threads)
        ensures !End(Init(max), steps, limit, threads).misdirected
      {
        QueuesKeepOrder(max, steps, limit, threads);
      }
    } else {
      var a :| a in threads;
      assert threads != {a};
      var b :| b in threads && b != a;
      var steps := TwoSubmitters(max, a, b, threads);
      assert !(!End(Init(max), steps, 2, threads).misdirected);
    }
  }

  /** Two threads reserve, and the first one's submission fails. */
  lemma TwoSubmitters(max: nat, a: nat, b: nat, threads: set<nat>) returns (steps: seq<Step>)
    requires max >= 2 && a != b && a in threads && b in threads
    ensures Run(Init(max), steps, 2, threads)
    ensures End(Init(max), steps, 2, threads).misdirected
    ensures End(Init(max), steps, 2, threads).q.pending == [NO_IO.(id := 0)]
    ensures End(Init(max), steps, 2, threads).rolled == {0}
  {
    var s0 := Init(max);
    var s1 := Apply(s0, Reserve(a, NO_IO));
    var s2 := Apply(s1, Reserve(b, NO_IO));
    steps := [Reserve(a, NO_IO)] + ([Reserve(b, NO_IO)] + ([Fail(a)] + []));
    OneStep(s0, Reserve(a, NO_IO), [Reserve(b, NO_IO)] + ([Fail(a)] + []), 2, threads);
    OneStep(s1, Reserve(b, NO_IO), [Fail(a)] + [], 2, threads);
    OneStep(s2, Fail(a), [], 2, threads);
  }
}
