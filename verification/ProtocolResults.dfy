/** What the message protocol guarantees in every run. */
module ProtocolResults {
  import opened Codes
  import opened Finite
  import opened Messages
  import opened Protocol
  import opened ProtocolInvariant
  import opened ProtocolSteps
  import opened ProtocolTails

  // ------------------------------------------------- where messages are

  predicate InPool(s: State, m: nat) { m in s.mem.pool }

  /** Some client has it to itself: before sending it, or to put it back. */
  predicate InClient(s: State, m: nat) {
    exists c | c in s.clients :: (s.clients[c].Holding? || s.clients[c].Releasing?) && s.clients[c].m == m
  }

  predicate OnRing(s: State, m: nat) { m in s.mem.ring }

  predicate AtHandler(s: State, m: nat) { m in s.mem.spdk }

  /** Marked complete, with its synchronous caller still to look at it. */
  predicate ForWaiter(s: State, m: nat) {
    && m < |s.mem.msgs| && s.mem.msgs[m].completed
    && exists c | c in s.clients :: (s.clients[c].Waiting? || s.clients[c].Seen?) && s.clients[c].m == m
  }

  /** Nobody refers to it any more, yet it is not in the pool. */
  predicate Stranded(s: State, m: nat) {
    && m !in s.mem.pool && m !in s.mem.ring && m !in s.mem.spdk
    && forall c | c in s.clients :: s.clients[c].Idle? || s.clients[c].m != m
  }

  function One(b: bool): nat { if b then 1 else 0 }

  lemma PlaceOf(s: State, g: seq<Stage>, m: nat)
    requires Inv(s, g) && m < |s.mem.msgs| && m !in s.mem.pool
    ensures var st := g[ReqOf(s, m)];
            && (InClient(s, m) <==> st.SHeld? || st.SBusy? || st.SResult?)
            && (OnRing(s, m) <==> st.SQueued?)
            && (AtHandler(s, m) <==> AtSpdk(st))
            && (ForWaiter(s, m) <==> st.SPublished? && !s.mem.msgs[m].call.async)
            && (Stranded(s, m) <==> st.SPublished? && s.mem.msgs[m].call.async)
  {
    OwnerOf(s, g, m);
    var r := ReqOf(s, m);
    var st := g[r];
    forall c | c in s.clients && !s.clients[c].Idle? && s.clients[c].m == m
      ensures s.clients[c].r == r && c == s.calls[r].client && ClientOk(s.calls, g, c, s.clients[c])
    {
      CallerOf(s, g, c);
    }
    var d := s.calls[r].client;
    if !s.calls[r].async || st.SHeld? || st.SBusy? || st.SResult? {
      assert d in s.clients && s.clients[d].m == m;
    }
  }

  lemma PooledOnly(s: State, g: seq<Stage>, m: nat)
    requires Inv(s, g) && m in s.mem.pool
    ensures m < |s.mem.msgs| && s.mem.pool[m] == 1
    ensures !InClient(s, m) && !OnRing(s, m) && !AtHandler(s, m) && !ForWaiter(s, m)
  {
    forall c | c in s.clients && !s.clients[c].Idle?
      ensures s.clients[c].m != m
    {
      CallerOf(s, g, c);
    }
  }

  /** In every reachable state each message of the pool is in exactly one of six
      places, and the pool holds it at most once. The stranded ones are exactly
      the asynchronous ones that were marked complete instead of called back. */
  lemma ExactlyOnePlace(s: State, m: nat)
    requires Reachable(s) && m < |s.mem.msgs|
    ensures One(InPool(s, m)) + One(InClient(s, m)) + One(OnRing(s, m)) + One(AtHandler(s, m))
            + One(ForWaiter(s, m)) + One(Stranded(s, m)) == 1
    ensures s.mem.pool[m] <= 1
    ensures Stranded(s, m) <==> m !in s.mem.pool && s.mem.msgs[m].call.async && s.mem.msgs[m].completed
  {
    var g := ReachableInv(s);
    if m in s.mem.pool {
      PooledOnly(s, g, m);
    } else {
      PlaceOf(s, g, m);
      OwnerOf(s, g, m);
    }
  }

  datatype Place = PoolPlace | ClientPlace | RingPlace | HandlerPlace | WaiterPlace | StrandedPlace

  predicate At(s: State, m: nat, p: Place) {
    match p
    case PoolPlace => InPool(s, m)
    case ClientPlace => InClient(s, m)
    case RingPlace => OnRing(s, m)
    case HandlerPlace => AtHandler(s, m)
    case WaiterPlace => ForWaiter(s, m)
    case StrandedPlace => Stranded(s, m)
  }

  /** How many of the messages below `n` are in a place. */
  function Count(s: State, n: nat, p: Place): nat {
    if n == 0 then 0 else Count(s, n - 1, p) + One(At(s, n - 1, p))
  }

  function CountAll(s: State, n: nat): nat {
    Count(s, n, PoolPlace) + Count(s, n, ClientPlace) + Count(s, n, RingPlace)
    + Count(s, n, HandlerPlace) + Count(s, n, WaiterPlace) + Count(s, n, StrandedPlace)
  }

  lemma CountOneMore(s: State, m: nat)
    ensures CountAll(s, m + 1) == CountAll(s, m)
      + One(At(s, m, PoolPlace)) + One(At(s, m, ClientPlace)) + One(At(s, m, RingPlace))
      + One(At(s, m, HandlerPlace)) + One(At(s, m, WaiterPlace)) + One(At(s, m, StrandedPlace))
  {
  }

  lemma {:induction false} CountsSum(s: State, n: nat)
    requires forall m: nat | m < n :: CountAll(s, m + 1) == CountAll(s, m) + 1
    ensures CountAll(s, n) == n
  {
    if n > 0 {
      CountsSum(s, n - 1);
      assert CountAll(s, n - 1 + 1) == CountAll(s, n - 1) + 1;
    }
  }

  /** The counts of the six places add up to the size of the pool. */
  lemma CountsSumToPoolSize(s: State)
    requires Reachable(s)
    ensures CountAll(s, |s.mem.msgs|) == |s.mem.msgs|
  {
    forall m: nat | m < |s.mem.msgs|
      ensures CountAll(s, m + 1) == CountAll(s, m) + 1
    {
      ExactlyOnePlace(s, m);
      CountOneMore(s, m);
    }
    CountsSum(s, |s.mem.msgs|);
  }

  // ------------------------------------------------------------- freeing

  /** The message a step puts back into the pool, if it does. */
  function Freed(s: State, step: Step): Option<nat>
    requires Enabled(s, step)
  {
    match step
    case AsyncFreeStep(m) => Some(m)
    case ReleaseStep(c) => Some(ClientOf(s, c).m)
    case _ => None
  }

  /** No step in any run frees a message twice, or frees one that is on the
      ring, with the SPDK thread or in use by another client; and no other step
      puts anything into the pool. The one reference that can be left to what was
      freed is that of the rest of a synchronous read, this one or an earlier one
      through the same message, whose call has returned. */
  lemma FreesAreSafe(s: State, step: Step)
    requires Reachable(s) && Enabled(s, step)
    ensures var s' := Apply(s, step);
            match Freed(s, step)
            case Some(m) =>
              && m < |s.mem.msgs| && m !in s.mem.pool && m !in s.mem.ring
              && s'.mem.pool[m] == 1 && m !in s'.mem.ring && m !in s'.mem.spdk && !InClient(s', m) && !ForWaiter(s', m)
              && (forall i | 0 <= i < |s'.tails| && s'.tails[i].m == m ::
                    TailOk(s', s'.tails[i]) && Returned(s'.hist[s'.tails[i].r]))
            case None => s'.mem.pool <= s.mem.pool
  {
    var g := ReachableInv(s);
    match Freed(s, step) {
      case Some(m) =>
        FreedWasOut(s, g, step);
        var g' := StepKeeps(s, g, step);
        PooledOnly(Apply(s, step), g', m);
        ReachableTails(s);
        StepTailsOk(s, g, step);
        FreedTails(Apply(s, step), g', m);
      case None => OthersDoNotFree(s, step);
    }
  }

  lemma FreedTails(s: State, g: seq<Stage>, m: nat)
    requires Inv(s, g) && TailsOk(s) && m in s.mem.pool
    ensures forall i | 0 <= i < |s.tails| && s.tails[i].m == m ::
              TailOk(s, s.tails[i]) && Returned(s.hist[s.tails[i].r])
  {
    forall i | 0 <= i < |s.tails| && s.tails[i].m == m
      ensures Returned(s.hist[s.tails[i].r])
    {
      TailOfPooled(s, g, s.tails[i]);
    }
  }

  lemma FreedWasOut(s: State, g: seq<Stage>, step: Step)
    requires Inv(s, g) && Enabled(s, step) && Freed(s, step).Some?
    ensures var m := Freed(s, step).value;
            m < |s.mem.msgs| && m !in s.mem.pool && m !in s.mem.ring && m in Apply(s, step).mem.pool
  {
    if step.AsyncFreeStep? { OwnerOf(s, g, step.m); } else { CallerOf(s, g, step.c); }
  }

  lemma OthersDoNotFree(s: State, step: Step)
    requires Enabled(s, step) && Freed(s, step).None?
    ensures Apply(s, step).mem.pool <= s.mem.pool
  {
    if step.DispatchStep? {
      TakeIsTakenMem(s.mem, step.e);
    }
  }

  // ------------------------------------------------------- order of the ring

  /** Messages leave the ring in the order they entered it, and the ring never
      holds more of them than the pool has. */
  lemma RingIsFifo(s: State)
    requires Reachable(s)
    ensures s.polled <= s.sent
    ensures |s.mem.ring| == |s.sent| - |s.polled| <= |s.mem.msgs|
    ensures forall c | c in s.clients && s.clients[c].Holding? :: |s.mem.ring| < |s.mem.msgs|
  {
    var g := ReachableInv(s);
    RingFits(s.mem.ring, Below(|s.mem.msgs|));
    forall c | c in s.clients && s.clients[c].Holding?
      ensures |s.mem.ring| < |s.mem.msgs|
    {
      CallerOf(s, g, c);
      RingFits(s.mem.ring, Below(|s.mem.msgs|) - {s.clients[c].m});
    }
  }

  lemma {:induction false} RingFits(ring: seq<nat>, ids: set<nat>)
    requires forall m | m in ring :: m in ids
    requires forall i, j | 0 <= i < j < |ring| :: ring[i] != ring[j]
    ensures |ring| <= |ids|
  {
    if ring != [] {
      var last := |ring| - 1;
      RingFits(ring[..last], ids - {ring[last]});
    }
  }
}
