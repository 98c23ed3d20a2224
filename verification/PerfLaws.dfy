/** What the running statistics mean over whole sequences of updates. */
module PerfLaws {
  import opened Blocks
  import opened Perf

  const TWO61: nat := 0x2000_0000_0000_0000

  // -------------------------------------------------------- moving average

  lemma EmaExact(avg: nat, latency: nat)
    requires avg * 7 + latency < TWO64
    ensures Ema(avg, latency) == (avg * 7 + latency) / 8
  {
  }

  lemma EmaBetween(avg: nat, latency: nat, lo: nat, hi: nat)
    requires lo <= avg <= hi && lo <= latency <= hi < TWO61
    ensures lo <= Ema(avg, latency) <= hi
  {
    EmaExact(avg, latency);
  }

  /** One step stays between average and latency for all values up to `hi`
      exactly when `hi` is below 2^61; from there on the product wraps. */
  lemma EmaBetweenIff(hi: nat)
    requires hi < TWO64
    ensures (forall a: nat, l: nat | a <= hi && l <= hi ::
               (a <= l ==> a <= Ema(a, l) <= l) && (l <= a ==> l <= Ema(a, l) <= a))
            <==> hi < TWO61
  {
    if hi < TWO61 {
      forall a: nat, l: nat | a <= hi && l <= hi
        ensures (a <= l ==> a <= Ema(a, l) <= l) && (l <= a ==> l <= Ema(a, l) <= a)
      {
        if a <= l { EmaBetween(a, l, a, l); } else { EmaBetween(a, l, l, a); }
      }
    } else {
      assert U64(TWO61 * 7 + TWO61) == 0;
      assert Ema(TWO61, TWO61) == 0;
    }
  }

  predicate IsRead(x: Sample) { x.success && x.op.ReadOp? }
  predicate IsWrite(x: Sample) { x.success && x.op.WriteOp? }

  /** Reference totals: what the samples say, without any state. */
  function Reads(xs: seq<Sample>): nat {
    if xs == [] then 0 else Reads(xs[..|xs| - 1]) + if IsRead(xs[|xs| - 1]) then 1 else 0
  }
  function Writes(xs: seq<Sample>): nat {
    if xs == [] then 0 else Writes(xs[..|xs| - 1]) + if IsWrite(xs[|xs| - 1]) then 1 else 0
  }
  function ReadBytes(xs: seq<Sample>): nat {
    if xs == [] then 0 else ReadBytes(xs[..|xs| - 1]) + if IsRead(xs[|xs| - 1]) then xs[|xs| - 1].bytes else 0
  }
  function WriteBytes(xs: seq<Sample>): nat {
    if xs == [] then 0 else WriteBytes(xs[..|xs| - 1]) + if IsWrite(xs[|xs| - 1]) then xs[|xs| - 1].bytes else 0
  }

  function Errors(xs: seq<Sample>): nat {
    if xs == [] then 0 else Errors(xs[..|xs| - 1]) + if xs[|xs| - 1].success then 0 else 1
  }

  /** The totals of these samples fit in 64 bits. */
  ghost predicate Fits(xs: seq<Sample>) {
    |xs| < TWO64 && ReadBytes(xs) + WriteBytes(xs) < TWO64
  }

  /** A device whose statistics structure is zero. */
  ghost predicate Zeroed(s: Stats) {
    s.readOps == s.writeOps == s.bytesRead == s.bytesWritten == s.errors == 0
  }

  lemma {:induction false} OpsAtMost(xs: seq<Sample>)
    ensures Reads(xs) + Writes(xs) + Errors(xs) <= |xs|
  {
    if xs != [] {
      OpsAtMost(xs[..|xs| - 1]);
    }
  }

  /** The counters of `s` are the totals over these samples. */
  ghost predicate Holds(s: Stats, xs: seq<Sample>) {
    && s.readOps == Reads(xs) && s.writeOps == Writes(xs)
    && s.bytesRead == ReadBytes(xs) && s.bytesWritten == WriteBytes(xs)
    && s.errors == Errors(xs)
  }

  lemma HoldsTotals(s: Stats, xs: seq<Sample>)
    requires Holds(s, xs) && Fits(xs)
    ensures TotalOps(s) == Reads(xs) + Writes(xs) < TWO64
    ensures TotalBytes(s) == ReadBytes(xs) + WriteBytes(xs) < TWO64
  {
    OpsAtMost(xs);
  }

  lemma CountOne(s: Stats, xs: seq<Sample>)
    requires xs != [] && Holds(s, xs[..|xs| - 1]) && Fits(xs)
    ensures Holds(Counted(s, xs[|xs| - 1]), xs)
  {
    OpsAtMost(xs);
  }

  lemma RollKeeps(s: Stats, now: nat)
    ensures var r := Rolled(s, now);
            && r.readOps == s.readOps && r.writeOps == s.writeOps
            && r.bytesRead == s.bytesRead && r.bytesWritten == s.bytesWritten && r.errors == s.errors
            && r.readLatency == s.readLatency && r.writeLatency == s.writeLatency
            && TotalOps(r) == TotalOps(s) && TotalBytes(r) == TotalBytes(s)
  {
  }

  lemma FitsFront(xs: seq<Sample>)
    requires xs != [] && Fits(xs)
    ensures Fits(xs[..|xs| - 1])
  {
  }

  /** The counters are the totals over all samples. */
  lemma {:induction false} TotalsExact(s: Stats, xs: seq<Sample>)
    requires Zeroed(s) && Fits(xs)
    ensures Holds(UpdatedAll(s, xs), xs)
  {
    if xs != [] {
      var front, x := xs[..|xs| - 1], xs[|xs| - 1];
      FitsFront(xs);
      TotalsExact(s, front);
      CountOne(UpdatedAll(s, front), xs);
      RollKeeps(Counted(UpdatedAll(s, front), x), x.now);
    }
  }

  ghost predicate ReadLatenciesIn(xs: seq<Sample>, lo: nat, hi: nat) {
    forall i | 0 <= i < |xs| && IsRead(xs[i]) :: lo <= xs[i].latency <= hi
  }
  ghost predicate WriteLatenciesIn(xs: seq<Sample>, lo: nat, hi: nat) {
    forall i | 0 <= i < |xs| && IsWrite(xs[i]) :: lo <= xs[i].latency <= hi
  }

  lemma ReadAverageStep(e: Stats, x: Sample, lo: nat, hi: nat)
    requires hi < TWO61 && e.readOps + 1 < TWO64
    requires e.readOps > 0 ==> lo <= e.readLatency <= hi
    requires if IsRead(x) then lo <= x.latency <= hi else e.readOps > 0
    ensures lo <= Updated(e, x).readLatency <= hi
  {
    RollKeeps(Counted(e, x), x.now);
    if IsRead(x) && e.readOps > 0 {
      EmaBetween(e.readLatency, x.latency, lo, hi);
    }
  }

  lemma WriteAverageStep(e: Stats, x: Sample, lo: nat, hi: nat)
    requires hi < TWO61 && e.writeOps + 1 < TWO64
    requires e.writeOps > 0 ==> lo <= e.writeLatency <= hi
    requires if IsWrite(x) then lo <= x.latency <= hi else e.writeOps > 0
    ensures lo <= Updated(e, x).writeLatency <= hi
  {
    RollKeeps(Counted(e, x), x.now);
    if IsWrite(x) && e.writeOps > 0 {
      EmaBetween(e.writeLatency, x.latency, lo, hi);
    }
  }

  lemma {:induction false} ReadAverageBetween(s: Stats, xs: seq<Sample>, lo: nat, hi: nat)
    requires Zeroed(s) && Fits(xs) && hi < TWO61 && Reads(xs) > 0 && ReadLatenciesIn(xs, lo, hi)
    ensures lo <= UpdatedAll(s, xs).readLatency <= hi
  {
    var front, x := xs[..|xs| - 1], xs[|xs| - 1];
    FitsFront(xs);
    TotalsExact(s, front);
    OpsAtMost(front);
    if Reads(front) > 0 {
      ReadAverageBetween(s, front, lo, hi);
    }
    ReadAverageStep(UpdatedAll(s, front), x, lo, hi);
  }

  lemma {:induction false} WriteAverageBetween(s: Stats, xs: seq<Sample>, lo: nat, hi: nat)
    requires Zeroed(s) && Fits(xs) && hi < TWO61 && Writes(xs) > 0 && WriteLatenciesIn(xs, lo, hi)
    ensures lo <= UpdatedAll(s, xs).writeLatency <= hi
  {
    var front, x := xs[..|xs| - 1], xs[|xs| - 1];
    FitsFront(xs);
    TotalsExact(s, front);
    OpsAtMost(front);
    if Writes(front) > 0 {
      WriteAverageBetween(s, front, lo, hi);
    }
    WriteAverageStep(UpdatedAll(s, front), x, lo, hi);
  }

  /** Over every sequence of updates, each average stays between the least and
      the greatest latency it has seen. */
  lemma AveragesBetween(s: Stats, xs: seq<Sample>, lo: nat, hi: nat)
    requires Zeroed(s) && Fits(xs) && hi < TWO61
    ensures Reads(xs) > 0 && ReadLatenciesIn(xs, lo, hi) ==> lo <= UpdatedAll(s, xs).readLatency <= hi
    ensures Writes(xs) > 0 && WriteLatenciesIn(xs, lo, hi) ==> lo <= UpdatedAll(s, xs).writeLatency <= hi
  {
    if Reads(xs) > 0 && ReadLatenciesIn(xs, lo, hi) {
      ReadAverageBetween(s, xs, lo, hi);
    }
    if Writes(xs) > 0 && WriteLatenciesIn(xs, lo, hi) {
      WriteAverageBetween(s, xs, lo, hi);
    }
  }

  /** `n` steps of the average under one constant latency. */
  function Steady(avg: nat, latency: nat, n: nat): nat
    decreases n
  {
    if n == 0 then avg else Steady(Ema(avg, latency), latency, n - 1)
  }

  /** Where a constant latency takes the average: all the way down from above,
      but only to within 7 from below, where integer division stalls. */
  function Limit(avg: nat, latency: nat): nat {
    if avg >= latency then latency
    else if latency - avg <= 7 then avg
    else latency - 7
  }

  /** One step moves strictly towards the limit until it is reached, then stops,
      and never changes the limit. */
  lemma TowardsLimit(avg: nat, latency: nat)
    requires avg < TWO61 && latency < TWO61
    ensures Ema(avg, latency) < TWO61
    ensures Limit(Ema(avg, latency), latency) == Limit(avg, latency)
    ensures avg > Limit(avg, latency) ==> Limit(avg, latency) <= Ema(avg, latency) < avg
    ensures avg < Limit(avg, latency) ==> avg < Ema(avg, latency) <= Limit(avg, latency)
    ensures avg == Limit(avg, latency) ==> Ema(avg, latency) == avg
  {
    EmaExact(avg, latency);
  }

  /** Under constant latency the average reaches its limit in at most as many
      steps as it was away from it, and stays there. */
  lemma {:induction false} ConstantLatency(avg: nat, latency: nat, n: nat)
    requires avg < TWO61 && latency < TWO61
    requires Limit(avg, latency) - n <= avg <= Limit(avg, latency) + n
    ensures Steady(avg, latency, n) == Limit(avg, latency)
    decreases n
  {
    TowardsLimit(avg, latency);
    if n > 0 {
      ConstantLatency(Ema(avg, latency), latency, n - 1);
    }
  }

  lemma {:induction false} SteadyMore(avg: nat, latency: nat, n: nat)
    ensures Steady(avg, latency, n + 1) == Ema(Steady(avg, latency, n), latency)
    decreases n
  {
    if n > 0 {
      SteadyMore(Ema(avg, latency), latency, n - 1);
    }
  }

  lemma OneRead(e: Stats, x: Sample)
    requires e.readOps > 0 && e.readOps + 1 < TWO64
    ensures Updated(e, x).readLatency == if IsRead(x) then Ema(e.readLatency, x.latency) else e.readLatency
    ensures Updated(e, x).readOps == e.readOps + if IsRead(x) then 1 else 0
  {
    RollKeeps(Counted(e, x), x.now);
  }

  lemma OneWrite(e: Stats, x: Sample)
    requires e.writeOps > 0 && e.writeOps + 1 < TWO64
    ensures Updated(e, x).writeLatency == if IsWrite(x) then Ema(e.writeLatency, x.latency) else e.writeLatency
    ensures Updated(e, x).writeOps == e.writeOps + if IsWrite(x) then 1 else 0
  {
    RollKeeps(Counted(e, x), x.now);
  }

  /** Over any updates whose reads all take `latency`, mixed with writes, other
      operations and errors, the read average makes one such step per read. */
  lemma {:induction false} ReadsAreSteps(s: Stats, xs: seq<Sample>, latency: nat)
    requires s.readOps > 0 && s.readOps + |xs| < TWO64 && ReadLatenciesIn(xs, latency, latency)
    ensures UpdatedAll(s, xs).readLatency == Steady(s.readLatency, latency, Reads(xs))
    ensures 0 < UpdatedAll(s, xs).readOps <= s.readOps + |xs|
  {
    if xs != [] {
      var front, x := xs[..|xs| - 1], xs[|xs| - 1];
      ReadsAreSteps(s, front, latency);
      OneRead(UpdatedAll(s, front), x);
      SteadyMore(s.readLatency, latency, Reads(front));
    }
  }

  lemma {:induction false} WritesAreSteps(s: Stats, xs: seq<Sample>, latency: nat)
    requires s.writeOps > 0 && s.writeOps + |xs| < TWO64 && WriteLatenciesIn(xs, latency, latency)
    ensures UpdatedAll(s, xs).writeLatency == Steady(s.writeLatency, latency, Writes(xs))
    ensures 0 < UpdatedAll(s, xs).writeOps <= s.writeOps + |xs|
  {
    if xs != [] {
      var front, x := xs[..|xs| - 1], xs[|xs| - 1];
      WritesAreSteps(s, front, latency);
      OneWrite(UpdatedAll(s, front), x);
      SteadyMore(s.writeLatency, latency, Writes(front));
    }
  }

  /** From any state that has seen a read (a write): updates whose reads (writes)
      all take the same time, mixed with anything else, bring the average to its
      limit once there are as many of them as it was away from it. */
  lemma ConstantLatencyUpdates(s: Stats, xs: seq<Sample>, latency: nat)
    requires latency < TWO61
    ensures s.readOps > 0 && s.readOps + |xs| < TWO64 && s.readLatency < TWO61 && ReadLatenciesIn(xs, latency, latency)
            && Limit(s.readLatency, latency) - Reads(xs)
               <= s.readLatency <= Limit(s.readLatency, latency) + Reads(xs) ==>
              UpdatedAll(s, xs).readLatency == Limit(s.readLatency, latency)
    ensures s.writeOps > 0 && s.writeOps + |xs| < TWO64 && s.writeLatency < TWO61
            && WriteLatenciesIn(xs, latency, latency)
            && Limit(s.writeLatency, latency) - Writes(xs)
               <= s.writeLatency <= Limit(s.writeLatency, latency) + Writes(xs) ==>
              UpdatedAll(s, xs).writeLatency == Limit(s.writeLatency, latency)
  {
    if s.readOps > 0 && s.readOps + |xs| < TWO64 && s.readLatency < TWO61 && ReadLatenciesIn(xs, latency, latency)
       && Limit(s.readLatency, latency) - Reads(xs) <= s.readLatency <= Limit(s.readLatency, latency) + Reads(xs) {
      ReadsAreSteps(s, xs, latency);
      ConstantLatency(s.readLatency, latency, Reads(xs));
    }
    if s.writeOps > 0 && s.writeOps + |xs| < TWO64 && s.writeLatency < TWO61 && WriteLatenciesIn(xs, latency, latency)
       && Limit(s.writeLatency, latency) - Writes(xs) <= s.writeLatency <= Limit(s.writeLatency, latency) + Writes(xs) {
      WritesAreSteps(s, xs, latency);
      ConstantLatency(s.writeLatency, latency, Writes(xs));
    }
  }

  // --------------------------------------------------------- rate windows

  /** The difference taken when a window closes would wrap below zero. */
  ghost predicate WindowWraps(s: Stats, x: Sample) {
    var c := Counted(s, x);
    Closes(c, x.now) && (TotalOps(c) < c.lastOps || TotalBytes(c) < c.lastBytes)
  }

  /** Update `x`, after those of `xs`, wraps. */
  ghost predicate WrapsAfter(s: Stats, xs: seq<Sample>, x: Sample) { WindowWraps(UpdatedAll(s, xs), x) }

  /** Operations (bytes) reported in windows that have closed. */
  function ClosedOps(s: Stats, xs: seq<Sample>): nat {
    if xs == [] then 0 else
      var c := Counted(UpdatedAll(s, xs[..|xs| - 1]), xs[|xs| - 1]);
      ClosedOps(s, xs[..|xs| - 1]) +
        if Closes(c, xs[|xs| - 1].now) then U64(TotalOps(c) - c.lastOps) else 0
  }
  function ClosedBytes(s: Stats, xs: seq<Sample>): nat {
    if xs == [] then 0 else
      var c := Counted(UpdatedAll(s, xs[..|xs| - 1]), xs[|xs| - 1]);
      ClosedBytes(s, xs[..|xs| - 1]) +
        if Closes(c, xs[|xs| - 1].now) then U64(TotalBytes(c) - c.lastBytes) else 0
  }

  /** With zero baselines: they never exceed the running totals, so no window
      difference wraps, and what the closed windows reported plus what the open
      one holds is the total, for operations and for bytes. */
  lemma {:induction false} WindowsTelescope(s: Stats, xs: seq<Sample>)
    requires Zeroed(s) && s.lastOps == s.lastBytes == 0 && Fits(xs)
    ensures var e := UpdatedAll(s, xs);
            && e.lastOps <= TotalOps(e) && e.lastBytes <= TotalBytes(e)
            && ClosedOps(s, xs) == e.lastOps && ClosedBytes(s, xs) == e.lastBytes
            && ClosedOps(s, xs) + (TotalOps(e) - e.lastOps) == Reads(xs) + Writes(xs)
            && ClosedBytes(s, xs) + (TotalBytes(e) - e.lastBytes) == ReadBytes(xs) + WriteBytes(xs)
    ensures xs != [] ==> !WindowWraps(UpdatedAll(s, xs[..|xs| - 1]), xs[|xs| - 1])
  {
    TotalsExact(s, xs);
    HoldsTotals(UpdatedAll(s, xs), xs);
    if xs != [] {
      FitsFront(xs);
      WindowsTelescope(s, xs[..|xs| - 1]);
      TotalsBefore(s, xs);
      TelescopeOne(s, xs, Counted(UpdatedAll(s, xs[..|xs| - 1]), xs[|xs| - 1]));
    }
  }

  /** The totals just before an update decides about its window. */
  lemma TotalsBefore(s: Stats, xs: seq<Sample>)
    requires Zeroed(s) && Fits(xs) && xs != []
    ensures var e := UpdatedAll(s, xs[..|xs| - 1]);
            var c := Counted(e, xs[|xs| - 1]);
            && TotalOps(e) <= TotalOps(c) == Reads(xs) + Writes(xs) < TWO64
            && TotalBytes(e) <= TotalBytes(c) == ReadBytes(xs) + WriteBytes(xs) < TWO64
            && c.lastOps == e.lastOps && c.lastBytes == e.lastBytes
  {
    var front, x := xs[..|xs| - 1], xs[|xs| - 1];
    var e := UpdatedAll(s, front);
    FitsFront(xs);
    TotalsExact(s, front);
    HoldsTotals(e, front);
    CountOne(e, xs);
    HoldsTotals(Counted(e, x), xs);
  }

  lemma TelescopeOne(s: Stats, xs: seq<Sample>, c: Stats)
    requires xs != [] && c == Counted(UpdatedAll(s, xs[..|xs| - 1]), xs[|xs| - 1])
    requires c.lastOps <= TotalOps(c) < TWO64 && c.lastBytes <= TotalBytes(c) < TWO64
    requires ClosedOps(s, xs[..|xs| - 1]) == c.lastOps && ClosedBytes(s, xs[..|xs| - 1]) == c.lastBytes
    ensures var e := UpdatedAll(s, xs);
            && e.lastOps <= TotalOps(e) == TotalOps(c) && e.lastBytes <= TotalBytes(e) == TotalBytes(c)
            && ClosedOps(s, xs) == e.lastOps && ClosedBytes(s, xs) == e.lastBytes
  {
    CloseOne(c, xs[|xs| - 1].now);
    ClosedMore(s, xs, c);
    assert UpdatedAll(s, xs) == Rolled(c, xs[|xs| - 1].now);
  }

  lemma ClosedMore(s: Stats, xs: seq<Sample>, c: Stats)
    requires xs != [] && c == Counted(UpdatedAll(s, xs[..|xs| - 1]), xs[|xs| - 1])
    ensures ClosedOps(s, xs) ==
              ClosedOps(s, xs[..|xs| - 1]) + if Closes(c, xs[|xs| - 1].now) then U64(TotalOps(c) - c.lastOps) else 0
    ensures ClosedBytes(s, xs) ==
              ClosedBytes(s, xs[..|xs| - 1]) +
                if Closes(c, xs[|xs| - 1].now) then U64(TotalBytes(c) - c.lastBytes) else 0
  {
  }

  /** Closing a window reports exactly what its baselines advance by. */
  lemma CloseOne(c: Stats, now: nat)
    requires c.lastOps <= TotalOps(c) < TWO64 && c.lastBytes <= TotalBytes(c) < TWO64
    ensures var r := Rolled(c, now);
            && TotalOps(r) == TotalOps(c) && TotalBytes(r) == TotalBytes(c)
            && r.lastOps == c.lastOps + (if Closes(c, now) then U64(TotalOps(c) - c.lastOps) else 0)
            && r.lastBytes == c.lastBytes + (if Closes(c, now) then U64(TotalBytes(c) - c.lastBytes) else 0)
            && r.lastOps <= TotalOps(r) && r.lastBytes <= TotalBytes(r)
  {
  }

  lemma ZeroBaselinesSafe(s: Stats, xs: seq<Sample>, x: Sample)
    requires Zeroed(s) && s.lastOps == s.lastBytes == 0 && Fits(xs + [x])
    ensures !WrapsAfter(s, xs, x)
  {
    WindowsTelescope(s, xs + [x]);
    assert (xs + [x])[..|xs|] == xs;
  }

  /** A failed operation a second after opening closes a window whose totals are
      zero, below any stale baseline. */
  lemma StaleBaselineWraps(s: Stats) returns (x: Sample)
    requires Zeroed(s) && (s.lastOps > 0 || s.lastBytes > 0)
    ensures Fits([x]) && WindowWraps(s, x)
  {
    x := Sample(OtherOp, 0, 0, false, s.windowStart + MICROS);
    assert [x][..0] == [];
  }

  /** After opening a device no window difference ever wraps, over every
      sequence of updates, exactly when the slot's baselines were zero: opening
      does not clear them, only a reset does. */
  lemma WindowsSafeIff(prior: Stats)
    ensures (forall xs: seq<Sample>, x: Sample | Fits(xs + [x]) :: !WrapsAfter(Initialised(prior), xs, x))
            <==> prior.lastOps == 0 && prior.lastBytes == 0
  {
    var s := Initialised(prior);
    if prior.lastOps == 0 && prior.lastBytes == 0 {
      forall xs: seq<Sample>, x: Sample | Fits(xs + [x])
        ensures !WrapsAfter(s, xs, x)
      {
        ZeroBaselinesSafe(s, xs, x);
      }
    } else {
      var x := StaleBaselineWraps(s);
      var none: seq<Sample> := [];
      assert none + [x] == [x] && UpdatedAll(s, none) == s;
      assert Fits(none + [x]) && WrapsAfter(s, none, x);
    }
  }

  /** A reset clears the baselines, whatever happened before. */
  lemma ResetIsSafe(now: nat, xs: seq<Sample>, x: Sample)
    requires Fits(xs + [x])
    ensures !WrapsAfter(Reset(now), xs, x)
  {
    ZeroBaselinesSafe(Reset(now), xs, x);
  }

  /** A reported rate is the exact quotient rounded down, when the product of
      the difference and a million fits in 64 bits. */
  lemma RateBounds(delta: nat, window: nat)
    requires window > 0 && delta * MICROS < TWO64
    ensures Rate(delta, window) * window <= delta * MICROS < (Rate(delta, window) + 1) * window
  {
    DivMod(delta * MICROS, window);
  }

  /** `rate` is `amount` per `window` microseconds, per second, rounded down. */
  ghost predicate RateOf(rate: nat, amount: int, window: nat) {
    amount * 1_000_000 < TWO64 ==> rate * window <= amount * 1_000_000 < (rate + 1) * window
  }

  /** Closing a window reports the rate of what it holds. */
  lemma ClosingRates(c: Stats, now: nat)
    requires c.lastOps <= TotalOps(c) && c.lastBytes <= TotalBytes(c) && Closes(c, now)
    ensures var r, window := Rolled(c, now), Window(c, now);
            && RateOf(r.iops, TotalOps(c) - c.lastOps, window)
            && RateOf(r.bandwidth, TotalBytes(c) - c.lastBytes, window)
  {
    var ops, bytes := TotalOps(c) - c.lastOps, TotalBytes(c) - c.lastBytes;
    assert U64(ops) == ops && U64(bytes) == bytes;
    if ops * MICROS < TWO64 { RateBounds(ops, Window(c, now)); }
    if bytes * MICROS < TWO64 { RateBounds(bytes, Window(c, now)); }
  }

  /** Where the open window starts, told from the clock values alone: a window that
      is a second long or longer when a sample comes in ends there, and the next
      one starts. */
  function StartOf(start: nat, xs: seq<Sample>): nat {
    if xs == [] then start else
      var prev, now := StartOf(start, xs[..|xs| - 1]), xs[|xs| - 1].now;
      if (now - prev) % 0x1_0000_0000_0000_0000 >= 1_000_000 then now else prev
  }

  /** How long the open window is when the last sample comes in. */
  function Elapsed(start: nat, xs: seq<Sample>): nat
    requires xs != []
  {
    (xs[|xs| - 1].now - StartOf(start, xs[..|xs| - 1])) % 0x1_0000_0000_0000_0000
  }

  predicate Ends(start: nat, xs: seq<Sample>)
    requires xs != []
  {
    Elapsed(start, xs) >= 1_000_000
  }

  /** The samples up to the last one that ended a window. */
  function Reported(start: nat, xs: seq<Sample>): seq<Sample> {
    if xs == [] || Ends(start, xs) then xs else Reported(start, xs[..|xs| - 1])
  }

  /** Over every sequence of updates, from any state, the open window starts where
      the clock values say. */
  lemma {:induction false} WindowStarts(s: Stats, xs: seq<Sample>)
    ensures UpdatedAll(s, xs).windowStart == StartOf(s.windowStart, xs)
    ensures xs != [] ==>
              var c := Counted(UpdatedAll(s, xs[..|xs| - 1]), xs[|xs| - 1]);
              && Window(c, xs[|xs| - 1].now) == Elapsed(s.windowStart, xs)
              && (Closes(c, xs[|xs| - 1].now) <==> Ends(s.windowStart, xs))
  {
    if xs != [] {
      var front, x := xs[..|xs| - 1], xs[|xs| - 1];
      WindowStarts(s, front);
      RollStart(UpdatedAll(s, front), x);
    }
  }

  lemma RollStart(e: Stats, x: Sample)
    ensures Window(Counted(e, x), x.now) == (x.now - e.windowStart) % 0x1_0000_0000_0000_0000
    ensures Updated(e, x).windowStart == if Window(Counted(e, x), x.now) >= 1_000_000 then x.now else e.windowStart
  {
  }

  /** With zero baselines: they are the totals over the samples up to the last one
      that ended a window. */
  lemma {:induction false} BaselinesExact(s: Stats, xs: seq<Sample>)
    requires Zeroed(s) && s.lastOps == s.lastBytes == 0 && Fits(xs)
    ensures var e, done := UpdatedAll(s, xs), Reported(s.windowStart, xs);
            && e.lastOps == Reads(done) + Writes(done) && e.lastBytes == ReadBytes(done) + WriteBytes(done)
  {
    if xs != [] {
      var front, x := xs[..|xs| - 1], xs[|xs| - 1];
      FitsFront(xs);
      BaselinesExact(s, front);
      WindowStarts(s, xs);
      TotalsExact(s, front);
      CountOne(UpdatedAll(s, front), xs);
      HoldsTotals(Counted(UpdatedAll(s, front), x), xs);
    }
  }

  /** The state in which an update decides about its window: the totals so far,
      and as baselines what earlier windows have reported. */
  lemma AtClosing(s: Stats, xs: seq<Sample>)
    requires Zeroed(s) && s.lastOps == s.lastBytes == 0 && Fits(xs) && xs != []
    ensures var c := Counted(UpdatedAll(s, xs[..|xs| - 1]), xs[|xs| - 1]);
            var done := Reported(s.windowStart, xs[..|xs| - 1]);
            && TotalOps(c) == Reads(xs) + Writes(xs) && c.lastOps == Reads(done) + Writes(done) <= TotalOps(c)
            && TotalBytes(c) == ReadBytes(xs) + WriteBytes(xs)
            && c.lastBytes == ReadBytes(done) + WriteBytes(done) <= TotalBytes(c)
  {
    var front, x := xs[..|xs| - 1], xs[|xs| - 1];
    FitsFront(xs);
    WindowsTelescope(s, front);
    BaselinesExact(s, front);
    TotalsExact(s, front);
    CountOne(UpdatedAll(s, front), xs);
    HoldsTotals(Counted(UpdatedAll(s, front), x), xs);
    HoldsTotals(UpdatedAll(s, front), front);
  }

  /** The rates reported after every sequence of updates, told from the samples
      alone. If the last one ends a window: the operations (bytes) since the end of
      the previous one, per second of the time since then, rounded down. If not:
      what was reported before. */
  lemma ReportedRates(s: Stats, xs: seq<Sample>)
    requires Zeroed(s) && s.lastOps == s.lastBytes == 0 && Fits(xs) && xs != []
    ensures var front, e := xs[..|xs| - 1], UpdatedAll(s, xs);
            var done, window := Reported(s.windowStart, front), Elapsed(s.windowStart, xs);
            var ops := Reads(xs) + Writes(xs) - Reads(done) - Writes(done);
            var bytes := ReadBytes(xs) + WriteBytes(xs) - ReadBytes(done) - WriteBytes(done);
            && 0 <= ops && 0 <= bytes
            && if Ends(s.windowStart, xs) then RateOf(e.iops, ops, window) && RateOf(e.bandwidth, bytes, window)
               else e.iops == UpdatedAll(s, front).iops && e.bandwidth == UpdatedAll(s, front).bandwidth
  {
    var c, now := Counted(UpdatedAll(s, xs[..|xs| - 1]), xs[|xs| - 1]), xs[|xs| - 1].now;
    AtClosing(s, xs);
    WindowStarts(s, xs);
    assert UpdatedAll(s, xs) == Rolled(c, now);
    if Closes(c, now) {
      ClosingRates(c, now);
    }
  }
}
