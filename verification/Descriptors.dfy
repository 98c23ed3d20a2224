/** The descriptor table: 256 slots, claimed lowest first by an open request,
    completed later by the device layer, and released by a close. */
module Descriptors {
  import opened Codes
  import opened Finite

  const MAX_OPEN: nat := 256

  /** The open flags, a word of bits. */
  datatype Flags = Flags(bits: bv32)

  /** One `xpdk_device`; the three pointers are represented by whether they are
      non-null. */
  datatype Slot = Slot(inUse: bool, bdev: bool, desc: bool, channel: bool, flags: Flags)

  /** What initialisation and a close leave. */
  const FREE: Slot := Slot(false, false, false, false, Flags(0))

  type Table = seq<Slot>

  ghost predicate IsTable(t: Table) { |t| == MAX_OPEN }

  ghost predicate AllFree(t: Table) { forall i | 0 <= i < |t| :: t[i] == FREE }

  /** The slot at `fd` when the number is in range and the slot is in use. */
  predicate Valid(t: Table, fd: int) { 0 <= fd < |t| && t[fd].inUse }

  /** Everything the I/O handlers test before they use a device. */
  predicate Ready(t: Table, fd: int) {
    Valid(t, fd) && t[fd].bdev && t[fd].desc && t[fd].channel
  }

  const O_RDONLY: bv32 := 0
  const O_WRONLY: bv32 := 1
  const O_RDWR: bv32 := 2

  /** The permission tests of the read and the write handler. */
  predicate ReadAllowed(flags: Flags) { (flags.bits & O_WRONLY) == 0 }
  predicate WriteAllowed(flags: Flags) { (flags.bits & O_RDONLY) == 0 }

  /** Whether an open with these flags asks the device layer for write access. */
  predicate WantsWrite(flags: Flags) { (flags.bits & O_RDWR) != 0 || (flags.bits & O_WRONLY) != 0 }

  /** Lowest free slot at or after `i`, or NOMEM. */
  function FirstFree(t: Table, i: nat): (fd: int)
    requires i <= |t|
    ensures fd == NOMEM || i <= fd < |t|
    ensures fd == NOMEM <==> forall k | i <= k < |t| :: t[k].inUse
    ensures fd != NOMEM ==> !t[fd].inUse && forall k | i <= k < fd :: t[k].inUse
    decreases |t| - i
  {
    if i == |t| then NOMEM
    else if !t[i].inUse then i
    else FirstFree(t, i + 1)
  }

  function Claim(t: Table, fd: nat, flags: Flags): Table
    requires fd < |t|
  {
    t[fd := t[fd].(inUse := true, bdev := true, flags := flags)]
  }

  function Put(t: Table, fd: nat): Table
    requires fd < |t|
  {
    t[fd := t[fd].(inUse := false)]
  }

  function Attach(t: Table, fd: nat): Table
    requires fd < |t|
  {
    t[fd := t[fd].(desc := true, channel := true)]
  }

  function Clear(t: Table, fd: nat): Table
    requires fd < |t|
  {
    t[fd := FREE]
  }

  /** A completion that got no I/O channel closes what it had opened. */
  function Detach(t: Table, fd: nat): Table
    requires fd < |t|
  {
    t[fd := t[fd].(desc := false, channel := false)]
  }

  /** The table after the completion of an open. */
  function Completed(t: Table, fd: nat, deviceOk: bool, channelOk: bool): Table
    requires fd < |t|
  {
    if !deviceOk then t else if channelOk then Attach(t, fd) else Detach(t, fd)
  }

  /** The table as the library holds it: an array of slots changed in place. */
  class DeviceTable {
    const slots: array<Slot>

    constructor ()
      ensures slots.Length == 256 && fresh(slots)
      ensures AllFree(slots[..])
    {
      slots := new Slot[MAX_OPEN](_ => FREE);
    }

    /** `xpdk_find_free_fd`: the scanning loop. */
    method FindFreeFd() returns (fd: int)
      modifies slots
      ensures fd == FirstFree(old(slots[..]), 0)
      ensures slots[..] == if fd < 0 then old(slots[..]) else old(slots[..])[fd := old(slots[fd]).(inUse := true)]
    {
      var i := 0;
      while i < slots.Length
        invariant 0 <= i <= slots.Length
        invariant slots[..] == old(slots[..])
        invariant FirstFree(slots[..], 0) == FirstFree(slots[..], i)
      {
        if !slots[i].inUse {
          slots[i] := slots[i].(inUse := true);
          return i;
        }
        i := i + 1;
      }
      return NOMEM;
    }

    /** `xpdk_spdk_handle_open`, up to the point where the device layer has
        taken the request (`submitOk`) or refused it. */
    method HandleOpen(found: bool, flags: Flags, submitOk: bool) returns (status: int, fd: int)
      modifies slots
      ensures status == if !found then NODEV
                        else if forall i | 0 <= i < slots.Length :: old(slots[i].inUse) then NOMEM
                        else StatusOf(submitOk)
      ensures found ==> fd == FirstFree(old(slots[..]), 0)
      ensures status == SUCCESS ==>
                && fd >= 0 && slots[..] == Claim(old(slots[..]), fd, flags)
                && slots[fd] == old(slots[fd]).(inUse := true, bdev := true, flags := flags)
      ensures status == IO_ERROR ==>
                && fd >= 0 && slots[..] == Put(Claim(old(slots[..]), fd, flags), fd)
                && slots[fd] == old(slots[fd]).(inUse := false, bdev := true, flags := flags)
      ensures status in {SUCCESS, IO_ERROR} || slots[..] == old(slots[..])
    {
      if !found {
        return NODEV, -1;
      }
      fd := FindFreeFd();
      if fd < 0 {
        return fd, fd;
      }
      slots[fd] := slots[fd].(bdev := true, flags := flags);
      if !submitOk {
        slots[fd] := slots[fd].(inUse := false);
        return IO_ERROR, fd;
      }
      status := SUCCESS;
    }

    /** `bdev_open_complete`, whatever the slot holds by then. */
    method OpenComplete(fd: nat, deviceOk: bool, channelOk: bool) returns (status: int)
      requires fd < slots.Length
      modifies slots
      ensures status == StatusOf(deviceOk && channelOk)
      ensures slots[..] == Completed(old(slots[..]), fd, deviceOk, channelOk)
      ensures slots[fd] == if deviceOk then old(slots[fd]).(desc := channelOk, channel := channelOk) else old(slots[fd])
      ensures forall i | 0 <= i < slots.Length && i != fd :: slots[i] == old(slots[i])
    {
      if !deviceOk {
        return IO_ERROR;
      }
      slots[fd] := slots[fd].(desc := true);
      slots[fd] := slots[fd].(channel := channelOk);
      if !slots[fd].channel {
        slots[fd] := slots[fd].(desc := false);
        return IO_ERROR;
      }
      return SUCCESS;
    }

    /** `xpdk_spdk_handle_close`. */
    method HandleClose(fd: int) returns (status: int)
      modifies slots
      ensures status == SUCCESS <==> Valid(old(slots[..]), fd)
      ensures status == SUCCESS ==> slots[..] == Clear(old(slots[..]), fd) && slots[fd] == FREE
      ensures status != SUCCESS ==> status == INVALID && slots[..] == old(slots[..])
    {
      if fd < 0 || fd >= slots.Length || !slots[fd].inUse {
        return INVALID;
      }
      if slots[fd].channel {
        slots[fd] := slots[fd].(channel := false);
      }
      if slots[fd].desc {
        slots[fd] := slots[fd].(desc := false);
      }
      slots[fd] := slots[fd].(bdev := false, flags := Flags(0));
      slots[fd] := slots[fd].(inUse := false);
      return SUCCESS;
    }

    /** The close loop of `xpdk_cleanup`, whose close calls go through the message
        layer: `sent` says which of them got a message and room on the ring.
        Those slots are cleared; the others are left as they are. */
    method CloseAll(sent: nat -> bool)
      modifies slots
      ensures forall i | 0 <= i < slots.Length ::
                slots[i] == if old(slots[i].inUse) && sent(i) then FREE else old(slots[i])
    {
      var i := 0;
      while i < slots.Length
        invariant 0 <= i <= slots.Length
        invariant forall k | 0 <= k < slots.Length ::
                    slots[k] == if k < i && old(slots[k].inUse) && sent(k) then FREE else old(slots[k])
      {
        if slots[i].inUse && sent(i) {
          ghost var before := slots[..];
          var status := HandleClose(i);
          assert slots[..] == Clear(before, i);
          assert forall k | 0 <= k < slots.Length :: slots[k] == slots[..][k] && (k != i ==> slots[k] == before[k]);
        }
        i := i + 1;
      }
    }
  }

  // ------------------------------------------------ opens and closes over time

  /** The table together with what its users know: opens in flight, descriptors
      that a successful open returned, and slots that a failed completion left
      marked in use. */
  datatype Opens = Opens(table: Table, opening: map<nat, nat>, owned: map<nat, nat>, leaked: set<nat>)

  datatype OpenStep =
    | Begin(req: nat, flags: Flags, submitOk: bool)
    | Finish(req: nat, deviceOk: bool, channelOk: bool)
    | Shut(fd: int)

  predicate CanStep(s: Opens, step: OpenStep) {
    match step
    case Begin(r, _, _) => r !in s.opening && r !in s.owned.Values
    case Finish(r, _, _) => r in s.opening && s.opening[r] < |s.table|
    case Shut(_) => true
  }

  function TakeStep(s: Opens, step: OpenStep): Opens
    requires CanStep(s, step)
  {
    match step
    case Begin(r, flags, submitOk) =>
      var fd := FirstFree(s.table, 0);
      if fd < 0 then s
      else if !submitOk then s.(table := Put(Claim(s.table, fd, flags), fd))
      else s.(table := Claim(s.table, fd, flags), opening := s.opening[r := fd])
    case Finish(r, deviceOk, channelOk) =>
      var fd := s.opening[r];
      var s' := s.(table := Completed(s.table, fd, deviceOk, channelOk), opening := s.opening - {r});
      if deviceOk && channelOk then s'.(owned := s.owned[fd := r]) else s'.(leaked := s.leaked + {fd})
    case Shut(fd) =>
      if !Valid(s.table, fd) then s
      else s.(table := Clear(s.table, fd), owned := s.owned - {fd}, leaked := s.leaked - {fd})
  }

  /** A close that hits a descriptor whose open has not completed yet. */
  predicate Premature(s: Opens, step: OpenStep) {
    step.Shut? && exists r | r in s.opening :: s.opening[r] == step.fd
  }

  /** Every descriptor a successful open returned can be used for I/O. */
  ghost predicate Usable(s: Opens) {
    forall fd | fd in s.owned :: Ready(s.table, fd)
  }

  function UsedSlots(t: Table): set<nat> { set i: nat | i < |t| && t[i].inUse }

  /** Slots in use are split between opens in flight, returned descriptors and
      leaked slots, and no two requests share one. */
  ghost predicate Partition(s: Opens) {
    && IsTable(s.table)
    && Usable(s)
    && (forall r | r in s.opening ::
          && Valid(s.table, s.opening[r]) && s.table[s.opening[r]].bdev && !s.table[s.opening[r]].desc
          && s.opening[r] !in s.owned && s.opening[r] !in s.leaked)
    && (forall r, q | r in s.opening && q in s.opening && s.opening[r] == s.opening[q] :: r == q)
    && (forall fd | fd in s.leaked :: Valid(s.table, fd) && fd !in s.owned && !s.table[fd].desc)
    && UsedSlots(s.table) == s.opening.Values + s.owned.Keys + s.leaked
    && (forall i | 0 <= i < |s.table| && !Ready(s.table, i) :: !s.table[i].desc && !s.table[i].channel)
  }

  ghost predicate RunOf(s: Opens, steps: seq<OpenStep>)
    decreases |steps|
  {
    steps == [] || (CanStep(s, steps[0]) && !Premature(s, steps[0]) && RunOf(TakeStep(s, steps[0]), steps[1..]))
  }

  function After(s: Opens, steps: seq<OpenStep>): Opens
    requires RunOf(s, steps)
    decreases |steps|
  {
    if steps == [] then s else After(TakeStep(s, steps[0]), steps[1..])
  }

  lemma BeginKeeps(s: Opens, r: nat, flags: Flags, submitOk: bool)
    requires Partition(s) && CanStep(s, Begin(r, flags, submitOk))
    ensures Partition(TakeStep(s, Begin(r, flags, submitOk)))
  {
    var fd := FirstFree(s.table, 0);
    var s' := TakeStep(s, Begin(r, flags, submitOk));
    if fd >= 0 {
      assert fd !in UsedSlots(s.table);
      if submitOk {
        ValuesAfterAdd(s.opening, r, fd);
        assert UsedSlots(s'.table) == UsedSlots(s.table) + {fd};
      } else {
        assert UsedSlots(s'.table) == UsedSlots(s.table);
      }
    }
  }

  lemma FinishKeeps(s: Opens, r: nat, deviceOk: bool, channelOk: bool)
    requires Partition(s) && CanStep(s, Finish(r, deviceOk, channelOk))
    ensures Partition(TakeStep(s, Finish(r, deviceOk, channelOk)))
  {
    var fd := s.opening[r];
    var s' := TakeStep(s, Finish(r, deviceOk, channelOk));
    ValuesAfterRemove(s.opening, r);
    assert deviceOk && !channelOk ==> Detach(s.table, fd) == s.table;
    assert UsedSlots(s'.table) == UsedSlots(s.table);
  }

  lemma ShutKeeps(s: Opens, fd: int)
    requires Partition(s) && !Premature(s, Shut(fd))
    ensures Partition(TakeStep(s, Shut(fd)))
  {
    var s' := TakeStep(s, Shut(fd));
    if Valid(s.table, fd) {
      assert fd !in s.opening.Values;
      assert UsedSlots(s'.table) == UsedSlots(s.table) - {fd};
    }
  }

  /** Over every run of opens, completions and closes in which no close hits an
      open in flight: returned descriptors stay usable, no descriptor is given
      to two requests, and every slot in use is accounted for. */
  lemma {:induction false} RunKeepsPartition(s: Opens, steps: seq<OpenStep>)
    requires Partition(s) && RunOf(s, steps)
    ensures Partition(After(s, steps))
    decreases |steps|
  {
    if steps != [] {
      match steps[0] {
        case Begin(r, flags, submitOk) => BeginKeeps(s, r, flags, submitOk);
        case Finish(r, deviceOk, channelOk) => FinishKeeps(s, r, deviceOk, channelOk);
        case Shut(fd) => ShutKeeps(s, fd);
      }
      RunKeepsPartition(TakeStep(s, steps[0]), steps[1..]);
    }
  }

  /** Slots in use are as many as opens in flight, returned descriptors and
      slots leaked by failed completions together. */
  lemma SlotsInUse(s: Opens)
    requires Partition(s)
    ensures |UsedSlots(s.table)| == |s.opening| + |s.owned| + |s.leaked|
  {
    InjectiveValues(s.opening);
    var a, b, c := s.opening.Values, s.owned.Keys, s.leaked;
    assert a !! b && (a + b) !! c;
    assert |a + b + c| == |a| + |b| + |c|;
    assert |s.owned| == |s.owned.Keys|;
  }

  lemma AllUsedIff(t: Table)
    ensures |UsedSlots(t)| == |t| <==> FirstFree(t, 0) == NOMEM
  {
    var all := Below(|t|);
    SubsetSize(UsedSlots(t), all);
    if FirstFree(t, 0) == NOMEM {
      assert UsedSlots(t) == all;
    } else {
      assert FirstFree(t, 0) in all && FirstFree(t, 0) !in UsedSlots(t);
    }
  }

  /** An open is refused for lack of a slot exactly when opens in flight,
      returned descriptors and leaked slots have used up all 256. */
  lemma OpenRefusedIff(s: Opens)
    requires Partition(s)
    ensures FirstFree(s.table, 0) == NOMEM <==> |s.opening| + |s.owned| + |s.leaked| == 256
  {
    SlotsInUse(s);
    AllUsedIff(s.table);
  }

  /** A slot in use has no device handle exactly while its open is in flight or
      after its open has failed. */
  lemma NoHandleIff(s: Opens, fd: int)
    requires Partition(s)
    ensures Valid(s.table, fd) && !s.table[fd].desc <==> fd in s.opening.Values || fd in s.leaked
  {
    if Valid(s.table, fd) {
      assert fd in UsedSlots(s.table);
    }
    if fd in s.opening.Values {
      var r :| r in s.opening && s.opening[r] == fd;
    }
  }

  /** A close of a descriptor that an open returned, and that has not been closed
      since, never hits an open in flight. */
  lemma OwnedIsNotPremature(s: Opens, fd: nat)
    requires Partition(s) && fd in s.owned
    ensures !Premature(s, Shut(fd))
  {
  }

  /** Closing a descriptor and then completing an open keeps returned
      descriptors usable exactly when the close did not hit that open. */
  lemma PrematureCloseBreaks(s: Opens, r: nat, fd: int)
    requires Partition(s) && r in s.opening
    ensures CanStep(TakeStep(s, Shut(fd)), Finish(r, true, true))
    ensures Usable(TakeStep(TakeStep(s, Shut(fd)), Finish(r, true, true))) <==> fd != s.opening[r]
  {
    var s1 := TakeStep(s, Shut(fd));
    var s2 := TakeStep(s1, Finish(r, true, true));
    assert s2.owned[s.opening[r]] == r;
    if fd != s.opening[r] {
      forall k | k in s2.owned
        ensures Ready(s2.table, k)
      {
        if k != s.opening[r] { assert k in s.owned && k != fd; }
      }
    } else {
      assert !s2.table[fd].inUse;
    }
  }

  /** A completion that fails after the slot was claimed leaves the slot in
      use: no later open gets it until somebody closes that number. */
  lemma FailedOpenLeaks(s: Opens, r: nat, deviceOk: bool, channelOk: bool)
    requires Partition(s) && r in s.opening && !(deviceOk && channelOk)
    ensures var s' := TakeStep(s, Finish(r, deviceOk, channelOk));
            && Valid(s'.table, s.opening[r]) && !Ready(s'.table, s.opening[r])
            && FirstFree(s'.table, 0) != s.opening[r]
            && s.opening[r] in s'.leaked
  {
    var fd := s.opening[r];
    assert Partition(TakeStep(s, Finish(r, deviceOk, channelOk))) by { FinishKeeps(s, r, deviceOk, channelOk); }
  }

  // ------------------------------------------------- the flags of an open

  /** Every slot in the account holds the flags that the request that
      claimed it asked for. */
  ghost predicate FlagsKept(o: Opens, want: seq<Flags>) {
    && (forall r | r in o.opening ::
          r < |want| && o.opening[r] < |o.table| && o.table[o.opening[r]].flags == want[r])
    && (forall fd | fd in o.owned ::
          o.owned[fd] < |want| && fd < |o.table| && o.table[fd].flags == want[o.owned[fd]])
  }

  /** Slots of opens in flight and of returned descriptors are in use, and no two
      of them are the same. */
  ghost predicate SlotsApart(o: Opens) {
    && (forall r | r in o.opening :: Valid(o.table, o.opening[r]) && o.opening[r] !in o.owned)
    && (forall fd | fd in o.owned :: Valid(o.table, fd))
  }

  lemma PartsApart(o: Opens)
    requires Partition(o)
    ensures SlotsApart(o)
  {
  }

  /** A slot that nothing in the account uses may change, and any slot that keeps
      its flags. */
  lemma OthersKeepFlags(o: Opens, o': Opens, want: seq<Flags>, fd: nat)
    requires SlotsApart(o) && FlagsKept(o, want) && |o'.table| == |o.table|
    requires forall k: nat | k < |o.table| && k != fd :: o'.table[k].flags == o.table[k].flags
    requires forall r | r in o'.opening && o'.opening[r] != fd :: r in o.opening && o'.opening[r] == o.opening[r]
    requires forall k | k in o'.owned && k != fd :: k in o.owned && o'.owned[k] == o.owned[k]
    requires forall r | r in o'.opening && o'.opening[r] == fd ::
               r < |want| && fd < |o.table| && o'.table[fd].flags == want[r]
    requires fd in o'.owned ==> o'.owned[fd] < |want| && fd < |o.table| && o'.table[fd].flags == want[o'.owned[fd]]
    ensures FlagsKept(o', want)
  {
  }

  lemma BeginFlags(o: Opens, r: nat, flags: Flags, submitOk: bool, want: seq<Flags>)
    requires SlotsApart(o) && FlagsKept(o, want) && CanStep(o, Begin(r, flags, submitOk))
    requires r < |want| && want[r] == flags
    ensures FlagsKept(TakeStep(o, Begin(r, flags, submitOk)), want)
  {
    var fd := FirstFree(o.table, 0);
    if fd >= 0 {
      assert !o.table[fd].inUse;
      OthersKeepFlags(o, TakeStep(o, Begin(r, flags, submitOk)), want, fd);
    }
  }

  lemma FinishFlags(o: Opens, r: nat, deviceOk: bool, channelOk: bool, want: seq<Flags>)
    requires SlotsApart(o) && FlagsKept(o, want) && CanStep(o, Finish(r, deviceOk, channelOk))
    ensures FlagsKept(TakeStep(o, Finish(r, deviceOk, channelOk)), want)
  {
    var o', fd := TakeStep(o, Finish(r, deviceOk, channelOk)), o.opening[r];
    assert o'.table[fd].flags == o.table[fd].flags;
    OthersKeepFlags(o, o', want, fd);
  }

  lemma ShutFlags(o: Opens, fd: int, want: seq<Flags>)
    requires SlotsApart(o) && FlagsKept(o, want) && !Premature(o, Shut(fd))
    ensures FlagsKept(TakeStep(o, Shut(fd)), want)
  {
    if Valid(o.table, fd) {
      OthersKeepFlags(o, TakeStep(o, Shut(fd)), want, fd);
    }
  }

  /** What `xpdk_init_opts` leaves: every slot free, nothing opened yet. */
  ghost predicate Fresh(s: Opens) {
    && IsTable(s.table) && s.opening == map[] && s.owned == map[] && s.leaked == {}
    && AllFree(s.table)
  }

  /** The descriptor guarantees from initialisation on: a returned descriptor is
      usable, opens in flight and returned descriptors never share a slot, and a
      further open is refused only when all 256 slots are accounted for. */
  lemma DescriptorsOverRuns(s: Opens, steps: seq<OpenStep>)
    requires Fresh(s) && RunOf(s, steps)
    ensures var e := After(s, steps);
            && Usable(e)
            && (forall r, q | r in e.opening && q in e.opening && r != q :: e.opening[r] != e.opening[q])
            && (forall r | r in e.opening :: e.opening[r] !in e.owned)
            && (FirstFree(e.table, 0) == NOMEM <==> |e.opening| + |e.owned| + |e.leaked| == 256)
  {
    assert UsedSlots(s.table) == {};
    RunKeepsPartition(s, steps);
    OpenRefusedIff(After(s, steps));
  }
}
