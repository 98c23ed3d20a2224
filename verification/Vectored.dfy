/** Scatter/gather transfers: the copying loops, and the vectored calls that put
    them around an ordinary read or write through one linear buffer. */
module Vectored {
  import opened Codes
  import opened Blocks
  import opened BlockIo
  import BlockIoLaws
  import Descriptors

  /** An iovec array: one byte array per segment. */
  type Iovec = seq<array<Byte>>

  // ------------------------------------------------- flattening, as values

  function Flat(ss: seq<seq<Byte>>): (b: seq<Byte>)
    ensures |b| == Total(Lengths(ss))
  {
    if ss == [] then [] else
      var last := |ss| - 1;
      assert Lengths(ss)[..last] == Lengths(ss[..last]);
      Flat(ss[..last]) + ss[last]
  }

  function Lengths(ss: seq<seq<Byte>>): seq<nat> { seq(|ss|, i requires 0 <= i < |ss| => |ss[i]|) }

  function Total(lens: seq<nat>): nat {
    if lens == [] then 0 else Total(lens[..|lens| - 1]) + lens[|lens| - 1]
  }

  /** `b` cut into consecutive pieces of the given lengths. */
  function Split(b: seq<Byte>, lens: seq<nat>): (ss: seq<seq<Byte>>)
    requires |b| == Total(lens)
    ensures |ss| == |lens|
    decreases |lens|
  {
    if lens == [] then [] else
      var last := |lens| - 1;
      Split(b[..|b| - lens[last]], lens[..last]) + [b[|b| - lens[last]..]]
  }

  /** Cutting the flattened segments gives the segments back. */
  lemma {:induction false} SplitFlat(ss: seq<seq<Byte>>)
    ensures Split(Flat(ss), Lengths(ss)) == ss
  {
    if ss != [] {
      var last := |ss| - 1;
      var front, b, lens := ss[..last], Flat(ss), Lengths(ss);
      SplitFlat(front);
      assert lens[..last] == Lengths(front);
      assert b == Flat(front) + ss[last];
      var cut := |b| - lens[last];
      assert b[..cut] == Flat(front) && b[cut..] == ss[last];
      assert Split(b, lens) == front + [ss[last]];
    }
  }

  /** Flattening the pieces gives the buffer back, whatever the lengths. */
  lemma {:induction false} FlatSplit(b: seq<Byte>, lens: seq<nat>)
    requires |b| == Total(lens)
    ensures Flat(Split(b, lens)) == b
    ensures Lengths(Split(b, lens)) == lens
    decreases |lens|
  {
    if lens != [] {
      var last := |lens| - 1;
      var front := b[..|b| - lens[last]];
      FlatSplit(front, lens[..last]);
      var ss := Split(b, lens);
      assert ss[..last] == Split(front, lens[..last]);
      assert Lengths(ss) == Lengths(ss[..last]) + [|ss[last]|];
      assert lens == lens[..last] + [lens[last]];
    }
  }

  lemma {:induction false} PrefixTotal(lens: seq<nat>, i: nat)
    requires i < |lens|
    ensures Total(lens[..i + 1]) == Total(lens[..i]) + lens[i] <= Total(lens)
    decreases |lens| - i
  {
    assert lens[..i + 1][..i] == lens[..i];
    if i + 1 < |lens| {
      PrefixTotal(lens, i + 1);
    } else {
      assert lens[..i + 1] == lens;
    }
  }

  lemma PrefixFlat(ss: seq<seq<Byte>>, i: nat)
    requires i < |ss|
    ensures Flat(ss[..i + 1]) == Flat(ss[..i]) + ss[i]
  {
    assert ss[..i + 1][..i] == ss[..i];
  }

  /** The k-th piece starts where the first k lengths end. */
  lemma {:induction false} SplitPiece(b: seq<Byte>, lens: seq<nat>, k: nat)
    requires |b| == Total(lens) && k < |lens|
    ensures Total(lens[..k]) + lens[k] <= |b|
    ensures Split(b, lens)[k] == b[Total(lens[..k])..Total(lens[..k]) + lens[k]]
    decreases |lens|
  {
    var last := |lens| - 1;
    var cut := |b| - lens[last];
    var front, ss := b[..cut], Split(b, lens);
    assert ss == Split(front, lens[..last]) + [b[cut..]];
    if k < last {
      SplitPiece(front, lens[..last], k);
      assert lens[..last][..k] == lens[..k] && lens[..last][k] == lens[k];
      var at := Total(lens[..k]);
      assert front[at..at + lens[k]] == b[at..at + lens[k]];
    } else {
      assert b[cut..] == b[cut..cut + lens[last]];
    }
  }

  // ------------------------------------------------------- the copying loops

  function Sizes(iov: Iovec): seq<nat> { seq(|iov|, i requires 0 <= i < |iov| => iov[i].Length) }

  function Contents(iov: Iovec): (c: seq<seq<Byte>>)
    reads iov
    ensures |c| == |iov| && forall i | 0 <= i < |iov| :: c[i] == iov[i][..]
    ensures Lengths(c) == Sizes(iov)
  {
    seq(|iov|, i requires 0 <= i < |iov| reads iov => iov[i][..])
  }

  /** No two non-empty segments are the same memory. */
  ghost predicate Disjoint(iov: Iovec) {
    forall i, j | 0 <= i < j < |iov| :: iov[i] != iov[j] || iov[i].Length == 0
  }

  /** `calculate_iovec_size`: the sum in 64 bits. */
  method CalculateSize(iov: Iovec) returns (total: nat)
    ensures total == Total(Sizes(iov)) % TWO64
  {
    total := 0;
    var i := 0;
    assert Sizes(iov)[..0] == [];
    while i < |iov|
      invariant 0 <= i <= |iov|
      invariant total == Total(Sizes(iov)[..i]) % TWO64
    {
      total := (total + iov[i].Length) % TWO64;
      PrefixTotal(Sizes(iov), i);
      SumOfRemainder(Total(Sizes(iov)[..i]), iov[i].Length);
      i := i + 1;
    }
    assert Sizes(iov)[..i] == Sizes(iov);
  }

  lemma SumOfRemainder(a: nat, b: nat)
    ensures (a % TWO64 + b) % TWO64 == (a + b) % TWO64
  {
  }

  /** After `i` segments, `dst` bytes of the buffer are filled. */
  ghost predicate Gathered(b: seq<Byte>, ss: seq<seq<Byte>>, was: seq<Byte>, i: nat, dst: nat) {
    i <= |ss| && dst == |Flat(ss[..i])| <= |was| && b == Flat(ss[..i]) + was[dst..]
  }

  /** `iovec_to_buffer`, where the destination is long enough. */
  method Gather(iov: Iovec, buffer: array<Byte>)
    requires buffer !in iov && Total(Sizes(iov)) <= buffer.Length
    modifies buffer
    ensures buffer[..Total(Sizes(iov))] == Flat(Contents(iov))
    ensures buffer[Total(Sizes(iov))..] == old(buffer[Total(Sizes(iov))..])
    ensures Contents(iov) == old(Contents(iov))
  {
    ghost var ss, was := Contents(iov), buffer[..];
    GatherLoop(iov, buffer, ss);
    FrontAndBack(buffer, Flat(ss), was[|Flat(ss)|..]);
  }

  method GatherLoop(iov: Iovec, buffer: array<Byte>, ghost ss: seq<seq<Byte>>)
    requires buffer !in iov && Total(Lengths(ss)) <= buffer.Length
    requires |iov| == |ss| && forall k | 0 <= k < |iov| :: iov[k][..] == ss[k]
    modifies buffer
    ensures buffer[..] == Flat(ss) + old(buffer[..])[|Flat(ss)|..]
  {
    ghost var was := buffer[..];
    var dst: nat := 0;
    var i: nat := 0;
    while i < |iov|
      invariant 0 <= i <= |iov|
      invariant Gathered(buffer[..], ss, was, i, dst)
    {
      GatherOne(buffer, dst, iov[i], ss, was, i);
      dst := dst + iov[i].Length;
      i := i + 1;
    }
    assert ss[..i] == ss;
  }

  /** One turn of the gather loop. */
  method GatherOne(buffer: array<Byte>, dst: nat, segment: array<Byte>,
                   ghost ss: seq<seq<Byte>>, ghost was: seq<Byte>, ghost i: nat)
    requires Total(Lengths(ss)) <= |was| == buffer.Length && buffer != segment
    requires i < |ss| && segment[..] == ss[i] && Gathered(buffer[..], ss, was, i, dst)
    modifies buffer
    ensures Gathered(buffer[..], ss, was, i + 1, dst + segment.Length)
  {
    assert Lengths(ss[..i]) == Lengths(ss)[..i];
    GatherNext(ss, Lengths(ss), was, i, dst);
    CopySegment(buffer, dst, segment, Flat(ss[..i]), was[dst..]);
  }

  lemma GatherNext(ss: seq<seq<Byte>>, lens: seq<nat>, was: seq<Byte>, i: nat, dst: nat)
    requires lens == Lengths(ss) && i < |ss| && dst == Total(lens[..i]) && Total(lens) <= |was|
    ensures Total(lens[..i + 1]) == dst + lens[i] <= Total(lens) && |Flat(ss[..i + 1])| == dst + lens[i]
    ensures Flat(ss[..i]) + ss[i] + was[dst..][lens[i]..] == Flat(ss[..i + 1]) + was[dst + lens[i]..]
  {
    PrefixTotal(lens, i);
    PrefixFlat(ss, i);
    assert Lengths(ss[..i + 1]) == lens[..i + 1];
    assert was[dst..][lens[i]..] == was[dst + lens[i]..];
  }

  lemma FrontAndBack(buffer: array<Byte>, front: seq<Byte>, back: seq<Byte>)
    requires buffer[..] == front + back
    ensures buffer[..|front|] == front && buffer[|front|..] == back
  {
  }

  /** One memcpy of the gather loop: the segment replaces the bytes after the
      part already filled. */
  method CopySegment(buffer: array<Byte>, at: nat, segment: array<Byte>, ghost done: seq<Byte>, ghost rest: seq<Byte>)
    requires buffer != segment && at + segment.Length <= buffer.Length
    requires |done| == at && buffer[..] == done + rest
    modifies buffer
    ensures buffer[..] == done + segment[..] + rest[segment.Length..]
  {
    assert buffer[..at] == done;
    assert buffer[at + segment.Length..] == rest[segment.Length..];
    Copy(buffer, at, segment, 0, segment.Length);
    assert segment[0..segment.Length] == segment[..];
  }

  /** `buffer_to_iovec`, where the source is long enough: distinct segments
      receive consecutive pieces of the buffer. */
  method Scatter(buffer: array<Byte>, iov: Iovec)
    requires buffer !in iov && Total(Sizes(iov)) <= buffer.Length
    modifies iov
    ensures Disjoint(iov) ==> Contents(iov) == Split(buffer[..Total(Sizes(iov))], Sizes(iov))
  {
    ghost var lens := Sizes(iov);
    ghost var b := buffer[..Total(lens)];
    var src := 0;
    var i := 0;
    while i < |iov|
      invariant 0 <= i <= |iov|
      invariant src == Total(lens[..i]) <= Total(lens)
      invariant buffer[..Total(lens)] == b
      invariant Disjoint(iov) ==> forall k | 0 <= k < i :: iov[k][..] == Split(b, lens)[k]
    {
      PrefixTotal(lens, i);
      SplitPiece(b, lens, i);
      Copy(iov[i], 0, buffer, src, iov[i].Length);
      assert iov[i][..] == buffer[src..src + iov[i].Length] == b[src..src + iov[i].Length];
      src := src + iov[i].Length;
      i := i + 1;
    }
  }

  // ------------------------------------------------------ synchronous calls

  /** Environment of one vectored call: whether the linear buffer and the
      wrapper context can be had, what the message layer answers, and the
      device's part. `tempAddr` is the address the buffer allocator returns and
      `junk` what it finds there; `copied` is the schedule of a synchronous read:
      how many bytes of a bounce buffer the handler has copied out by the time
      the caller, which has seen the completion flag, goes on. */
  datatype VEnv = VEnv(tempOk: bool, wrapperOk: bool, sendRc: int,
    tempAddr: nat, junk: nat -> Byte, copied: nat, io: Env)

  const DEFAULT_ALIGNMENT: nat := 4096

  ghost predicate Aligned(v: VEnv) { v.tempAddr % DEFAULT_ALIGNMENT == 0 }

  /** A linear write of `count` bytes succeeds. */
  ghost predicate WriteGoes(slot: Descriptors.Slot, v: VEnv, disk: seq<Byte>, bs: nat, offset: nat, count: nat)
    requires bs > 0
  {
    && v.sendRc == SUCCESS && Admits(slot, false) && v.io.allocOk && v.io.submitOk && v.io.deviceOk
    && Rounded(count, bs) < TWO32 && OnDevice(disk, bs, offset, count)
  }

  /** It runs past its padded buffer. */
  ghost predicate WriteOverruns(slot: Descriptors.Slot, v: VEnv, bs: nat, count: nat)
    requires bs > 0
  {
    v.sendRc == SUCCESS && Admits(slot, false) && v.io.allocOk && Rounded(count, bs) >= TWO32
  }

  /** What a linear read of `count` bytes reports. */
  function LinearOutcome(slot: Descriptors.Slot, v: VEnv, numBlocks: nat, bs: nat, offset: nat, count: nat): Outcome
    requires bs > 0
  {
    if v.sendRc != SUCCESS then Failed(v.sendRc)
    else ReadOutcome(slot, numBlocks, bs, false, v.tempAddr, count, offset, v.io)
  }

  /** What a vectored read into segments of this total size reports: the sum of
      the sizes may have wrapped. */
  function ReadvOutcome(slot: Descriptors.Slot, v: VEnv, numBlocks: nat, bs: nat, offset: nat, total: nat): Outcome
    requires bs > 0
  {
    var size := total % TWO64;
    if size == 0 then Failed(INVALID)
    else if !v.tempOk then Failed(NOMEM)
    else
      var r := LinearOutcome(slot, v, numBlocks, bs, offset, size);
      if r.Done? && size < total then Overrun else r
  }

  /** The uninitialised linear buffer. */
  function Junk(v: VEnv, n: nat): (b: seq<Byte>)
    ensures |b| == n
  {
    seq<Byte>(n, i requires i >= 0 => v.junk(i))
  }

  /** `xpdk_alloc_buffer`. */
  method AllocLinear(heap: Heap, v: VEnv, n: nat) returns (temp: array<Byte>)
    modifies heap`live
    ensures fresh(temp) && temp[..] == Junk(v, n) && heap.live == old(heap.live) + 1
  {
    temp := new Byte[n](_ => 0);
    var i := 0;
    while i < n
      invariant 0 <= i <= n
      invariant forall k | 0 <= k < i :: temp[k] == v.junk(k)
      invariant heap.live == old(heap.live)
    {
      temp[i] := v.junk(i);
      i := i + 1;
    }
    heap.live := heap.live + 1;
  }

  /** The segments after a linear buffer that held `prior` was filled with `n`
      bytes of the device and scattered. */
  function Scattered(disk: seq<Byte>, start: nat, n: nat, prior: seq<Byte>, lens: seq<nat>): seq<seq<Byte>>
    requires |prior| == Total(lens)
  {
    Split(Filled(disk, start, n, prior), lens)
  }

  /** Nothing outside the blocks a write selects has changed. */
  ghost predicate Untouched(disk: seq<Byte>, after: seq<Byte>, bs: nat, offset: nat, count: nat)
    requires bs > 0
  {
    && |after| == |disk|
    && forall i | 0 <= i < |disk| && !(Start(offset, bs) <= i < Start(offset, bs) + Rounded(count, bs)) ::
         after[i] == disk[i]
  }

  /** The status of a linear request that fails. */
  function FailStatus(admitted: bool, bufferOk: bool, sendRc: int): int {
    if sendRc != SUCCESS then sendRc else if !admitted then INVALID else if !bufferOk then NOMEM else IO_ERROR
  }

  /** A linear read leaves its bounce buffer behind. */
  ghost predicate BounceLeaks(slot: Descriptors.Slot, v: VEnv, numBlocks: nat, bs: nat, offset: nat, count: nat)
    requires bs > 0
  {
    && v.sendRc == SUCCESS && TakesRead(slot, numBlocks, bs, v.tempAddr, count, offset, v.io)
    && NeedsBounce(v.tempAddr, count, bs) && !v.io.deviceOk
  }

  /** The status of a vectored request of this total size that fails. */
  function VectoredFailStatus(total: nat, tempOk: bool, linear: int): int {
    if total % TWO64 == 0 then INVALID else if !tempOk then NOMEM else linear
  }

  /** `xpdk_writev`. */
  method Writev(dev: Device, heap: Heap, slot: Descriptors.Slot, iov: Iovec, offset: nat, v: VEnv)
    returns (r: Outcome)
    requires dev.Valid() && IsU64(offset) && dev.data !in iov
    modifies dev.data, heap`live
    ensures Contents(iov) == old(Contents(iov))
    ensures r.Done? ==>
              && r.bytes == Total(Sizes(iov)) > 0 && Rounded(r.bytes, dev.blockSize) < TWO32
              && OnDevice(old(dev.data[..]), dev.blockSize, offset, r.bytes)
              && dev.data[..] == Written(old(dev.data[..]), dev.blockSize, offset, Flat(Contents(iov)))
    ensures r.Done? <==>
              && Total(Sizes(iov)) > 0 && v.tempOk
              && WriteGoes(slot, v, old(dev.data[..]), dev.blockSize, offset, Total(Sizes(iov)))
    ensures r.Overrun? <==>
              && Total(Sizes(iov)) % TWO64 != 0 && v.tempOk
              && (Total(Sizes(iov)) >= TWO64 || WriteOverruns(slot, v, dev.blockSize, Total(Sizes(iov))))
    ensures r.Failed? ==>
              r.status == VectoredFailStatus(Total(Sizes(iov)), v.tempOk,
                                             FailStatus(Admits(slot, false), v.io.allocOk, v.sendRc))
    ensures Total(Sizes(iov)) % TWO64 == 0 ==> r == Failed(INVALID)
    ensures Total(Sizes(iov)) % TWO64 != 0 && !v.tempOk ==> r == Failed(NOMEM)
    ensures 0 < Total(Sizes(iov)) < TWO64 && v.tempOk && v.sendRc != SUCCESS ==> r == Failed(v.sendRc)
    ensures Untouched(old(dev.data[..]), dev.data[..], dev.blockSize, offset, Total(Sizes(iov)))
    ensures !r.Overrun? ==> heap.live == old(heap.live)
  {
    if |iov| == 0 {
      return Failed(INVALID);
    }
    var total := CalculateSize(iov);
    RoundedBounds(Total(Sizes(iov)), dev.blockSize);
    if total == 0 {
      return Failed(INVALID);
    }
    if !v.tempOk {
      return Failed(NOMEM);
    }
    if Total(Sizes(iov)) > total {
      return Overrun;
    }
    r := GatherAndWrite(dev, heap, slot, iov, offset, v);
  }

  /** The linear buffer's part of a vectored write, where the size did not wrap. */
  method GatherAndWrite(dev: Device, heap: Heap, slot: Descriptors.Slot, iov: Iovec, offset: nat, v: VEnv)
    returns (r: Outcome)
    requires dev.Valid() && IsU64(offset) && dev.data !in iov && IsU64(Total(Sizes(iov)))
    modifies dev.data, heap`live
    ensures Contents(iov) == old(Contents(iov))
    ensures r.Done? ==>
              && r.bytes == Total(Sizes(iov)) && Rounded(r.bytes, dev.blockSize) < TWO32
              && OnDevice(old(dev.data[..]), dev.blockSize, offset, r.bytes)
              && dev.data[..] == Written(old(dev.data[..]), dev.blockSize, offset, Flat(Contents(iov)))
    ensures r.Done? <==> WriteGoes(slot, v, old(dev.data[..]), dev.blockSize, offset, Total(Sizes(iov)))
    ensures r.Overrun? <==> WriteOverruns(slot, v, dev.blockSize, Total(Sizes(iov)))
    ensures r.Failed? ==> r.status == FailStatus(Admits(slot, false), v.io.allocOk, v.sendRc)
    ensures Untouched(old(dev.data[..]), dev.data[..], dev.blockSize, offset, Total(Sizes(iov)))
    ensures !r.Overrun? ==> heap.live == old(heap.live)
  {
    var temp := new Byte[Total(Sizes(iov))](_ => 0);
    heap.live := heap.live + 1;
    Gather(iov, temp);
    ghost var flat := Flat(Contents(iov));
    assert temp[..] == flat by { assert temp[..] == temp[..Total(Sizes(iov))]; }
    r := WriteLinear(dev, heap, slot, temp, offset, v);
    heap.live := heap.live - 1;
  }

  /** `xpdk_write` of a whole linear buffer, message layer included. */
  method WriteLinear(dev: Device, heap: Heap, slot: Descriptors.Slot, temp: array<Byte>, offset: nat, v: VEnv)
    returns (r: Outcome)
    requires dev.Valid() && IsU64(offset) && IsU64(temp.Length) && temp != dev.data
    modifies dev.data, heap`live
    ensures r.Done? ==>
              && r.bytes == temp.Length && Rounded(temp.Length, dev.blockSize) < TWO32
              && OnDevice(old(dev.data[..]), dev.blockSize, offset, temp.Length)
              && dev.data[..] == Written(old(dev.data[..]), dev.blockSize, offset, temp[..])
    ensures r.Done? <==> WriteGoes(slot, v, old(dev.data[..]), dev.blockSize, offset, temp.Length)
    ensures r.Overrun? <==> WriteOverruns(slot, v, dev.blockSize, temp.Length)
    ensures r.Failed? ==> r.status == FailStatus(Admits(slot, false), v.io.allocOk, v.sendRc)
    ensures Untouched(old(dev.data[..]), dev.data[..], dev.blockSize, offset, temp.Length)
    ensures !r.Overrun? ==> heap.live == old(heap.live)
  {
    if v.sendRc != SUCCESS {
      return Failed(v.sendRc);
    }
    r := HandleWrite(dev, heap, slot, temp, temp.Length, offset, v.io);
    assert temp[..temp.Length] == temp[..];
  }

  /** `xpdk_readv`, and what the handler of its linear read still does after the
      call: `late` bytes of a bounce buffer go to the linear buffer, which the
      call has freed. */
  method Readv(dev: Device, heap: Heap, slot: Descriptors.Slot, iov: Iovec, offset: nat, v: VEnv)
    returns (r: Outcome, late: nat)
    requires dev.Valid() && IsU64(offset) && dev.data !in iov
    modifies iov, heap`live
    ensures r == ReadvOutcome(slot, v, dev.numBlocks, dev.blockSize, offset, Total(Sizes(iov)))
    ensures Total(Sizes(iov)) % TWO64 == 0 ==> r == Failed(INVALID)
    ensures Total(Sizes(iov)) % TWO64 != 0 && !v.tempOk ==> r == Failed(NOMEM)
    ensures Total(Sizes(iov)) % TWO64 != 0 && v.tempOk && v.sendRc != SUCCESS ==> r == Failed(v.sendRc)
    ensures r.Done? ==> r.bytes == Total(Sizes(iov)) > 0
    ensures r.Done? && Disjoint(iov) ==>
              Contents(iov) == Scattered(dev.data[..], Start(offset, dev.blockSize),
                                         SeenByCaller(dev.blockSize, v.tempAddr, r.bytes, v.copied),
                                         Junk(v, r.bytes), Sizes(iov))
    ensures r.Failed? ==> Contents(iov) == old(Contents(iov))
    ensures late == if r.Done? && NeedsBounce(v.tempAddr, r.bytes, dev.blockSize) && v.copied < r.bytes
                    then r.bytes - v.copied else 0
    ensures !r.Overrun? ==>
              heap.live == old(heap.live) +
                if Total(Sizes(iov)) % TWO64 > 0 && v.tempOk
                   && BounceLeaks(slot, v, dev.numBlocks, dev.blockSize, offset, Total(Sizes(iov)) % TWO64)
                then 1 else 0
  {
    late := 0;
    if |iov| == 0 {
      return Failed(INVALID), 0;
    }
    var total := CalculateSize(iov);
    if total == 0 {
      return Failed(INVALID), 0;
    }
    if !v.tempOk {
      return Failed(NOMEM), 0;
    }
    r, late := ReadAndScatter(dev, heap, slot, iov, total, offset, v);
  }

  /** A vectored read once the linear buffer of `total` bytes can be had. */
  method ReadAndScatter(dev: Device, heap: Heap, slot: Descriptors.Slot, iov: Iovec, total: nat, offset: nat, v: VEnv)
    returns (r: Outcome, late: nat)
    requires dev.Valid() && IsU64(offset) && dev.data !in iov && IsU64(total) && total <= Total(Sizes(iov))
    modifies iov, heap`live
    ensures var l := LinearOutcome(slot, v, dev.numBlocks, dev.blockSize, offset, total);
            r == if l.Done? && total < Total(Sizes(iov)) then Overrun else l
    ensures r.Done? ==> r.bytes == total == Total(Sizes(iov))
    ensures r.Done? && Disjoint(iov) ==>
              Contents(iov) == Scattered(dev.data[..], Start(offset, dev.blockSize),
                                         SeenByCaller(dev.blockSize, v.tempAddr, total, v.copied),
                                         Junk(v, total), Sizes(iov))
    ensures r.Failed? ==> Contents(iov) == old(Contents(iov))
    ensures late == if r.Done? && NeedsBounce(v.tempAddr, total, dev.blockSize) && v.copied < total
                    then total - v.copied else 0
    ensures !r.Overrun? ==>
              heap.live == old(heap.live) +
                if BounceLeaks(slot, v, dev.numBlocks, dev.blockSize, offset, total) then 1 else 0
  {
    late := 0;
    var temp: array<Byte>, bounce: array?<Byte>;
    r, temp, bounce := ReadToLinear(dev, heap, slot, total, offset, v);
    r := ScatterIfRead(temp, iov, r);
    if !r.Overrun? {
      late := FreeLinear(heap, temp, bounce, v.copied, Contents(iov), iov);
    }
  }

  /** The caller frees the linear buffer; then the handler of a bounced read
      finishes its copy. */
  method FreeLinear(heap: Heap, temp: array<Byte>, bounce: array?<Byte>, copied: nat,
                    ghost got: seq<seq<Byte>>, ghost iov: Iovec)
    returns (late: nat)
    requires bounce != null ==> temp != bounce && temp.Length <= bounce.Length
    requires temp !in iov && got == Contents(iov)
    modifies temp, heap`live
    ensures late == if bounce != null && copied < temp.Length then temp.Length - copied else 0
    ensures heap.live == old(heap.live) - if bounce != null then 2 else 1
    ensures Contents(iov) == got
  {
    late := 0;
    heap.live := heap.live - 1;
    if bounce != null {
      late := FinishLate(heap, temp, bounce, copied);
    }
  }

  /** The linear buffer, and the read into it. */
  method ReadToLinear(dev: Device, heap: Heap, slot: Descriptors.Slot, total: nat, offset: nat, v: VEnv)
    returns (r: Outcome, temp: array<Byte>, bounce: array?<Byte>)
    requires dev.Valid() && IsU64(offset) && IsU64(total)
    modifies heap`live
    ensures r == LinearOutcome(slot, v, dev.numBlocks, dev.blockSize, offset, total)
    ensures r.Done? ==> r.bytes == total
    ensures fresh(temp) && temp.Length == total
    ensures r.Done? ==>
              temp[..] == Filled(dev.data[..], Start(offset, dev.blockSize),
                                 SeenByCaller(dev.blockSize, v.tempAddr, total, v.copied), Junk(v, total))
    ensures bounce != null <==> r.Done? && NeedsBounce(v.tempAddr, total, dev.blockSize)
    ensures bounce != null ==> fresh(bounce) && bounce != temp && total <= bounce.Length
    ensures bounce != null ==>
              heap.live == old(heap.live) + 2 && !BounceLeaks(slot, v, dev.numBlocks, dev.blockSize, offset, total)
    ensures !r.Overrun? && bounce == null ==>
              heap.live == old(heap.live) + 1 +
                if BounceLeaks(slot, v, dev.numBlocks, dev.blockSize, offset, total) then 1 else 0
  {
    temp := AllocLinear(heap, v, total);
    r, bounce := ReadLinear(dev, heap, slot, temp, offset, v);
  }

  /** The linear buffer goes to the segments if the read succeeded. */
  method ScatterIfRead(temp: array<Byte>, iov: Iovec, read: Outcome) returns (r: Outcome)
    requires temp !in iov && temp.Length <= Total(Sizes(iov))
    modifies iov
    ensures r == if read.Done? && temp.Length < Total(Sizes(iov)) then Overrun else read
    ensures r.Done? && Disjoint(iov) ==>
              temp.Length == Total(Sizes(iov)) && Contents(iov) == Split(old(temp[..]), Sizes(iov))
    ensures r.Failed? ==> Contents(iov) == old(Contents(iov))
  {
    r := read;
    if read.Done? {
      if Total(Sizes(iov)) > temp.Length {
        return Overrun;
      }
      assert temp[..Total(Sizes(iov))] == temp[..];
      Scatter(temp, iov);
      assert temp[..Total(Sizes(iov))] == temp[..];
    }
  }

  /** `xpdk_read` into a whole linear buffer, up to the moment its caller goes on:
      a bounced read has then copied some of `bounce` only. */
  method ReadLinear(dev: Device, heap: Heap, slot: Descriptors.Slot, temp: array<Byte>, offset: nat, v: VEnv)
    returns (r: Outcome, bounce: array?<Byte>)
    requires dev.Valid() && IsU64(offset) && IsU64(temp.Length) && temp != dev.data
    modifies temp, heap`live
    ensures r == LinearOutcome(slot, v, dev.numBlocks, dev.blockSize, offset, temp.Length)
    ensures r.Done? ==>
              temp[..] == Filled(dev.data[..], Start(offset, dev.blockSize),
                                 SeenByCaller(dev.blockSize, v.tempAddr, temp.Length, v.copied), old(temp[..]))
    ensures bounce != null <==> r.Done? && NeedsBounce(v.tempAddr, temp.Length, dev.blockSize)
    ensures bounce != null ==> fresh(bounce) && temp.Length <= bounce.Length
    ensures bounce != null ==>
              heap.live == old(heap.live) + 1
              && !BounceLeaks(slot, v, dev.numBlocks, dev.blockSize, offset, temp.Length)
    ensures !r.Overrun? && bounce == null ==>
              heap.live == old(heap.live) +
                if BounceLeaks(slot, v, dev.numBlocks, dev.blockSize, offset, temp.Length) then 1 else 0
    ensures r.Done? ==> r.bytes == temp.Length
  {
    bounce := null;
    if v.sendRc != SUCCESS {
      return Failed(v.sendRc), null;
    }
    assert temp[..temp.Length] == temp[..];
    r, bounce := ReadToFlag(dev, heap, slot, false, temp, v.tempAddr, temp.Length, offset, v.io);
    assert temp[..temp.Length] == temp[..];
    if bounce != null {
      ReadRange(dev.numBlocks, dev.blockSize, offset, temp.Length);
      if temp.Length > bounce.Length {
        return Overrun, null;
      }
      CopyPart(temp, bounce, Min(v.copied, temp.Length), dev.data[..], Start(offset, dev.blockSize));
    }
  }

  /** The part of a bounce buffer that is copied before the caller goes on. */
  method CopyPart(temp: array<Byte>, bounce: array<Byte>, n: nat, ghost disk: seq<Byte>, ghost start: nat)
    requires temp != bounce && n <= temp.Length <= bounce.Length
    requires start + bounce.Length <= |disk| && bounce[..] == disk[start..start + bounce.Length]
    modifies temp
    ensures temp[..] == Filled(disk, start, n, old(temp[..]))
  {
    Copy(temp, 0, bounce, 0, n);
    assert bounce[0..n] == bounce[..][0..n] == disk[start..start + n];
  }

  /** The handler's remaining copy after its caller has gone on, to a buffer that
      the caller has freed. */
  method FinishLate(heap: Heap, freed: array<Byte>, bounce: array<Byte>, copied: nat) returns (late: nat)
    requires freed != bounce && freed.Length <= bounce.Length
    modifies freed, heap`live
    ensures late == freed.Length - Min(copied, freed.Length)
    ensures heap.live == old(heap.live) - 1
  {
    late := freed.Length - Min(copied, freed.Length);
    Copy(freed, freed.Length - late, bounce, freed.Length - late, late);
    heap.live := heap.live - 1;
  }

  /** With `n` bytes in the linear buffer every segment gets its slice of the
      device, whatever the device and the buffer held before. */
  ghost predicate Delivers(size: nat, start: nat, n: nat, lens: seq<nat>)
    requires start + Total(lens) <= size
  {
    forall disk: seq<Byte>, prior: seq<Byte> | |disk| == size && |prior| == Total(lens) ::
      Scattered(disk, start, n, prior, lens) == Split(disk[start..start + Total(lens)], lens)
  }

  lemma DeliversIffFull(size: nat, start: nat, n: nat, lens: seq<nat>)
    requires start + Total(lens) <= size && n <= Total(lens)
    ensures Delivers(size, start, n, lens) <==> n == Total(lens)
  {
    if n == Total(lens) {
      forall disk: seq<Byte>, prior: seq<Byte> | |disk| == size && |prior| == Total(lens)
        ensures Scattered(disk, start, n, prior, lens) == Split(disk[start..start + Total(lens)], lens)
      {
        BlockIoLaws.FilledFull(disk, start, prior);
      }
    } else {
      var disk, prior := BlockIoLaws.FilledShort(size, start, n, Total(lens));
      SplitApart(Filled(disk, start, n, prior), disk[start..start + Total(lens)], lens);
    }
  }

  lemma SplitApart(a: seq<Byte>, b: seq<Byte>, lens: seq<nat>)
    requires |a| == |b| == Total(lens) && a != b
    ensures Split(a, lens) != Split(b, lens)
  {
    FlatSplit(a, lens);
    FlatSplit(b, lens);
  }

  /** The transfer lengths of a vectored read, for every address the allocator
      can return: full exactly in the direct case, and never more than full. */
  lemma TransferLengths(bs: nat, addr: nat, count: nat, copied: nat)
    requires IsBlockSize(bs) && 0 < count < TWO64 && addr % DEFAULT_ALIGNMENT == 0
    ensures SeenByCaller(bs, addr, count, copied) <= count && Delivered(true, bs, addr, count) <= count
    ensures GoesDirect(count, bs) && Ceil(count, bs) < TWO32 ==>
              SeenByCaller(bs, addr, count, copied) == count == Delivered(true, bs, addr, count)
    ensures !(GoesDirect(count, bs) && Ceil(count, bs) < TWO32) ==>
              && SeenByCaller(bs, DEFAULT_ALIGNMENT, count, 0) < count
              && Delivered(true, bs, DEFAULT_ALIGNMENT, count) < count
  {
    if GoesDirect(count, bs) {
      AlignmentCarriesOver(addr, bs);
    }
    if count % bs == 0 {
      DirectLength(count, bs);
    }
  }

  /** A vectored read that reports success has filled its segments when it
      returns, for every device content, every address and old content of the
      linear buffer and every schedule, exactly when the total is a whole number
      of blocks, blocks divide the buffer's alignment and the block count fits in
      32 bits: all of it something a caller can test before the call. The same
      holds for what the callback of an asynchronous one is shown. */
  lemma ReadvDeliversIff(size: nat, bs: nat, start: nat, lens: seq<nat>)
    requires IsBlockSize(bs) && 0 < Total(lens) < TWO64 && start + Total(lens) <= size
    ensures DeliversOnSchedules(size, bs, start, lens) <==> GoesDirect(Total(lens), bs) && Ceil(Total(lens), bs) < TWO32
    ensures DeliversToCallback(size, bs, start, lens) <==> GoesDirect(Total(lens), bs) && Ceil(Total(lens), bs) < TWO32
  {
    if GoesDirect(Total(lens), bs) && Ceil(Total(lens), bs) < TWO32 {
      DirectIsFull(bs, Total(lens));
      FullDelivers(size, bs, start, lens);
    } else {
      OthersFail(size, bs, start, lens);
      assert DEFAULT_ALIGNMENT % DEFAULT_ALIGNMENT == 0;
    }
  }

  ghost predicate DeliversOnSchedules(size: nat, bs: nat, start: nat, lens: seq<nat>)
    requires bs > 0 && start + Total(lens) <= size
  {
    forall addr: nat, copied: nat | addr % 4096 == 0 ::
      Delivers(size, start, SeenByCaller(bs, addr, Total(lens), copied), lens)
  }

  ghost predicate DeliversToCallback(size: nat, bs: nat, start: nat, lens: seq<nat>)
    requires bs > 0 && start + Total(lens) <= size
  {
    forall addr: nat | addr % 4096 == 0 ::
      Delivers(size, start, Delivered(true, bs, addr, Total(lens)), lens)
  }

  /** All that matters about a direct vectored read. */
  ghost predicate AlwaysFull(bs: nat, count: nat)
    requires bs > 0
  {
    && (forall addr: nat, copied: nat | addr % DEFAULT_ALIGNMENT == 0 :: SeenByCaller(bs, addr, count, copied) == count)
    && (forall addr: nat | addr % DEFAULT_ALIGNMENT == 0 :: Delivered(true, bs, addr, count) == count)
  }

  lemma DirectIsFull(bs: nat, count: nat)
    requires IsBlockSize(bs) && 0 < count < TWO64 && GoesDirect(count, bs) && Ceil(count, bs) < TWO32
    ensures AlwaysFull(bs, count)
  {
    forall addr: nat, copied: nat | addr % DEFAULT_ALIGNMENT == 0
      ensures SeenByCaller(bs, addr, count, copied) == count
    {
      TransferLengths(bs, addr, count, copied);
    }
    forall addr: nat | addr % DEFAULT_ALIGNMENT == 0
      ensures Delivered(true, bs, addr, count) == count
    {
      TransferLengths(bs, addr, count, 0);
    }
  }

  lemma FullDelivers(size: nat, bs: nat, start: nat, lens: seq<nat>)
    requires bs > 0 && start + Total(lens) <= size && AlwaysFull(bs, Total(lens))
    ensures DeliversOnSchedules(size, bs, start, lens) && DeliversToCallback(size, bs, start, lens)
  {
    DeliversIffFull(size, start, Total(lens), lens);
  }

  lemma OthersFail(size: nat, bs: nat, start: nat, lens: seq<nat>)
    requires IsBlockSize(bs) && 0 < Total(lens) < TWO64 && start + Total(lens) <= size
    requires !(GoesDirect(Total(lens), bs) && Ceil(Total(lens), bs) < TWO32)
    ensures !Delivers(size, start, SeenByCaller(bs, DEFAULT_ALIGNMENT, Total(lens), 0), lens)
    ensures !Delivers(size, start, Delivered(true, bs, DEFAULT_ALIGNMENT, Total(lens)), lens)
  {
    TransferLengths(bs, DEFAULT_ALIGNMENT, Total(lens), 0);
    DeliversIffFull(size, start, SeenByCaller(bs, DEFAULT_ALIGNMENT, Total(lens), 0), lens);
    DeliversIffFull(size, start, Delivered(true, bs, DEFAULT_ALIGNMENT, Total(lens)), lens);
  }

  /** Writing one segmentation and reading the same range into any other of the
      same total size keeps the byte stream, empty segments included, whenever
      the read is direct, and otherwise if the handler's copy came in time. */
  method WritevThenReadv(dev: Device, heap: Heap, slot: Descriptors.Slot, source: Iovec, target: Iovec,
                         offset: nat, v1: VEnv, v2: VEnv)
    returns (w: Outcome, r: Outcome)
    requires dev.Valid() && IsU64(offset) && dev.data !in source && dev.data !in target && Aligned(v2)
    requires Total(Sizes(source)) == Total(Sizes(target)) && Disjoint(target)
    requires forall i | 0 <= i < |target| :: target[i] !in source
    modifies dev.data, target, heap`live
    ensures w.Done? && r.Done? ==> w.bytes == r.bytes == Total(Sizes(source))
    ensures w.Done? && r.Done? && (GoesDirect(r.bytes, dev.blockSize) || v2.copied >= r.bytes) ==>
              && Flat(Contents(target)) == Flat(Contents(source))
              && (Sizes(target) == Sizes(source) ==> Contents(target) == Contents(source))
  {
    w := Writev(dev, heap, slot, source, offset, v1);
    ghost var sent := Contents(source);
    ghost var total := Total(Sizes(source));
    var late;
    r, late := Readv(dev, heap, slot, target, offset, v2);
    assert Contents(source) == sent;
    if w.Done? && r.Done? && (GoesDirect(total, dev.blockSize) || v2.copied >= total) {
      SeenInFull(dev.blockSize, v2.tempAddr, total, v2.copied);
      StreamKept(old(dev.data[..]), dev.blockSize, offset, sent, Sizes(target), Junk(v2, total));
    }
  }

  lemma SeenInFull(bs: nat, addr: nat, count: nat, copied: nat)
    requires IsBlockSize(bs) && IsU64(count) && Rounded(count, bs) < TWO32 && addr % DEFAULT_ALIGNMENT == 0
    requires GoesDirect(count, bs) || copied >= count
    ensures SeenByCaller(bs, addr, count, copied) == count
  {
    CeilAtMostRounded(count, bs);
    if GoesDirect(count, bs) {
      AlignmentCarriesOver(addr, bs);
    }
    if !NeedsBounce(addr, count, bs) {
      DirectLength(count, bs);
    }
  }

  /** Reading back what was written and cutting it anew keeps the byte stream. */
  lemma StreamKept(disk: seq<Byte>, bs: nat, offset: nat, sent: seq<seq<Byte>>, lens: seq<nat>, prior: seq<Byte>)
    requires bs > 0 && Total(lens) == |Flat(sent)| == |prior| && OnDevice(disk, bs, offset, |Flat(sent)|)
    ensures var got := Scattered(Written(disk, bs, offset, Flat(sent)), Start(offset, bs), |prior|, prior, lens);
            Flat(got) == Flat(sent) && (lens == Lengths(sent) ==> got == sent)
  {
    BlockIoLaws.WriteThenRead(disk, bs, offset, Flat(sent));
    RoundedBounds(|prior|, bs);
    assert Filled(Written(disk, bs, offset, Flat(sent)), Start(offset, bs), |prior|, prior) == Flat(sent);
    FlatSplit(Flat(sent), lens);
    SplitFlat(sent);
  }

  // ----------------------------------------------------- asynchronous reads

  /** One run of the user's callback: the status it got and what the segments
      held at that moment. */
  datatype UserCall = UserCall(status: int, seen: seq<seq<Byte>>)

  /** `xpdk_vectored_completion_callback`: copy back, call the user, release. */
  method VectoredCompletion(heap: Heap, temp: array<Byte>, iov: Iovec, isRead: bool, status: int)
    returns (call: UserCall)
    requires temp !in iov && (isRead && status == SUCCESS ==> Total(Sizes(iov)) <= temp.Length)
    modifies iov, heap
    ensures call.status == status && call.seen == Contents(iov)
    ensures isRead && status == SUCCESS && Disjoint(iov) ==>
              call.seen == Split(temp[..Total(Sizes(iov))], Sizes(iov))
    ensures !(isRead && status == SUCCESS) ==> Contents(iov) == old(Contents(iov))
    ensures heap.live == old(heap.live) - 1 && heap.wrappers == old(heap.wrappers) - 1
  {
    if isRead && status == SUCCESS {
      Scatter(temp, iov);
    }
    call := UserCall(status, Contents(iov));
    heap.live := heap.live - 1;
    heap.wrappers := heap.wrappers - 1;
  }

  lemma AlignmentCarriesOver(addr: nat, bs: nat)
    requires bs > 0 && addr % DEFAULT_ALIGNMENT == 0 && DEFAULT_ALIGNMENT % bs == 0
    ensures addr % bs == 0
  {
    var q, k := addr / DEFAULT_ALIGNMENT, DEFAULT_ALIGNMENT / bs;
    DivMod(addr, DEFAULT_ALIGNMENT);
    DivMod(DEFAULT_ALIGNMENT, bs);
    assert addr == q * (k * bs) == (q * k) * bs;
    QuotientUnique(addr, bs, q * k, 0);
  }

  /** A vectored read of `total` bytes goes straight into the linear buffer:
      something a caller can test before the call. */
  predicate GoesDirect(total: nat, bs: nat)
    requires bs > 0
  {
    total % bs == 0 && 4096 % bs == 0
  }

  /** The message layer and the device layer take an asynchronous read. */
  ghost predicate Taken(slot: Descriptors.Slot, v: VEnv, numBlocks: nat, bs: nat, offset: nat, count: nat)
    requires bs > 0
  {
    && v.tempOk && v.wrapperOk && v.sendRc == SUCCESS
    && TakesRead(slot, numBlocks, bs, v.tempAddr, count, offset, v.io)
  }

  /** The device writes past the bounce buffer of such a read. */
  ghost predicate AsyncOverruns(v: VEnv, bs: nat, count: nat)
    requires bs > 0
  {
    NeedsBounce(v.tempAddr, count, bs) && NumBlocks32(count, bs) * bs >= TWO32
  }

  /** `xpdk_readv_async` from the call to the last thing that happens to it. The
      user's callback runs at most once, and runs exactly when the message layer
      and the device layer both took the request; only then are the linear
      buffer and the wrapper released, and exactly once. */
  method ReadvAsync(dev: Device, heap: Heap, slot: Descriptors.Slot, iov: Iovec, offset: nat, v: VEnv)
    returns (rc: int, calls: seq<UserCall>, overrun: bool)
    requires dev.Valid() && IsU64(offset) && dev.data !in iov
    modifies iov, heap
    ensures var total := Total(Sizes(iov)) % TWO64;
            rc == if total == 0 then INVALID else if !v.tempOk || !v.wrapperOk then NOMEM else v.sendRc
    ensures var total := Total(Sizes(iov)) % TWO64;
            overrun <==>
              && total > 0 && Taken(slot, v, dev.numBlocks, dev.blockSize, offset, total)
              && (AsyncOverruns(v, dev.blockSize, total) || (v.io.deviceOk && Total(Sizes(iov)) >= TWO64))
    ensures var total := Total(Sizes(iov)) % TWO64;
            !overrun ==>
              && |calls| <= 1
              && (|calls| == 1 <==> total > 0 && Taken(slot, v, dev.numBlocks, dev.blockSize, offset, total))
              && (|calls| == 1 ==> calls[0].status == StatusOf(v.io.deviceOk))
    ensures !overrun && |calls| == 1 && calls[0].status == SUCCESS && Disjoint(iov) ==>
              calls[0].seen == Scattered(dev.data[..], Start(offset, dev.blockSize),
                                         Delivered(true, dev.blockSize, v.tempAddr, Total(Sizes(iov))),
                                         Junk(v, Total(Sizes(iov))), Sizes(iov))
    ensures !overrun ==>
              var leaked := if Total(Sizes(iov)) % TWO64 > 0 && v.tempOk && v.wrapperOk && |calls| == 0 then 1 else 0;
              heap.live == old(heap.live) + leaked && heap.wrappers == old(heap.wrappers) + leaked
  {
    calls, overrun := [], false;
    if |iov| == 0 {
      return INVALID, calls, overrun;
    }
    var total := CalculateSize(iov);
    if total == 0 {
      return INVALID, calls, overrun;
    }
    if !v.tempOk {
      return NOMEM, calls, overrun;
    }
    var temp := AllocLinear(heap, v, total);
    if !v.wrapperOk {
      heap.live := heap.live - 1;
      return NOMEM, calls, overrun;
    }
    heap.wrappers := heap.wrappers + 1;
    rc := v.sendRc;
    if rc == SUCCESS {
      calls, overrun := AsyncReadAndCall(dev, heap, slot, iov, temp, offset, v);
    }
  }

  /** What becomes of a vectored read that the message layer took. */
  method AsyncReadAndCall(dev: Device, heap: Heap, slot: Descriptors.Slot, iov: Iovec, temp: array<Byte>,
                          offset: nat, v: VEnv)
    returns (calls: seq<UserCall>, overrun: bool)
    requires dev.Valid() && IsU64(offset) && dev.data !in iov
    requires IsU64(temp.Length) && temp.Length <= Total(Sizes(iov)) && temp != dev.data && temp !in iov
    modifies iov, temp, heap
    ensures var taken := TakesRead(slot, dev.numBlocks, dev.blockSize, v.tempAddr, temp.Length, offset, v.io);
            && (overrun <==>
                  taken && (AsyncOverruns(v, dev.blockSize, temp.Length)
                            || (v.io.deviceOk && Total(Sizes(iov)) > temp.Length)))
            && (!overrun ==> |calls| == if taken then 1 else 0)
            && (!overrun && taken ==> calls[0].status == StatusOf(v.io.deviceOk))
    ensures !overrun && |calls| == 1 && calls[0].status == SUCCESS && Disjoint(iov) ==>
              && temp.Length == Total(Sizes(iov))
              && calls[0].seen == Scattered(dev.data[..], Start(offset, dev.blockSize),
                                            Delivered(true, dev.blockSize, v.tempAddr, temp.Length),
                                            old(temp[..]), Sizes(iov))
    ensures !overrun ==> heap.live == old(heap.live) - |calls| && heap.wrappers == old(heap.wrappers) - |calls|
  {
    calls := [];
    var r := AsyncReadLinear(dev, heap, slot, temp, offset, v);
    overrun := r.Overrun? || (r.Done? && Total(Sizes(iov)) > temp.Length);
    if !overrun && TakesRead(slot, dev.numBlocks, dev.blockSize, v.tempAddr, temp.Length, offset, v.io) {
      assert r.Done? ==> temp[..Total(Sizes(iov))] == temp[..];
      var call := VectoredCompletion(heap, temp, iov, true, StatusOf(r.Done?));
      calls := [call];
    }
  }

  /** The device's part of an asynchronous read into a whole linear buffer. */
  method AsyncReadLinear(dev: Device, heap: Heap, slot: Descriptors.Slot, temp: array<Byte>, offset: nat, v: VEnv)
    returns (r: Outcome)
    requires dev.Valid() && IsU64(offset) && IsU64(temp.Length) && temp != dev.data
    modifies temp, heap`live
    ensures r.Overrun? <==>
              && TakesRead(slot, dev.numBlocks, dev.blockSize, v.tempAddr, temp.Length, offset, v.io)
              && AsyncOverruns(v, dev.blockSize, temp.Length)
    ensures !r.Overrun? ==> heap.live == old(heap.live)
    ensures !r.Overrun? ==>
              (r.Done? <==> TakesRead(slot, dev.numBlocks, dev.blockSize, v.tempAddr, temp.Length, offset, v.io)
                            && v.io.deviceOk)
    ensures r.Done? ==>
              temp[..] == Filled(dev.data[..], Start(offset, dev.blockSize),
                                 Delivered(true, dev.blockSize, v.tempAddr, temp.Length), old(temp[..]))
  {
    assert temp[..temp.Length] == temp[..];
    r := HandleRead(dev, heap, slot, true, temp, v.tempAddr, temp.Length, offset, v.io);
    assert temp[..temp.Length] == temp[..];
  }
}
