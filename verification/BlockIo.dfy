/** The read and write handlers on one device: block rounding, the zero-padded
    write buffer, and the direct and bounced read paths. The block device layer
    is a small in-model environment whose refusals and failures are inputs. */
module BlockIo {
  import opened Codes
  import opened Blocks
  import Descriptors

  type Byte = b: int | 0 <= b < 256

  function Zeros(n: nat): seq<Byte> { seq(n, _ => 0) }

  // -------------------------------------------------------- specifications

  /** The bytes of the selected blocks are on the device. */
  ghost predicate OnDevice(disk: seq<Byte>, bs: nat, offset: nat, count: nat)
    requires bs > 0
  {
    Start(offset, bs) + Rounded(count, bs) <= |disk|
  }

  /** The device after a successful write: whole blocks, data then zeros. */
  function Written(disk: seq<Byte>, bs: nat, offset: nat, data: seq<Byte>): (after: seq<Byte>)
    requires bs > 0 && OnDevice(disk, bs, offset, |data|)
    ensures |after| == |disk|
  {
    RoundedBounds(|data|, bs);
    var a, n := Start(offset, bs), Rounded(|data|, bs);
    disk[..a] + (data + Zeros(n - |data|)) + disk[a + n..]
  }

  /** The bytes a successful read returns. */
  function ReadBack(disk: seq<Byte>, bs: nat, offset: nat, count: nat): (data: seq<Byte>)
    requires bs > 0 && OnDevice(disk, bs, offset, count)
    ensures |data| == count
  {
    RoundedBounds(count, bs);
    disk[Start(offset, bs)..Start(offset, bs) + count]
  }

  /** `pwrite` and `pread` of IEEE Std 1003.1 on a byte array long enough. */
  function Pwrite(disk: seq<Byte>, offset: nat, data: seq<Byte>): seq<Byte>
    requires offset + |data| <= |disk|
  {
    disk[..offset] + data + disk[offset + |data|..]
  }

  function Pread(disk: seq<Byte>, offset: nat, count: nat): seq<Byte>
    requires offset + count <= |disk|
  {
    disk[offset..offset + count]
  }

  // -------------------------------------------------- the in-model device

  class Device {
    const blockSize: nat
    const numBlocks: nat
    const data: array<Byte>

    ghost predicate Valid() {
      IsBlockSize(blockSize) && data.Length == numBlocks * blockSize
    }

    constructor (blockSize: nat, numBlocks: nat)
      requires IsBlockSize(blockSize)
      ensures Valid() && fresh(data)
      ensures this.blockSize == blockSize && this.numBlocks == numBlocks
    {
      this.blockSize, this.numBlocks := blockSize, numBlocks;
      data := new Byte[numBlocks * blockSize](_ => 0);
    }
  }

  /** Allocations that have not been freed: DMA buffers, and the wrapper
      contexts of vectored requests. */
  class Heap {
    var live: int
    var wrappers: int
    constructor () ensures live == wrappers == 0 { live, wrappers := 0, 0; }
  }

  /** What the environment decides for one request: whether a DMA buffer can be
      had, whether the device layer takes the request, whether the device then
      succeeds, and how many bytes it had moved if it fails. */
  datatype Env = Env(allocOk: bool, submitOk: bool, deviceOk: bool, torn: nat)

  /** `Overrun` marks an access past the end of a DMA buffer. */
  datatype Outcome = Failed(status: int) | Overrun | Done(bytes: nat)

  /** memcpy between two different buffers. */
  method Copy(dst: array<Byte>, at: nat, src: array<Byte>, from: nat, n: nat)
    requires dst != src
    requires at + n <= dst.Length && from + n <= src.Length
    modifies dst
    ensures dst[..] == old(dst[..at]) + src[from..from + n] + old(dst[at + n..])
  {
    var i := 0;
    while i < n
      invariant 0 <= i <= n
      invariant forall k | 0 <= k < dst.Length :: dst[k] == if at <= k < at + i then src[from + k - at] else old(dst[k])
    {
      dst[at + i] := src[from + i];
      i := i + 1;
    }
  }

  function Min(a: nat, b: nat): nat { if a < b then a else b }

  lemma BlocksFit(first: nat, n: nat, blocks: nat, bs: nat)
    requires first + n <= blocks
    ensures first * bs + n * bs <= blocks * bs
  {
    MulLe(first + n, blocks, bs);
    assert (first + n) * bs == first * bs + n * bs;
  }

  lemma BlocksFitIff(first: nat, n: nat, blocks: nat, bs: nat)
    requires bs > 0
    ensures first + n <= blocks <==> first * bs + n * bs <= blocks * bs
  {
    if first + n <= blocks {
      BlocksFit(first, n, blocks, bs);
    } else {
      MulLe(blocks + 1, first + n, bs);
      assert (first + n) * bs == first * bs + n * bs;
    }
  }

  /** The handler's tests before it computes anything. */
  predicate Admits(slot: Descriptors.Slot, reading: bool) {
    && slot.inUse && slot.bdev && slot.desc && slot.channel
    && if reading then Descriptors.ReadAllowed(slot.flags) else Descriptors.WriteAllowed(slot.flags)
  }

  /** Direct transfer is possible only for an aligned buffer and whole blocks. */
  predicate NeedsBounce(addr: nat, count: nat, bs: nat)
    requires bs > 0
  {
    addr % bs != 0 || count % bs != 0
  }

  /** The device layer takes a read: the descriptor admits it, a bounce buffer
      was had if one is needed, and the selected blocks exist. */
  predicate TakesRead(slot: Descriptors.Slot, numBlocks: nat, bs: nat, addr: nat, count: nat, offset: nat, e: Env)
    requires bs > 0
  {
    && Admits(slot, true) && (NeedsBounce(addr, count, bs) ==> e.allocOk) && e.submitOk
    && FirstBlock(offset, bs) + NumBlocks32(count, bs) <= numBlocks
  }

  /** The device layer takes a write. */
  predicate TakesWrite(slot: Descriptors.Slot, numBlocks: nat, bs: nat, count: nat, offset: nat, e: Env)
    requires bs > 0
  {
    && Admits(slot, false) && e.allocOk && e.submitOk
    && FirstBlock(offset, bs) + NumBlocks32(count, bs) <= numBlocks
  }

  /** What a read has reported when its completion flag is set or its callback
      runs. */
  function FlagOutcome(slot: Descriptors.Slot, numBlocks: nat, bs: nat,
                       addr: nat, count: nat, offset: nat, e: Env): Outcome
    requires bs > 0
  {
    if !Admits(slot, true) then Failed(INVALID)
    else if NeedsBounce(addr, count, bs) && !e.allocOk then Failed(NOMEM)
    else if !TakesRead(slot, numBlocks, bs, addr, count, offset, e) then Failed(IO_ERROR)
    else if NeedsBounce(addr, count, bs) && NumBlocks32(count, bs) * bs >= TWO32 then Overrun
    else if e.deviceOk then Done(count)
    else Failed(IO_ERROR)
  }

  /** The same at the handler's return: a synchronous request has then also
      copied its bounce buffer out. */
  function ReadOutcome(slot: Descriptors.Slot, numBlocks: nat, bs: nat, async: bool,
                       addr: nat, count: nat, offset: nat, e: Env): Outcome
    requires bs > 0
  {
    var r := FlagOutcome(slot, numBlocks, bs, addr, count, offset, e);
    if r.Done? && !async && NeedsBounce(addr, count, bs) && Rounded(count, bs) >= TWO32 then Overrun else r
  }

  function WriteOutcome(slot: Descriptors.Slot, numBlocks: nat, bs: nat, count: nat, offset: nat, e: Env): Outcome
    requires bs > 0
  {
    if !Admits(slot, false) then Failed(INVALID)
    else if !e.allocOk then Failed(NOMEM)
    else if Rounded(count, bs) >= TWO32 then Overrun
    else if TakesWrite(slot, numBlocks, bs, count, offset, e) && e.deviceOk then Done(count)
    else Failed(IO_ERROR)
  }

  /** A buffer whose first `n` bytes have been replaced by the device's from byte
      `start` on. */
  function Filled(disk: seq<Byte>, start: nat, n: nat, prior: seq<Byte>): (after: seq<Byte>)
    ensures |after| == |prior|
  {
    if start + n <= |disk| && n <= |prior| then disk[start..start + n] + prior[n..] else prior
  }

  /** How many bytes a successful read has put into the caller's buffer when its
      handler returns: a direct one what the device transferred, a bounced one
      everything if it is synchronous and nothing if it is not. */
  function Delivered(async: bool, bs: nat, addr: nat, count: nat): nat
    requires bs > 0
  {
    if !NeedsBounce(addr, count, bs) then NumBlocks32(count, bs) * bs else if async then 0 else count
  }

  /** How many bytes the caller of a successful synchronous read finds in its
      buffer when the call returns, if the handler has by then copied `copied`
      bytes of the bounce buffer: the completion flag is set before that copy
      begins. */
  function SeenByCaller(bs: nat, addr: nat, count: nat, copied: nat): nat
    requires bs > 0
  {
    if NeedsBounce(addr, count, bs) then Min(copied, count) else NumBlocks32(count, bs) * bs
  }

  // ------------------------------------------------------------- handlers

  /** `xpdk_spdk_handle_write` together with its completion. */
  method HandleWrite(dev: Device, heap: Heap, slot: Descriptors.Slot,
                     user: array<Byte>, count: nat, offset: nat, e: Env)
    returns (r: Outcome)
    requires dev.Valid() && IsU64(count) && IsU64(offset)
    requires count <= user.Length && user != dev.data
    modifies dev.data, heap`live
    ensures r.Done? ==>
              && r.bytes == count
              && OnDevice(old(dev.data[..]), dev.blockSize, offset, count)
              && dev.data[..] == Written(old(dev.data[..]), dev.blockSize, offset, user[..count])
    ensures r.Failed? && !TakesWrite(slot, dev.numBlocks, dev.blockSize, count, offset, e) ==>
              dev.data[..] == old(dev.data[..])
    ensures forall i | 0 <= i < dev.data.Length &&
                       !(Start(offset, dev.blockSize) <= i
                           < Start(offset, dev.blockSize) + Rounded(count, dev.blockSize)) ::
              dev.data[i] == old(dev.data[i])
    ensures r.Overrun? <==> Admits(slot, false) && e.allocOk && Rounded(count, dev.blockSize) >= TWO32
    ensures r.Done? <==>
              && Admits(slot, false) && e.allocOk && e.submitOk && e.deviceOk
              && Rounded(count, dev.blockSize) < TWO32
              && OnDevice(old(dev.data[..]), dev.blockSize, offset, count)
    ensures r == WriteOutcome(slot, dev.numBlocks, dev.blockSize, count, offset, e)
    ensures r == Failed(INVALID) <==> !Admits(slot, false)
    ensures r == Failed(NOMEM) <==> Admits(slot, false) && !e.allocOk
    ensures r.Failed? ==> r.status in {INVALID, NOMEM, IO_ERROR}
    ensures !r.Overrun? ==> heap.live == old(heap.live)
  {
    var bs := dev.blockSize;
    if !Admits(slot, false) {
      return Failed(INVALID);
    }
    var first := FirstBlock(offset, bs);
    var n := NumBlocks32(count, bs);
    if !e.allocOk {
      return Failed(NOMEM);
    }
    var size := Size32(count, bs);
    WriteRange(dev.numBlocks, bs, offset, count);
    r := PaddedWrite(dev, heap, user, count, first * bs, size, first + n <= dev.numBlocks, e);
  }

  /** The widths and the range test of a write, in bytes. */
  lemma WriteRange(numBlocks: nat, bs: nat, offset: nat, count: nat)
    requires IsBlockSize(bs) && IsU64(count)
    ensures var size := Size32(count, bs);
            && (count <= size <==> Rounded(count, bs) < TWO32)
            && count <= Rounded(count, bs)
            && (count <= size ==>
                  && size == Rounded(count, bs)
                  && (FirstBlock(offset, bs) + NumBlocks32(count, bs) <= numBlocks
                      <==> Start(offset, bs) + size <= numBlocks * bs))
  {
    BounceFits(count, bs);
    RoundedBounds(count, bs);
    BlocksFitIff(FirstBlock(offset, bs), NumBlocks32(count, bs), numBlocks, bs);
  }

  /** A zeroed DMA buffer of `size` bytes, the caller's data over its start, and
      all of it to byte `start` of the device. */
  method PaddedWrite(dev: Device, heap: Heap, user: array<Byte>,
                     count: nat, start: nat, size: nat, inRange: bool, e: Env)
    returns (r: Outcome)
    requires count <= user.Length && user != dev.data
    requires count <= size && inRange ==> start + size <= dev.data.Length
    modifies dev.data, heap`live
    ensures r == if count > size then Overrun
                 else if e.submitOk && inRange && e.deviceOk then Done(count)
                 else Failed(IO_ERROR)
    ensures r.Done? ==>
              dev.data[..] == old(dev.data[..start]) +
                              (user[..count] + Zeros(size - count)) + old(dev.data[start + size..])
    ensures r.Failed? && !(e.submitOk && inRange) ==> dev.data[..] == old(dev.data[..])
    ensures forall i | 0 <= i < dev.data.Length && !(start <= i < start + size) :: dev.data[i] == old(dev.data[i])
    ensures !r.Overrun? ==> heap.live == old(heap.live)
  {
    var buffer := new Byte[size](_ => 0);
    heap.live := heap.live + 1;
    if count > size {
      return Overrun;
    }
    Copy(buffer, 0, user, 0, count);
    assert buffer[..] == user[..count] + Zeros(size - count);
    if !e.submitOk || !inRange {
      heap.live := heap.live - 1;
      return Failed(IO_ERROR);
    }
    var moved := if e.deviceOk then size else Min(e.torn, size);
    Copy(dev.data, start, buffer, 0, moved);
    assert e.deviceOk ==> buffer[0..moved] == buffer[..];
    forall i | 0 <= i < dev.data.Length && !(start <= i < start + size)
      ensures dev.data[i] == old(dev.data[i])
    {
      assert dev.data[i] == dev.data[..][i];
    }
    heap.live := heap.live - 1;
    r := if e.deviceOk then Done(count) else Failed(IO_ERROR);
  }

  /** `xpdk_spdk_handle_read` together with its completion, at the handler's
      return. A synchronous request copies a bounce buffer back to the caller; an
      asynchronous one only frees it. */
  method HandleRead(dev: Device, heap: Heap, slot: Descriptors.Slot, async: bool,
                    user: array<Byte>, addr: nat, count: nat, offset: nat, e: Env)
    returns (r: Outcome)
    requires dev.Valid() && IsU64(count) && IsU64(offset)
    requires count <= user.Length && user != dev.data
    modifies user, heap`live
    ensures r == ReadOutcome(slot, dev.numBlocks, dev.blockSize, async, addr, count, offset, e)
    ensures r.Done? ==> r.bytes == count
    ensures user[count..] == old(user[count..])
    ensures r.Done? ==>
              var start, n := Start(offset, dev.blockSize), Delivered(async, dev.blockSize, addr, count);
              && n <= count && start + n <= dev.data.Length
              && user[..count] == Filled(dev.data[..], start, n, old(user[..count]))
    ensures NeedsBounce(addr, count, dev.blockSize) && (async || !r.Done?) ==> user[..] == old(user[..])
    ensures !TakesRead(slot, dev.numBlocks, dev.blockSize, addr, count, offset, e) ==> user[..] == old(user[..])
    ensures r.Overrun? ==> Rounded(count, dev.blockSize) >= TWO32
    ensures !r.Overrun? ==>
              heap.live == old(heap.live) +
                if !async && NeedsBounce(addr, count, dev.blockSize) && !e.deviceOk
                   && TakesRead(slot, dev.numBlocks, dev.blockSize, addr, count, offset, e) then 1 else 0
  {
    var bounce: array?<Byte>;
    r, bounce := ReadToFlag(dev, heap, slot, async, user, addr, count, offset, e);
    ReadRange(dev.numBlocks, dev.blockSize, offset, count);
    if bounce != null {
      var overrun := FinishRead(heap, user, bounce, count);
      if overrun {
        return Overrun;
      }
      assert bounce[..count] == dev.data[Start(offset, dev.blockSize)..][..count];
    }
  }

  /** When a read succeeds, when it runs past its bounce buffer, and when it fails
      with which status. */
  lemma ReadSucceedsIff(slot: Descriptors.Slot, numBlocks: nat, bs: nat, async: bool,
                        addr: nat, count: nat, offset: nat, e: Env)
    requires IsBlockSize(bs) && IsU64(count)
    ensures var bounce, len := addr % bs != 0 || count % bs != 0, NumBlocks32(count, bs) * bs;
            var r := ReadOutcome(slot, numBlocks, bs, async, addr, count, offset, e);
            var taken := Admits(slot, true) && (bounce ==> e.allocOk) && e.submitOk
                         && Start(offset, bs) + len <= numBlocks * bs;
            && (r == Done(count) <==>
                  taken && e.deviceOk && (bounce ==> len < TWO32 && (async || Rounded(count, bs) < TWO32)))
            && (r.Overrun? <==>
                  taken && bounce && (len >= TWO32 || (!async && e.deviceOk && Rounded(count, bs) >= TWO32)))
            && (r == Failed(INVALID) <==> !Admits(slot, true))
            && (r == Failed(NOMEM) <==> Admits(slot, true) && bounce && !e.allocOk)
            && (r == Done(count) || r.Overrun? || r in {Failed(INVALID), Failed(NOMEM), Failed(IO_ERROR)})
  {
    ReadRange(numBlocks, bs, offset, count);
  }

  /** The handler up to the moment at which the completion flag is set (or the
      callback runs). A bounced synchronous read that succeeded has its data in
      the buffer `bounce` then, and the caller's buffer is still to be filled. */
  method ReadToFlag(dev: Device, heap: Heap, slot: Descriptors.Slot, async: bool,
                    user: array<Byte>, addr: nat, count: nat, offset: nat, e: Env)
    returns (r: Outcome, bounce: array?<Byte>)
    requires dev.Valid() && IsU64(count) && IsU64(offset)
    requires count <= user.Length && user != dev.data
    modifies user, heap`live
    ensures r == FlagOutcome(slot, dev.numBlocks, dev.blockSize, addr, count, offset, e)
    ensures r.Overrun? ==> Rounded(count, dev.blockSize) >= TWO32
    ensures user[count..] == old(user[count..])
    ensures r.Done? ==>
              var start, len := Start(offset, dev.blockSize), NumBlocks32(count, dev.blockSize) * dev.blockSize;
              && start + len <= dev.data.Length
              && (!NeedsBounce(addr, count, dev.blockSize) ==>
                    len <= count && user[..count] == Filled(dev.data[..], start, len, old(user[..count])))
              && (bounce != null ==> bounce.Length == len && bounce[..] == dev.data[start..start + len])
    ensures NeedsBounce(addr, count, dev.blockSize) ==> user[..] == old(user[..])
    ensures !TakesRead(slot, dev.numBlocks, dev.blockSize, addr, count, offset, e) ==> user[..] == old(user[..])
    ensures bounce != null <==> r.Done? && !async && NeedsBounce(addr, count, dev.blockSize)
    ensures bounce != null ==> fresh(bounce)
    ensures !r.Overrun? ==>
              heap.live == old(heap.live) +
                if !async && NeedsBounce(addr, count, dev.blockSize)
                   && TakesRead(slot, dev.numBlocks, dev.blockSize, addr, count, offset, e) then 1 else 0
  {
    var bs := dev.blockSize;
    bounce := null;
    if !Admits(slot, true) {
      return Failed(INVALID), null;
    }
    var first := FirstBlock(offset, bs);
    var n := NumBlocks32(count, bs);
    var inRange := first + n <= dev.numBlocks;
    ReadRange(dev.numBlocks, bs, offset, count);
    if NeedsBounce(addr, count, bs) {
      if !e.allocOk {
        return Failed(NOMEM), null;
      }
      r, bounce := BouncedRead(dev, heap, async, count, first * bs, n * bs, inRange, e);
    } else {
      ReadWhole(bs, count);
      r := DirectRead(dev, user, count, first * bs, n * bs, inRange, e);
    }
  }

  /** The rest of a bounced synchronous read: memcpy to the caller's buffer, and
      the bounce buffer is freed. */
  method FinishRead(heap: Heap, user: array<Byte>, bounce: array<Byte>, count: nat) returns (overrun: bool)
    requires user != bounce && count <= user.Length
    modifies user, heap`live
    ensures overrun <==> count > bounce.Length
    ensures overrun ==> user[..] == old(user[..])
    ensures !overrun ==> user[..] == bounce[..count] + old(user[count..]) && heap.live == old(heap.live) - 1
  {
    if count > bounce.Length {
      return true;
    }
    Copy(user, 0, bounce, 0, count);
    assert bounce[0..count] == bounce[..count];
    heap.live := heap.live - 1;
    overrun := false;
  }

  /** The widths and the range test of a read, in bytes. */
  lemma ReadRange(numBlocks: nat, bs: nat, offset: nat, count: nat)
    requires IsBlockSize(bs) && IsU64(count)
    ensures var len := NumBlocks32(count, bs) * bs;
            && (FirstBlock(offset, bs) + NumBlocks32(count, bs) <= numBlocks
                <==> Start(offset, bs) + len <= numBlocks * bs)
            && (Ceil(count, bs) < TWO32 ==> len == Rounded(count, bs))
            && (Rounded(count, bs) < TWO32 ==> len == Rounded(count, bs) == len % TWO32)
            && (len <= len % TWO32 && count <= len % TWO32 ==> Rounded(count, bs) < TWO32)
            && count <= Rounded(count, bs)
            && len % TWO32 <= len
            && (len % TWO32 < len <==> len >= TWO32)
            && (len % TWO32 < len ==> Rounded(count, bs) >= TWO32)
  {
    BounceFits(count, bs);
    RoundedBounds(count, bs);
    BlockCountExact(count, bs);
    BlocksFitIff(FirstBlock(offset, bs), NumBlocks32(count, bs), numBlocks, bs);
    ModAtMost(NumBlocks32(count, bs) * bs, TWO32);
  }

  lemma ReadWhole(bs: nat, count: nat)
    requires IsBlockSize(bs) && IsU64(count) && count % bs == 0
    ensures var len := NumBlocks32(count, bs) * bs;
            && len <= count
            && (Ceil(count, bs) < TWO32 ==> len == count == Rounded(count, bs))
            && (Rounded(count, bs) < TWO32 ==> len == count)
  {
    DirectLength(count, bs);
    RoundedBounds(count, bs);
    CeilAtMostRounded(count, bs);
  }

  /** The path without a bounce buffer: `len` bytes from byte `start` of the
      device go straight to the caller's buffer. */
  method DirectRead(dev: Device, user: array<Byte>, count: nat, start: nat, len: nat, inRange: bool, e: Env)
    returns (r: Outcome)
    requires user != dev.data && len <= count <= user.Length
    requires inRange ==> start + len <= dev.data.Length
    modifies user
    ensures r == if e.submitOk && inRange && e.deviceOk then Done(count) else Failed(IO_ERROR)
    ensures user[len..] == old(user[len..])
    ensures !(e.submitOk && inRange) ==> user[..] == old(user[..])
    ensures user[count..] == old(user[count..])
    ensures r.Done? ==> user[..count] == Filled(dev.data[..], start, len, old(user[..count]))
  {
    if !e.submitOk || !inRange {
      return Failed(IO_ERROR);
    }
    var moved := if e.deviceOk then len else Min(e.torn, len);
    Copy(user, 0, dev.data, start, moved);
    assert user[count..] == user[..][count..];
    assert user[len..] == user[..][len..];
    assert e.deviceOk ==> user[..count] == dev.data[..][start..start + len] + old(user[..count])[len..];
    r := if e.deviceOk then Done(count) else Failed(IO_ERROR);
  }

  /** The path through a bounce buffer of `len` bytes cut to 32 bits, up to the
      completion. An asynchronous completion frees the buffer; a synchronous one
      that fails leaves it behind. */
  method BouncedRead(dev: Device, heap: Heap, async: bool, count: nat, start: nat, len: nat, inRange: bool, e: Env)
    returns (r: Outcome, bounce: array?<Byte>)
    requires inRange ==> start + len <= dev.data.Length
    modifies heap`live
    ensures r == if !(e.submitOk && inRange) then Failed(IO_ERROR)
                 else if len >= TWO32 then Overrun
                 else if e.deviceOk then Done(count)
                 else Failed(IO_ERROR)
    ensures bounce != null <==> r.Done? && !async
    ensures bounce != null ==> fresh(bounce) && bounce.Length == len && bounce[..] == dev.data[start..start + len]
    ensures !r.Overrun? ==>
              heap.live == old(heap.live) + if !async && e.submitOk && inRange then 1 else 0
  {
    var size := len % TWO32;
    var buffer := new Byte[size](_ => 0);
    heap.live := heap.live + 1;
    if !e.submitOk || !inRange {
      heap.live := heap.live - 1;
      return Failed(IO_ERROR), null;
    }
    ModAtMost(len, TWO32);
    if len > size {
      return Overrun, null;
    }
    Copy(buffer, 0, dev.data, start, if e.deviceOk then len else Min(e.torn, len));
    r := if e.deviceOk then Done(count) else Failed(IO_ERROR);
    if async {
      heap.live := heap.live - 1;
    }
    bounce := if r.Done? && !async then buffer else null;
  }
}
