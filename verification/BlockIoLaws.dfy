/** What the read and write handlers guarantee about a device's bytes. */
module BlockIoLaws {
  import opened Blocks
  import opened BlockIo
  import Descriptors

  /** A write followed by a read of the same range gives the data back, for
      every offset and count, aligned or not. */
  lemma WriteThenRead(disk: seq<Byte>, bs: nat, offset: nat, data: seq<Byte>)
    requires bs > 0 && OnDevice(disk, bs, offset, |data|)
    ensures OnDevice(Written(disk, bs, offset, data), bs, offset, |data|)
    ensures ReadBack(Written(disk, bs, offset, data), bs, offset, |data|) == data
  {
    RoundedBounds(|data|, bs);
  }

  /** Byte by byte: the selected blocks hold the data and then zeros, and every
      byte outside them is what it was. */
  lemma WrittenBytes(disk: seq<Byte>, bs: nat, offset: nat, data: seq<Byte>, i: nat)
    requires bs > 0 && OnDevice(disk, bs, offset, |data|) && i < |disk|
    ensures |Written(disk, bs, offset, data)| == |disk|
    ensures var a := Start(offset, bs);
            Written(disk, bs, offset, data)[i] ==
              if a <= i < a + |data| then data[i - a]
              else if a + |data| <= i < a + Rounded(|data|, bs) then 0
              else disk[i]
  {
    RoundedBounds(|data|, bs);
  }

  /** Writes whose selected blocks are disjoint commute. */
  lemma DisjointWritesCommute(disk: seq<Byte>, bs: nat, o1: nat, d1: seq<Byte>, o2: nat, d2: seq<Byte>)
    requires bs > 0 && OnDevice(disk, bs, o1, |d1|) && OnDevice(disk, bs, o2, |d2|)
    requires Start(o1, bs) + Rounded(|d1|, bs) <= Start(o2, bs)
    ensures |Written(disk, bs, o1, d1)| == |disk| == |Written(disk, bs, o2, d2)|
    ensures Written(Written(disk, bs, o1, d1), bs, o2, d2) == Written(Written(disk, bs, o2, d2), bs, o1, d1)
  {
    RoundedBounds(|d1|, bs);
    RoundedBounds(|d2|, bs);
    var x, y := Written(disk, bs, o1, d1), Written(disk, bs, o2, d2);
    forall i: nat | i < |disk|
      ensures Written(x, bs, o2, d2)[i] == Written(y, bs, o1, d1)[i]
    {
      WrittenBytes(disk, bs, o1, d1, i);
      WrittenBytes(disk, bs, o2, d2, i);
      WrittenBytes(x, bs, o2, d2, i);
      WrittenBytes(y, bs, o1, d1, i);
    }
  }

  // ---------------------------------------------- agreement with POSIX calls

  ghost predicate InBounds(size: nat, bs: nat, offset: nat, count: nat)
    requires bs > 0
  {
    offset + count <= size && Start(offset, bs) + Rounded(count, bs) <= size
  }

  lemma AlignedIsPwrite(disk: seq<Byte>, bs: nat, offset: nat, data: seq<Byte>)
    requires bs > 0 && InBounds(|disk|, bs, offset, |data|)
    requires offset % bs == 0 && |data| % bs == 0
    ensures Written(disk, bs, offset, data) == Pwrite(disk, offset, data)
  {
    StartBounds(offset, bs);
    RoundedBounds(|data|, bs);
    assert data + Zeros(0) == data;
  }

  lemma UnalignedIsNotPwrite(size: nat, bs: nat, offset: nat, count: nat) returns (disk: seq<Byte>, data: seq<Byte>)
    requires bs > 0 && count > 0 && InBounds(size, bs, offset, count)
    requires offset % bs != 0 || count % bs != 0
    ensures |disk| == size && |data| == count
    ensures Written(disk, bs, offset, data) != Pwrite(disk, offset, data)
  {
    StartBounds(offset, bs);
    RoundedBounds(count, bs);
    data := seq(count, _ => 1);
    if offset % bs != 0 {
      disk := Zeros(size);
      WrittenBytes(disk, bs, offset, data, Start(offset, bs));
      assert Pwrite(disk, offset, data)[Start(offset, bs)] == 0;
    } else {
      disk := seq(size, _ => 1);
      WrittenBytes(disk, bs, offset, data, offset + count);
      assert Pwrite(disk, offset, data)[offset + count] == 1;
    }
  }

  /** Allocation, submission and device succeed. */
  const NO_TROUBLE: Env := Env(true, true, true, 0)

  /** The write handler, when nothing goes wrong, succeeds and leaves on the
      device what `pwrite` would, for every device content and all data of this
      length, exactly when offset and count are whole blocks and the count is
      below 2^32. */
  lemma WriteIsPwriteIff(slot: Descriptors.Slot, numBlocks: nat, bs: nat, offset: nat, count: nat)
    requires IsBlockSize(bs) && IsU64(count) && count > 0 && InBounds(numBlocks * bs, bs, offset, count)
    requires Admits(slot, false)
    ensures (forall disk: seq<Byte>, data: seq<Byte> | |disk| == numBlocks * bs && |data| == count ::
               && WriteOutcome(slot, numBlocks, bs, count, offset, NO_TROUBLE) == Done(count)
               && Written(disk, bs, offset, data) == Pwrite(disk, offset, data))
            <==> offset % bs == 0 && count % bs == 0 && count < TWO32
  {
    RoundedBounds(count, bs);
    WriteRange(numBlocks, bs, offset, count);
    if offset % bs == 0 && count % bs == 0 {
      forall disk: seq<Byte>, data: seq<Byte> | |disk| == numBlocks * bs && |data| == count
        ensures Written(disk, bs, offset, data) == Pwrite(disk, offset, data)
      {
        AlignedIsPwrite(disk, bs, offset, data);
      }
      var disk, data := Zeros(numBlocks * bs), Zeros(count);
      assert |disk| == numBlocks * bs && |data| == count;
      assert Written(disk, bs, offset, data) == Pwrite(disk, offset, data);
    } else {
      var disk, data := UnalignedIsNotPwrite(numBlocks * bs, bs, offset, count);
    }
  }

  lemma FilledFull(disk: seq<Byte>, start: nat, prior: seq<Byte>)
    requires start + |prior| <= |disk|
    ensures Filled(disk, start, |prior|, prior) == disk[start..start + |prior|]
  {
  }

  lemma FilledShort(size: nat, start: nat, n: nat, count: nat) returns (disk: seq<Byte>, prior: seq<Byte>)
    requires start + count <= size && n < count
    ensures |disk| == size && |prior| == count
    ensures Filled(disk, start, n, prior) != disk[start..start + count]
  {
    disk, prior := Zeros(size), seq(count, _ => 1);
    assert Filled(disk, start, n, prior)[count - 1] == 1 && disk[start..start + count][count - 1] == 0;
  }

  /** A buffer filled with `n` bytes holds all `count` bytes of the device, for
      every device and prior buffer content, exactly when `n` is `count`. */
  lemma FilledIff(size: nat, start: nat, n: nat, count: nat)
    requires start + count <= size && n <= count
    ensures (forall disk: seq<Byte>, prior: seq<Byte> | |disk| == size && |prior| == count ::
               Filled(disk, start, n, prior) == disk[start..start + count])
            <==> n == count
  {
    if n < count {
      var disk, prior := FilledShort(size, start, n, count);
    }
  }

  /** What a read handler delivers at its return, and whether it succeeds, when
      nothing goes wrong. */
  lemma DeliveredAll(slot: Descriptors.Slot, numBlocks: nat, bs: nat, async: bool, addr: nat, count: nat, offset: nat)
    requires IsBlockSize(bs) && IsU64(count) && count > 0 && Admits(slot, true)
    requires Start(offset, bs) + Rounded(count, bs) <= numBlocks * bs
    ensures Start(offset, bs) + count <= numBlocks * bs && Delivered(async, bs, addr, count) <= count
    ensures TakesRead(slot, numBlocks, bs, addr, count, offset, NO_TROUBLE)
    ensures ReadOutcome(slot, numBlocks, bs, async, addr, count, offset, NO_TROUBLE) == Done(count)
            && Delivered(async, bs, addr, count) == count
            <==> if NeedsBounce(addr, count, bs) then !async && Rounded(count, bs) < TWO32 else Ceil(count, bs) < TWO32
  {
    RoundedBounds(count, bs);
    ReadRange(numBlocks, bs, offset, count);
    BlockCountAtMost(count, bs);
    MulLe(NumBlocks32(count, bs), Ceil(count, bs), bs);
    if !NeedsBounce(addr, count, bs) {
      DirectLength(count, bs);
    }
  }

  /** The synchronous read handler, when nothing goes wrong, returns success with
      what `pread` would give in the caller's buffer, for every device content,
      exactly when the offset is a whole number of blocks and its 32-bit sizes do
      not overflow. */
  lemma ReadIsPreadIff(slot: Descriptors.Slot, numBlocks: nat, bs: nat, addr: nat, count: nat, offset: nat)
    requires IsBlockSize(bs) && IsU64(count) && count > 0 && Admits(slot, true)
    requires InBounds(numBlocks * bs, bs, offset, count)
    ensures (forall disk: seq<Byte>, prior: seq<Byte> | |disk| == numBlocks * bs && |prior| == count ::
               && ReadOutcome(slot, numBlocks, bs, false, addr, count, offset, NO_TROUBLE) == Done(count)
               && Filled(disk, Start(offset, bs), Delivered(false, bs, addr, count), prior)
                  == Pread(disk, offset, count))
            <==> && offset % bs == 0
                 && if NeedsBounce(addr, count, bs) then Rounded(count, bs) < TWO32 else Ceil(count, bs) < TWO32
  {
    var size, start, n := numBlocks * bs, Start(offset, bs), Delivered(false, bs, addr, count);
    StartBounds(offset, bs);
    DeliveredAll(slot, numBlocks, bs, false, addr, count, offset);
    var zeros, ones: seq<Byte> := Zeros(size), seq(count, _ => 1);
    assert |zeros| == size && |ones| == count;
    if n < count {
      assert Filled(zeros, start, n, ones)[count - 1] == 1 && Pread(zeros, offset, count)[count - 1] == 0;
    } else if offset % bs != 0 {
      var disk: seq<Byte> := zeros[start := 1];
      assert Filled(disk, start, n, ones)[0] == 1 && Pread(disk, offset, count)[0] == 0;
    } else {
      assert Filled(zeros, start, n, ones) == Pread(zeros, offset, count);
    }
  }

  /** An asynchronous read, when nothing goes wrong, has filled the caller's
      buffer when it reports success, for every device content and prior buffer
      content, exactly when it needs no bounce buffer and its block count fits
      in 32 bits. */
  lemma AsyncDeliversIff(slot: Descriptors.Slot, numBlocks: nat, bs: nat, addr: nat, count: nat, offset: nat)
    requires IsBlockSize(bs) && IsU64(count) && count > 0 && Admits(slot, true)
    requires Start(offset, bs) + Rounded(count, bs) <= numBlocks * bs
    ensures Start(offset, bs) + count <= numBlocks * bs
    ensures (forall disk: seq<Byte>, prior: seq<Byte> | |disk| == numBlocks * bs && |prior| == count ::
               && ReadOutcome(slot, numBlocks, bs, true, addr, count, offset, NO_TROUBLE) == Done(count)
               && Filled(disk, Start(offset, bs), Delivered(true, bs, addr, count), prior)
                  == disk[Start(offset, bs)..Start(offset, bs) + count])
            <==> addr % bs == 0 && count % bs == 0 && Ceil(count, bs) < TWO32
  {
    DeliveredAll(slot, numBlocks, bs, true, addr, count, offset);
    FilledIff(numBlocks * bs, Start(offset, bs), Delivered(true, bs, addr, count), count);
    assert |Zeros(numBlocks * bs)| == numBlocks * bs && |Zeros(count)| == count;
  }

  /** A synchronous read that reports success has filled its caller's buffer when
      it returns, for every device content, prior buffer content and schedule,
      exactly when it needs no bounce buffer and its block count fits in 32
      bits. */
  lemma SyncDeliversIff(numBlocks: nat, bs: nat, addr: nat, count: nat, offset: nat)
    requires IsBlockSize(bs) && IsU64(count) && count > 0
    requires Start(offset, bs) + Rounded(count, bs) <= numBlocks * bs
    ensures Start(offset, bs) + count <= numBlocks * bs
    ensures (forall disk: seq<Byte>, prior: seq<Byte>, copied: nat | |disk| == numBlocks * bs && |prior| == count ::
               Filled(disk, Start(offset, bs), SeenByCaller(bs, addr, count, copied), prior)
               == disk[Start(offset, bs)..Start(offset, bs) + count])
            <==> addr % bs == 0 && count % bs == 0 && Ceil(count, bs) < TWO32
  {
    RoundedBounds(count, bs);
    SeenAtWorst(bs, addr, count);
    FilledOnSchedules(numBlocks * bs, Start(offset, bs), bs, addr, count);
  }

  /** The worst schedule copies nothing before the caller resumes. */
  lemma SeenAtWorst(bs: nat, addr: nat, count: nat)
    requires IsBlockSize(bs) && IsU64(count) && count > 0
    ensures forall copied: nat :: SeenByCaller(bs, addr, count, 0) <= SeenByCaller(bs, addr, count, copied) <= count
    ensures SeenByCaller(bs, addr, count, 0) == count <==> addr % bs == 0 && count % bs == 0 && Ceil(count, bs) < TWO32
  {
    if !NeedsBounce(addr, count, bs) {
      DirectLength(count, bs);
    }
  }

  lemma FilledOnSchedules(size: nat, start: nat, bs: nat, addr: nat, count: nat)
    requires start + count <= size && bs > 0
    requires forall copied: nat :: SeenByCaller(bs, addr, count, 0) <= SeenByCaller(bs, addr, count, copied) <= count
    ensures (forall disk: seq<Byte>, prior: seq<Byte>, copied: nat | |disk| == size && |prior| == count ::
               Filled(disk, start, SeenByCaller(bs, addr, count, copied), prior) == disk[start..start + count])
            <==> SeenByCaller(bs, addr, count, 0) == count
  {
    if SeenByCaller(bs, addr, count, 0) < count {
      var disk, prior := FilledShort(size, start, SeenByCaller(bs, addr, count, 0), count);
    }
  }

  // ------------------------------------------------------- through the code

  /** Both handlers, one after the other: whenever both report success the
      reader's buffer holds exactly the written bytes, whatever the alignment of
      the two buffers, and the rest of it is untouched. */
  method WriteThenReadHandlers(dev: Device, heap: Heap, slot: Descriptors.Slot,
                               source: array<Byte>, target: array<Byte>, addr: nat,
                               count: nat, offset: nat, e1: Env, e2: Env)
    returns (w: Outcome, r: Outcome)
    requires dev.Valid() && IsU64(count) && IsU64(offset)
    requires count <= source.Length && count <= target.Length
    requires source != dev.data && target != dev.data && source != target
    modifies dev.data, heap`live, target
    ensures w.Done? && r.Done? ==> target[..count] == source[..count] && w.bytes == r.bytes == count
    ensures w.Done? && Admits(slot, true) && e2.allocOk && e2.submitOk && e2.deviceOk ==> r.Done?
    ensures target[count..] == old(target[count..])
  {
    w := HandleWrite(dev, heap, slot, source, count, offset, e1);
    r := HandleRead(dev, heap, slot, false, target, addr, count, offset, e2);
    if w.Done? {
      CeilAtMostRounded(count, dev.blockSize);
      WriteThenRead(old(dev.data[..]), dev.blockSize, offset, source[..count]);
      ReadRange(dev.numBlocks, dev.blockSize, offset, count);
    }
  }

  /** The direct and the bounced path of a synchronous read leave the same first
      `count` bytes, and neither writes past them. */
  method BothReadPaths(dev: Device, heap: Heap, slot: Descriptors.Slot,
                       a: array<Byte>, aAddr: nat, b: array<Byte>, bAddr: nat,
                       count: nat, offset: nat, e1: Env, e2: Env)
    returns (r1: Outcome, r2: Outcome)
    requires dev.Valid() && IsU64(count) && IsU64(offset)
    requires count <= a.Length && count <= b.Length && a != b && a != dev.data && b != dev.data
    requires Ceil(count, dev.blockSize) < TWO32
    requires !NeedsBounce(aAddr, count, dev.blockSize) && NeedsBounce(bAddr, count, dev.blockSize)
    modifies a, b, heap`live
    ensures r1.Done? && r2.Done? ==> a[..count] == b[..count]
    ensures a[count..] == old(a[count..]) && b[count..] == old(b[count..])
  {
    r1 := HandleRead(dev, heap, slot, false, a, aAddr, count, offset, e1);
    r2 := HandleRead(dev, heap, slot, false, b, bAddr, count, offset, e2);
    DirectLength(count, dev.blockSize);
    var start := Start(offset, dev.blockSize);
    assert r1.Done? ==> a[..count] == dev.data[start..start + count];
    assert r2.Done? ==> b[..count] == dev.data[start..start + count];
  }

  /** The write handler as `pwrite`, run. */
  method WriteLikePwrite(dev: Device, heap: Heap, slot: Descriptors.Slot,
                         user: array<Byte>, count: nat, offset: nat, e: Env)
    returns (r: Outcome)
    requires dev.Valid() && IsU64(count) && IsU64(offset) && count <= user.Length && user != dev.data
    requires offset % dev.blockSize == 0 && count % dev.blockSize == 0 && count < TWO32
    modifies dev.data, heap`live
    ensures !r.Overrun?
    ensures r.Done? ==>
              offset + count <= dev.data.Length && dev.data[..] == Pwrite(old(dev.data[..]), offset, user[..count])
  {
    RoundedBounds(count, dev.blockSize);
    StartBounds(offset, dev.blockSize);
    r := HandleWrite(dev, heap, slot, user, count, offset, e);
    if r.Done? {
      AlignedIsPwrite(old(dev.data[..]), dev.blockSize, offset, user[..count]);
    }
  }

  /** The read handler as `pread`, run. */
  method ReadLikePread(dev: Device, heap: Heap, slot: Descriptors.Slot,
                       user: array<Byte>, addr: nat, count: nat, offset: nat, e: Env)
    returns (r: Outcome)
    requires dev.Valid() && IsU64(count) && IsU64(offset) && count <= user.Length && user != dev.data
    requires offset % dev.blockSize == 0
    requires if NeedsBounce(addr, count, dev.blockSize) then Rounded(count, dev.blockSize) < TWO32
             else Ceil(count, dev.blockSize) < TWO32
    modifies user, heap`live
    ensures !r.Overrun?
    ensures r.Done? ==> offset + count <= dev.data.Length && user[..count] == Pread(dev.data[..], offset, count)
  {
    StartBounds(offset, dev.blockSize);
    r := HandleRead(dev, heap, slot, false, user, addr, count, offset, e);
    FullLength(dev.blockSize, addr, count);
  }

  lemma FullLength(bs: nat, addr: nat, count: nat)
    requires IsBlockSize(bs) && IsU64(count)
    requires if NeedsBounce(addr, count, bs) then Rounded(count, bs) < TWO32 else Ceil(count, bs) < TWO32
    ensures Delivered(false, bs, addr, count) == count
    ensures NeedsBounce(addr, count, bs) ==> NumBlocks32(count, bs) * bs < TWO32
  {
    if NeedsBounce(addr, count, bs) { BounceFits(count, bs); } else { DirectLength(count, bs); }
  }

  /** The masks: reading is refused exactly for flags with the write-only bit;
      writing is refused for no flags, not even where the open asked the device
      layer for no write access, because O_RDONLY is zero. */
  lemma PermissionTests(slot: Descriptors.Slot)
    ensures Admits(slot, false) <==> slot.inUse && slot.bdev && slot.desc && slot.channel
    ensures Admits(slot, true) <==> slot.inUse && slot.bdev && slot.desc && slot.channel && slot.flags.bits & 1 == 0
    ensures Descriptors.WantsWrite(slot.flags) <==> slot.flags.bits & 1 != 0 || slot.flags.bits & 2 != 0
    ensures Admits(slot, false) && !Admits(slot, true) ==> Descriptors.WantsWrite(slot.flags)
  {
    LowBit(slot.flags.bits);
  }

  lemma LowBit(flags: bv32)
    ensures flags & 0 == 0
    ensures flags & 1 == 0 || flags & 1 == 1
  {
  }
}
