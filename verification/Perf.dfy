/** Running statistics of one device: operation totals, the integer moving
    average of latencies, and the one-second rate windows. All counters are
    64-bit and wrap. */
module Perf {
  import opened Blocks

  const MICROS: nat := 1_000_000

  function U64(x: int): nat { x % TWO64 }

  datatype Op = ReadOp | WriteOp | OtherOp

  /** One call of the update function, with the clock value it reads. */
  datatype Sample = Sample(op: Op, bytes: nat, latency: nat, success: bool, now: nat)

  /** The fields of `xpdk_device` and `xpdk_perf_stats` that an update uses. */
  datatype Stats = Stats(
    readOps: nat, writeOps: nat, bytesRead: nat, bytesWritten: nat,
    readLatency: nat, writeLatency: nat, iops: nat, bandwidth: nat, errors: nat,
    windowStart: nat, lastOps: nat, lastBytes: nat)

  /** One step of the moving average, as computed. */
  function Ema(avg: nat, latency: nat): nat { U64(avg * 7 + latency) / 8 }

  function Average(ops: nat, avg: nat, latency: nat): nat {
    if ops == 1 then latency else Ema(avg, latency)
  }

  function TotalOps(s: Stats): nat { U64(s.readOps + s.writeOps) }
  function TotalBytes(s: Stats): nat { U64(s.bytesRead + s.bytesWritten) }

  /** The first half of an update: totals, average, error count. */
  function Counted(s: Stats, x: Sample): Stats {
    if !x.success then s.(errors := U64(s.errors + 1))
    else match x.op
      case ReadOp =>
        var n := U64(s.readOps + 1);
        s.(readOps := n, bytesRead := U64(s.bytesRead + x.bytes), readLatency := Average(n, s.readLatency, x.latency))
      case WriteOp =>
        var n := U64(s.writeOps + 1);
        s.(writeOps := n, bytesWritten := U64(s.bytesWritten + x.bytes),
           writeLatency := Average(n, s.writeLatency, x.latency))
      case OtherOp => s
  }

  /** Length of the open window at clock value `now`; a clock that went back
      makes it wrap. */
  function Window(s: Stats, now: nat): nat { U64(now - s.windowStart) }

  predicate Closes(s: Stats, now: nat) { Window(s, now) >= MICROS }

  function Rate(delta: nat, window: nat): nat
    requires window > 0
  {
    U64(delta * MICROS) / window
  }

  /** The second half: close the window if it is a second long. */
  function Rolled(s: Stats, now: nat): Stats {
    if !Closes(s, now) then s
    else s.(iops := Rate(U64(TotalOps(s) - s.lastOps), Window(s, now)),
            bandwidth := Rate(U64(TotalBytes(s) - s.lastBytes), Window(s, now)),
            lastOps := TotalOps(s), lastBytes := TotalBytes(s), windowStart := now)
  }

  function Updated(s: Stats, x: Sample): Stats { Rolled(Counted(s, x), x.now) }

  /** What the reset handler leaves. */
  function Reset(now: nat): Stats { Stats(0, 0, 0, 0, 0, 0, 0, 0, 0, now, 0, 0) }

  /** What opening a device leaves: the window baselines are not touched. */
  function Initialised(s: Stats): Stats {
    Stats(0, 0, 0, 0, 0, 0, 0, 0, 0, s.windowStart, s.lastOps, s.lastBytes)
  }

  class DeviceStats {
    var totalReadOps: nat
    var totalWriteOps: nat
    var totalBytesRead: nat
    var totalBytesWritten: nat
    var avgReadLatency: nat
    var avgWriteLatency: nat
    var currentIops: nat
    var currentBandwidth: nat
    var errors: nat
    var statsWindowStart: nat
    var lastTotalOps: nat
    var lastTotalBytes: nat

    ghost function View(): Stats
      reads this
    {
      Stats(totalReadOps, totalWriteOps, totalBytesRead, totalBytesWritten, avgReadLatency, avgWriteLatency,
            currentIops, currentBandwidth, errors, statsWindowStart, lastTotalOps, lastTotalBytes)
    }

    /** `xpdk_perf_stats_init`: only the statistics structure is cleared. */
    method InitStats()
      modifies this
      ensures View() == Initialised(old(View()))
      ensures totalReadOps == totalWriteOps == totalBytesRead == totalBytesWritten == errors == 0
      ensures avgReadLatency == avgWriteLatency == currentIops == currentBandwidth == 0
      ensures statsWindowStart == old(statsWindowStart)
      ensures lastTotalOps == old(lastTotalOps) && lastTotalBytes == old(lastTotalBytes)
    {
      totalReadOps, totalWriteOps, totalBytesRead, totalBytesWritten := 0, 0, 0, 0;
      avgReadLatency, avgWriteLatency, currentIops, currentBandwidth, errors := 0, 0, 0, 0, 0;
    }

    /** `xpdk_spdk_handle_reset_perf_stats`. */
    method ResetStats(now: nat)
      modifies this
      ensures View() == Reset(now)
      ensures totalReadOps == totalWriteOps == totalBytesRead == totalBytesWritten == errors == 0
      ensures avgReadLatency == avgWriteLatency == currentIops == currentBandwidth == 0
      ensures statsWindowStart == now && lastTotalOps == lastTotalBytes == 0
    {
      InitStats();
      statsWindowStart := now;
      lastTotalOps := 0;
      lastTotalBytes := 0;
    }

    /** `xpdk_perf_stats_update`. */
    method Update(x: Sample)
      modifies this
      ensures View() == Updated(old(View()), x)
    {
      if x.success {
        if x.op.ReadOp? {
          CountRead(x);
        } else if x.op.WriteOp? {
          CountWrite(x);
        }
      } else {
        errors := U64(errors + 1);
      }
      RollWindow(x.now);
    }

    method CountRead(x: Sample)
      requires x.success && x.op.ReadOp?
      modifies this
      ensures View() == Counted(old(View()), x)
    {
      totalReadOps := U64(totalReadOps + 1);
      totalBytesRead := U64(totalBytesRead + x.bytes);
      if totalReadOps == 1 {
        avgReadLatency := x.latency;
      } else {
        avgReadLatency := Ema(avgReadLatency, x.latency);
      }
    }

    method CountWrite(x: Sample)
      requires x.success && x.op.WriteOp?
      modifies this
      ensures View() == Counted(old(View()), x)
    {
      totalWriteOps := U64(totalWriteOps + 1);
      totalBytesWritten := U64(totalBytesWritten + x.bytes);
      if totalWriteOps == 1 {
        avgWriteLatency := x.latency;
      } else {
        avgWriteLatency := Ema(avgWriteLatency, x.latency);
      }
    }

    method RollWindow(now: nat)
      modifies this
      ensures View() == Rolled(old(View()), now)
    {
      var timeWindow := U64(now - statsWindowStart);
      if timeWindow >= MICROS {
        var totalOps := U64(totalReadOps + totalWriteOps);
        var totalBytes := U64(totalBytesRead + totalBytesWritten);
        currentIops := Rate(U64(totalOps - lastTotalOps), timeWindow);
        currentBandwidth := Rate(U64(totalBytes - lastTotalBytes), timeWindow);
        lastTotalOps := totalOps;
        lastTotalBytes := totalBytes;
        statsWindowStart := now;
      }
    }
  }

  function UpdatedAll(s: Stats, xs: seq<Sample>): Stats {
    if xs == [] then s else Updated(UpdatedAll(s, xs[..|xs| - 1]), xs[|xs| - 1])
  }
}
