/** Byte-to-block arithmetic shared by the read, write, trim and write-zeros
    handlers, with the C widths written out: offsets, counts and their sums are
    64 bits wide, block counts and buffer sizes 32 bits wide. */
module Blocks {

  const TWO32: nat := 0x1_0000_0000
  const TWO64: nat := 0x1_0000_0000_0000_0000

  ghost predicate IsU64(x: int) { 0 <= x < TWO64 }

  /** A block size as `spdk_bdev_get_block_size` reports it. */
  ghost predicate IsBlockSize(bs: int) { 0 < bs < TWO32 }

  /** The number of blocks that hold `count` bytes, without any width. */
  function Ceil(count: nat, bs: nat): nat
    requires bs > 0
  {
    (count + bs - 1) / bs
  }

  /** The bytes those blocks occupy, without any width. */
  function Rounded(count: nat, bs: nat): nat
    requires bs > 0
  {
    Ceil(count, bs) * bs
  }

  /** First block of a request. */
  function FirstBlock(offset: nat, bs: nat): nat
    requires bs > 0
  {
    offset / bs
  }

  /** First byte of a request's first block. */
  function Start(offset: nat, bs: nat): nat
    requires bs > 0
  {
    FirstBlock(offset, bs) * bs
  }

  /** `num_blocks` as computed: the sum in 64 bits, the quotient cut to 32. */
  function NumBlocks32(count: nat, bs: nat): nat
    requires bs > 0
  {
    ((count + bs - 1) % TWO64 / bs) % TWO32
  }

  /** `num_blocks * block_size` as computed: a 32-bit product. */
  function Size32(count: nat, bs: nat): nat
    requires bs > 0
  {
    NumBlocks32(count, bs) * bs % TWO32
  }

  // ------------------------------------------------------------ small facts

  lemma DivMod(x: nat, d: nat)
    requires d > 0
    ensures x == x / d * d + x % d
    ensures 0 <= x % d < d
    ensures x / d * d <= x
  {
  }

  lemma MulLe(a: nat, b: nat, c: nat)
    requires a <= b
    ensures a * c <= b * c
  {
  }

  lemma QuotientUnique(x: nat, d: nat, q: nat, r: nat)
    requires 0 <= r < d && x == q * d + r
    ensures x / d == q && x % d == r
  {
    DivMod(x, d);
    if x / d < q {
      MulLe(x / d + 1, q, d);
    } else if q < x / d {
      MulLe(q + 1, x / d, d);
    }
  }

  /** Rounding up loses nothing and adds less than a block. */
  lemma RoundedBounds(count: nat, bs: nat)
    requires bs > 0
    ensures count <= Rounded(count, bs) < count + bs
    ensures Rounded(count, bs) == count <==> count % bs == 0
    ensures Ceil(count, bs) == 0 <==> count == 0
  {
    DivMod(count + bs - 1, bs);
    DivMod(count, bs);
    if count % bs == 0 {
      assert count + bs - 1 == count / bs * bs + (bs - 1);
      QuotientUnique(count + bs - 1, bs, count / bs, bs - 1);
    } else if Rounded(count, bs) == count {
      QuotientUnique(count, bs, Ceil(count, bs), 0);
    }
    if count == 0 {
      QuotientUnique(bs - 1, bs, 0, bs - 1);
    }
  }

  lemma StartBounds(offset: nat, bs: nat)
    requires bs > 0
    ensures offset == Start(offset, bs) + offset % bs
    ensures Start(offset, bs) <= offset < Start(offset, bs) + bs
    ensures Start(offset, bs) == offset <==> offset % bs == 0
  {
    DivMod(offset, bs);
  }

  lemma SubtractModulus(x: nat, m: nat)
    requires 0 < m <= x
    ensures x % m == (x - m) % m
  {
    DivMod(x - m, m);
    assert x == ((x - m) / m + 1) * m + (x - m) % m;
    QuotientUnique(x, m, (x - m) / m + 1, (x - m) % m);
  }

  lemma ModAtMost(x: nat, m: nat)
    requires m > 0
    ensures x % m <= x
    ensures m <= x ==> x % m <= x - m
  {
    DivMod(x, m);
    if m <= x {
      SubtractModulus(x, m);
      DivMod(x - m, m);
    }
  }

  /** Reducing a factor first does not change a product's remainder. */
  lemma ModOfProduct(a: nat, b: nat, m: nat)
    requires m > 0
    ensures (a % m) * b % m == a * b % m
  {
    DivMod(a, m);
    ProductOfSum(a / m, m, a % m, b);
    RemainderOfSum((a / m) * b, (a % m) * b, m);
  }

  lemma RemainderOfSum(k: nat, c: nat, m: nat)
    requires m > 0
    ensures (k * m + c) % m == c % m
  {
    DivMod(c, m);
    Distribute(k, c / m, m);
    QuotientUnique(k * m + c, m, k + c / m, c % m);
  }

  lemma Distribute(a: nat, b: nat, m: nat)
    ensures (a + b) * m == a * m + b * m
  {
  }

  lemma ProductOfSum(q: nat, m: nat, r: nat, b: nat)
    ensures (q * m + r) * b == (q * b) * m + r * b
  {
    assert (q * m) * b == (q * b) * m;
  }

  // ----------------------------------------------- the 32-bit forms, exactly

  /** When the 64-bit sum wraps, the quotient is zero and the true number of
      blocks is far outside 32 bits. */
  lemma WrappedSum(count: nat, bs: nat)
    requires IsBlockSize(bs) && IsU64(count)
    requires count + bs - 1 >= TWO64
    ensures NumBlocks32(count, bs) == 0
    ensures Ceil(count, bs) >= TWO32
  {
    var x := count + bs - 1;
    QuotientUnique(x, TWO64, 1, x - TWO64);
    QuotientUnique(x - TWO64, bs, 0, x - TWO64);
    if Ceil(count, bs) < TWO32 {
      MulLe(Ceil(count, bs) + 1, TWO32, bs);
      MulLe(bs, TWO32 - 1, TWO32);
      DivMod(x, bs);
    }
  }

  lemma UnwrappedSum(count: nat, bs: nat)
    requires IsBlockSize(bs)
    requires count + bs - 1 < TWO64
    ensures NumBlocks32(count, bs) == Ceil(count, bs) % TWO32
    ensures Size32(count, bs) == Rounded(count, bs) % TWO32
  {
    ModOfProduct(Ceil(count, bs), bs, TWO32);
  }

  /** The 32-bit block count is the true one exactly when the true one fits in
      32 bits; the same expression serves read, write, trim and write-zeros. */
  lemma BlockCountExact(count: nat, bs: nat)
    requires IsBlockSize(bs) && IsU64(count)
    ensures NumBlocks32(count, bs) == Ceil(count, bs) <==> Ceil(count, bs) < TWO32
  {
    if count + bs - 1 < TWO64 {
      UnwrappedSum(count, bs);
    } else {
      WrappedSum(count, bs);
    }
  }

  /** The bounce buffer is long enough for `count` bytes exactly when the
      rounded size fits in 32 bits, and is then exactly the rounded size. */
  lemma BounceFits(count: nat, bs: nat)
    requires IsBlockSize(bs) && IsU64(count)
    ensures count <= Size32(count, bs) <==> Rounded(count, bs) < TWO32
    ensures Rounded(count, bs) < TWO32 ==>
              && Size32(count, bs) == Rounded(count, bs)
              && NumBlocks32(count, bs) == Ceil(count, bs)
  {
    RoundedBounds(count, bs);
    if count + bs - 1 < TWO64 {
      UnwrappedSum(count, bs);
      CutSize(Rounded(count, bs), count, bs);
      CeilAtMostRounded(count, bs);
      SmallRemainder(Ceil(count, bs), TWO32);
    } else {
      WrappedSum(count, bs);
      CeilAtMostRounded(count, bs);
      NothingLeft(bs);
    }
  }

  lemma CutSize(rounded: nat, count: nat, bs: nat)
    requires count <= rounded < count + bs && IsBlockSize(bs)
    ensures count <= rounded % TWO32 <==> rounded < TWO32
    ensures rounded < TWO32 ==> rounded % TWO32 == rounded
  {
    ModAtMost(rounded, TWO32);
    SmallRemainder(rounded, TWO32);
  }

  lemma SmallRemainder(x: nat, m: nat)
    requires m > 0
    ensures x < m ==> x % m == x
  {
  }

  lemma NothingLeft(bs: nat)
    ensures 0 * bs % TWO32 == 0
  {
  }

  lemma CeilAtMostRounded(count: nat, bs: nat)
    requires bs > 0
    ensures Ceil(count, bs) <= Rounded(count, bs)
  {
    MulLe(1, bs, Ceil(count, bs));
  }

  /** A direct transfer (a whole number of blocks) moves exactly `count` bytes
      when the block count fits in 32 bits, and strictly fewer otherwise. */
  lemma DirectLength(count: nat, bs: nat)
    requires IsBlockSize(bs) && IsU64(count) && count % bs == 0
    ensures NumBlocks32(count, bs) * bs <= count
    ensures NumBlocks32(count, bs) * bs == count <==> Ceil(count, bs) < TWO32
  {
    RoundedBounds(count, bs);
    BlockCountExact(count, bs);
    BlockCountAtMost(count, bs);
    var n, c := NumBlocks32(count, bs), Ceil(count, bs);
    assert c * bs == count;
    if n < c {
      MulLt(n, c, bs);
    }
  }

  lemma MulLt(a: nat, b: nat, c: nat)
    requires a < b && c > 0
    ensures a * c < b * c
  {
    MulLe(a + 1, b, c);
    assert (a + 1) * c == a * c + c;
  }

  lemma BlockCountAtMost(count: nat, bs: nat)
    requires IsBlockSize(bs) && IsU64(count)
    ensures NumBlocks32(count, bs) <= Ceil(count, bs)
  {
    if count + bs - 1 < TWO64 {
      UnwrappedSum(count, bs);
      ModAtMost(Ceil(count, bs), TWO32);
    } else {
      WrappedSum(count, bs);
    }
  }

  // ------------------------------------------------------------- covering

  /** Byte `i` lies in one of the blocks a request selects. */
  ghost predicate Selected(offset: nat, count: nat, bs: nat, i: nat)
    requires bs > 0
  {
    FirstBlock(offset, bs) <= i / bs < FirstBlock(offset, bs) + NumBlocks32(count, bs)
  }

  lemma SelectedRange(offset: nat, count: nat, bs: nat, i: nat)
    requires bs > 0
    ensures Selected(offset, count, bs, i) <==>
              Start(offset, bs) <= i < Start(offset, bs) + NumBlocks32(count, bs) * bs
  {
    var f, n := FirstBlock(offset, bs), NumBlocks32(count, bs);
    BlockAtLeast(i, bs, f);
    BlockAtLeast(i, bs, f + n);
    assert (f + n) * bs == f * bs + n * bs;
  }

  lemma BlockAtLeast(i: nat, bs: nat, k: nat)
    requires bs > 0
    ensures k <= i / bs <==> k * bs <= i
  {
    DivMod(i, bs);
    if k <= i / bs {
      MulLe(k, i / bs, bs);
    } else {
      MulLe(i / bs + 1, k, bs);
    }
  }

  /** The selected blocks contain the whole requested byte range exactly when
      the offset's distance into its block still fits in the rounding. */
  lemma CoverIff(offset: nat, count: nat, bs: nat)
    requires IsBlockSize(bs) && IsU64(count) && count > 0
    requires Ceil(count, bs) < TWO32
    ensures (forall i: nat | offset <= i < offset + count :: Selected(offset, count, bs, i))
            <==> offset % bs + count <= Rounded(count, bs)
  {
    BlockCountExact(count, bs);
    StartBounds(offset, bs);
    forall i: nat | offset <= i < offset + count
      ensures Selected(offset, count, bs, i) <==> i < Start(offset, bs) + Rounded(count, bs)
    {
      SelectedRange(offset, count, bs, i);
    }
    var last := offset + count - 1;
    SelectedRange(offset, count, bs, last);
  }
}
