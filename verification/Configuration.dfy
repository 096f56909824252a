/** The parameters an array is created and configured with: raid/bdev_raid.c and raid/raid5f.c. */
module Configuration {
  import DivMod
  import L = Layout
  import DataSizes
  import opened Bits
  import opened Options

  const UINT32 := 0x1_0000_0000
  const UINT8 := 0x100

  type u32 = x: nat | x < UINT32
  type u8 = x: nat | x < UINT8

  /** What a RAID level says about losing base bdevs. */
  datatype Constraint = Unset(value: u8) | MaxRemoved(value: u8) | MinOperational(value: u8)

  /** The constraint's part of raid_bdev_create, with its 8-bit subtraction. */
  method MinimumOperational(n: u8, minimum: u8, c: Constraint) returns (r: Option<nat>)
    requires minimum > 0
    ensures r.Some? ==> 1 <= r.value <= n && minimum <= n
    ensures r.Some? <==> n >= minimum && match c
              case Unset(v) => v == 0
              case MaxRemoved(v) => v < n
              case MinOperational(v) => 1 <= v <= n
    ensures r.Some? ==> r.value == match c
              case Unset(_) => n
              case MaxRemoved(v) => n - v
              case MinOperational(v) => v
  {
    if n < minimum {
      return None;
    }
    var operational: nat;
    match c {
      case MaxRemoved(v) =>
        Wraps(n, v);
        operational := (n - v) % UINT8;
      case MinOperational(v) =>
        operational := v;
      case Unset(v) =>
        if v != 0 {
          return None;
        }
        operational := n;
    }
    if operational == 0 || operational > n {
      return None;
    }
    return Some(operational);
  }

  /** An 8-bit difference that wraps is larger than what was subtracted from. */
  lemma {:induction false} Wraps(n: u8, v: u8)
    ensures v <= n ==> (n - v) % UINT8 == n - v
    ensures v > n ==> (n - v) % UINT8 == n - v + UINT8 > n
  {
  }

  /**
   The constraint of RAID5F: three base bdevs at least, one may be removed. What is left is the number
   of data chunks.
   */
  method Raid5DataChunks(n: u8) returns (r: Option<nat>)
    ensures r.Some? <==> n >= 3
    ensures r.Some? ==> r.value == n - 1 && 2 <= r.value
  {
    r := MinimumOperational(n, 3, MaxRemoved(1));
  }

  /** The strip size in blocks that raid_bdev_configure computes in 32 bits. */
  function StripBlocks(kb: u32, blocklen: nat): nat
    requires blocklen > 0
  {
    kb * 1024 % UINT32 / blocklen
  }

  /** raid_bdev_configure up to the shifts: all base bdevs have one block size, and the strip is not empty. */
  method Configure(kb: u32, blocklens: seq<nat>, raid1: bool) returns (r: Option<(nat, nat)>)
    requires |blocklens| > 0 && forall i :: 0 <= i < |blocklens| ==> blocklens[i] > 0
    ensures r.Some? <==> (forall i :: 0 <= i < |blocklens| ==> blocklens[i] == blocklens[0])
                         && (StripBlocks(kb, blocklens[0]) > 0 || raid1)
    ensures r.Some? ==> r.value == (blocklens[0], StripBlocks(kb, blocklens[0]))
  {
    var blocklen := 0;
    for i := 0 to |blocklens|
      invariant i == 0 ==> blocklen == 0
      invariant i > 0 ==> blocklen == blocklens[0]
      invariant forall k :: 0 <= k < i ==> blocklens[k] == blocklens[0]
    {
      if blocklen == 0 {
        blocklen := blocklens[i];
      } else if blocklen != blocklens[i] {
        return None;
      }
    }
    var strip := kb * 1024 % UINT32 / blocklen;
    if strip == 0 && !raid1 {
      return None;
    }
    return Some((blocklen, strip));
  }

  /** For a power of two the 32-bit conversion to bytes is exact, or gives 0. */
  lemma {:induction false} KbExactOrZero(kb: u32)
    requires IsPow2(kb)
    ensures kb * 1024 % UINT32 == if kb * 1024 < UINT32 then kb * 1024 else 0
    ensures kb * 1024 < UINT32 ==> kb * 1024 == Pow2(Log2(kb) + 10)
  {
    var s := Log2(kb);
    IsPow2Iff(kb);
    Pow2Split(s, 10);
    assert Pow2(10) == 1024 by { Ten(); }
    assert Pow2(32) == UINT32 by { ThirtyTwo(); }
    if s < 22 {
      Pow2Mono(s, 21);
      Pow2Split(21, 10);
      Pow2Split(1, 31);
      DivMod.Unique(kb * 1024, UINT32, 0, kb * 1024);
    } else {
      Pow2Split(s - 22, 32);
      assert kb * 1024 == Pow2(s - 22) * UINT32;
      DivMod.Unique(kb * 1024, UINT32, Pow2(s - 22), 0);
    }
  }

  lemma {:induction false} Ten()
    ensures Pow2(10) == 1024
  {
    assert Pow2(5) == 32;
    Pow2Split(5, 5);
  }

  lemma {:induction false} ThirtyTwo()
    ensures Pow2(32) == UINT32
  {
    Ten();
    Pow2Split(10, 10);
    Pow2Split(20, 10);
    Pow2Split(30, 2);
    assert Pow2(2) == 4;
  }

  /**
   Every accepted strip size is a power of two when the block length is: exactly the configured
   number of bytes, with nothing lost to rounding or wrap-around.
   */
  lemma {:induction false} StripIsPow2(kb: u32, blocklen: nat)
    requires IsPow2(kb) && IsPow2(blocklen) && StripBlocks(kb, blocklen) > 0
    ensures IsPow2(StripBlocks(kb, blocklen)) && StripBlocks(kb, blocklen) * blocklen == kb * 1024 < UINT32
  {
    KbExactOrZero(kb);
    var s, b := Log2(kb) + 10, Log2(blocklen);
    IsPow2Iff(blocklen);
    if kb * 1024 >= UINT32 {
      DivMod.Unique(0, blocklen, 0, 0);
    } else if s < b {
      Pow2Mono(s + 1, b);
      DivMod.Unique(kb * 1024, blocklen, 0, kb * 1024);
    } else {
      Pow2Split(s - b, b);
      DivMod.Unique(kb * 1024, blocklen, Pow2(s - b), 0);
      Pow2IsPow2(s - b);
    }
  }

  /** A strip size and the shift that goes with it. */
  ghost predicate Configured(strip: nat, shift: nat)
  {
    strip == Pow2(shift) && shift == Log2(strip)
  }

  lemma {:induction false} AcceptedIsConfigured(kb: u32, blocklen: nat)
    requires IsPow2(kb) && IsPow2(blocklen) && StripBlocks(kb, blocklen) > 0
    ensures Configured(StripBlocks(kb, blocklen), Log2(StripBlocks(kb, blocklen)))
    ensures Configured(blocklen, Log2(blocklen))
  {
    StripIsPow2(kb, blocklen);
    IsPow2Iff(StripBlocks(kb, blocklen));
    IsPow2Iff(blocklen);
  }

  /** The block length matters: with 520-byte blocks a 4 KB strip is 7 blocks and its shift says 4. */
  lemma {:induction false} OddBlocksBreakShifts()
    ensures IsPow2(4) && StripBlocks(4, 520) == 7 && Log2(7) == 2 && Pow2(2) == 4
    ensures Shr(7, Log2(7)) == 1 && Shr(4, Log2(7)) == 1 && 4 / 7 == 0
  {
  }

  lemma {:induction false} Scale(strip: nat, bl: nat, bytes: nat, k: nat, limit: nat)
    requires strip * bl == bytes && bl > 0
    ensures strip * k < limit <==> bytes * k < limit * bl
  {
    assert bytes * k == strip * k * bl;
    if strip * k < limit {
      DivMod.MulMono(strip * k + 1, limit, bl);
    } else {
      DivMod.MulMono(limit, strip * k, bl);
    }
  }

  /**
   The 32-bit stripe size and the `int` shift of the read path are exact if and only if the
   configured bytes of that many strips stay below the limit, in blocks.
   */
  lemma {:induction false} ProductsFitIff(kb: u32, blocklen: nat, n: u8, chunk: nat)
    requires IsPow2(kb) && IsPow2(blocklen) && StripBlocks(kb, blocklen) > 0 && n > 0
    ensures StripBlocks(kb, blocklen) * (n - 1) < UINT32 <==> kb * 1024 * (n - 1) < UINT32 * blocklen
    ensures Shl(chunk, Log2(StripBlocks(kb, blocklen))) < UINT32 / 2 <==> kb * 1024 * chunk < UINT32 / 2 * blocklen
    ensures Shl(StripBlocks(kb, blocklen), Log2(blocklen)) == kb * 1024 < UINT32
  {
    var strip := StripBlocks(kb, blocklen);
    StripIsPow2(kb, blocklen);
    AcceptedIsConfigured(kb, blocklen);
    ShlIsMul(chunk, Log2(strip));
    ShlIsMul(strip, Log2(blocklen));
    Scale(strip, blocklen, kb * 1024, n - 1, UINT32);
    Scale(strip, blocklen, kb * 1024, chunk, UINT32 / 2);
    assert chunk * strip == strip * chunk;
  }

  /** So with blocks of 256 bytes or more, nothing on the RAID5F path overflows 32 bits. */
  lemma {:induction false} ProductsFit(kb: u32, blocklen: nat, n: u8, chunk: nat)
    requires IsPow2(kb) && IsPow2(blocklen) && blocklen >= 256 && StripBlocks(kb, blocklen) > 0
    requires n >= 3 && chunk < n - 1
    ensures StripBlocks(kb, blocklen) * (n - 1) < UINT32
    ensures Shl(chunk, Log2(StripBlocks(kb, blocklen))) < UINT32 / 2
    ensures Shl(StripBlocks(kb, blocklen), Log2(blocklen)) < UINT32
  {
    var strip := StripBlocks(kb, blocklen);
    StripIsPow2(kb, blocklen);
    KbHalf(kb, blocklen);
    AcceptedIsConfigured(kb, blocklen);
    ShlIsMul(chunk, Log2(strip));
    ShlIsMul(strip, Log2(blocklen));
    DivMod.MulMono(256, blocklen, strip);
    assert strip <= UINT32 / 512;
    DivMod.MulMono(chunk, 254, strip);
    DivMod.MulMono(n - 1, 254, strip);
  }

  /** An accepted strip has at most 2 GB. */
  lemma {:induction false} KbHalf(kb: u32, blocklen: nat)
    requires IsPow2(kb) && IsPow2(blocklen) && StripBlocks(kb, blocklen) > 0
    ensures kb * 1024 <= UINT32 / 2
  {
    StripIsPow2(kb, blocklen);
    KbExactOrZero(kb);
    var s := Log2(kb) + 10;
    ThirtyTwo();
    if s >= 32 {
      Pow2Mono(32, s);
    } else {
      Pow2Mono(s, 31);
      Pow2Split(1, 31);
    }
  }

  lemma {:induction false} TwoGigabytes()
    ensures IsPow2(2097152)
  {
    Pow2IsPow2(21);
    Pow2Split(20, 1);
    Pow2Split(10, 10);
    Ten();
  }

  /** With 64-byte blocks a 2 GB strip is accepted, and the 32-bit stripe size of 129 disks wraps to nothing. */
  lemma {:induction false} SmallBlocksWrap(kb: u32, blocklen: nat)
    requires kb == 2097152 && blocklen == 64
    ensures IsPow2(kb) && StripBlocks(kb, blocklen) == 33554432 && StripBlocks(kb, blocklen) * (129 - 1) % UINT32 == 0
  {
    TwoGigabytes();
    DivMod.Unique(kb * 1024, UINT32, 0, 2147483648);
    DivMod.Unique(2147483648, 64, 33554432, 0);
    DivMod.Unique(4294967296, UINT32, 1, 0);
  }

  /** The shifts of the RAID5F read path compute the coordinates of module Layout. */
  lemma {:induction false} ShiftedReadCoordinates(g: L.Geometry, shift: nat, l: nat)
    requires g.Valid() && Configured(g.strip, shift)
    ensures var c := L.At(g, l);
            var offset := l % g.StripeBlocks();
            && Shr(offset, shift) == c.chunk
            && offset - Shl(c.chunk, shift) == c.offset
            && Shl(c.stripe, shift) + c.offset == L.Locate(g, l).block
  {
    var offset := l % g.StripeBlocks();
    ShrIsDiv(offset, shift);
    ShlIsMul(L.At(g, l).chunk, shift);
    ShlIsMul(L.At(g, l).stripe, shift);
  }

  /** The shift and mask of the RAID0 read and write path are its quotient and remainder. */
  lemma {:induction false} ShiftedStrip(strip: nat, shift: nat, l: nat)
    requires Configured(strip, shift)
    ensures Shr(l, shift) == l / strip && And(l, strip - 1) == l % strip
    ensures Shl(Shr(l, shift), shift) == l / strip * strip
  {
    ShrIsDiv(l, shift);
    AndIsMod(l, shift);
    ShlIsMul(l / strip, shift);
  }

  /** raid5f_start: the data sizes and the size of the array. */
  method StartRaid5(n: nat, strip: nat, blocklen: nat, dataSize: array<nat>) returns (g: L.Geometry, blockcnt: nat)
    requires n >= 3 && strip > 0 && blocklen > 0 && dataSize.Length == n
    modifies dataSize
    ensures g.Valid() && g.n == n && g.strip == strip && g.blocklen == blocklen && blockcnt == g.BlockCount()
    ensures forall d :: 0 <= d < n ==> dataSize[d] == g.DiskBlocks() <= old(dataSize[d])
    ensures exists d :: 0 <= d < n && old(dataSize[d]) < dataSize[d] + strip
  {
    var least, which := DataSizes.Least(dataSize);
    var size := least / strip * strip;
    DivMod.Split(least, strip);
    DataSizes.SetAll(dataSize, size);
    var stripes := least / strip;
    var stripeBlocks := strip * (n - 1);
    g := L.Geometry(n, strip, stripes, blocklen);
    blockcnt := stripeBlocks * stripes;
    assert old(dataSize[which]) < dataSize[which] + strip;
  }
}
