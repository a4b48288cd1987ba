/**
 The constants and the size arithmetic of the arena, on a 64-bit machine. size_t wraps at SIZE_RANGE.
 Masking with -8, or with ~align + 1 for a power of two align, rounds down to a multiple of it.
 */
module ArenaArithmetic {
  const SIZE_RANGE := 0x1_0000_0000_0000_0000
  const POINTER_SIZE := 8
  const BLOCK_HEADER_SIZE := 24
  const SERIAL_ARENA_SIZE := 80
  const CLEANUP_SIZE := 16

  // ---------------------------------------------------------------- rounding

  function RoundDown(n: nat, to: nat): nat
    requires to > 0
  {
    n - n % to
  }

  function AlignUpTo8(n: nat): nat {
    RoundDown((n + 7) % SIZE_RANGE, 8)
  }

  /** internal::AlignTo on an address. */
  function AlignTo(p: nat, align: nat): nat
    requires align > 0
  {
    RoundDown((p + align - 1) % SIZE_RANGE, align)
  }

  /** AlignUpTo8 yields the least multiple of 8 above n exactly for the sizes that leave room for it; the last seven
      sizes wrap to zero. */
  lemma AlignUpTo8Exactly(n: nat)
    requires n < SIZE_RANGE
    ensures AlignUpTo8(n) % 8 == 0
    ensures n <= AlignUpTo8(n) < n + 8 <==> n <= SIZE_RANGE - 8
    ensures n > SIZE_RANGE - 8 ==> AlignUpTo8(n) == 0
  {
    if n > SIZE_RANGE - 8 {
      assert (n + 7) % SIZE_RANGE == n + 7 - SIZE_RANGE;
    }
  }

  lemma RoundDownFacts(n: nat, to: nat)
    requires to > 0
    ensures RoundDown(n, to) <= n < RoundDown(n, to) + to
    ensures RoundDown(n, to) % to == 0
  {
    assert n == n / to * to + n % to;
    MultipleIsAligned(n / to, to);
  }

  lemma MultipleIsAligned(k: nat, to: nat)
    requires to > 0
    ensures (k * to) % to == 0
  {
    var d, r := (k * to) / to, (k * to) % to;
    assert k * to == to * d + r;
    OnlyZeroMultipleBelow(to, k - d, r);
  }

  lemma ProductAtLeast(to: nat, e: nat)
    requires e >= 1
    ensures to * e >= to
  {
  }

  lemma OnlyZeroMultipleBelow(to: nat, e: int, r: int)
    requires to * e == r && 0 <= r < to
    ensures r == 0
  {
    if e >= 1 {
      ProductAtLeast(to, e);
    } else if e <= -1 {
      ProductAtLeast(to, -e);
    }
  }

  // ---------------------------------------------------------------- powers of two

  function Pow2(k: nat): (r: nat)
    ensures r > 0
  {
    if k == 0 then 1 else 2 * Pow2(k - 1)
  }

  /** Bits::Log2FloorNonZero64. */
  function Log2Floor(n: nat): nat
    requires n > 0
  {
    if n == 1 then 0 else 1 + Log2Floor(n / 2)
  }

  lemma {:induction false} Log2Bounds(n: nat)
    requires n > 0
    ensures Pow2(Log2Floor(n)) <= n < Pow2(Log2Floor(n) + 1)
  {
    if n > 1 {
      Log2Bounds(n / 2);
    }
  }

  lemma {:induction false} Pow2Monotone(a: nat, b: nat)
    requires a <= b
    ensures Pow2(a) <= Pow2(b)
    decreases b
  {
    if a < b {
      Pow2Monotone(a, b - 1);
    }
  }

  lemma {:induction false} Pow2Exceeds(k: nat)
    ensures k < Pow2(k)
  {
    if k > 0 {
      Pow2Exceeds(k - 1);
    }
  }

  lemma {:induction false} Log2AtLeast(n: nat, k: nat)
    requires n >= Pow2(k)
    ensures n > 0 && Log2Floor(n) >= k
  {
    Pow2Exceeds(k);
    Log2Bounds(n);
    if Log2Floor(n) < k {
      Pow2Monotone(Log2Floor(n) + 1, k);
    }
  }

  lemma {:induction false} Log2Below(n: nat, k: nat)
    requires 0 < n < Pow2(k)
    ensures Log2Floor(n) < k
  {
    Log2Bounds(n);
    if Log2Floor(n) >= k {
      Pow2Monotone(k, Log2Floor(n));
    }
  }

  lemma {:induction false} Pow2MultipleOf8(k: nat)
    requires k >= 3
    ensures Pow2(k) % 8 == 0 && Pow2(k) >= 8
  {
    if k > 3 {
      Pow2MultipleOf8(k - 1);
    } else {
      SmallPowers();
    }
  }

  /** A multiple of a multiple of 8. */
  lemma MultipleOf8(a: nat, m: nat)
    requires m > 0 && a % m == 0 && m % 8 == 0
    ensures a % 8 == 0
  {
    var i, j := a / m, m / 8;
    assert a == i * m && m == j * 8;
    assert a == (i * j) * 8;
    MultipleIsAligned(i * j, 8);
  }

  lemma SmallPowers()
    ensures Pow2(0) == 1 && Pow2(1) == 2 && Pow2(2) == 4 && Pow2(3) == 8 && Pow2(4) == 16
  {
    assert Pow2(1) == 2 * Pow2(0);
    assert Pow2(2) == 2 * Pow2(1);
    assert Pow2(3) == 2 * Pow2(2);
    assert Pow2(4) == 2 * Pow2(3);
  }

  // ---------------------------------------------------------------- over-aligned requests

  /** What Arena::AllocateAligned asks the SerialArena for. */
  function RequestSize(size: nat, align: nat): nat
    requires align > 0
  {
    if align <= 8 then AlignUpTo8(size) else size + align - 8
  }

  /** The address it returns to the caller. */
  function Placed(p: nat, align: nat): nat
    requires align > 0
  {
    if align <= 8 then p else AlignTo(p, align)
  }

  lemma AlignToRounds(p: nat, align: nat)
    requires align > 0 && p + align <= SIZE_RANGE
    ensures AlignTo(p, align) < p + align <= AlignTo(p, align) + align
    ensures AlignTo(p, align) % align == 0
  {
    assert (p + align - 1) % SIZE_RANGE == p + align - 1;
    RoundDownFacts(p + align - 1, align);
  }

  lemma RoundUpWithin(p: nat, align: nat, q: nat)
    requires p % 8 == 0 && align % 8 == 0 && q % 8 == 0
    requires q < p + align <= q + align
    ensures p <= q <= p + align - 8
  {
  }

  /** Rounding an 8-aligned address up to a multiple of 8 moves it by at most align - 8. */
  lemma AlignToFacts(p: nat, align: nat)
    requires p % 8 == 0 && align > 0 && align % 8 == 0 && p + align <= SIZE_RANGE
    ensures p <= AlignTo(p, align) <= p + align - 8 && AlignTo(p, align) % align == 0
  {
    AlignToRounds(p, align);
    MultipleOf8(AlignTo(p, align), align);
    RoundUpWithin(p, align, AlignTo(p, align));
  }

  lemma SmallAlignFits(p: nat, size: nat, align: nat)
    requires p % 8 == 0 && size <= SIZE_RANGE - 8
    requires align == 1 || align == 2 || align == 4 || align == 8
    ensures size <= AlignUpTo8(size) && p % align == 0
  {
    AlignUpTo8Exactly(size);
    hide AlignUpTo8;
    if align == 1 {
      MultipleIsAligned(p, 1);
    } else if align == 2 {
      MultipleIsAligned(4 * (p / 8), 2);
    } else if align == 4 {
      MultipleIsAligned(2 * (p / 8), 4);
    }
  }

  /** From an 8-aligned address the placed object is aligned as asked and lies inside the region requested for it. */
  lemma OverAlignedFits(p: nat, size: nat, k: nat)
    requires p % 8 == 0 && size <= SIZE_RANGE - 8
    requires k > 3 ==> p + Pow2(k) <= SIZE_RANGE
    ensures var q := Placed(p, Pow2(k));
            && p <= q && q + size <= p + RequestSize(size, Pow2(k))
            && q % Pow2(k) == 0
  {
    SmallPowers();
    if k <= 3 {
      SmallAlignFits(p, size, Pow2(k));
    } else {
      Pow2Monotone(4, k);
      Pow2MultipleOf8(k);
      AlignToFacts(p, Pow2(k));
    }
  }

  /** No smaller region would do: for alignments up to 8 the region is the least multiple of 8 that holds the object,
      and beyond that there are 8-aligned addresses from which the placed object ends where the region ends. */
  lemma RequestIsLeast(size: nat, k: nat, p: nat)
    requires size <= SIZE_RANGE - 8
    ensures k <= 3 ==> size <= RequestSize(size, Pow2(k)) < size + 8 && RequestSize(size, Pow2(k)) % 8 == 0
    ensures k > 3 && p % Pow2(k) == 8 && p + Pow2(k) <= SIZE_RANGE ==>
              Placed(p, Pow2(k)) + size == p + RequestSize(size, Pow2(k))
  {
    SmallPowers();
    if k <= 3 {
      AlignUpTo8Exactly(size);
    } else if p % Pow2(k) == 8 && p + Pow2(k) <= SIZE_RANGE {
      Pow2Monotone(4, k);
      RoundUpExactly(p, Pow2(k));
    }
  }

  /** An over-aligned request keeps the bump pointer 8-aligned exactly when its size is a multiple of 8; otherwise
      every later allocation of the block is misaligned. */
  lemma RequestKeepsAlignmentExactly(p: nat, size: nat, k: nat)
    requires p % 8 == 0 && k >= 4
    ensures (p + RequestSize(size, Pow2(k))) % 8 == 0 <==> size % 8 == 0
  {
    SmallPowers();
    Pow2Monotone(4, k);
    Pow2MultipleOf8(k);
    SumMod8(p, Pow2(k) - 8, size);
  }

  lemma SumMod8(a: nat, b: nat, c: nat)
    requires a % 8 == 0 && b % 8 == 0
    ensures (a + (c + b)) % 8 == 0 <==> c % 8 == 0
  {
  }

  /** From any address, the placed object stays inside its region exactly if the address is aligned as asked, or at
      least 8 bytes past the last address that is. */
  lemma StaysInRegionExactly(p: nat, size: nat, k: nat)
    requires k >= 4 && p + Pow2(k) <= SIZE_RANGE
    ensures Placed(p, Pow2(k)) + size <= p + RequestSize(size, Pow2(k)) <==> p % Pow2(k) == 0 || p % Pow2(k) >= 8
  {
    SmallPowers();
    Pow2Monotone(4, k);
    RoundUpExactly(p, Pow2(k));
  }

  /** Rounding up an address that is not a multiple goes to the next multiple. */
  lemma RoundUpExactly(p: nat, align: nat)
    requires align > 8 && p + align <= SIZE_RANGE
    ensures AlignTo(p, align) == if p % align == 0 then p else p + align - p % align
  {
    assert (p + align - 1) % SIZE_RANGE == p + align - 1;
    RemainderBelow(p, align);
  }

  lemma RemainderBelow(p: nat, align: nat)
    requires align > 0
    ensures (p + align - 1) % align == if p % align == 0 then align - 1 else p % align - 1
  {
    var q, r := p / align, p % align;
    assert p == align * q + r;
    if r == 0 {
      QuotientIs(q, align - 1, align);
    } else {
      assert p + align - 1 == align * (q + 1) + (r - 1);
      QuotientIs(q + 1, r - 1, align);
    }
  }

  lemma QuotientIs(q: nat, r: nat, align: nat)
    requires r < align
    ensures (align * q + r) % align == r
  {
    var n := align * q + r;
    assert n == align * (n / align) + n % align;
    assert align * (q - n / align) == n % align - r;
    if n % align >= r {
      OnlyZeroMultipleBelow(align, q - n / align, n % align - r);
    } else {
      OnlyZeroMultipleBelow(align, n / align - q, r - n % align);
    }
  }

  /** Two public requests from any address aligned to 16, of 9 and 8 bytes both aligned to 16: the second object sticks
      out of its region, and shares bytes with the region of whatever is requested next. */
  lemma MisalignedOverflows(p: nat)
    requires p % 16 == 0 && p + 64 <= SIZE_RANGE
    ensures var second := p + RequestSize(9, 16);
            var third := second + RequestSize(8, 16);
            && Placed(p, 16) + 9 <= second
            && second < third < Placed(second, 16) + 8
  {
    RoundUpExactly(p, 16);
    RoundUpExactly(p + 17, 16);
  }

  // ---------------------------------------------------------------- block sizes

  datatype Policy = Policy(startBlockSize: nat, maxBlockSize: nat)

  /** The size AllocateMemory asks the system for. */
  function BlockSize(policy: Policy, lastSize: nat, minBytes: nat): nat {
    var size := if lastSize != 0
                then var twice := 2 * lastSize % SIZE_RANGE;
                     if twice < policy.maxBlockSize then twice else policy.maxBlockSize
                else policy.startBlockSize;
    if size < BLOCK_HEADER_SIZE + minBytes then BLOCK_HEADER_SIZE + minBytes else size
  }

  /** Doubling a multiple of 8 gives a multiple of 8, even when it wraps. */
  lemma TwiceKeepsMultiple(n: nat)
    requires n % 8 == 0
    ensures (2 * n % SIZE_RANGE) % 8 == 0
  {
    var q := 2 * n / SIZE_RANGE;
    assert 2 * n % SIZE_RANGE == 8 * (2 * (n / 8) - q * (SIZE_RANGE / 8));
  }

  /** Blocks have room for the request that caused them, and sizes that are multiples of 8 stay multiples of 8. */
  lemma BlockSizeFacts(policy: Policy, lastSize: nat, minBytes: nat)
    ensures BlockSize(policy, lastSize, minBytes) >= BLOCK_HEADER_SIZE + minBytes
    ensures policy.startBlockSize % 8 == 0 && policy.maxBlockSize % 8 == 0 && lastSize % 8 == 0 && minBytes % 8 == 0 ==>
              BlockSize(policy, lastSize, minBytes) % 8 == 0
  {
    if lastSize % 8 == 0 {
      TwiceKeepsMultiple(lastSize);
    }
  }
}
