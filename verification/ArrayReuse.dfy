/**
 What the free lists are for: an array that is returned serves the next request of its size, at once and from the same
 place.
 */
module ArrayReuse {
  import opened ArenaArithmetic
  import opened SerialModel
  import opened BumpSafety
  import opened ArrayCache
  import opened ArenaRuns

  /** The array and the request belong to the same power of two exactly if their lists are the same. */
  lemma SameList(size: nat, n: nat, j: nat)
    requires j >= 4 && Pow2(j) <= size < Pow2(j + 1) && n >= 16 && size >= 16
    ensures RequestClass(n) == ReturnClass(size) <==> Pow2(j - 1) < n <= Pow2(j)
  {
    Log2AtLeast(size, j);
    Log2Below(size, j + 1);
    Log2Bounds(n - 1);
    Log2AtLeast16(n - 1);
    if Pow2(j - 1) < n <= Pow2(j) {
      Log2AtLeast(n - 1, j - 1);
      Log2Below(n - 1, j);
    } else if n <= Pow2(j - 1) {
      Log2Below(n - 1, j - 1);
    } else {
      Log2AtLeast(n - 1, j);
    }
  }

  /** A return that leaves the table as it is puts the array on a list. */
  lemma ReturnIsPush(a: Arena, p: Address, size: nat)
    requires Inv(a) && MayReturn(a, p, size) && size < SIZE_RANGE
    ensures ReturnSpec(a, p, size).s.tableLen == a.s.tableLen <==> ReturnClass(size) < a.s.tableLen
    ensures ReturnClass(size) < a.s.tableLen ==>
              ReturnClass(size) < |a.l.free| && ReturnSpec(a, p, size) == Push(a, p, size)
  {
    hide Push, Grow;
    if ReturnClass(size) >= a.s.tableLen {
      TableGrows(size, a.s.tableLen);
      GrowIs(a, p, size);
    } else {
      PushIs(a, p, size);
    }
  }

  lemma GrowIs(a: Arena, p: Address, size: nat)
    requires a.s.tableLen <= Entries(size) && a.s.tableLen <= CappedEntries(size)
    ensures Grow(a, p, size).s.tableLen == CappedEntries(size)
  {
  }

  lemma PushIs(a: Arena, p: Address, size: nat)
    requires Inv(a) && size >= 16 && ReturnClass(size) < a.s.tableLen
    ensures ReturnClass(size) < |a.l.free|
    ensures var b := Push(a, p, size);
            && b.s.tableLen == a.s.tableLen && b.s.blocks == a.s.blocks && b.s.ptr == a.s.ptr && b.s.limit == a.s.limit
            && b.l.free == a.l.free[ReturnClass(size) := [p] + a.l.free[ReturnClass(size)]]
            && b.l.areas == a.l.areas[p := Area(p + size, Free(ReturnClass(size)))]
            && b.l.served == a.l.served && b.l.registered == a.l.registered
  {
  }

  lemma PopIs(a: Arena, n: nat)
    requires Inv(a) && n >= 16 && RequestClass(n) < |a.l.free| && a.l.free[RequestClass(n)] != []
    ensures var b, c := Pop(a, n), RequestClass(n);
            && b.s.blocks == a.s.blocks && b.s.ptr == a.s.ptr && b.s.limit == a.s.limit
            && b.l.free == a.l.free[c := a.l.free[c][1..]]
            && b.l.areas == a.l.areas[a.l.free[c][0] := Area(a.l.free[c][0] + n, Live)]
            && b.l.served == a.l.served
  {
    HeadOfList(a, RequestClass(n));
  }

  /** The request finds the head of its list, if the list has one. */
  lemma HitIs(a: Arena, n: nat)
    requires Inv(a)
    ensures CacheHit(a.s, n) <==> n >= 16 && RequestClass(n) < |a.l.free| && a.l.free[RequestClass(n)] != []
  {
    if n >= 16 && RequestClass(n) < |a.l.free| {
      HeadOfList(a, RequestClass(n));
    }
    assert |a.l.free| == a.s.tableLen;
  }

  /** An array of 2^j bytes or more, but less than twice that, is returned, and then an array of n bytes is requested.
      The request gets that very array if and only if n is above half of 2^j and not above 2^j; and then no memory is
      taken from the head block, no block is added, and the lists are what they were before the return. */
  lemma ReturnedIsReused(a: Arena, policy: Policy, p: Address, size: nat, n: nat, base: Address, j: nat)
    requires Inv(a) && MayReturn(a, p, size) && size < SIZE_RANGE
    requires j >= 4 && Pow2(j) <= size < Pow2(j + 1) && n >= 16
    requires ReturnSpec(a, p, size).s.tableLen == a.s.tableLen
    requires Inv(ReturnSpec(a, p, size)) && Legal(ReturnSpec(a, p, size), policy, Allocate(true, n, base))
    ensures var b := Step(ReturnSpec(a, p, size), policy, Allocate(true, n, base));
            && p in b.l.areas
            && (b.l.areas[p].kind.Live? <==> Pow2(j - 1) < n <= Pow2(j))
            && (b.l.areas[p].kind.Live? ==>
                  && b.l.areas == a.l.areas[p := Area(p + n, Live)]
                  && b.s.blocks == a.s.blocks && b.s.ptr == a.s.ptr && b.s.limit == a.s.limit
                  && b.l.served == a.l.served && b.l.free == a.l.free)
  {
    hide Push, Pop, CacheHit, ReturnSpec, RequestClass, ReturnClass, Legal;
    var returned, c := ReturnSpec(a, p, size), ReturnClass(size);
    ReturnIsPush(a, p, size);
    PushIs(a, p, size);
    SameList(size, n, j);
    HitIs(returned, n);
    hide Inv;
    if RequestClass(n) == c {
      PopIs(returned, n);
      assert ([p] + a.l.free[c])[1..] == a.l.free[c];
    } else {
      OtherRequest(returned, policy, p, n, base, c);
    }
  }

  /** A request that looks at another list leaves a free array alone. */
  lemma OtherRequest(a: Arena, policy: Policy, p: Address, n: nat, base: Address, c: nat)
    requires Inv(a) && n >= 16 && Legal(a, policy, Allocate(true, n, base)) && RequestClass(n) != c
    requires p in a.l.areas && a.l.areas[p].kind == Free(c)
    ensures var b := Step(a, policy, Allocate(true, n, base)); p in b.l.areas && b.l.areas[p].kind == Free(c)
  {
    HitIs(a, n);
    hide CacheHit, RequestClass;
    if CacheHit(a.s, n) {
      HeadOfList(a, RequestClass(n));
      PopIs(a, n);
    } else {
      ProvideKeepsInv(a, n, policy, base);
      var room := Provide(a, n, policy, base);
      assert BlocksOk(room.s) && AreasOk(room.s, room.l.areas) && room.l.areas == a.l.areas;
      RegionJoins(room, n, room.s.limit);
    }
    hide Inv;
  }

  /** Memory that is not for an array never comes from the lists. */
  lemma OnlyArraysReuse(a: Arena, policy: Policy, n: nat, base: Address)
    requires Inv(a) && Legal(a, policy, Allocate(false, n, base))
    ensures var b := Step(a, policy, Allocate(false, n, base));
            && b.l.free == a.l.free && b.s.mem == a.s.mem && b.l.served == a.l.served + n
  {
    hide Inv;
  }

  /** After a returned array has become the table, every array is put on a list, without another table, if and only if
      it is smaller than 2^(4 + e), where e is the number of pointers the table array holds, or any size at all when
      these are 64 or more. */
  lemma GrownTableLasts(a: Arena, p: Address, size: nat, q: Address, size': nat)
    requires Inv(a) && MayReturn(a, p, size) && size < SIZE_RANGE
    requires ReturnSpec(a, p, size).s.tableLen != a.s.tableLen
    requires var b := ReturnSpec(a, p, size); Inv(b) && MayReturn(b, q, size') && size' < SIZE_RANGE
    ensures var b := ReturnSpec(a, p, size);
            && b.s.tableLen == (if size >= 512 then 64 else size / 8)
            && (ReturnSpec(b, q, size').s.tableLen == b.s.tableLen <==> size >= 512 || size' < Pow2(4 + size / 8))
  {
    hide Inv, ReturnSpec, ReturnClass;
    var b := ReturnSpec(a, p, size);
    ReturnGrows(a, p, size);
    ReturnIsPush(b, q, size');
    ClassBelow(size', size / 8);
  }

  lemma ReturnGrows(a: Arena, p: Address, size: nat)
    requires Inv(a) && MayReturn(a, p, size) && size < SIZE_RANGE
    requires ReturnSpec(a, p, size).s.tableLen != a.s.tableLen
    ensures ReturnSpec(a, p, size).s.tableLen == if size >= 512 then 64 else size / 8
  {
    ReturnIsPush(a, p, size);
    TableGrows(size, a.s.tableLen);
    GrowIs(a, p, size);
    hide Inv, Grow, Push, ReturnClass;
  }

  lemma ClassBelow(size: nat, e: nat)
    requires 16 <= size < SIZE_RANGE
    ensures ReturnClass(size) < 64
    ensures ReturnClass(size) < e <==> size < Pow2(4 + e)
  {
    Log2AtLeast16(size);
    SizeBelowPow64();
    Log2Below(size, 64);
    if size < Pow2(4 + e) {
      Log2Below(size, 4 + e);
    } else {
      Log2AtLeast(size, 4 + e);
    }
  }
}
